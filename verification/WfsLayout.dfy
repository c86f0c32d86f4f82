/** The WFS on-disk format: block geometry, inodes, and block numbers packed four
    bytes at a time into pointer blocks (include/wfs.h). */
module WfsLayout {

  const BLOCK_SIZE: nat := 1024
  const DIRECT: nat := 10
  const PTRS: nat := 256                       // 32-bit block numbers per block
  const MAX_INDEX: nat := 10 + 256 + 65536     // file-relative block indices
  const MAX_FILE_SIZE: nat := 65802 * 1024
  const WORD_LIMIT: nat := 0x1_0000_0000
  const ROOT_INO: nat := 1

  type Byte = b: int | 0 <= b < 256
  type Word = w: int | 0 <= w < 0x1_0000_0000
  type Block = b: seq<Byte> | |b| == 1024 witness seq(1024, k => 0)
  type DirectPtrs = d: seq<Word> | |d| == 10 witness seq(10, k => 0)

  /** Inode types (WFS_TYPE_FREE, WFS_TYPE_FILE, WFS_TYPE_DIR). */
  datatype FileType = Free | File | Dir

  datatype Inode = Inode(typ: FileType, links: nat, size: nat, blocks: nat, mtime: nat,
                         direct: DirectPtrs, indirect: Word, double: Word)

  function ZeroInode(): Inode { Inode(Free, 0, 0, 0, 0, seq(10, k => 0), 0, 0) }

  function ZeroBlock(): Block { seq(1024, k => 0) }

  /** The block number in slot `k` of a pointer block, little endian. */
  function WordAt(b: Block, k: nat): Word
    requires k < PTRS
  {
    var b0: int, b1: int, b2: int, b3: int := b[4 * k], b[4 * k + 1], b[4 * k + 2], b[4 * k + 3];
    b0 + 0x100 * b1 + 0x1_0000 * b2 + 0x100_0000 * b3
  }

  function SetWord(b: Block, k: nat, w: Word): Block
    requires k < PTRS
  {
    b[4 * k := w % 0x100][4 * k + 1 := w / 0x100 % 0x100]
     [4 * k + 2 := w / 0x1_0000 % 0x100][4 * k + 3 := w / 0x100_0000]
  }

  lemma WordBytes(w: Word)
    ensures w % 0x100 + 0x100 * (w / 0x100 % 0x100) + 0x1_0000 * (w / 0x1_0000 % 0x100)
            + 0x100_0000 * (w / 0x100_0000) == w
  {
    var h := w / 0x1_0000;
    assert w / 0x100 % 0x100 == w / 0x100 - 0x100 * h;
  }

  /** Writing one slot of a pointer block reads back, and leaves the other slots alone. */
  lemma SetWordAt(b: Block, k: nat, w: Word, j: nat)
    requires k < PTRS && j < PTRS
    ensures WordAt(SetWord(b, k, w), j) == if j == k then w else WordAt(b, j)
  {
    var c := SetWord(b, k, w);
    if j == k {
      WordBytes(w);
    } else {
      assert c[4 * j] == b[4 * j] && c[4 * j + 1] == b[4 * j + 1]
             && c[4 * j + 2] == b[4 * j + 2] && c[4 * j + 3] == b[4 * j + 3];
    }
  }

  lemma ZeroWords(k: nat)
    requires k < PTRS
    ensures WordAt(ZeroBlock(), k) == 0
  {
  }
}
