/** The WFS driver below the directory layer (kernel/fs/wfs.c): allocation, the
    three-tier block map, truncate, read and write. */
module WfsDriver {
  import opened WfsLayout
  import opened WfsVolume
  import opened WfsRoom
  import opened WfsTruncate

  datatype Errno = ENOENT | EIO | EEXIST | ENOTDIR | EISDIR | EINVAL | EFBIG | ENOSPC | ENAMETOOLONG | ENOTEMPTY

  datatype Result<+T> = Ok(value: T) | Err(error: Errno)

  const READ_RUN_BLOCKS: nat := 64

  function Max(a: nat, b: nat): nat { if a < b then b else a }

  /** `was` zero-padded to `off` and then overwritten by `data`. */
  function Overlay(was: seq<Byte>, off: nat, data: seq<Byte>): (c: seq<Byte>)
    ensures |c| == Max(|was|, off + |data|)
    ensures forall p :: 0 <= p < |c| ==>
      c[p] == if off <= p < off + |data| then data[p - off] else if p < |was| then was[p] else 0
  {
    seq(Max(|was|, off + |data|),
        p requires 0 <= p => if off <= p < off + |data| then data[p - off] else if p < |was| then was[p] else 0)
  }

  function FreeInodes(v: Vol): set<nat>
  {
    set i | 1 <= i < |v.inodes| && v.inodes[i].typ.Free?
  }

  /** What the driver keeps beside ownership: free inodes are blank and counted, no
      file is over-long, and the bytes past the end of a file are zero. */
  ghost predicate Tidy(v: Vol)
  {
    && v.freeInodes == |FreeInodes(v)|
    && (forall i :: 0 <= i < |v.inodes| && v.inodes[i].typ.Free? ==> v.inodes[i] == ZeroInode())
    && (forall i :: 0 <= i < |v.inodes| ==> v.inodes[i].size <= MAX_FILE_SIZE)
    && (forall i: nat, p: nat :: i < |v.inodes| && v.inodes[i].size <= p ==> ByteAt(v, i, p) == 0)
  }

  /** Writing an inode back with other metadata but the same block pointers moves nothing. */
  lemma MetaWrite(v: Vol, owner: Owner, i: nat, n: Inode)
    requires Own(v, owner) && i < |v.inodes|
    requires n == v.inodes[i].(typ := n.typ, links := n.links, size := n.size, mtime := n.mtime)
    ensures var v' := v.(inodes := v.inodes[i := n]);
      && Own(v', owner)
      && (forall j: nat, u :: At(v', j, u) == At(v, j, u))
      && (forall j: nat, p: nat :: ByteAt(v', j, p) == ByteAt(v, j, p))
  {
    var v' := v.(inodes := v.inodes[i := n]);
    forall j: nat, u ensures At(v', j, u) == At(v, j, u) { MetaWriteAt(v, i, n, j, u); }
    hide At;
    assert FreeSet(v') == FreeSet(v);
  }

  lemma MetaWriteAt(v: Vol, i: nat, n: Inode, j: nat, u: Slot)
    requires i < |v.inodes|
    requires n.direct == v.inodes[i].direct && n.indirect == v.inodes[i].indirect && n.double == v.inodes[i].double
    ensures At(v.(inodes := v.inodes[i := n]), j, u) == At(v, j, u)
    decreases Level(u)
  {
    if j < |v.inodes| && ValidSlot(u) && !InInode(u) { MetaWriteAt(v, i, n, j, Holder(u)); }
  }

  /** Nothing but inode `i` and the blocks behind it has changed. */
  ghost predicate OnlyFile(v: Vol, v': Vol, i: nat)
  {
    && v'.dataStart == v.dataStart && |v'.disk| == |v.disk|
    && i < |v.inodes| && |v'.inodes| == |v.inodes| && v'.inodes == v.inodes[i := v'.inodes[i]]
    && (forall j: nat, u :: j != i ==> At(v', j, u) == At(v, j, u))
    && (forall j: nat, p: nat :: j != i ==> ByteAt(v', j, p) == ByteAt(v, j, p))
  }

  /** A file's bytes changed and its type did not: what has to hold for the volume to stay tidy. */
  lemma TidyAfter(v: Vol, v': Vol, i: nat)
    requires Tidy(v) && OnlyFile(v, v', i) && v'.freeInodes == v.freeInodes
    requires v'.inodes[i].typ == v.inodes[i].typ != Free
    requires v'.inodes[i].size <= MAX_FILE_SIZE
    requires forall p: nat :: v'.inodes[i].size <= p ==> ByteAt(v', i, p) == 0
    ensures Tidy(v')
  {
    hide At, ByteAt;
    assert FreeInodes(v') == FreeInodes(v);
  }

  lemma TruncateDone(v: Vol, owner: Owner, r: Vol, i: nat, now: nat)
    requires Own(v, owner) && Tidy(v) && i < |v.inodes| && v.inodes[i].typ != Free
    requires Released(v, r, OwnedBy(owner, i))
    ensures var v', owner' := r.(inodes := r.inodes[i := Truncated(v.inodes[i], now)]), owner - OwnedBy(owner, i);
      && Own(v', owner') && Tidy(v') && OnlyFile(v, v', i)
      && v'.freeBlocks == v.freeBlocks + v.inodes[i].blocks && v'.freeInodes == v.freeInodes
      && OwnedBy(owner', i) == {}
  {
    var v' := r.(inodes := r.inodes[i := Truncated(v.inodes[i], now)]);
    AfterSweep(v, owner, r, i, Truncated(v.inodes[i], now));
    OwnedAfterRelease(owner, i, i);
    hide Own, At, ByteAt, Tidy;
    TidyAfter(v, v', i);
  }

  /** How far a write has got: the first `done` bytes of `data` are in file `i` at
      `offset`, its block map has only grown, and every other byte is as it was. */
  ghost predicate Progress(v0: Vol, v: Vol, i: nat, offset: nat, data: seq<Byte>, done: nat)
    requires done <= |data|
  {
    && v.dataStart == v0.dataStart && v.freeInodes == v0.freeInodes
    && |v.disk| == |v0.disk| && |v.inodes| == |v0.inodes| && i < |v0.inodes|
    && v.inodes == v0.inodes[i := v.inodes[i]]
    && v.inodes[i].(direct := v0.inodes[i].direct, indirect := v0.inodes[i].indirect,
                    double := v0.inodes[i].double, blocks := v0.inodes[i].blocks) == v0.inodes[i]
    && (forall j: nat, u :: At(v0, j, u) != 0 || j != i ==> At(v, j, u) == At(v0, j, u))
    && (forall j: nat, p: nat :: ByteAt(v, j, p)
          == if j == i && offset <= p < offset + done then data[p - offset] else ByteAt(v0, j, p))
    && Backed(v, i, offset, done)
  }

  /** Every block the range touches is mapped. */
  ghost predicate Backed(v: Vol, i: nat, offset: nat, done: nat)
  {
    forall k: nat :: done > 0 && offset / BLOCK_SIZE <= k && k * BLOCK_SIZE < offset + done ==> Map(v, i, k) != 0
  }

  lemma BackedStays(v: Vol, v': Vol, i: nat, offset: nat, done: nat)
    requires Backed(v, i, offset, done) && forall u :: At(v, i, u) != 0 ==> At(v', i, u) == At(v, i, u)
    ensures Backed(v', i, offset, done)
  {
    hide At;
    forall k: nat | done > 0 && offset / BLOCK_SIZE <= k && k * BLOCK_SIZE < offset + done ensures Map(v', i, k) != 0 {
      assert Map(v, i, k) != 0;
    }
  }

  lemma ProgressGrow(v0: Vol, v: Vol, v': Vol, i: nat, offset: nat, data: seq<Byte>, done: nat)
    requires done <= |data| && Progress(v0, v, i, offset, data, done) && Extends(v, v', i)
    ensures Progress(v0, v', i, offset, data, done)
  {
    hide At, ByteAt, Backed;
    BackedStays(v, v', i, offset, done);
  }

  function Patched(b: Block, pos: nat, bytes: seq<Byte>): (c: Block)
    requires pos + |bytes| <= BLOCK_SIZE
    ensures forall q :: 0 <= q < BLOCK_SIZE ==> c[q] == if pos <= q < pos + |bytes| then bytes[q - pos] else b[q]
  {
    b[..pos] + bytes + b[pos + |bytes|..]
  }

  /** A block that is wholly overwritten need not be read first. */
  lemma PatchedWhole(b: Block, pos: nat, bytes: seq<Byte>, c: Block)
    requires pos + |bytes| <= BLOCK_SIZE
    requires c == Patched(b, pos, bytes) || (|bytes| == BLOCK_SIZE && exists a :: c == Patched(a, pos, bytes))
    ensures c == Patched(b, pos, bytes)
  {
  }

  lemma BackedMore(v: Vol, v': Vol, i: nat, offset: nat, done: nat, chunk: nat)
    requires Backed(v, i, offset, done) && forall u :: At(v, i, u) != 0 ==> At(v', i, u) == At(v, i, u)
    requires (offset + done) % BLOCK_SIZE + chunk <= BLOCK_SIZE && Map(v, i, (offset + done) / BLOCK_SIZE) != 0
    ensures Backed(v', i, offset, done + chunk)
  {
    hide At;
    forall k: nat | done + chunk > 0 && offset / BLOCK_SIZE <= k && k * BLOCK_SIZE < offset + (done + chunk)
      ensures Map(v', i, k) != 0
    {
      assert k == (offset + done) / BLOCK_SIZE || k * BLOCK_SIZE < offset + done;
      assert Map(v, i, k) != 0;
    }
  }

  /** One turn of the write loop: the chunk lands in the block it belongs to. */
  lemma ProgressChunk(v0: Vol, v: Vol, owner: Owner, i: nat, offset: nat, data: seq<Byte>, done: nat, chunk: nat)
    requires Own(v, owner) && done + chunk <= |data| && Progress(v0, v, i, offset, data, done)
    requires (offset + done) % BLOCK_SIZE + chunk <= BLOCK_SIZE
    requires Map(v, i, (offset + done) / BLOCK_SIZE) != 0
    ensures var b := Map(v, i, (offset + done) / BLOCK_SIZE);
      && b < |v.disk|
      && var v' := v.(disk := v.disk[b := Patched(v.disk[b], (offset + done) % BLOCK_SIZE, data[done..done + chunk])]);
      Own(v', owner) && Progress(v0, v', i, offset, data, done + chunk)
  {
    hide Own, At, ByteAt, Patched, Map;
    var k, pos := (offset + done) / BLOCK_SIZE, (offset + done) % BLOCK_SIZE;
    var b := Map(v, i, k);
    BlockBytes(v, owner, i, k);
    var tmp := Patched(v.disk[b], pos, data[done..done + chunk]);
    var v' := v.(disk := v.disk[b := tmp]);
    DataWrite(v, owner, i, k, tmp);
    PatchedAt(v.disk[b], pos, data[done..done + chunk]);
    BackedMore(v, v', i, offset, done, chunk);
    forall j: nat, p: nat
      ensures ByteAt(v', j, p)
           == if j == i && offset <= p < offset + (done + chunk) then data[p - offset] else ByteAt(v0, j, p)
    {
      if j == i && p / BLOCK_SIZE == k {
        InChunk(offset, done, chunk, p);
      } else if j == i {
        OutOfChunk(offset, done, chunk, p);
      }
    }
  }

  lemma BlockBytes(v: Vol, owner: Owner, i: nat, k: nat)
    requires Own(v, owner) && Map(v, i, k) != 0
    ensures Map(v, i, k) < |v.disk|
    ensures forall p: nat :: p / BLOCK_SIZE == k ==> ByteAt(v, i, p) == v.disk[Map(v, i, k)][p % BLOCK_SIZE]
  {
    hide At;
    assert Map(v, i, k) in owner;
  }

  lemma PatchedAt(b: Block, pos: nat, bytes: seq<Byte>)
    requires pos + |bytes| <= BLOCK_SIZE
    ensures var c := Patched(b, pos, bytes);
      forall q :: 0 <= q < BLOCK_SIZE ==> c[q] == if pos <= q < pos + |bytes| then bytes[q - pos] else b[q]
  {
  }

  lemma InChunk(offset: nat, done: nat, chunk: nat, p: nat)
    requires (offset + done) % BLOCK_SIZE + chunk <= BLOCK_SIZE && p / BLOCK_SIZE == (offset + done) / BLOCK_SIZE
    ensures var pos := (offset + done) % BLOCK_SIZE;
      (pos <= p % BLOCK_SIZE < pos + chunk <==> offset + done <= p < offset + done + chunk)
        && p % BLOCK_SIZE - pos == p - (offset + done)
  {
  }

  lemma OutOfChunk(offset: nat, done: nat, chunk: nat, p: nat)
    requires (offset + done) % BLOCK_SIZE + chunk <= BLOCK_SIZE && p / BLOCK_SIZE != (offset + done) / BLOCK_SIZE
    ensures !(offset + done <= p < offset + done + chunk)
  {
  }

  /** `v` is `v0` with the first `done` bytes of `data` written to file `i` at `offset`. */
  ghost predicate Wrote(v0: Vol, v: Vol, i: nat, offset: nat, data: seq<Byte>, done: nat)
  {
    && done <= |data|
    && OnlyFile(v0, v, i) && v.freeInodes == v0.freeInodes
    && v.inodes[i].typ == v0.inodes[i].typ && v.inodes[i].links == v0.inodes[i].links
    && Contents(v, i) == Overlay(Contents(v0, i), offset, data[..done])
    && (forall u :: At(v0, i, u) != 0 ==> At(v, i, u) == At(v0, i, u))
    && Backed(v, i, offset, done)
  }

  /** A short write stops at a block boundary, before a hole, on a full volume. */
  ghost predicate StopsShort(v0: Vol, v: Vol, i: nat, offset: nat, done: nat)
  {
    && (done == 0 || (offset + done) % BLOCK_SIZE == 0)
    && Map(v0, i, (offset + done) / BLOCK_SIZE) == 0
    && |v.bitmap| == |v.disk| && FreeSet(v) == {}
  }

  lemma ProgressStart(v: Vol, i: nat, offset: nat, data: seq<Byte>)
    requires i < |v.inodes|
    ensures Progress(v, v, i, offset, data, 0)
  {
  }

  /** The end of a write: the inode goes back and the file is the overlay. */
  lemma WriteDone(v0: Vol, v: Vol, owner: Owner, i: nat, offset: nat, data: seq<Byte>, done: nat, n: Inode)
    requires Own(v, owner) && Tidy(v0) && done <= |data| && Progress(v0, v, i, offset, data, done)
    requires v0.inodes[i].typ != Free && offset + |data| <= MAX_FILE_SIZE
    requires n == v.inodes[i].(size := Max(v.inodes[i].size, offset + done), mtime := n.mtime)
    ensures var v' := v.(inodes := v.inodes[i := n]);
      Own(v', owner) && Tidy(v') && Wrote(v0, v', i, offset, data, done)
  {
    var v' := v.(inodes := v.inodes[i := n]);
    MetaWrite(v, owner, i, n);
    hide Own, At, ByteAt, Backed;
    BackedStays(v, v', i, offset, done);
    TidyAfter(v0, v', i);
  }

  /** The part of `c` a read of `len` bytes at `offset` covers. */
  function Window(c: seq<Byte>, offset: nat, len: nat): seq<Byte>
  {
    if offset >= |c| then []
    else c[offset..if offset + len > |c| then |c| else offset + len]
  }

  lemma WindowIs(c: seq<Byte>, offset: nat, len: nat, out: seq<Byte>)
    requires offset < |c| && |out| == (if offset + len > |c| then |c| - offset else len)
    requires forall t :: 0 <= t < |out| ==> out[t] == c[offset + t]
    ensures out == Window(c, offset, len)
  {
  }

  lemma MapInRange(v: Vol, owner: Owner, i: nat, k: nat)
    requires Own(v, owner)
    ensures Map(v, i, k) < |v.disk|
  {
    assert Map(v, i, k) != 0 ==> Map(v, i, k) in owner;
  }

  lemma SizeInRange(v: Vol, i: nat)
    requires Tidy(v) && i < |v.inodes|
    ensures v.inodes[i].size <= MAX_FILE_SIZE
  {
    hide ByteAt;
  }

  lemma SizeOfContents(v: Vol, i: nat)
    requires i < |v.inodes|
    ensures |Contents(v, i)| == v.inodes[i].size
  {
  }

  lemma ContentsAt(v: Vol, i: nat, offset: nat, out: seq<Byte>)
    requires i < |v.inodes| && offset + |out| <= v.inodes[i].size
    requires forall t :: 0 <= t < |out| ==> out[t] == ByteAt(v, i, offset + t)
    ensures forall t :: 0 <= t < |out| ==> out[t] == Contents(v, i)[offset + t]
  {
  }

  /** An inode that owns no block can be replaced by one that names none. */
  lemma BlankInode(v: Vol, owner: Owner, i: nat, n: Inode, v': Vol)
    requires Own(v, owner) && i < |v.inodes| && (OwnedBy(owner, i) == {} || v.inodes[i] == ZeroInode())
    requires n.direct == ZeroInode().direct && n.indirect == 0 && n.double == 0 && n.blocks == 0
    requires v' == v.(inodes := v.inodes[i := n], freeInodes := v'.freeInodes)
    ensures Own(v', owner) && OnlyFile(v, v', i) && OwnedBy(owner, i) == {}
    ensures forall p: nat :: ByteAt(v', i, p) == 0
  {
    forall j: nat, u ensures At(v', j, u) == if j == i then 0 else At(v, j, u) {
      AfterSweepAt(v, v.(freeInodes := v'.freeInodes), i, n, j, u);
    }
    assert |OwnedBy(owner, i)| == v.inodes[i].blocks;
    hide At;
    assert forall b <- owner :: owner[b].0 == i ==> b in OwnedBy(owner, i);
    assert FreeSet(v') == FreeSet(v);
  }

  lemma BlankTidy(v: Vol, owner: Owner, i: nat, n: Inode, v': Vol)
    requires Own(v, owner) && Tidy(v) && 0 < i < |v.inodes|
    requires OwnedBy(owner, i) == {} || v.inodes[i] == ZeroInode()
    requires n == ZeroInode() || (n == ZeroInode().(typ := n.typ, links := n.links, mtime := n.mtime) && n.typ != Free)
    requires v.inodes[i].typ.Free? != n.typ.Free?
    requires v' == v.(inodes := v.inodes[i := n], freeInodes := v'.freeInodes)
    requires v'.freeInodes == if n.typ.Free? then v.freeInodes + 1 else v.freeInodes - 1
    ensures Own(v', owner) && Tidy(v') && OnlyFile(v, v', i) && OwnedBy(owner, i) == {}
  {
    hide Own, At, ByteAt, OnlyFile, FreeInodes;
    BlankInode(v, owner, i, n, v');
    BlankCount(v, i, n, v');
    forall j: nat, p: nat | j < |v.inodes| && v'.inodes[j].size <= p ensures ByteAt(v', j, p) == 0 {
      if j != i { OnlyThatFile(v, v', i, j, p); }
    }
  }

  lemma OnlyThatFile(v: Vol, v': Vol, i: nat, j: nat, p: nat)
    requires OnlyFile(v, v', i) && j != i
    ensures ByteAt(v', j, p) == ByteAt(v, j, p)
  {
    hide At, ByteAt;
  }

  lemma BlankCount(v: Vol, i: nat, n: Inode, v': Vol)
    requires 0 < i < |v.inodes| && v.inodes[i].typ.Free? != n.typ.Free? && v'.inodes == v.inodes[i := n]
    ensures |FreeInodes(v')| == |FreeInodes(v)| + if n.typ.Free? then 1 else -1
  {
    assert FreeInodes(v') == if n.typ.Free? then FreeInodes(v) + {i} else FreeInodes(v) - {i};
  }

  lemma FreeInodePositive(v: Vol, i: nat)
    requires Tidy(v) && 0 < i < |v.inodes| && v.inodes[i].typ.Free?
    ensures v.freeInodes > 0 && v.inodes[i] == ZeroInode()
  {
    assert i in FreeInodes(v);
  }

  /** Mapping block `k` fills the gaps on the way to it, if there are free blocks for them all. */
  ghost predicate Mapped(v: Vol, v': Vol, i: nat, k: nat, ok: bool)
  {
    if ok then Took(v, v', i, Gaps(v, i, k)) else v.freeBlocks < |Gaps(v, i, k)|
  }

  lemma NotMapped(v: Vol, v1: Vol, i: nat, a: set<Slot>, s: Slot, k: nat)
    requires k < MAX_INDEX && a <= Chain(k) && s in Chain(k) && At(v1, i, s) == 0 && v1.freeBlocks == 0
    requires (v1 == v && a == {}) || Took(v, v1, i, a)
    ensures forall v' :: Mapped(v, v', i, k, false)
  {
    hide At, Chain;
    if v1 == v && a == {} { TookNone(v, v, i); }
    TooFew(v, v1, i, a, s, k, 0);
  }

  /** Writing the block once it is mapped changes nothing of this. */
  lemma MappedPatched(v: Vol, v': Vol, owner: Owner, i: nat, k: nat, data: Block)
    requires Own(v', owner) && Map(v', i, k) != 0 && Mapped(v, v', i, k, true)
    ensures Map(v', i, k) < |v'.disk| && Mapped(v, v'.(disk := v'.disk[Map(v', i, k) := data]), i, k, true)
  {
    hide Own, At, ByteAt, Map, Gaps;
    MapInRange(v', owner, i, k);
    DataWrite(v', owner, i, k, data);
  }

  lemma MappedDirect(v: Vol, v': Vol, i: nat, k: nat, ok: bool)
    requires k < DIRECT
    requires if ok then Took(v, v', i, if At(v, i, Direct(k)) == 0 then {Direct(k)} else {})
      && At(v', i, Direct(k)) != 0
      else At(v, i, Direct(k)) == 0 && v.freeBlocks == 0
    ensures Mapped(v, v', i, k, ok)
  {
    hide At;
    if ok {
      TookGaps(v, v', i, if At(v, i, Direct(k)) == 0 then {Direct(k)} else {}, k);
    } else {
      TookNone(v, v, i);
      TooFew(v, v, i, {}, Direct(k), k, 0);
    }
  }

  lemma MappedIndirect(v: Vol, v1: Vol, v': Vol, i: nat, j: nat)
    requires j < PTRS && Extends(v1, v', i) && At(v1, i, Indirect) != 0 && At(v', i, IndirectEntry(j)) != 0
    requires Took(v, v1, i, if At(v, i, Indirect) == 0 then {Indirect} else {})
    requires Took(v1, v', i, if At(v1, i, IndirectEntry(j)) == 0 then {IndirectEntry(j)} else {})
    ensures Mapped(v, v', i, DIRECT + j, true)
  {
    hide At, Extends, Took;
    var a := if At(v, i, Indirect) == 0 then {Indirect} else {};
    var b := if At(v1, i, IndirectEntry(j)) == 0 then {IndirectEntry(j)} else {};
    TookTrans(v, v1, v', i, a, b);
    ExtendsAt(v1, v', i, Indirect);
    TookGaps(v, v', i, a + b, DIRECT + j);
  }

  lemma MappedDouble(v: Vol, v2: Vol, v': Vol, i: nat, j: nat, a: set<Slot>)
    requires j < PTRS * PTRS && a <= {Double, Middle(j / PTRS)} && Took(v, v2, i, a) && Extends(v2, v', i)
    requires At(v2, i, Double) != 0 && At(v2, i, Middle(j / PTRS)) != 0
    requires var s := DoubleEntry(j / PTRS, j % PTRS);
      At(v', i, s) != 0 && Took(v2, v', i, if At(v2, i, s) == 0 then {s} else {})
    ensures Mapped(v, v', i, DIRECT + PTRS + j, true)
  {
    hide At, Extends, Took;
    var s := DoubleEntry(j / PTRS, j % PTRS);
    var b := if At(v2, i, s) == 0 then {s} else {};
    TookTrans(v, v2, v', i, a, b);
    ExtendsAt(v2, v', i, Double);
    ExtendsAt(v2, v', i, Middle(j / PTRS));
    TookGaps(v, v', i, a + b, DIRECT + PTRS + j);
  }

  /* ---- what a write takes ---- */

  /** As many blocks as there are up to byte `n`. */
  function BlocksUpTo(n: nat): nat { (n + BLOCK_SIZE - 1) / BLOCK_SIZE }

  /** The blocks a file of `n` bytes takes, pointer blocks included. */
  function Cost(n: nat): nat
    requires n <= MAX_FILE_SIZE
  {
    |Chains(BlocksUpTo(n))|
  }

  /** Up to ten blocks that is as many as hold the bytes. */
  lemma CostIs(n: nat)
    requires n <= DIRECT * BLOCK_SIZE
    ensures Cost(n) == BlocksUpTo(n)
  {
    FewChains(BlocksUpTo(n));
  }

  /** The gaps a write of `n` bytes has to fill. */
  ghost function WriteGaps(v: Vol, i: nat, offset: nat, n: nat): set<Slot>
  {
    if n == 0 then {} else AllGaps(v, i, offset / BLOCK_SIZE, BlocksUpTo(offset + n))
  }

  /** There are free blocks for all of it. */
  ghost predicate WriteFits(v: Vol, i: nat, offset: nat, n: nat) { v.freeBlocks >= |WriteGaps(v, i, offset, n)| }

  /** A write is whole exactly if it fits, and then it has filled those gaps and no others. */
  ghost predicate WriteAccounted(v: Vol, v': Vol, i: nat, offset: nat, n: nat, whole: bool)
  {
    (whole <==> WriteFits(v, i, offset, n)) && (whole ==> Took(v, v', i, WriteGaps(v, i, offset, n)))
  }

  lemma ChunkEnds(p: nat, chunk: nat)
    requires 0 < chunk && p % BLOCK_SIZE + chunk <= BLOCK_SIZE
    ensures BlocksUpTo(p + chunk) == p / BLOCK_SIZE + 1
    ensures (p + chunk) % BLOCK_SIZE == 0 ==> (p + chunk) / BLOCK_SIZE == p / BLOCK_SIZE + 1
  {
  }

  lemma TookStart(v: Vol, i: nat, lo: nat)
    ensures Took(v, v, i, AllGaps(v, i, lo, lo))
  {
    hide At;
    TookNone(v, v, i);
  }

  lemma AccountOn(v0: Vol, v: Vol, v': Vol, i: nat, lo: nat, k: nat)
    requires lo <= k && Took(v0, v, i, AllGaps(v0, i, lo, k)) && Mapped(v, v', i, k, true)
    ensures Took(v0, v', i, AllGaps(v0, i, lo, k + 1))
  {
    hide Took, AllGaps, Gaps;
    TookOn(v0, v, v', i, lo, k);
  }

  lemma NotAccounted(v0: Vol, v: Vol, v': Vol, i: nat, lo: nat, k: nat, hi: nat)
    requires lo <= k < hi && Took(v0, v, i, AllGaps(v0, i, lo, k)) && Mapped(v, v', i, k, false)
    ensures v0.freeBlocks < |AllGaps(v0, i, lo, hi)|
  {
    hide Took, AllGaps, Gaps;
    TooFewForAll(v0, v, i, lo, k, hi, 0);
  }

  lemma AllAccounted(v0: Vol, v: Vol, v': Vol, i: nat, offset: nat, n: nat)
    requires var lo := offset / BLOCK_SIZE;
      Took(v0, v, i, AllGaps(v0, i, lo, if n == 0 then lo else BlocksUpTo(offset + n)))
    requires v'.freeBlocks == v.freeBlocks && forall u :: At(v', i, u) == At(v, i, u)
    ensures WriteAccounted(v0, v', i, offset, n, true)
  {
    hide At, Gaps;
  }

  lemma Unaccounted(v0: Vol, v': Vol, i: nat, offset: nat, n: nat)
    requires n > 0 && v0.freeBlocks < |AllGaps(v0, i, offset / BLOCK_SIZE, BlocksUpTo(offset + n))|
    ensures WriteAccounted(v0, v', i, offset, n, false)
  {
    hide AllGaps;
  }

  class Wfs {
    const dataStart: nat
    var freeBlocks: nat
    var freeInodes: nat
    var bitmap: seq<bool>
    var inodes: seq<Inode>
    var disk: seq<Block>
    ghost var owner: Owner

    function V(): Vol
      reads this
    {
      Vol(dataStart, freeBlocks, freeInodes, bitmap, inodes, disk)
    }

    /** The volume as it will be once the caller's copy `n` of inode `i` is written back. */
    ghost function View(i: nat, n: Inode): Vol
      requires i < |inodes|
      reads this
    {
      V().(inodes := inodes[i := n])
    }

    ghost predicate Sound()
      reads this
    {
      Own(V(), owner) && Tidy(V())
    }

    /** First-fit: claim and zero the lowest free data block; zero when there is none. */
    method BlockAlloc() returns (b: nat)
      requires Geometry(V()) && freeBlocks == |FreeSet(V())|
      modifies this
      ensures owner == old(owner)
      ensures b == 0 ==> FreeSet(old(V())) == {} && V() == old(V())
      ensures b != 0 ==> old(freeBlocks) > 0 && b in FreeSet(old(V())) && V() == Claimed(old(V()), b)
      ensures b != 0 ==> forall c <- FreeSet(old(V())) :: b <= c
    {
      b := dataStart;
      while b < |disk|
        invariant dataStart <= b <= |disk|
        invariant forall c :: dataStart <= c < b ==> bitmap[c]
      {
        if !bitmap[b] {
          FreeIsPositive(V(), b);
          bitmap := bitmap[b := true];
          freeBlocks := freeBlocks - 1;
          disk := disk[b := ZeroBlock()];
          return;
        }
        b := b + 1;
      }
      b := 0;
    }

    /** Fill in a slot of the inode itself, if it is empty and `alloc` allows. */
    method FillSlot(ghost ino: nat, n: Inode, s: Slot, alloc: bool) returns (r: Result<()>, n': Inode)
      requires ino < |inodes| && Own(View(ino, n), owner) && InInode(s) && ValidSlot(s)
      modifies this
      ensures inodes == old(inodes)
      ensures Own(View(ino, n'), owner) && Extends(old(View(ino, n)), View(ino, n'), ino)
      ensures r.Ok? && alloc ==> InodeSlot(n', s) != 0
      ensures r.Err? || !alloc ==> n' == n && V() == old(V()) && owner == old(owner)
      ensures r.Err? ==> r.error == ENOSPC && alloc && InodeSlot(n, s) == 0 && FreeSet(V()) == {} && freeBlocks == 0
      ensures r.Ok? ==> Took(old(View(ino, n)), View(ino, n'), ino, if alloc && InodeSlot(n, s) == 0 then {s} else {})
    {
      hide At, Own, Extends, Took;
      ghost var v := View(ino, n);
      ExtendsRefl(v, ino);
      TookNone(v, v, ino);
      OwnFacts(v, owner);
      AtInInode(v, ino, s);
      assert FreeSet(v) == FreeSet(V());
      if InodeSlot(n, s) != 0 || !alloc {
        return Ok(()), n;
      }
      var b := BlockAlloc();
      if b == 0 {
        return Err(ENOSPC), n;
      }
      LinkInInode(v, owner, ino, s, b);
      n' := SetInodeSlot(n, s, b);
      n' := n'.(blocks := n'.blocks + 1);
      owner := owner[b := (ino, s)];
      assert View(ino, n') == LinkedInInode(v, ino, s, b);
      TookOne(v, View(ino, n'), ino, s);
      return Ok(()), n';
    }

    /** The block named by slot `index` of a pointer block, allocating it if asked. */
    method TableSlot(ghost ino: nat, n: Inode, ghost s: Slot, table: nat, index: nat, alloc: bool)
      returns (r: Result<nat>, n': Inode)
      requires ino < |inodes| && Own(View(ino, n), owner) && !InInode(s) && ValidSlot(s)
      requires table == At(View(ino, n), ino, Holder(s)) != 0 && index == Index(s)
      modifies this
      ensures inodes == old(inodes)
      ensures Own(View(ino, n'), owner) && Extends(old(View(ino, n)), View(ino, n'), ino)
      ensures r.Ok? ==> r.value == At(View(ino, n'), ino, s) && (alloc ==> r.value != 0)
      ensures r.Err? || !alloc ==> n' == n && V() == old(V()) && owner == old(owner)
      ensures r.Err? ==>
        r.error == ENOSPC && alloc && At(View(ino, n), ino, s) == 0 && FreeSet(V()) == {} && freeBlocks == 0
      ensures r.Ok? ==> var v := old(View(ino, n));
        Took(v, View(ino, n'), ino, if alloc && At(v, ino, s) == 0 then {s} else {})
    {
      hide At, Own, Extends, WordAt, SetWord, Took;
      n' := n;
      ghost var v := View(ino, n);
      ExtendsRefl(v, ino);
      TookNone(v, v, ino);
      OwnFacts(v, owner);
      EntryAt(v, owner, ino, s);
      assert FreeSet(v) == FreeSet(V());
      var b: nat := WordAt(disk[table], index);
      if b == 0 {
        if !alloc {
          return Ok(0), n;
        }
        b := BlockAlloc();
        if b == 0 {
          return Err(ENOSPC), n;
        }
        LinkInTable(v, owner, ino, s, b);
        disk := disk[table := SetWord(disk[table], index, b)];
        n' := n.(blocks := n.blocks + 1);
        owner := owner[b := (ino, s)];
        assert View(ino, n') == LinkedInTable(v, ino, table, index, b);
        TookOne(v, View(ino, n'), ino, s);
      }
      return Ok(b), n';
    }

    /** Translate a file-relative block index to a disk block, optionally allocating. */
    method Bmap(ghost ino: nat, n: Inode, index: nat, alloc: bool) returns (r: Result<nat>, n': Inode)
      requires ino < |inodes| && Own(View(ino, n), owner)
      modifies this
      ensures inodes == old(inodes)
      ensures Own(View(ino, n'), owner) && Extends(old(View(ino, n)), View(ino, n'), ino)
      ensures !alloc ==> n' == n && V() == old(V()) && owner == old(owner)
      ensures r.Ok? ==> index < MAX_INDEX && r.value == Map(View(ino, n'), ino, index) && (alloc ==> r.value != 0)
      ensures r.Err? ==> if index < MAX_INDEX
                         then r.error == ENOSPC && alloc && old(Map(View(ino, n), ino, index)) == 0
                           && FreeSet(V()) == {}
                         else r.error == EFBIG
      ensures r.Err? && (index < DIRECT || index >= MAX_INDEX) ==> n' == n && V() == old(V()) && owner == old(owner)
      ensures alloc && index < MAX_INDEX ==> Mapped(old(View(ino, n)), View(ino, n'), ino, index, r.Ok?)
    {
      hide At, Own, Extends, FreeSet, Mapped;
      ghost var v := View(ino, n);
      if index < DIRECT {
        AtInInode(v, ino, Direct(index));
        var e;
        e, n' := FillSlot(ino, n, Direct(index), alloc);
        AtInInode(View(ino, n'), ino, Direct(index));
        if alloc { MappedDirect(v, View(ino, n'), ino, index, e.Ok?); }
        return if e.Ok? then Ok(n'.direct[index]) else Err(e.error), n';
      }
      var i := index - DIRECT;
      if i < PTRS {
        r, n' := BmapIndirect(ino, n, i, alloc);
        return;
      }
      i := i - PTRS;
      if i >= PTRS * PTRS {
        ExtendsRefl(v, ino);
        return Err(EFBIG), n;
      }
      r, n' := BmapDouble(ino, n, i, alloc);
    }

    /** One level: a block of block numbers. */
    method BmapIndirect(ghost ino: nat, n: Inode, i: nat, alloc: bool) returns (r: Result<nat>, n': Inode)
      requires ino < |inodes| && Own(View(ino, n), owner) && i < PTRS
      modifies this
      ensures inodes == old(inodes)
      ensures Own(View(ino, n'), owner) && Extends(old(View(ino, n)), View(ino, n'), ino)
      ensures !alloc ==> n' == n && V() == old(V()) && owner == old(owner)
      ensures r.Ok? ==> r.value == At(View(ino, n'), ino, IndirectEntry(i)) && (alloc ==> r.value != 0)
      ensures r.Err? ==> r.error == ENOSPC && alloc && FreeSet(V()) == {}
                         && old(At(View(ino, n), ino, IndirectEntry(i))) == 0
      ensures alloc ==> Mapped(old(View(ino, n)), View(ino, n'), ino, DIRECT + i, r.Ok?)
    {
      hide At, Own, Extends, FreeSet, Mapped, Took;
      ghost var v, s := View(ino, n), IndirectEntry(i);
      AtInInode(v, ino, Indirect);
      var e;
      e, n' := FillSlot(ino, n, Indirect, alloc);
      ghost var v1 := View(ino, n');
      AtInInode(v1, ino, Indirect);
      if e.Err? || n'.indirect == 0 {
        AtBelowHole(v1, ino, s);
        if e.Err? { NotMapped(v, v, ino, {}, Indirect, DIRECT + i); }
        return if e.Err? then Err(e.error) else Ok(0), n';
      }
      r, n' := TableSlot(ino, n', s, n'.indirect, i, alloc);
      ExtendsAt(v, v1, ino, s);
      ExtendsTrans(v, v1, View(ino, n'), ino);
      if alloc {
        ghost var a := if n.indirect == 0 then {Indirect} else {};
        if r.Err? { NotMapped(v, v1, ino, a, s, DIRECT + i); } else { MappedIndirect(v, v1, View(ino, n'), ino, i); }
      }
    }

    /** Two levels: the middle block, then the data block inside it. */
    method BmapDouble(ghost ino: nat, n: Inode, i: nat, alloc: bool) returns (r: Result<nat>, n': Inode)
      requires ino < |inodes| && Own(View(ino, n), owner) && i < PTRS * PTRS
      modifies this
      ensures inodes == old(inodes)
      ensures Own(View(ino, n'), owner) && Extends(old(View(ino, n)), View(ino, n'), ino)
      ensures !alloc ==> n' == n && V() == old(V()) && owner == old(owner)
      ensures r.Ok? ==> r.value == At(View(ino, n'), ino, DoubleEntry(i / PTRS, i % PTRS)) && (alloc ==> r.value != 0)
      ensures r.Err? ==> r.error == ENOSPC && alloc && FreeSet(V()) == {}
                         && old(At(View(ino, n), ino, DoubleEntry(i / PTRS, i % PTRS))) == 0
      ensures alloc ==> Mapped(old(View(ino, n)), View(ino, n'), ino, DIRECT + PTRS + i, r.Ok?)
    {
      hide At, Own, Extends, FreeSet, Mapped, Took;
      ghost var v, m, s := View(ino, n), Middle(i / PTRS), DoubleEntry(i / PTRS, i % PTRS);
      AtInInode(v, ino, Double);
      var e;
      e, n' := FillSlot(ino, n, Double, alloc);
      ghost var v1 := View(ino, n');
      AtInInode(v1, ino, Double);
      if e.Err? || n'.double == 0 {
        AtBelowHole(v1, ino, m);
        AtBelowHole(v1, ino, s);
        if e.Err? { NotMapped(v, v, ino, {}, Double, DIRECT + PTRS + i); }
        return if e.Err? then Err(e.error) else Ok(0), n';
      }
      ExtendsAt(v, v1, ino, m);
      ExtendsAt(v, v1, ino, s);
      r, n' := TableSlot(ino, n', m, n'.double, i / PTRS, alloc);
      ghost var v2 := View(ino, n');
      ExtendsAt(v1, v2, ino, Double);
      ExtendsTrans(v, v1, v2, ino);
      ghost var a := if n.double == 0 then {Double} else {};
      if r.Err? || r.value == 0 {
        AtBelowHole(v2, ino, s);
        if r.Err? { NotMapped(v, v1, ino, a, m, DIRECT + PTRS + i); }
        return;
      }
      ExtendsAt(v, v2, ino, s);
      r, n' := TableSlot(ino, n', s, r.value, i % PTRS, alloc);
      ExtendsTrans(v, v2, View(ino, n'), ino);
      if alloc {
        ghost var b := if At(v1, ino, m) == 0 then {m} else {};
        TookTrans(v, v1, v2, ino, a, b);
        if r.Err? {
          NotMapped(v, v2, ino, a + b, s, DIRECT + PTRS + i);
        } else {
          MappedDouble(v, v2, View(ino, n'), ino, i, a + b);
        }
      }
    }

    method BlockFree(b: nat)
      requires Geometry(V())
      modifies this
      ensures owner == old(owner)
      ensures dataStart <= b < |old(bitmap)| && old(bitmap)[b]
        ==> V() == old(V()).(bitmap := old(bitmap)[b := false], freeBlocks := old(freeBlocks) + 1)
      ensures !(dataStart <= b < |old(bitmap)| && old(bitmap)[b]) ==> V() == old(V())
    {
      if b < dataStart || b >= |disk| || !bitmap[b] {
        return;
      }
      bitmap := bitmap[b := false];
      freeBlocks := freeBlocks + 1;
    }

    /** Free what one slot names, as the next position of the sweep. */
    method SweepSlot(ghost v: Vol, ghost ino: nat, ghost s: Slot, b: nat)
      requires Own(v, owner) && ino < |v.inodes| && ValidSlot(s) && b == At(v, ino, s)
      requires Released(v, V(), Swept(owner, ino, Pos(s)))
      modifies this
      ensures owner == old(owner) && disk == old(disk) && Released(v, V(), Swept(owner, ino, Pos(s) + 1))
    {
      hide At, Own, Swept;
      OwnFacts(v, owner);
      SweepStep(v, owner, ino, s);
      if b != 0 {
        ghost var r, gone := V(), Swept(owner, ino, Pos(s));
        BlockFree(b);
        ReleaseOne(v, r, V(), gone, b);
      }
    }

    /** Free every block a pointer block names, but not the pointer block itself. */
    method FreeTable(ghost v: Vol, ghost ino: nat, ghost parent: Slot, table: nat)
      requires Own(v, owner) && ino < |v.inodes| && (parent.Indirect? || parent.Middle?) && ValidSlot(parent)
      requires table == At(v, ino, parent) != 0
      requires Released(v, V(), Swept(owner, ino, Pos(Child(parent, 0))))
      modifies this
      ensures owner == old(owner) && disk == old(disk) && Released(v, V(), Swept(owner, ino, Pos(parent)))
    {
      hide At, Own, Swept;
      OwnFacts(v, owner);
      assert disk == v.disk;
      hide Released;
      for k := 0 to PTRS
        invariant owner == old(owner) && disk == v.disk
        invariant Released(v, V(), Swept(owner, ino, Pos(Child(parent, 0)) + k))
      {
        EntryAt(v, owner, ino, Child(parent, k));
        SweepSlot(v, ino, Child(parent, k), WordAt(disk[table], k));
      }
    }

    method FreeDouble(ghost v: Vol, ghost ino: nat, double: nat)
      requires Own(v, owner) && ino < |v.inodes|
      requires double == At(v, ino, Double) != 0
      requires Released(v, V(), Swept(owner, ino, 267))
      modifies this
      ensures owner == old(owner) && disk == old(disk) && Released(v, V(), Swept(owner, ino, END))
    {
      hide At, Own, Swept;
      OwnFacts(v, owner);
      assert disk == v.disk;
      hide Released;
      for j := 0 to PTRS
        invariant owner == old(owner) && disk == v.disk
        invariant Released(v, V(), Swept(owner, ino, 267 + 257 * j))
      {
        EntryAt(v, owner, ino, Middle(j));
        var middle := WordAt(disk[double], j);
        if middle != 0 {
          FreeTable(v, ino, Middle(j), middle);
          SweepSlot(v, ino, Middle(j), middle);
        } else {
          SweepHole(v, owner, ino, Middle(j));
        }
      }
      SweepSlot(v, ino, Double, double);
    }

    method Truncate(ino: nat, now: nat) returns (r: Result<()>)
      requires Sound() && (ino < |inodes| ==> !inodes[ino].typ.Free? || ino == 0)
      modifies this
      ensures Sound()
      ensures ino == 0 || ino >= |old(inodes)| ==> r == Err(EINVAL) && V() == old(V()) && owner == old(owner)
      ensures 0 < ino < |old(inodes)| ==>
        && r == Ok(())
        && OnlyFile(old(V()), V(), ino) && freeInodes == old(freeInodes)
        && inodes[ino] == Truncated(old(inodes[ino]), now)
        && freeBlocks == old(freeBlocks) + old(inodes[ino].blocks)
        && OwnedBy(owner, ino) == {} && owner == old(owner) - OwnedBy(old(owner), ino)
    {
      if ino == 0 || ino >= |inodes| {
        return Err(EINVAL);
      }
      hide Own, Tidy, OnlyFile, Released, Swept, Truncated;
      ghost var v := V();
      OwnFacts(v, owner);
      var n := inodes[ino];
      SweepAll(ino);
      TruncateDone(v, owner, V(), ino, now);
      inodes := inodes[ino := Truncated(n, now)];
      owner := owner - OwnedBy(owner, ino);
      return Ok(());
    }

    /** Free every block of file `ino`, in the order of the three tiers. */
    method SweepAll(ino: nat)
      requires Own(V(), owner) && ino < |inodes|
      modifies this
      ensures owner == old(owner) && disk == old(disk) && inodes == old(inodes)
      ensures Released(old(V()), V(), OwnedBy(owner, ino))
    {
      hide At, Own, Swept;
      ghost var v := V();
      var n := inodes[ino];
      OwnFacts(v, owner);
      SweepStart(v, owner, ino);
      SweepEnd(v, owner, ino);
      for i := 0 to DIRECT
        invariant owner == old(owner) && disk == v.disk
        invariant Released(v, V(), Swept(owner, ino, i))
      {
        AtInInode(v, ino, Direct(i));
        SweepSlot(v, ino, Direct(i), n.direct[i]);
      }
      AtInInode(v, ino, Indirect);
      if n.indirect != 0 {
        FreeTable(v, ino, Indirect, n.indirect);
        SweepSlot(v, ino, Indirect, n.indirect);
      } else {
        SweepHole(v, owner, ino, Indirect);
      }
      AtInInode(v, ino, Double);
      if n.double != 0 {
        FreeDouble(v, ino, n.double);
      } else {
        SweepHole(v, owner, ino, Double);
      }
    }

    /** One turn of the write loop: map the block, patch it, write it back.  `chunk` is
        how many bytes went in, zero when the volume is full. */
    method WriteChunk(ghost v0: Vol, ghost ino: nat, n: Inode, offset: nat, data: seq<Byte>, done: nat)
      returns (chunk: nat, n': Inode)
      requires ino < |inodes| && Own(View(ino, n), owner)
      requires done < |data| && offset + |data| <= MAX_FILE_SIZE && Progress(v0, View(ino, n), ino, offset, data, done)
      modifies this
      ensures inodes == old(inodes) && done + chunk <= |data| && (offset + done) % BLOCK_SIZE + chunk <= BLOCK_SIZE
      ensures Own(View(ino, n'), owner) && Progress(v0, View(ino, n'), ino, offset, data, done + chunk)
      ensures done + chunk == |data| || (offset + done + chunk) % BLOCK_SIZE == 0 || chunk == 0
      ensures chunk == 0 ==> Map(v0, ino, (offset + done) / BLOCK_SIZE) == 0 && FreeSet(V()) == {}
      ensures chunk == 0 && offset + done < DIRECT * BLOCK_SIZE ==> n' == n && owner == old(owner)
      ensures Mapped(old(View(ino, n)), View(ino, n'), ino, (offset + done) / BLOCK_SIZE, chunk > 0)
    {
      hide Own, At, ByteAt, Extends, Patched, FreeSet, Mapped;
      var index, inpos := (offset + done) / BLOCK_SIZE, (offset + done) % BLOCK_SIZE;
      chunk := BLOCK_SIZE - inpos;
      if chunk > |data| - done { chunk := |data| - done; }
      ghost var v := View(ino, n);
      var b;
      b, n' := Bmap(ino, n, index, true);
      ProgressGrow(v0, v, View(ino, n'), ino, offset, data, done);
      if b.Err? {
        chunk := 0;
        return;
      }
      ProgressChunk(v0, View(ino, n'), owner, ino, offset, data, done, chunk);
      var tmp: Block := *;
      if chunk != BLOCK_SIZE { tmp := disk[b.value]; }
      tmp := Patched(tmp, inpos, data[done..done + chunk]);
      PatchedWhole(disk[b.value], inpos, data[done..done + chunk], tmp);
      MappedPatched(v, View(ino, n'), owner, ino, index, tmp);
      disk := disk[b.value := tmp];
      hide Progress;
      assert View(ino, n').disk == disk;
    }

    /** Write `data` at `offset`.  Running out of space keeps what was written: the file
        is then the overlay of the first n bytes, and no other file has changed. */
    method Write(ino: nat, offset: nat, data: seq<Byte>, now: nat) returns (r: Result<nat>)
      requires Sound() && offset + |data| < WORD_LIMIT
      requires ino == 0 || (ino < |inodes| ==> !inodes[ino].typ.Free?)
      modifies this
      ensures Sound()
      ensures ino == 0 || ino >= |old(inodes)| ==> r == Err(EINVAL) && V() == old(V()) && owner == old(owner)
      ensures 0 < ino < |old(inodes)| && offset + |data| > MAX_FILE_SIZE ==>
        r == Err(EFBIG) && V() == old(V()) && owner == old(owner)
      ensures 0 < ino < |old(inodes)| && offset + |data| <= MAX_FILE_SIZE ==>
        var done := if r.Ok? then r.value else 0;
        && (r.Err? ==> r.error == ENOSPC && |data| > 0) && (r.Ok? && |data| > 0 ==> done > 0)
        && Wrote(old(V()), V(), ino, offset, data, done)
        && (done < |data| ==> StopsShort(old(V()), V(), ino, offset, done))
        && (done == 0 < |data| && offset < DIRECT * BLOCK_SIZE ==> owner == old(owner))
        && WriteAccounted(old(V()), V(), ino, offset, |data|, done == |data|)
    {
      hide Own, Tidy, Wrote, StopsShort, WriteAccounted;
      if ino == 0 || ino >= |inodes| {
        return Err(EINVAL);
      }
      if offset + |data| > MAX_FILE_SIZE {
        return Err(EFBIG);
      }
      var done := WriteBlocks(ino, offset, data, now);
      return if done == 0 < |data| then Err(ENOSPC) else Ok(done);
    }

    method WriteBlocks(ino: nat, offset: nat, data: seq<Byte>, now: nat) returns (done: nat)
      requires Sound() && 0 < ino < |inodes| && !inodes[ino].typ.Free? && offset + |data| <= MAX_FILE_SIZE
      modifies this
      ensures Sound() && Wrote(old(V()), V(), ino, offset, data, done)
      ensures done < |data| ==> StopsShort(old(V()), V(), ino, offset, done)
      ensures done == 0 < |data| && offset < DIRECT * BLOCK_SIZE ==> owner == old(owner)
      ensures WriteAccounted(old(V()), V(), ino, offset, |data|, done == |data|)
    {
      hide Own, Tidy, At, Progress, Wrote, Mapped, Took, AllGaps, WriteAccounted;
      ghost var v0 := V();
      var n, dirty := inodes[ino], false;
      done := 0;
      assert View(ino, n) == V();
      ProgressStart(v0, ino, offset, data);
      ghost var lo, hi := offset / BLOCK_SIZE, BlocksUpTo(offset + |data|);
      ghost var at := lo;
      TookStart(v0, ino, lo);
      while done < |data|
        invariant inodes == old(inodes) && done <= |data|
        invariant Own(View(ino, n), owner) && Progress(v0, View(ino, n), ino, offset, data, done)
        invariant dirty || n == inodes[ino]
        invariant done == 0 || done == |data| || (offset + done) % BLOCK_SIZE == 0
        invariant done == 0 ==> n == inodes[ino] && owner == old(owner)
        invariant at >= lo && (done < |data| ==> at == (offset + done) / BLOCK_SIZE)
        invariant done == |data| ==> at == if data == [] then lo else hi
        invariant Took(v0, View(ino, n), ino, AllGaps(v0, ino, lo, at))
      {
        var m := n;
        var chunk;
        ghost var v1 := View(ino, n);
        chunk, n := WriteChunk(v0, ino, n, offset, data, done);
        dirty := dirty || n != m;
        if chunk == 0 {
          NotAccounted(v0, v1, View(ino, n), ino, lo, at, hi);
          break;      // out of space: keep what was written
        }
        AccountOn(v0, v1, View(ino, n), ino, lo, at);
        ChunkEnds(offset + done, chunk);
        done := done + chunk;
        at := at + 1;
      }
      ghost var v := View(ino, n);
      OwnFacts(v, owner);
      if offset + done > n.size {
        n := n.(size := offset + done);
        dirty := true;
      }
      if done > 0 {
        n := n.(mtime := now);
        dirty := true;
      }
      WriteDone(v0, v, owner, ino, offset, data, done, n);
      MetaWrite(v, owner, ino, n);
      if dirty {
        inodes := inodes[ino := n];
      }
      assert V() == v.(inodes := v.inodes[ino := n]);
      if done == |data| {
        AllAccounted(v0, v, V(), ino, offset, |data|);
      } else {
        Unaccounted(v0, V(), ino, offset, |data|);
      }
    }

    /** Read a run of consecutive blocks in one transfer, around the cache.  The sector
        count the devices take is one byte wide. */
    method BlocksRead(first: nat, count: nat) returns (bytes: seq<Byte>)
      requires first + count <= |disk| && count * 2 < 256
      ensures |bytes| == count * BLOCK_SIZE
      ensures forall t :: 0 <= t < |bytes| ==> bytes[t] == disk[first + t / BLOCK_SIZE][t % BLOCK_SIZE]
    {
      bytes := [];
      for k := 0 to count
        invariant |bytes| == k * BLOCK_SIZE
        invariant forall t :: 0 <= t < |bytes| ==> bytes[t] == disk[first + t / BLOCK_SIZE][t % BLOCK_SIZE]
      {
        bytes := bytes + disk[first + k];
      }
    }

    /** How many blocks from `index` on follow each other both in the file and on disk. */
    method RunLength(ino: nat, index: nat, block: nat, room: nat) returns (run: nat)
      requires ino < |inodes| && Own(V(), owner)
      requires Map(V(), ino, index) == block != 0 && 1 <= room && index + room <= MAX_INDEX
      modifies this
      ensures V() == old(V()) && owner == old(owner)
      ensures 1 <= run <= READ_RUN_BLOCKS && run <= room && block + run <= |disk|
      ensures forall m :: index <= m < index + run ==> Map(V(), ino, m) == block + (m - index)
    {
      hide Extends, Own, Map;
      run := 1;
      MapInRange(V(), owner, ino, index);
      while run < READ_RUN_BLOCKS && run + 1 <= room
        invariant V() == old(V()) && owner == old(owner)
        invariant 1 <= run <= READ_RUN_BLOCKS && run <= room && block + run <= |disk|
        invariant forall m :: index <= m < index + run ==> Map(V(), ino, m) == block + (m - index)
      {
        var next, n;
        assert View(ino, inodes[ino]) == V();
        next, n := Bmap(ino, inodes[ino], index + run, false);
        assert View(ino, inodes[ino]) == V();
        if next.Err? || next.value != block + run {
          break;                  // a hole, or a jump
        }
        MapInRange(V(), owner, ino, index + run);
        run := run + 1;
      }
    }

    /** Read up to `len` bytes at `offset`, gathering consecutive blocks where it can:
        exactly the bytes of the file in that range, holes as zeroes. */
    method Read(ino: nat, offset: nat, len: nat) returns (r: Result<seq<Byte>>)
      requires Sound() && offset + len < WORD_LIMIT
      modifies this
      ensures V() == old(V()) && owner == old(owner)
      ensures ino == 0 || ino >= |inodes| ==> r == Err(EINVAL)
      ensures 0 < ino < |inodes| ==> r == Ok(Window(Contents(V(), ino), offset, len))
    {
      hide Own, Tidy, Contents, ByteAt;
      if ino == 0 || ino >= |inodes| {
        return Err(EINVAL);
      }
      var size := inodes[ino].size;
      SizeInRange(V(), ino);
      SizeOfContents(V(), ino);
      if offset >= size {
        return Ok([]);
      }
      var len' := if offset + len > size then size - offset else len;
      var out: seq<Byte> := [];
      while |out| < len'
        invariant V() == old(V()) && owner == old(owner) && |out| <= len'
        invariant forall t :: 0 <= t < |out| ==> out[t] == ByteAt(V(), ino, offset + t)
      {
        var bytes := ReadChunk(ino, offset + |out|, len' - |out|);
        out := out + bytes;
      }
      ContentsAt(V(), ino, offset, out);
      WindowIs(Contents(V(), ino), offset, len, out);
      r := Ok(out);
    }

    /** One turn of the read loop: a run of whole blocks, or what is wanted of one. */
    method ReadChunk(ino: nat, at: nat, want: nat) returns (bytes: seq<Byte>)
      requires ino < |inodes| && Own(V(), owner) && want > 0 && at + want <= MAX_FILE_SIZE
      modifies this
      ensures V() == old(V()) && owner == old(owner) && 0 < |bytes| <= want
      ensures forall t :: 0 <= t < |bytes| ==> bytes[t] == ByteAt(V(), ino, at + t)
    {
      hide Own, Extends, At;
      var index, inpos := at / BLOCK_SIZE, at % BLOCK_SIZE;
      var chunk := BLOCK_SIZE - inpos;
      if chunk > want { chunk := want; }
      assert View(ino, inodes[ino]) == V();
      var b, _ := Bmap(ino, inodes[ino], index, false);
      assert View(ino, inodes[ino]) == V();
      var block := b.value;
      if inpos == 0 && block != 0 && want >= BLOCK_SIZE {
        var run := RunLength(ino, index, block, want / BLOCK_SIZE);
        if run > 1 {
          bytes := BlocksRead(block, run);
          forall t | 0 <= t < |bytes| ensures bytes[t] == ByteAt(V(), ino, at + t) {
            assert (at + t) / BLOCK_SIZE == index + t / BLOCK_SIZE && (at + t) % BLOCK_SIZE == t % BLOCK_SIZE;
          }
          return;
        }
      }
      if block == 0 {
        bytes := seq(chunk, i => 0);
      } else {
        MapInRange(V(), owner, ino, index);
        bytes := disk[block][inpos..inpos + chunk];
      }
    }

    /** Claim the first free inode and initialise it. */
    method InodeAlloc(typ: FileType, now: nat) returns (r: Result<nat>)
      requires Sound() && typ != Free
      modifies this
      ensures Sound() && owner == old(owner)
      ensures r.Err? ==> r.error == ENOSPC && FreeInodes(V()) == {} && V() == old(V())
      ensures r.Ok? ==>
        && r.value in FreeInodes(old(V())) && (forall j <- FreeInodes(old(V())) :: r.value <= j)
          && OwnedBy(owner, r.value) == {}
        && inodes == old(inodes)[r.value := ZeroInode().(typ := typ, links := 1, mtime := now)]
        && freeInodes == old(freeInodes) - 1 && freeBlocks == old(freeBlocks) && bitmap == old(bitmap)
        && OnlyFile(old(V()), V(), r.value)
    {
      hide Own, OnlyFile, Tidy;
      var i := ROOT_INO;
      while i < |inodes|
        invariant 1 <= i && V() == old(V())
        invariant forall j :: 1 <= j < i && j < |inodes| ==> !inodes[j].typ.Free?
      {
        if inodes[i].typ.Free? {
          ghost var v := V();
          FreeInodePositive(v, i);
          var n := ZeroInode().(typ := typ, links := 1, mtime := now);
          inodes := inodes[i := n];
          freeInodes := freeInodes - 1;
          BlankTidy(v, owner, i, n, V());
          return Ok(i);
        }
        i := i + 1;
      }
      assert FreeInodes(V()) == {};
      return Err(ENOSPC);
    }

    /** Give back an inode that owns no block. */
    method InodeFree(ino: nat)
      requires Sound() && 0 < ino < |inodes| && !inodes[ino].typ.Free? && OwnedBy(owner, ino) == {}
      modifies this
      ensures Sound() && owner == old(owner)
      ensures inodes == old(inodes)[ino := ZeroInode()] && freeInodes == old(freeInodes) + 1
      ensures freeBlocks == old(freeBlocks) && bitmap == old(bitmap) && OnlyFile(old(V()), V(), ino)
    {
      hide Own, OnlyFile, Tidy;
      ghost var v := V();
      inodes := inodes[ino := ZeroInode()];
      freeInodes := freeInodes + 1;
      BlankTidy(v, owner, ino, ZeroInode(), V());
    }
  }
}

