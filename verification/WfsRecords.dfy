/** Directory records on disk, and the directories of a volume as a tree value. */
module WfsRecords {
  import opened WfsLayout
  import opened WfsVolume
  import opened WfsDriver
  import opened WfsTree

  const DIRENT: nat := 32
  const NAME_MAX: nat := 27

  type Record = r: seq<Byte> | |r| == 32 witness seq(32, k => 0)

  /** Text up to the terminating NUL. */
  function CStr(b: seq<Byte>): Name
  {
    if b == [] || b[0] == 0 then [] else [b[0]] + CStr(b[1..])
  }

  function Le32(r: Record): nat
  {
    var b0: int, b1: int, b2: int, b3: int := r[0], r[1], r[2], r[3];
    b0 + 0x100 * b1 + 0x1_0000 * b2 + 0x100_0000 * b3
  }

  function EntOf(r: Record): Ent { Ent(Le32(r), CStr(r[4..])) }

  predicate GoodName(n: Name) { |n| <= NAME_MAX && 0 !in n }

  /** The record dir_add writes: the inode number, the name, NULs to the end. */
  function RecordOf(ino: Word, name: Name): Record
    requires |name| <= NAME_MAX
  {
    [ino % 0x100, ino / 0x100 % 0x100, ino / 0x1_0000 % 0x100, ino / 0x100_0000] + name + seq(28 - |name|, k => 0)
  }

  function FreeRecord(): Record { seq(32, k => 0) }

  lemma {:induction false} CStrOfPadded(name: Name, b: seq<Byte>)
    requires 0 !in name && |b| > |name| && b[..|name|] == name && b[|name|] == 0
    ensures CStr(b) == name
  {
    if name != [] {
      assert b[0] == name[0] && b[0] != 0;
      assert b[1..][..|name| - 1] == name[1..];
      CStrOfPadded(name[1..], b[1..]);
    }
  }

  /** What dir_add writes, dir_find reads back. */
  lemma RecordRoundTrip(ino: Word, name: Name)
    requires GoodName(name)
    ensures EntOf(RecordOf(ino, name)) == Ent(ino, name)
  {
    var r := RecordOf(ino, name);
    WordBytes(ino);
    assert r[0] == ino % 0x100 && r[1] == ino / 0x100 % 0x100 && r[2] == ino / 0x1_0000 % 0x100
      && r[3] == ino / 0x100_0000;
    assert r[4..] == name + seq(28 - |name|, k => 0);
    CStrOfPadded(name, r[4..]);
  }

  lemma FreeRecordIsFree()
    ensures EntOf(FreeRecord()) == FREE_ENT
  {
    assert FreeRecord()[4..][0] == 0;
  }

  function RecordAt(c: seq<Byte>, k: nat): Record
    requires k < |c| / DIRENT
  {
    c[DIRENT * k..DIRENT * k + DIRENT]
  }

  /** A directory's contents as records. */
  function Ents(c: seq<Byte>): (es: seq<Ent>)
    ensures |es| == |c| / DIRENT
    ensures forall k :: 0 <= k < |es| ==> es[k] == EntOf(RecordAt(c, k))
  {
    seq(|c| / DIRENT, k requires 0 <= k < |c| / DIRENT => EntOf(RecordAt(c, k)))
  }

  /** Writing one whole record changes one entry, or appends one. */
  lemma EntsAfterWrite(c: seq<Byte>, k: nat, r: Record)
    requires |c| % DIRENT == 0 && k <= |c| / DIRENT
    ensures Ents(Overlay(c, DIRENT * k, r)) == Put(Ents(c), k, EntOf(r))
  {
    hide EntOf;
    var c' := Overlay(c, DIRENT * k, r);
    forall m | 0 <= m < |c'| / DIRENT ensures RecordAt(c', m) == if m == k then r else RecordAt(c, m) {
    }
  }

  /* ---- the tree of a volume ---- */

  function Live(v: Vol): set<nat> { set i | 0 < i < |v.inodes| && v.inodes[i].typ != Free }

  function TreeOf(v: Vol): Tree
  {
    Tree(Live(v), map i | i in Live(v) && v.inodes[i].typ == Dir :: Ents(Contents(v, i)))
  }

  predicate IsDir(v: Vol, d: nat) { 0 < d < |v.inodes| && v.inodes[d].typ == Dir }

  /** Directories are whole records, and have no holes. */
  ghost predicate DirShape(v: Vol)
  {
    forall d: nat :: IsDir(v, d) ==>
      v.inodes[d].size % DIRENT == 0 && forall k: nat :: k * BLOCK_SIZE < v.inodes[d].size ==> Map(v, d, k) != 0
  }

  /** Nothing outside `s` has changed: inodes, mappings and bytes. */
  ghost predicate Untouched(v: Vol, v': Vol, s: set<nat>)
  {
    && |v'.inodes| == |v.inodes|
    && (forall j :: 0 <= j < |v.inodes| && j !in s ==> v'.inodes[j] == v.inodes[j])
    && (forall j: nat, u :: j !in s ==> At(v', j, u) == At(v, j, u))
    && (forall j: nat, p: nat :: j !in s ==> ByteAt(v', j, p) == ByteAt(v, j, p))
  }

  lemma UntouchedTrans(v: Vol, w: Vol, x: Vol, s: set<nat>, s': set<nat>)
    requires Untouched(v, w, s) && Untouched(w, x, s')
    ensures Untouched(v, x, s + s')
  {
    hide At, ByteAt;
  }

  lemma OnlyFileUntouched(v: Vol, v': Vol, i: nat)
    requires OnlyFile(v, v', i)
    ensures Untouched(v, v', {i})
  {
    hide At, ByteAt;
  }

  lemma UntouchedContents(v: Vol, v': Vol, s: set<nat>, j: nat)
    requires Untouched(v, v', s) && j !in s && j < |v.inodes|
    ensures Contents(v', j) == Contents(v, j)
  {
    hide At, ByteAt;
  }

  /** Outside the inodes that changed, the tree has the same directories. */
  lemma TreeElsewhere(v: Vol, v': Vol, i: nat)
    requires Untouched(v, v', {i}) && 0 < i < |v.inodes|
    ensures TreeOf(v').live - {i} == TreeOf(v).live - {i}
    ensures TreeOf(v').dirs - {i} == TreeOf(v).dirs - {i}
  {
    hide Ents, At, ByteAt;
    forall j | j in TreeOf(v).dirs && j != i ensures Contents(v', j) == Contents(v, j) {
      UntouchedContents(v, v', {i}, j);
    }
  }

  /** The shape of directories survives a change to an inode that is not one. */
  lemma DirShapeElsewhere(v: Vol, v': Vol, i: nat)
    requires DirShape(v) && Untouched(v, v', {i}) && i < |v.inodes|
    requires IsDir(v', i) ==>
      v'.inodes[i].size % DIRENT == 0 && forall k: nat :: k * BLOCK_SIZE < v'.inodes[i].size ==> Map(v', i, k) != 0
    ensures DirShape(v')
  {
    hide At, ByteAt;
    forall d: nat, k: nat | IsDir(v', d) && k * BLOCK_SIZE < v'.inodes[d].size ensures Map(v', d, k) != 0 {
      if d != i { assert IsDir(v, d) && Map(v, d, k) != 0; }
    }
  }

  lemma MapPatch<T>(m: map<nat, T>, m': map<nat, T>, d: nat, y: T)
    requires m - {d} == m' - {d} && d in m' && m'[d] == y
    ensures m' == m[d := y]
  {
    assert forall x :: x in m' && x != d ==> x in m' - {d};
    assert forall x :: x in m && x != d ==> x in m - {d};
  }

  /** A directory's records changed, and nothing else did. */
  lemma TreeAfterChange(v: Vol, v': Vol, d: nat, es: seq<Ent>)
    requires Untouched(v, v', {d}) && IsDir(v, d) && IsDir(v', d) && Ents(Contents(v', d)) == es
    ensures d in TreeOf(v).dirs && TreeOf(v') == TreeOf(v).(dirs := TreeOf(v).dirs[d := es])
  {
    hide Untouched, Ents;
    TreeElsewhere(v, v', d);
    var t, t' := TreeOf(v), TreeOf(v');
    assert t'.live == t'.live - {d} + {d} && t.live == t.live - {d} + {d};
    MapPatch(t.dirs, t'.dirs, d, es);
  }

  /** A file changed: the tree did not. */
  lemma TreeAfterFileChange(v: Vol, v': Vol, i: nat)
    requires Untouched(v, v', {i}) && 0 < i < |v.inodes| && v'.inodes[i].typ == v.inodes[i].typ != Dir
    ensures TreeOf(v') == TreeOf(v)
  {
    assert |v'.inodes| == |v.inodes|;
    hide Untouched, Ents;
    TreeElsewhere(v, v', i);
    var t, t' := TreeOf(v), TreeOf(v');
    assert i !in t.dirs && i !in t'.dirs && t.dirs - {i} == t.dirs && t'.dirs - {i} == t'.dirs;
    assert i in t.live <==> i in t'.live;
    assert forall x :: x in t.live && x != i ==> x in t.live - {i};
    assert forall x :: x in t'.live && x != i ==> x in t'.live - {i};
  }
}
