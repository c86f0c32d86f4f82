/** Directory operations (kernel/fs/wfs.c): entries found, added and removed by reading
    and writing the directory as a file. */
module WfsDirs {
  import opened WfsLayout
  import opened WfsVolume
  import opened WfsRoom
  import opened WfsDriver
  import opened WfsTree
  import opened WfsRecords

  predicate Matches(e: Ent, name: Name) { e.ino != 0 && e.name == name }

  /** The first entry called `name`; the number of entries when there is none. */
  function FindIdx(es: seq<Ent>, name: Name, from: nat): (k: nat)
    requires from <= |es|
    ensures from <= k <= |es| && (forall m :: from <= m < k ==> !Matches(es[m], name))
    ensures k < |es| ==> Matches(es[k], name)
    decreases |es| - from
  {
    if from == |es| || Matches(es[from], name) then from else FindIdx(es, name, from + 1)
  }

  /** The first free slot; the number of entries when there is none. */
  function FreeIdx(es: seq<Ent>, from: nat): (k: nat)
    requires from <= |es|
    ensures from <= k <= |es| && (forall m :: from <= m < k ==> es[m].ino != 0)
    ensures k < |es| ==> es[k].ino == 0
    decreases |es| - from
  {
    if from == |es| || es[from].ino == 0 then from else FreeIdx(es, from + 1)
  }

  function Entries(v: Vol, d: nat): seq<Ent>
    requires d < |v.inodes|
  {
    Ents(Contents(v, d))
  }

  /** What dir_find answers. */
  function Find(v: Vol, d: nat, name: Name): Result<nat>
  {
    if d == 0 || d >= |v.inodes| then Err(EINVAL)
    else if v.inodes[d].typ != Dir then Err(ENOTDIR)
    else
      var k := FindIdx(Entries(v, d), name, 0);
      if k < |Entries(v, d)| then Ok(Entries(v, d)[k].ino) else Err(ENOENT)
  }

  /** A fully sound volume whose directories have their shape. */
  ghost predicate Good(w: Wfs)
    reads w
  {
    w.Sound() && DirShape(w.V())
  }

  lemma GoodDirSize(v: Vol, d: nat)
    requires DirShape(v) && Tidy(v) && IsDir(v, d)
    ensures v.inodes[d].size % DIRENT == 0 && v.inodes[d].size <= MAX_FILE_SIZE
  {
  }

  /** Read record `k` of directory `d`. */
  method ReadRecord(w: Wfs, d: nat, k: nat) returns (e: Ent)
    requires Good(w) && IsDir(w.V(), d) && DIRENT * k < w.inodes[d].size
    modifies w
    ensures w.V() == old(w.V()) && w.owner == old(w.owner)
    ensures k < |Entries(w.V(), d)| && e == Entries(w.V(), d)[k]
  {
    hide Own, Tidy, DirShape, EntOf;
    GoodDirSize(w.V(), d);
    var r := w.Read(d, DIRENT * k, DIRENT);
    assert r.value == RecordAt(Contents(w.V(), d), k);
    e := EntOf(r.value);
  }

  method DirFind(w: Wfs, d: nat, name: Name) returns (r: Result<nat>)
    requires Good(w)
    modifies w
    ensures w.V() == old(w.V()) && w.owner == old(w.owner)
    ensures r == Find(w.V(), d, name)
  {
    hide Own, Tidy, DirShape;
    if d == 0 || d >= |w.inodes| {
      return Err(EINVAL);
    }
    if w.inodes[d].typ != Dir {
      return Err(ENOTDIR);
    }
    GoodDirSize(w.V(), d);
    var k, size := 0, w.inodes[d].size;
    while DIRENT * k < size
      invariant w.V() == old(w.V()) && w.owner == old(w.owner)
      invariant DIRENT * k <= size && k <= |Entries(w.V(), d)|
      invariant FindIdx(Entries(w.V(), d), name, 0) == FindIdx(Entries(w.V(), d), name, k)
    {
      var e := ReadRecord(w, d, k);
      if e.ino != 0 && e.name == name {
        return Ok(e.ino);
      }
      k := k + 1;
    }
    return Err(ENOENT);
  }

  lemma EntryCount(v: Vol, d: nat)
    requires IsDir(v, d) && v.inodes[d].size % DIRENT == 0
    ensures DIRENT * |Entries(v, d)| == v.inodes[d].size
  {
    hide Contents;
    SizeOfContents(v, d);
  }

  /** True if the directory holds nothing but "." and "..". */
  method DirIsEmpty(w: Wfs, d: nat) returns (r: bool)
    requires Good(w) && IsDir(w.V(), d)
    modifies w
    ensures w.V() == old(w.V()) && w.owner == old(w.owner)
    ensures r <==> EmptyDir(Entries(w.V(), d))
  {
    hide Own, Tidy, DirShape, Entries;
    GoodDirSize(w.V(), d);
    EntryCount(w.V(), d);
    ghost var es := Entries(w.V(), d);
    var k, size := 0, w.inodes[d].size;
    while DIRENT * k < size
      invariant w.V() == old(w.V()) && w.owner == old(w.owner) && k <= |es|
      invariant forall m :: 0 <= m < k ==> !Real(es[m])
    {
      var e := ReadRecord(w, d, k);
      if e.ino != 0 && e.name != DOT && e.name != DOTDOT {
        return false;
      }
      k := k + 1;
    }
    return true;
  }

  /* ---- writing one record ---- */

  /** A write to directory `d` moved no other inode, and left its type alone. */
  lemma WroteUntouched(v: Vol, v': Vol, d: nat, off: nat, data: seq<Byte>, done: nat)
    requires Wrote(v, v', d, off, data, done)
    ensures Untouched(v, v', {d}) && v'.freeInodes == v.freeInodes && v'.inodes[d].typ == v.inodes[d].typ
    ensures done <= |data|
    ensures Contents(v', d) == Overlay(Contents(v, d), off, data[..done])
  {
    hide At, ByteAt, Overlay;
    OnlyFileUntouched(v, v', d);
  }

  lemma TreeAfterRecord(v: Vol, v': Vol, d: nat, k: nat, r: Record)
    requires DirShape(v) && IsDir(v, d) && k <= |Entries(v, d)| && Wrote(v, v', d, DIRENT * k, r, DIRENT)
    ensures DirShape(v') && Untouched(v, v', {d})
    ensures TreeOf(v') == PutEnt(TreeOf(v), d, k, EntOf(r))
  {
    WroteUntouched(v, v', d, DIRENT * k, r, DIRENT);
    assert r[..DIRENT] == r;
    EntsAfterWrite(Contents(v, d), k, r);
    RecordKeepsShape(v, v', d, k, r);
    hide Wrote, DirShape, Untouched, Ents, Overlay, EntOf;
    TreeAfterChange(v, v', d, Put(Entries(v, d), k, EntOf(r)));
  }

  lemma RecordKeepsShape(v: Vol, v': Vol, d: nat, k: nat, r: Record)
    requires DirShape(v) && IsDir(v, d) && k <= |Entries(v, d)| && Wrote(v, v', d, DIRENT * k, r, DIRENT)
    ensures DirShape(v')
  {
    hide ByteAt, Ents;
    OnlyFileUntouched(v, v', d);
    var off := DIRENT * k;
    assert |Contents(v', d)| == Max(|Contents(v, d)|, off + DIRENT);
    hide Overlay, At;
    forall m: nat | m * BLOCK_SIZE < v'.inodes[d].size ensures Map(v', d, m) != 0 {
      if m * BLOCK_SIZE < v.inodes[d].size {
        assert Map(v, d, m) != 0;
      } else {
        assert off / BLOCK_SIZE <= m && m * BLOCK_SIZE < off + DIRENT;
      }
    }
    DirShapeElsewhere(v, v', d);
  }

  /** A record write that wrote nothing changed nothing a reader can see. */
  lemma TreeAfterNothing(v: Vol, v': Vol, d: nat, off: nat, r: Record)
    requires DirShape(v) && IsDir(v, d) && off <= v.inodes[d].size && Wrote(v, v', d, off, r, 0)
    ensures DirShape(v') && Untouched(v, v', {d}) && TreeOf(v') == TreeOf(v)
  {
    WroteUntouched(v, v', d, off, r, 0);
    assert Contents(v', d) == Contents(v, d);
    assert v'.inodes[d].size == |Contents(v', d)|;
    assert forall k: nat :: k * BLOCK_SIZE < v'.inodes[d].size ==> Map(v', d, k) != 0 by {
      hide ByteAt, At;
      forall k: nat | k * BLOCK_SIZE < v'.inodes[d].size ensures Map(v', d, k) != 0 { assert Map(v, d, k) != 0; }
    }
    DirShapeElsewhere(v, v', d);
    hide Wrote, DirShape, Untouched, Ents;
    TreeAfterChange(v, v', d, Entries(v, d));
    assert TreeOf(v).dirs[d := Entries(v, d)] == TreeOf(v).dirs;
  }

  /** A record is written whole or not at all, and over an existing one it is always written. */
  lemma RecordAllOrNothing(v: Vol, v': Vol, d: nat, k: nat, r: Record, done: nat)
    requires DirShape(v) && IsDir(v, d) && k <= |Entries(v, d)|
    requires done <= DIRENT && (done < DIRENT ==> StopsShort(v, v', d, DIRENT * k, done))
    ensures done == 0 || done == DIRENT
    ensures done == 0 ==> DIRENT * k == v.inodes[d].size && DIRENT * k % BLOCK_SIZE == 0
  {
    hide Ents;
    var m := DIRENT * k / BLOCK_SIZE;
    assert m * BLOCK_SIZE < v.inodes[d].size ==> Map(v, d, m) != 0;
  }

  /** Why a record found no room: the file is as long as a file gets, or no block is free.  A
      directory's records do not straddle blocks, so only elsewhere is a part written. */
  ghost predicate NoSlot(v: Vol, v': Vol, d: nat, e: Errno)
    requires d < |v.inodes|
  {
    if e == EFBIG then v.inodes[d].size + DIRENT > MAX_FILE_SIZE
    else (e == ENOSPC || (e == EIO && !IsDir(v, d))) && |v'.bitmap| == |v'.disk| && FreeSet(v') == {}
  }

  predicate OutOfRoom(e: Errno) { e == ENOSPC || e == EFBIG }

  /** Where the next entry of a directory goes. */
  function SlotAt(v: Vol, d: nat): nat
    requires d < |v.inodes|
  {
    DIRENT * FreeIdx(Entries(v, d), 0)
  }

  /** The gaps an entry there has to fill: none, unless it starts a block. */
  ghost function SlotGaps(v: Vol, d: nat): set<Slot>
    requires d < |v.inodes|
  {
    Gaps(v, d, SlotAt(v, d) / BLOCK_SIZE)
  }

  /** The directory has not come to its greatest size. */
  predicate SlotLeft(v: Vol, d: nat)
    requires d < |v.inodes|
  {
    SlotAt(v, d) + DIRENT <= MAX_FILE_SIZE
  }

  /** There is room for another entry. */
  ghost predicate SlotFits(v: Vol, d: nat)
    requires d < |v.inodes|
  {
    SlotLeft(v, d) && v.freeBlocks >= |SlotGaps(v, d)|
  }

  lemma SlotAccounted(v: Vol, v': Vol, d: nat, r: Result<()>)
    requires d < |v.inodes| && RecordAccounted(v, v', d, SlotAt(v, d), r)
    ensures r.Ok? <==> SlotFits(v, d)
  {
    hide SlotAt, Gaps, Took;
  }

  /** A record of a directory lies within one block. */
  lemma RecordInBlock(v: Vol, d: nat, off: nat)
    requires off % DIRENT == 0
    ensures WriteGaps(v, d, off, DIRENT) == Gaps(v, d, off / BLOCK_SIZE)
  {
    hide Gaps;
    var k := off / BLOCK_SIZE;
    assert BlocksUpTo(off + DIRENT) == k + 1;
    AllGapsNext(v, d, k, k);
  }

  /** An entry is written exactly if there is room for it, and takes what fills its gaps. */
  ghost predicate RecordAccounted(v: Vol, v': Vol, d: nat, off: nat, r: Result<()>)
  {
    && (r.Ok? <==> off + DIRENT <= MAX_FILE_SIZE && v.freeBlocks >= |Gaps(v, d, off / BLOCK_SIZE)|)
    && (r.Err? ==> (r.error == EFBIG <==> off + DIRENT > MAX_FILE_SIZE))
    && (r.Ok? ==> Took(v, v', d, Gaps(v, d, off / BLOCK_SIZE)))
  }

  /** Write one record at `off`, the way dir_add does: whole, an error, or EIO for a part. */
  method WriteRecord(w: Wfs, d: nat, off: nat, rec: Record, now: nat) returns (r: Result<()>)
    requires Good(w) && d in Live(w.V()) && off <= w.inodes[d].size && (IsDir(w.V(), d) ==> off % DIRENT == 0)
    modifies w
    ensures Good(w) && Untouched(old(w.V()), w.V(), {d}) && Live(w.V()) == Live(old(w.V()))
    ensures w.inodes[d].typ == old(w.inodes[d].typ) && w.freeInodes == old(w.freeInodes)
    ensures IsDir(old(w.V()), d) ==>
      && (r.Ok? ==> TreeOf(w.V()) == PutEnt(TreeOf(old(w.V())), d, off / DIRENT, EntOf(rec)))
      && (r.Err? ==> TreeOf(w.V()) == TreeOf(old(w.V())) && off == old(w.inodes[d].size) && off % BLOCK_SIZE == 0
                     && (off < DIRECT * BLOCK_SIZE ==> w.owner == old(w.owner)))
    ensures !IsDir(old(w.V()), d) ==> TreeOf(w.V()) == TreeOf(old(w.V()))
    ensures r.Err? ==> NoSlot(old(w.V()), w.V(), d, r.error)
    ensures IsDir(old(w.V()), d) ==> RecordAccounted(old(w.V()), w.V(), d, off, r)
  {
    hide Own, DirShape, Untouched, Wrote, StopsShort, TreeOf, FreeSet, Took, Gaps, WriteGaps;
    ghost var v := w.V();
    assert w.inodes[d].size <= MAX_FILE_SIZE;
    hide Tidy;
    UntouchedRefl(v, d);
    var n := w.Write(d, off, rec, now);
    if off + DIRENT > MAX_FILE_SIZE {
      if IsDir(v, d) { GoodDirSize(v, d); }
      return Err(EFBIG);
    }
    ghost var done := if n.Ok? then n.value else 0;
    AfterRecord(v, w.V(), d, off, rec, done);
    if done < DIRENT { ShortIsFull(v, w.V(), d, off, done); }
    if IsDir(v, d) { RecordInBlock(v, d, off); }
    return if n == Ok(DIRENT) then Ok(()) else if n.Err? then Err(n.error) else Err(EIO);
  }

  lemma ShortIsFull(v: Vol, v': Vol, d: nat, off: nat, done: nat)
    requires StopsShort(v, v', d, off, done)
    ensures |v'.bitmap| == |v'.disk| && FreeSet(v') == {}
  {
  }

  lemma AfterRecord(v: Vol, v': Vol, d: nat, off: nat, rec: Record, done: nat)
    requires DirShape(v) && d in Live(v) && off <= v.inodes[d].size && Wrote(v, v', d, off, rec, done)
    requires IsDir(v, d) ==> off % DIRENT == 0
    requires done < DIRENT ==> StopsShort(v, v', d, off, done)
    ensures DirShape(v') && Untouched(v, v', {d}) && Live(v') == Live(v) && done <= DIRENT
    ensures v'.inodes[d].typ == v.inodes[d].typ && v'.freeInodes == v.freeInodes
    ensures IsDir(v, d) ==>
      && (done == 0 || done == DIRENT) && (done == 0 ==> off == v.inodes[d].size && off % BLOCK_SIZE == 0)
      && TreeOf(v') == if done == DIRENT then PutEnt(TreeOf(v), d, off / DIRENT, EntOf(rec)) else TreeOf(v)
    ensures !IsDir(v, d) ==> TreeOf(v') == TreeOf(v)
  {
    WroteUntouched(v, v', d, off, rec, done);
    assert Live(v') == Live(v) by { hide At, ByteAt; }
    hide Wrote, DirShape, Untouched, StopsShort, TreeOf;
    if IsDir(v, d) {
      var k := off / DIRENT;
      assert off == DIRENT * k;
      RecordAllOrNothing(v, v', d, k, rec, done);
      if done == DIRENT { TreeAfterRecord(v, v', d, k, rec); } else { TreeAfterNothing(v, v', d, off, rec); }
    } else {
      TreeAfterFileChange(v, v', d);
      assert !IsDir(v', d);
      DirShapeElsewhere(v, v', d);
    }
  }

  lemma UntouchedRefl(v: Vol, d: nat)
    ensures Untouched(v, v, {d})
  {
  }

  /** Add an entry, reusing the first free slot.  Nothing checks that `d` is a directory:
      the record goes into whatever file `d` is. */
  method DirAdd(w: Wfs, d: nat, name: Name, ino: Word, now: nat) returns (r: Result<()>)
    requires Good(w) && d in Live(w.V()) && 0 !in name
    modifies w
    ensures Good(w) && Untouched(old(w.V()), w.V(), {d}) && Live(w.V()) == Live(old(w.V()))
    ensures w.inodes[d].typ == old(w.inodes[d].typ) && w.freeInodes == old(w.freeInodes)
    ensures |name| > NAME_MAX ==> r == Err(ENAMETOOLONG) && w.V() == old(w.V())
    ensures IsDir(old(w.V()), d) && |name| <= NAME_MAX ==>
      var es := Entries(old(w.V()), d);
      && (r.Ok? ==> TreeOf(w.V()) == PutEnt(TreeOf(old(w.V())), d, FreeIdx(es, 0), Ent(ino, name)))
      && (r.Err? ==> TreeOf(w.V()) == TreeOf(old(w.V())) && FreeIdx(es, 0) == |es| && |es| % 32 == 0
                     && (|es| < 320 ==> w.owner == old(w.owner)))
    ensures !IsDir(old(w.V()), d) ==> TreeOf(w.V()) == TreeOf(old(w.V()))
    ensures |name| <= NAME_MAX && r.Err? ==> NoSlot(old(w.V()), w.V(), d, r.error)
    ensures |name| <= NAME_MAX && IsDir(old(w.V()), d) ==>
      RecordAccounted(old(w.V()), w.V(), d, SlotAt(old(w.V()), d), r)
  {
    hide Own, DirShape, Untouched, TreeOf, EntOf, RecordOf, NoSlot, RecordAccounted;
    UntouchedRefl(w.V(), d);
    if |name| > NAME_MAX {
      return Err(ENAMETOOLONG);
    }
    var slot := FindSlot(w, d);
    RecordRoundTrip(ino, name);
    r := WriteRecord(w, d, slot, RecordOf(ino, name), now);
  }

  /** The offset of the first record whose inode number is zero, or the end of the file.
      A short read at the end of a plain file leaves the rest of the previous record. */
  method FindSlot(w: Wfs, d: nat) returns (slot: nat)
    requires Good(w) && d in Live(w.V())
    modifies w
    ensures w.V() == old(w.V()) && w.owner == old(w.owner) && slot <= w.inodes[d].size
    ensures IsDir(w.V(), d) ==> slot == DIRENT * FreeIdx(Entries(w.V(), d), 0)
  {
    hide Own, DirShape, CStr, Tidy;
    var size := w.inodes[d].size;
    SizeInRange(w.V(), d);
    if IsDir(w.V(), d) { GoodDirSize(w.V(), d); }
    ghost var es := Entries(w.V(), d);
    var ent: Record := *;
    var k := 0;
    while DIRENT * k < size
      invariant w.V() == old(w.V()) && w.owner == old(w.owner)
      invariant IsDir(w.V(), d) ==> k <= |es| && FreeIdx(es, 0) == FreeIdx(es, k)
    {
      var got := w.Read(d, DIRENT * k, DIRENT);
      ent := got.value + ent[|got.value|..];
      if IsDir(w.V(), d) {
        assert ent == RecordAt(Contents(w.V(), d), k);
      }
      if Le32(ent) == 0 {
        return DIRENT * k;
      }
      k := k + 1;
    }
    return size;
  }

  /** Free the entry called `name`. */
  method DirRemove(w: Wfs, d: nat, name: Name, now: nat) returns (r: Result<()>)
    requires Good(w) && IsDir(w.V(), d)
    modifies w
    ensures Good(w) && Untouched(old(w.V()), w.V(), {d}) && Live(w.V()) == Live(old(w.V()))
    ensures w.inodes[d].typ == Dir && w.freeInodes == old(w.freeInodes)
    ensures var es := Entries(old(w.V()), d);
      var k := FindIdx(es, name, 0);
      if k < |es| then r.Ok? && TreeOf(w.V()) == PutEnt(TreeOf(old(w.V())), d, k, FREE_ENT)
      else r == Err(ENOENT) && w.V() == old(w.V()) && w.owner == old(w.owner)
  {
    hide Own, Tidy, DirShape, Untouched, TreeOf, EntOf;
    UntouchedRefl(w.V(), d);
    GoodDirSize(w.V(), d);
    ghost var es := Entries(w.V(), d);
    var k, size := 0, w.inodes[d].size;
    while DIRENT * k < size
      invariant w.V() == old(w.V()) && w.owner == old(w.owner)
      invariant DIRENT * k <= size && k <= |es| && FindIdx(es, name, 0) == FindIdx(es, name, k)
    {
      var e := ReadRecord(w, d, k);
      if e.ino != 0 && e.name == name {
        FreeRecordIsFree();
        r := WriteRecord(w, d, DIRENT * k, FreeRecord(), now);
        return;
      }
      k := k + 1;
    }
    return Err(ENOENT);
  }
}
