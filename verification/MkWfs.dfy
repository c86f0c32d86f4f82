/** The image builder (tools/mkwfs.c).  It shares only the disk format with the kernel:
    its allocator, block map and directory writer are its own, work on the image in
    place, and stop the program where the kernel would return an error. */
module MkWfs {
  import opened WfsLayout
  import opened WfsVolume
  import opened WfsDriver
  import opened WfsTree
  import opened WfsRecords
  import opened WfsDirs
  import opened WfsPaths
  import opened WfsFs
  import opened WfsRoom
  import opened MkRoom

  const DATA_ROOM_BLOCKS: nat := 256 * 1024
  const INODES_PER_BLOCK: nat := 16

  /* ---- laying out the volume ---- */

  datatype Layout = Layout(imageBlocks: nat, bitmapBlocks: nat, totalInodes: nat, inodeBlocks: nat,
                           dataStart: nat, built: nat)

  /** The layout arithmetic of `main`, in 32-bit words. */
  function LayoutFor(sizeMb: Word): Layout
  {
    LayoutOf(sizeMb * 1024 % WORD_LIMIT)
  }

  function LayoutOf(image: Word): Layout
  {
    var bitmap := (image + 8191) % WORD_LIMIT / 8192;
    var wanted := if image / 32 < 64 then 64 else image / 32;
    var inodes := (wanted + INODES_PER_BLOCK - 1) / INODES_PER_BLOCK * INODES_PER_BLOCK;
    var table := inodes / INODES_PER_BLOCK;
    var room := 1 + bitmap + table + DATA_ROOM_BLOCKS;
    Layout(image, bitmap, inodes, table, 1 + bitmap + table, if room > image then image else room)
  }

  /** Every block has a bit in the bitmap, and the regions fit in the image one after the other. */
  predicate LayoutFits(l: Layout)
  {
    && l.imageBlocks <= 8192 * l.bitmapBlocks && l.totalInodes == INODES_PER_BLOCK * l.inodeBlocks
    && 1 + l.bitmapBlocks + l.inodeBlocks == l.dataStart <= l.built <= l.imageBlocks
  }

  /** The regions are no larger than they have to be: a bit for each block, an inode for each 32 blocks
      but 64 at least, and 256 megabytes of data to be built, or all there is. */
  predicate LayoutIsTight(l: Layout)
  {
    && 8192 * (l.bitmapBlocks - 1) < l.imageBlocks
    && l.imageBlocks < 32 * (l.totalInodes + 1) && 64 <= l.totalInodes
    && (l.imageBlocks >= 2048 ==> 32 * l.totalInodes < l.imageBlocks + 512)
    && (l.imageBlocks < 2048 ==> l.totalInodes == 64)
    && l.built == if l.dataStart + DATA_ROOM_BLOCKS > l.imageBlocks then l.imageBlocks
      else l.dataStart + DATA_ROOM_BLOCKS
  }

  /** The layout is right exactly when rounding the bitmap up does not wrap around, and then it is
      tight; its blocks are those of the size asked for, as far as 32 bits count them. */
  lemma LayoutIsRight(sizeMb: Word)
    ensures LayoutFits(LayoutFor(sizeMb)) <==> 0 < LayoutFor(sizeMb).imageBlocks <= WORD_LIMIT - 8192
    ensures LayoutFits(LayoutFor(sizeMb)) ==> LayoutIsTight(LayoutFor(sizeMb))
    ensures sizeMb < WORD_LIMIT / 1024 ==> LayoutFor(sizeMb).imageBlocks == 1024 * sizeMb
  {
    var image := sizeMb * 1024 % WORD_LIMIT;
    assert image % 1024 == 0;
    if image > WORD_LIMIT - 8192 {
      BitmapEmpty(image);
    } else if image > 0 {
      LayoutOfFits(image);
    }
  }

  lemma LayoutOfFits(image: Word)
    requires 1024 <= image <= WORD_LIMIT - 8192
    ensures LayoutFits(LayoutOf(image)) && LayoutIsTight(LayoutOf(image))
  {
    var l := LayoutOf(image);
    var wanted := if image / 32 < 64 then 64 else image / 32;
    assert (image + 8191) % WORD_LIMIT == image + 8191;
    assert 8192 * ((image + 8191) / 8192) >= image;
    assert l.inodeBlocks == (wanted + 15) / 16;
  }

  lemma BitmapEmpty(image: Word)
    requires image > WORD_LIMIT - 8192
    ensures LayoutOf(image).bitmapBlocks == 0 && !LayoutFits(LayoutOf(image))
  {
    assert (image + 8191) % WORD_LIMIT == image + 8191 - WORD_LIMIT;
  }

  /** One megabyte short of four terabytes the bitmap comes out empty. */
  lemma LayoutWraps()
    ensures LayoutFor(4194303).bitmapBlocks == 0 && !LayoutFits(LayoutFor(4194303))
  {
    hide LayoutOf, LayoutFits;
    assert 4194303 * 1024 % WORD_LIMIT == WORD_LIMIT - 1024;
    BitmapEmpty(WORD_LIMIT - 1024);
  }

  /* ---- the staging tree ---- */

  datatype Entry = Entry(name: Name, node: Host)

  /** What the host's directory listing says: files, directories, and things that are
      neither and are passed over. */
  datatype Host = HostFile(data: seq<Byte>, mtime: nat) | HostDir(entries: seq<Entry>) | Other

  /** What a host file system guarantees of its directories. */
  ghost predicate HostOk(h: Host)
  {
    h.HostDir? ==>
      && (forall q :: 0 <= q < |h.entries| ==>
            h.entries[q].name != [] && 0 !in h.entries[q].name && SLASH !in h.entries[q].name
              && HostOk(h.entries[q].node))
      && (forall q, r :: 0 <= q < r < |h.entries| ==> h.entries[q].name != h.entries[r].name)
  }

  predicate Copied(e: Entry) { !IsDot(e.name) && !e.node.Other? }

  /** How many of the first `q` entries are copied. */
  function Rank(es: seq<Entry>, q: nat): (n: nat)
    requires q <= |es|
  {
    if q == 0 then 0 else Rank(es, q - 1) + if Copied(es[q - 1]) then 1 else 0
  }

  /** The bytes of a host file that reach the image: its length is kept in 32 bits. */
  function Stored(data: seq<Byte>): seq<Byte> { data[..|data| % WORD_LIMIT] }

  /** Inode `i` is the copy of `h`, made of inodes in `s` only: a file with its bytes, a
      directory with one entry for each that was copied, in order, after the dots. */
  ghost predicate Placed(v: Vol, i: nat, h: Host, s: set<nat>)
    decreases h, 1
  {
    && i in s && 0 < i < |v.inodes|
    && match h
       case HostFile(data, mtime) => v.inodes[i].typ == File && Contents(v, i) == Stored(data)
       case HostDir(es) => v.inodes[i].typ == Dir && Holds(v, i, h, |es|, s)
       case Other => false
  }

  /** So the copy of a file is the file exactly if its length fits. */
  lemma StoredWhole(v: Vol, i: nat, data: seq<Byte>, mtime: nat, s: set<nat>)
    requires Placed(v, i, HostFile(data, mtime), s)
    ensures Contents(v, i) == data <==> |data| < WORD_LIMIT
  {
    hide Contents;
    assert |Stored(data)| == |data| % WORD_LIMIT;
  }

  /** The first `n` entries of the host directory `h` are in directory `d`. */
  ghost predicate Holds(v: Vol, d: nat, h: Host, n: nat, s: set<nat>)
    requires h.HostDir? && n <= |h.entries|
    decreases h, 0
  {
    && d < |v.inodes| && |Entries(v, d)| == 2 + Rank(h.entries, n)
    && forall q :: 0 <= q < n && Copied(h.entries[q]) ==> Item(v, d, h.entries[q], 2 + Rank(h.entries, q), s)
  }

  /** Entry `e` is in slot `m` of directory `d`. */
  ghost predicate Item(v: Vol, d: nat, e: Entry, m: nat, s: set<nat>)
    decreases e.node, 2
  {
    && d < |v.inodes| && |e.name| <= NAME_MAX && m < |Entries(v, d)| && Entries(v, d)[m].name == e.name
    && Placed(v, Entries(v, d)[m].ino, e.node, s)
  }

  lemma UntouchedNode(v: Vol, v': Vol, changed: set<nat>, i: nat)
    requires Untouched(v, v', changed) && i !in changed && i < |v.inodes|
    ensures |v'.inodes| == |v.inodes| && v'.inodes[i] == v.inodes[i]
    ensures Contents(v', i) == Contents(v, i) && Entries(v', i) == Entries(v, i)
  {
    hide At, ByteAt, Ents;
    UntouchedContents(v, v', changed, i);
  }

  /** A copy stays one while nothing touches its inodes. */
  lemma {:induction false} PlacedFrame(v: Vol, v': Vol, changed: set<nat>, i: nat, h: Host, s: set<nat>, s': set<nat>)
    requires Placed(v, i, h, s) && Untouched(v, v', changed) && s !! changed && s <= s'
    ensures Placed(v', i, h, s')
    decreases h, 1
  {
    hide Untouched, Entries, Contents;
    UntouchedNode(v, v', changed, i);
    if h.HostDir? { HoldsFrame(v, v', changed, i, h, |h.entries|, s, s'); }
  }

  /** The same for a directory that itself may be changing: its listing has not. */
  lemma {:induction false} HoldsFrame(v: Vol, v': Vol, changed: set<nat>, d: nat, h: Host, n: nat, s: set<nat>,
    s': set<nat>)
    requires h.HostDir? && n <= |h.entries| && Holds(v, d, h, n, s)
    requires Untouched(v, v', changed) && s !! changed && s <= s'
    requires d < |v'.inodes| && Entries(v', d) == Entries(v, d)
    ensures Holds(v', d, h, n, s')
    decreases h, 0
  {
    hide Untouched, Entries, Contents, Rank, Item;
    forall q | 0 <= q < n && Copied(h.entries[q]) ensures Item(v', d, h.entries[q], 2 + Rank(h.entries, q), s') {
      ItemFrame(v, v', changed, d, h.entries[q], 2 + Rank(h.entries, q), s, s');
    }
  }

  lemma {:induction false} ItemFrame(v: Vol, v': Vol, changed: set<nat>, d: nat, e: Entry, m: nat, s: set<nat>,
    s': set<nat>)
    requires Item(v, d, e, m, s) && Untouched(v, v', changed) && s !! changed && s <= s'
    requires d < |v'.inodes| && Entries(v, d) <= Entries(v', d)
    ensures Item(v', d, e, m, s')
    decreases e.node, 2
  {
    hide Untouched, Entries, Contents, Placed;
    PlacedFrame(v, v', changed, Entries(v, d)[m].ino, e.node, s, s');
  }

  /* ---- the builder ---- */

  class Builder {
    const imageBlocks: nat
    const dataStart: nat
    const built: nat
    var freeBlocks: nat
    var freeInodes: nat
    var bitmap: seq<bool>
    var inodes: seq<Inode>
    var disk: seq<Block>
    ghost var owner: Owner

    /** An empty volume: nothing but the metadata blocks is in use. */
    constructor (l: Layout)
      requires LayoutFits(l) && l.imageBlocks < WORD_LIMIT && ROOT_INO < l.totalInodes <= WORD_LIMIT
      ensures Sound() && Live(V()) == {} && |inodes| == l.totalInodes && imageBlocks == l.imageBlocks
      ensures dataStart == l.dataStart && built == l.built
      ensures freeInodes == l.totalInodes - 1 && Room(V(), built) == l.built - l.dataStart
    {
      imageBlocks, dataStart, built := l.imageBlocks, l.dataStart, l.built;
      freeBlocks, freeInodes := l.imageBlocks - l.dataStart, l.totalInodes - ROOT_INO;
      bitmap := seq(l.imageBlocks, b => false);
      inodes := seq(l.totalInodes, i => ZeroInode());
      disk := seq(l.imageBlocks, b => ZeroBlock());
      owner := map[];
      new;
      for b := 0 to dataStart
        invariant |bitmap| == |disk| == l.imageBlocks && |inodes| == l.totalInodes
        invariant freeBlocks == l.imageBlocks - l.dataStart && freeInodes == l.totalInodes - ROOT_INO && owner == map[]
        invariant forall i :: 0 <= i < |inodes| ==> inodes[i] == ZeroInode()
        invariant forall c :: 0 <= c < |bitmap| ==> bitmap[c] == (c < b)
      {
        bitmap := bitmap[b := true];
      }
      BlankVolume(V());
    }

    function V(): Vol
      reads this
    {
      Vol(dataStart, freeBlocks, freeInodes, bitmap, inodes, disk)
    }

    ghost predicate Laid()
      reads this
    {
      Own(V(), owner) && InRam(V(), built) && dataStart <= built <= |disk| == imageBlocks
    }

    ghost predicate Sound()
      reads this
    {
      Laid() && Tidy(V()) && DirShape(V())
    }

    /** The first free data block, marked and zeroed; stops when there is none in memory. */
    method BlockAlloc() returns (ok: bool, b: nat)
      requires Laid()
      modifies this
      ensures owner == old(owner) && (!ok ==> Room(old(V()), built) == 0)
      ensures ok ==> old(freeBlocks) > 0 && b in FreeSet(old(V())) && V() == Claimed(old(V()), b) && b < built
      ensures ok ==> forall c :: c in FreeSet(old(V())) ==> b <= c
    {
      hide At, Claims;
      RoomIs(V(), owner, built);
      ghost var left := FreeInRam(V(), built);
      b := dataStart;
      while b < |disk|
        invariant dataStart <= b <= |disk| && V() == old(V()) && owner == old(owner)
        invariant forall c :: dataStart <= c < b ==> bitmap[c]
      {
        if !bitmap[b] {
          FreeIsPositive(V(), b);
          bitmap := bitmap[b := true];
          freeBlocks := freeBlocks - 1;
          if b >= built {
            assert left == {};
            return false, 0;
          }
          disk := disk[b := ZeroBlock()];
          return true, b;
        }
        b := b + 1;
      }
      assert left == {};
      ok := false;
    }

    /** Fill in a slot of the inode itself if it is empty. */
    method FillSlot(ino: nat, s: Slot) returns (ok: bool)
      requires Laid() && ino < |inodes| && InInode(s) && ValidSlot(s)
      modifies this
      ensures ok ==> Laid() && |inodes| == |old(inodes)| && Extends(old(V()), V(), ino) && At(V(), ino, s) != 0
      ensures ok ==> Took(old(V()), V(), ino, if At(old(V()), ino, s) == 0 then {s} else {})
      ensures !ok ==> At(old(V()), ino, s) == 0 && Room(old(V()), built) == 0
    {
      hide At, Own, Extends, Took;
      ghost var v := V();
      ExtendsRefl(v, ino);
      OwnFacts(v, owner);
      AtInInode(v, ino, s);
      TookNone(v, v, ino);
      if InodeSlot(inodes[ino], s) != 0 {
        return true;
      }
      var b;
      ok, b := BlockAlloc();
      if !ok {
        return;
      }
      LinkInInode(v, owner, ino, s, b);
      inodes := inodes[ino := SetInodeSlot(inodes[ino], s, b)];
      inodes := inodes[ino := inodes[ino].(blocks := inodes[ino].blocks + 1)];
      owner := owner[b := (ino, s)];
      assert V() == LinkedInInode(v, ino, s, b);
      TookOne(v, V(), ino, s);
    }

    /** The block named by slot `index` of the pointer block, allocated if it is not there. */
    method TableSlot(ino: nat, ghost s: Slot, table: nat, index: nat) returns (ok: bool, b: nat)
      requires Laid() && ino < |inodes| && !InInode(s) && ValidSlot(s)
      requires table == At(V(), ino, Holder(s)) != 0 && index == Index(s)
      modifies this
      ensures ok ==> Laid() && |inodes| == |old(inodes)| && Extends(old(V()), V(), ino) && b == At(V(), ino, s) != 0
      ensures ok ==> Took(old(V()), V(), ino, if At(old(V()), ino, s) == 0 then {s} else {})
      ensures !ok ==> At(old(V()), ino, s) == 0 && Room(old(V()), built) == 0
    {
      hide At, Own, Extends, WordAt, SetWord, Took;
      ghost var v := V();
      TookNone(v, v, ino);
      ExtendsRefl(v, ino);
      OwnFacts(v, owner);
      EntryAt(v, owner, ino, s);
      HeldInRam(v, owner, ino, Holder(s), built);      // so the test on its number passes
      b := WordAt(disk[table], index);
      ok := true;
      if b == 0 {
        ok, b := BlockAlloc();
        if !ok {
          return;
        }
        LinkInTable(v, owner, ino, s, b);
        disk := disk[table := SetWord(disk[table], index, b)];
        inodes := inodes[ino := inodes[ino].(blocks := inodes[ino].blocks + 1)];
        owner := owner[b := (ino, s)];
        assert V() == LinkedInTable(v, ino, table, index, b);
        TookOne(v, V(), ino, s);
      }
    }

    /** File-relative block index to disk block, allocating as needed: the block the
        kernel's own map finds at that index. */
    method Bmap(ino: nat, index: nat) returns (ok: bool, b: nat)
      requires Laid() && ino < |inodes|
      modifies this
      ensures ok ==> Laid() && |inodes| == |old(inodes)| && Extends(old(V()), V(), ino) && index < MAX_INDEX
      ensures ok ==> b == Map(V(), ino, index) != 0
      ensures index < MAX_INDEX ==> RamMapped(old(V()), V(), ino, index, built, ok)
    {
      hide At, Own, Extends, Took, RamMapped, Chain;
      if index < DIRECT {
        ok, b := BmapDirect(ino, index);
        return;
      }
      var i := index - DIRECT;
      if i < PTRS {
        ok, b := BmapIndirect(ino, i);
        return;
      }
      i := i - PTRS;
      if i >= PTRS * PTRS {
        return false, 0;
      }
      ok, b := BmapDouble(ino, i);
    }

    method BmapDirect(ino: nat, index: nat) returns (ok: bool, b: nat)
      requires Laid() && ino < |inodes| && index < DIRECT
      modifies this
      ensures ok ==> Laid() && |inodes| == |old(inodes)| && Extends(old(V()), V(), ino)
      ensures ok ==> b == At(V(), ino, Direct(index)) != 0
      ensures RamMapped(old(V()), V(), ino, index, built, ok)
    {
      hide At, Own, Extends, Took, RamMapped;
      ghost var v := V();
      OwnFacts(v, owner);
      ok := FillSlot(ino, Direct(index));
      if !ok {
        NotRamMapped(v, v, ino, {}, Direct(index), index, built);
        return false, 0;
      }
      MappedDirect(v, V(), ino, index, true);
      WasMapped(v, V(), ino, index, built);
      AtInInode(V(), ino, Direct(index));
      b := inodes[ino].direct[index];
    }

    method BmapIndirect(ino: nat, i: nat) returns (ok: bool, b: nat)
      requires Laid() && ino < |inodes| && i < PTRS
      modifies this
      ensures ok ==> Laid() && |inodes| == |old(inodes)| && Extends(old(V()), V(), ino)
      ensures ok ==> b == At(V(), ino, IndirectEntry(i)) != 0
      ensures RamMapped(old(V()), V(), ino, DIRECT + i, built, ok)
    {
      hide At, Own, Extends, Took, RamMapped;
      ghost var v, k := V(), DIRECT + i;
      OwnFacts(v, owner);
      ok := FillSlot(ino, Indirect);
      if !ok {
        NotRamMapped(v, v, ino, {}, Indirect, k, built);
        return false, 0;
      }
      ghost var v1 := V();
      OwnFacts(v1, owner);
      AtInInode(v1, ino, Indirect);
      ok, b := TableSlot(ino, IndirectEntry(i), inodes[ino].indirect, i);
      if ok {
        ExtendsTrans(v, v1, V(), ino);
        MappedIndirect(v, v1, V(), ino, i);
        WasMapped(v, V(), ino, k, built);
      } else {
        NotRamMapped(v, v1, ino, if At(v, ino, Indirect) == 0 then {Indirect} else {}, IndirectEntry(i), k, built);
      }
    }

    method BmapDouble(ino: nat, i: nat) returns (ok: bool, b: nat)
      requires Laid() && ino < |inodes| && i < PTRS * PTRS
      modifies this
      ensures ok ==> Laid() && |inodes| == |old(inodes)| && Extends(old(V()), V(), ino)
      ensures ok ==> b == At(V(), ino, DoubleEntry(i / PTRS, i % PTRS)) != 0
      ensures RamMapped(old(V()), V(), ino, DIRECT + PTRS + i, built, ok)
    {
      hide At, Own, Extends, Took, RamMapped;
      ghost var v, k := V(), DIRECT + PTRS + i;
      OwnFacts(v, owner);
      ok := FillSlot(ino, Double);
      if !ok {
        NotRamMapped(v, v, ino, {}, Double, k, built);
        return false, 0;
      }
      ghost var v1 := V();
      ghost var a := if At(v, ino, Double) == 0 then {Double} else {};
      OwnFacts(v1, owner);
      AtInInode(v1, ino, Double);
      var middle;
      ok, middle := TableSlot(ino, Middle(i / PTRS), inodes[ino].double, i / PTRS);
      if !ok {
        NotRamMapped(v, v1, ino, a, Middle(i / PTRS), k, built);
        return false, 0;
      }
      ghost var v2 := V();
      ghost var c := if At(v1, ino, Middle(i / PTRS)) == 0 then {Middle(i / PTRS)} else {};
      OwnFacts(v2, owner);
      TookTrans(v, v1, v2, ino, a, c);
      ExtendsAt(v1, v2, ino, Double);
      ExtendsTrans(v, v1, v2, ino);
      ok, b := TableSlot(ino, DoubleEntry(i / PTRS, i % PTRS), middle, i % PTRS);
      if ok {
        ExtendsTrans(v, v2, V(), ino);
        MappedDouble(v, v2, V(), ino, i, a + c);
        WasMapped(v, V(), ino, k, built);
      } else {
        NotRamMapped(v, v2, ino, a + c, DoubleEntry(i / PTRS, i % PTRS), k, built);
      }
    }

    /** Write all of `data` at `offset`. */
    method FileWrite(ino: nat, offset: nat, data: seq<Byte>) returns (ok: bool)
      requires Laid() && Tidy(V()) && 0 < ino < |inodes| && !inodes[ino].typ.Free? && offset <= inodes[ino].size
      modifies this
      ensures ok ==>
        Laid() && Tidy(V()) && |inodes| == |old(inodes)| && Wrote(old(V()), V(), ino, offset, data, |data|)
      ensures RamWrote(old(V()), V(), ino, offset, |data|, built, ok)
    {
      hide Own, Tidy, At, Progress, Wrote, Took, AllGaps, RamMapped, RamWrote;
      ghost var v0 := V();
      SizeInRange(v0, ino);
      var done := 0;
      ProgressStart(v0, ino, offset, data);
      ghost var lo, hi := offset / BLOCK_SIZE, BlocksUpTo(offset + |data|);
      ghost var at := lo;
      TookStart(v0, ino, lo);
      while done < |data|
        invariant done <= |data| && Laid() && |inodes| == |v0.inodes| && offset + done <= MAX_FILE_SIZE
        invariant Progress(v0, V(), ino, offset, data, done)
        invariant done == 0 || done == |data| || (offset + done) % BLOCK_SIZE == 0
        invariant at >= lo && (done < |data| ==> at == (offset + done) / BLOCK_SIZE)
        invariant done == |data| ==> at == if data == [] then lo else hi
        invariant Took(v0, V(), ino, AllGaps(v0, ino, lo, at))
      {
        ghost var v1 := V();
        var inpos := (offset + done) % BLOCK_SIZE;
        var chunk := BLOCK_SIZE - inpos;
        if chunk > |data| - done { chunk := |data| - done; }
        ok := PutChunk(v0, ino, offset, data, done, chunk);
        if !ok {
          if offset + |data| > MAX_FILE_SIZE { TooLong(v0, V(), ino, offset, |data|, built); }
            else { RamShort(v0, v1, V(), ino, offset, |data|, at, built); }
          return;
        }
        RamIsMapped(v1, V(), ino, at, built);
        AccountOn(v0, v1, V(), ino, lo, at);
        ChunkEnds(offset + done, chunk);
        done := done + chunk;
        at := at + 1;
      }
      ghost var v, n := V(), inodes[ino];
      OwnFacts(v, owner);
      ProgressInode(v0, v, ino, offset, data, done);
      if offset + |data| > inodes[ino].size {
        inodes := inodes[ino := inodes[ino].(size := offset + |data|)];
      }
      WriteDone(v0, v, owner, ino, offset, data, done, inodes[ino]);
      MetaWrite(v, owner, ino, inodes[ino]);
      assert V() == v.(inodes := v.inodes[ino := inodes[ino]]);
      RamDone(v0, v, V(), ino, offset, |data|, built);
      ok := true;
    }

    /** One turn of the write loop. */
    method PutChunk(ghost v0: Vol, ino: nat, offset: nat, data: seq<Byte>, done: nat, chunk: nat) returns (ok: bool)
      requires Laid() && ino < |inodes| && done + chunk <= |data| && 0 < chunk
      requires (offset + done) % BLOCK_SIZE + chunk <= BLOCK_SIZE && Progress(v0, V(), ino, offset, data, done)
      modifies this
      ensures ok ==> Laid() && |inodes| == |old(inodes)| && Progress(v0, V(), ino, offset, data, done + chunk)
      ensures ok ==> offset + done + chunk <= MAX_FILE_SIZE
      ensures (offset + done) / BLOCK_SIZE < MAX_INDEX ==>
        RamMapped(old(V()), V(), ino, (offset + done) / BLOCK_SIZE, built, ok)
    {
      hide Own, At, ByteAt, Extends, Patched, Progress, RamMapped, Took;
      ghost var v := V();
      var index, inpos := (offset + done) / BLOCK_SIZE, (offset + done) % BLOCK_SIZE;
      var b;
      ok, b := Bmap(ino, index);
      if !ok {
        return;
      }
      MapInRam(V(), owner, ino, index, built);
      ProgressGrow(v0, v, V(), ino, offset, data, done);
      ProgressChunk(v0, V(), owner, ino, offset, data, done, chunk);
      RamIsMapped(v, V(), ino, index, built);
      MappedPatched(v, V(), owner, ino, index, Patched(disk[b], inpos, data[done..done + chunk]));
      disk := disk[b := Patched(disk[b], inpos, data[done..done + chunk])];
      WasMapped(v, V(), ino, index, built);
    }

    /** The first free inode, blank but for its type; stops when there is none. */
    method InodeAlloc(typ: FileType, now: nat) returns (ok: bool, i: nat)
      requires Sound() && typ != Free
      modifies this
      ensures owner == old(owner) && |inodes| == |old(inodes)| && (!ok ==> V() == old(V()) && freeInodes == 0)
      ensures ok ==>
        && Sound() && 0 < i < |inodes| && i !in Live(old(V())) && inodes[i].typ == typ && inodes[i].size == 0
        && (forall j :: 0 < j < i ==> j in Live(old(V()))) && Untouched(old(V()), V(), {i})
        && Spent(old(V()), V(), 1, 0) && Filled(V(), i, 0)
        && TreeOf(V()) == Tree(Live(old(V())) + {i}, if typ == Dir then TreeOf(old(V())).dirs[i := []]
          else TreeOf(old(V())).dirs)
    {
      hide Own, Tidy, DirShape, TreeOf, Untouched;
      ghost var v := V();
      i := ROOT_INO;
      while i < |inodes|
        invariant 1 <= i && V() == v && owner == old(owner)
        invariant forall j :: 0 < j < i ==> j in Live(v)
      {
        if inodes[i].typ.Free? {
          FreeInodePositive(v, i);
          var n := ZeroInode().(typ := typ, links := 1, mtime := now);
          inodes := inodes[i := n];
          freeInodes := freeInodes - 1;
          BlankTidy(v, owner, i, n, V());
          OnlyFileUntouched(v, V(), i);
          ShapeAfterInode(v, V(), i);
          TreeAfterAlloc(v, V(), i);
          BlankIsBlank(V(), i);
          FilledNone(V(), i);
          return true, i;
        }
        i := i + 1;
      }
      NoneFree(v);
      ok := false;
    }

    /** Append an entry to a directory. */
    method DirAdd(d: nat, name: Name, ino: Word) returns (ok: bool)
      requires Sound() && IsDir(V(), d) && 0 !in name && Packed(V(), d)
      modifies this
      ensures ok ==> Sound() && |name| <= NAME_MAX && |inodes| == |old(inodes)| && IsDir(V(), d)
      ensures ok ==> Untouched(old(V()), V(), {d}) && Live(V()) == Live(old(V()))
      ensures ok ==> Entries(V(), d) == Entries(old(V()), d) + [Ent(ino, name)]
      ensures ok ==> TreeOf(V()) == PutEnt(TreeOf(old(V())), d, |Entries(old(V()), d)|, Ent(ino, name))
      ensures ok ==> Spent(old(V()), V(), 0, SlotCost(|Entries(old(V()), d)|)) && NameFits(old(V()), d, name)
      ensures ok ==> Packed(V(), d)
      ensures !ok && NameFits(old(V()), d, name) ==> Short(old(V()), built, 0, SlotCost(|Entries(old(V()), d)|))
    {
      hide Own, Tidy, DirShape, TreeOf, Untouched, Wrote, RecordOf, EntOf, RamWrote, Entries, Packed, SlotCost,
        Spent, Short, PutEnt;
      if |name| > NAME_MAX {
        return false;
      }
      ghost var v := V();
      GoodDirSize(v, d);
      DirLength(v, d);
      ok := FileWrite(d, inodes[d].size, RecordOf(ino, name));
      if ok {
        RecordRoundTrip(ino, name);
        AppendRecord(v, V(), d, RecordOf(ino, name));
        WroteCounts(v, V(), d, v.inodes[d].size, RecordOf(ino, name));
      }
      RecordSpent(v, V(), d, built, ok);
    }

    /** A new inode with "." and "..", not yet named anywhere. */
    method NewDir(parent: nat, now: nat) returns (ok: bool, i: nat)
      requires Sound() && parent < |inodes|
      modifies this
      ensures ok ==> Sound() && |inodes| == |old(inodes)| && 0 < i < |inodes| && i !in Live(old(V()))
      ensures ok ==>
        (forall j :: 0 < j < i ==> j in Live(old(V()))) && IsDir(V(), i) && Live(V()) == Live(old(V())) + {i}
      ensures ok ==> Untouched(old(V()), V(), {i})
      ensures ok ==> TreeOf(V()) == NewNode(TreeOf(old(V())), i, true, parent)
      ensures ok ==> Entries(V(), i) == [Ent(i, DOT), Ent(parent, DOTDOT)]
      ensures ok ==> Spent(old(V()), V(), 1, DirCost(2)) && Packed(V(), i)
      ensures !ok ==> Short(old(V()), built, 1, DirCost(2))
    {
      hide Own, Tidy, DirShape, TreeOf, Untouched, Entries, Filled, SlotCost, DirCost;
      DotsCost();
      OwnFacts(V(), owner);
      ghost var v, t := V(), TreeOf(V());
      TreeLive(v);
      ok, i := InodeAlloc(Dir, now);
      if !ok {
        return;
      }
      ghost var v1, t1 := V(), TreeOf(V());
      EntriesInTree(v1, i);
      TreeLive(v1);
      RoomIs(v1, owner, built);
      ok := DirAdd(i, DOT, i);
      if !ok {
        return;
      }
      ghost var v2 := V();
      UntouchedTrans(v, v1, v2, {i}, {i});
      assert {i} + {i} == {i};
      EntriesInTree(v2, i);
      assert TreeOf(v2).dirs[i] == [Ent(i, DOT)];
      assert TreeOf(v2).dirs == t.dirs[i := [Ent(i, DOT)]];
      ok := DirAdd(i, DOTDOT, parent);
      if !ok {
        return;
      }
      UntouchedTrans(v, v2, V(), {i}, {i});
      EntriesInTree(V(), i);
      assert TreeOf(V()).dirs[i] == [Ent(i, DOT), Ent(parent, DOTDOT)];
      assert TreeOf(V()).dirs == t.dirs[i := [Ent(i, DOT), Ent(parent, DOTDOT)]];
      TreeLive(V());
    }

    method MakeDir(parent: nat, name: Name, now: nat) returns (ok: bool, i: nat)
      requires Sound() && IsTree(TreeOf(V())) && Unused(V(), parent, name) && Packed(V(), parent)
      modifies this
      ensures ok ==> Sound() && Added(old(V()), V(), parent, i, name) && IsDir(V(), i) && |name| <= NAME_MAX
      ensures ok ==> Entries(V(), i) == [Ent(i, DOT), Ent(parent, DOTDOT)]
      ensures ok ==> Packed(V(), parent) && Packed(V(), i) && NameFits(old(V()), parent, name)
      ensures ok ==> Spent(old(V()), V(), 1, DirCost(2) + SlotCost(|Entries(old(V()), parent)|))
      ensures !ok && NameFits(old(V()), parent, name) ==>
        Short(old(V()), built, 1, DirCost(2) + SlotCost(|Entries(old(V()), parent)|))
    {
      hide Own, Tidy, DirShape, TreeOf, IsTree, Untouched, Entries, Filled, SlotCost, DirCost;
      OwnFacts(V(), owner);
      ghost var v := V();
      SlotCostIs(|Entries(v, parent)|);
      ok, i := NewDir(parent, now);
      if !ok {
        return;
      }
      PackedKept(v, V(), {i}, parent);
      ok := NameIt(v, true, parent, name, i);
    }

    /** Give the new inode `i` its name. */
    method NameIt(ghost v: Vol, ghost isDir: bool, parent: nat, name: Name, i: nat) returns (ok: bool)
      requires Sound() && |inodes| == |v.inodes| && IsTree(TreeOf(v)) && Unused(v, parent, name)
      requires 0 < i < |inodes| && i !in Live(v) && Live(V()) == Live(v) + {i} && Untouched(v, V(), {i})
      requires TreeOf(V()) == NewNode(TreeOf(v), i, isDir, parent) && Packed(V(), parent)
      modifies this
      ensures ok ==> Sound() && Added(v, V(), parent, i, name)
      ensures ok ==>
        inodes[i] == old(inodes)[i] && Contents(V(), i) == Contents(old(V()), i)
        && Entries(V(), i) == Entries(old(V()), i)
      ensures ok ==> |name| <= NAME_MAX && NameFits(v, parent, name) && Packed(V(), parent)
      ensures ok ==> Spent(old(V()), V(), 0, SlotCost(|Entries(v, parent)|)) && (Packed(old(V()), i) ==> Packed(V(), i))
      ensures !ok && NameFits(v, parent, name) ==> Short(old(V()), built, 0, SlotCost(|Entries(v, parent)|))
    {
      hide Own, Tidy, DirShape, TreeOf, IsTree, Untouched, Entries, Packed, SlotCost;
      OwnFacts(V(), owner);
      ghost var v1 := V();
      UntouchedNode(v, v1, {i}, parent);
      ok := DirAdd(parent, name, i);
      if ok {
        UntouchedNode(v1, V(), {parent}, i);
        if Packed(v1, i) { PackedKept(v1, V(), {parent}, i); }
        UntouchedTrans(v, v1, V(), {i}, {parent});
        UntouchedMore(v, V(), {i} + {parent}, {parent} + Spare(v));
        NamedTree(v, parent, name, i, isDir);
      }
    }

    method AddHostFile(parent: nat, name: Name, data: seq<Byte>, mtime: nat, now: nat) returns (ok: bool, i: nat)
      requires Sound() && IsTree(TreeOf(V())) && Unused(V(), parent, name) && Packed(V(), parent)
      modifies this
      ensures ok ==> Sound() && Added(old(V()), V(), parent, i, name) && |name| <= NAME_MAX
      ensures ok ==> Placed(V(), i, HostFile(data, mtime), {i})
      ensures ok ==> Packed(V(), parent) && NameFits(old(V()), parent, name) && |Stored(data)| <= MAX_FILE_SIZE
      ensures ok ==> Spent(old(V()), V(), 1, FileCost(data) + SlotCost(|Entries(old(V()), parent)|))
      ensures !ok && NameFits(old(V()), parent, name) && |Stored(data)| <= MAX_FILE_SIZE ==>
        Short(old(V()), built, 1, FileCost(data) + SlotCost(|Entries(old(V()), parent)|))
    {
      hide Own, Tidy, DirShape, TreeOf, IsTree, Untouched, Entries, SlotCost, Packed, Cost, NewNode, Contents;
      var size := |data| % WORD_LIMIT;
      if size > MAX_FILE_SIZE {
        return false, 0;
      }
      ghost var v := V();
      SlotCostIs(|Entries(v, parent)|);
      ok, i := NewFile(parent, data[..size], mtime, now);
      if !ok {
        return;
      }
      PackedKept(v, V(), {i}, parent);
      ok := NameIt(v, false, parent, name, i);
    }

    /** A file with its bytes, not yet named anywhere. */
    method NewFile(ghost parent: nat, data: seq<Byte>, mtime: nat, now: nat) returns (ok: bool, i: nat)
      requires Sound() && |data| <= MAX_FILE_SIZE
      modifies this
      ensures ok ==> Sound() && |inodes| == |old(inodes)| && 0 < i < |inodes| && i !in Live(old(V()))
      ensures ok ==> Untouched(old(V()), V(), {i}) && inodes[i].typ == File && Contents(V(), i) == data
      ensures ok ==> TreeOf(V()) == NewNode(TreeOf(old(V())), i, false, parent) && Live(V()) == Live(old(V())) + {i}
      ensures ok ==> Spent(old(V()), V(), 1, Cost(|data|))
      ensures !ok ==> Short(old(V()), built, 1, Cost(|data|))
    {
      hide Own, Tidy, DirShape, TreeOf, Untouched, Filled, Cost, Contents;
      ghost var v := V();
      TreeLive(v);
      ok, i := InodeAlloc(File, now);
      if !ok {
        return;
      }
      ghost var v1 := V();
      TreeLive(v1);
      ok := FillFile(i, data, mtime);
      if !ok {
        return;
      }
      TreeLive(V());
      UntouchedTrans(v, v1, V(), {i}, {i});
      assert {i} + {i} == {i};
    }

    method FillFile(i: nat, data: seq<Byte>, mtime: nat) returns (ok: bool)
      requires Sound() && |data| <= MAX_FILE_SIZE && 0 < i < |inodes| && inodes[i].typ == File && inodes[i].size == 0
      requires Filled(V(), i, 0)
      modifies this
      ensures ok ==> Sound() && |inodes| == |old(inodes)| && Untouched(old(V()), V(), {i}) && inodes[i].typ == File
      ensures ok ==> TreeOf(V()) == TreeOf(old(V())) && Contents(V(), i) == data
      ensures ok ==> Spent(old(V()), V(), 0, Cost(|data|))
      ensures !ok ==> Short(old(V()), built, 0, Cost(|data|))
    {
      hide Own, Tidy, DirShape, TreeOf, Untouched, Wrote, RamWrote, Filled, Cost;
      ghost var v1 := V();
      if |data| > 0 {
        ok := FileWrite(i, 0, data);
        FileSpent(v1, V(), i, |data|, built, ok);
        if !ok {
          return;
        }
        WroteCounts(v1, V(), i, 0, data);
        FileFilled(v1, V(), i, data);
      } else {
        UntouchedRefl(v1, i);
        FilledNone0();
      }
      ghost var v2 := V();
      var n := inodes[i].(size := |data|, mtime := if mtime > 0 then mtime else inodes[i].mtime);
      Restamped(v2, owner, i, n);
      inodes := inodes[i := n];
      UntouchedTrans(v1, v2, V(), {i}, {i});
      assert {i} + {i} == {i};
      ok := true;
    }

    /** Copy entry `q` of a host directory. */
    method AddEntry(ghost v0: Vol, d: nat, h: Host, q: nat, now: nat) returns (ok: bool)
      requires Sound() && h.HostDir? && HostOk(h) && q < |h.entries| && Copying(v0, V(), d, h, q) && Packed(V(), d)
      modifies this
      ensures ok ==> Sound() && Copying(v0, V(), d, h, q + 1) && Packed(V(), d) && EntryFits(h.entries, q)
      ensures ok ==> Spent(old(V()), V(), EntryNodes(h.entries[q]), EntryCost(h.entries, q))
      ensures !ok && EntryFits(h.entries, q) ==>
        Short(old(V()), built, EntryNodes(h.entries[q]), EntryCost(h.entries, q))
      decreases h, 0
    {
      hide Own, Tidy, DirShape, TreeOf, IsTree, Untouched, Entries, Holds, Placed, Rank, SlotCost, DirCost, Filled,
        NodesBelow, CostBelow;
      var e := h.entries[q];
      ghost var v := V();
      if IsDot(e.name) || e.node.Other? {
        CopyingSkip(v0, v, d, h, q);
        return true;
      }
      CopyingUnused(v0, v, d, h, q);
      CopyingSlot(v0, v, d, h, q);
      var i;
      if e.node.HostDir? {
        TreeCostIs(e.node);
        ok, i := MakeDir(d, e.name, now);
        if !ok {
          return;
        }
        ghost var v1 := V();
        ok := AddHostDir(i, e.node, now);
        if ok {
          CopyingDir(v0, v, v1, V(), d, h, q, i);
          CopyingPacked(v1, V(), i, e.node, d);
        }
      } else {
        ok, i := AddHostFile(d, e.name, e.node.data, e.node.mtime, now);
        if ok { CopyingFile(v0, v, V(), d, h, q, i); }
      }
    }

    /** Copy a host directory into the new directory `d`. */
    method AddHostDir(d: nat, h: Host, now: nat) returns (ok: bool)
      requires Sound() && IsTree(TreeOf(V())) && h.HostDir? && HostOk(h) && OnlyDots(V(), d) && Packed(V(), d)
      modifies this
      ensures ok ==> Sound() && Copying(old(V()), V(), d, h, |h.entries|) && HostFits(h)
      ensures ok ==> Spent(old(V()), V(), NodesBelow(h.entries, |h.entries|), TreeCost(h) - DirCost(2))
      ensures !ok ==>
        !HostFits(h) || Short(old(V()), built, NodesBelow(h.entries, |h.entries|), TreeCost(h) - DirCost(2))
      decreases h, 1
    {
      hide Own, Tidy, DirShape, TreeOf, IsTree, Untouched, Entries, Copying, Packed, HostFits, Rank, DirCost, EntryFits,
        EntryCost, CostSoFar, NodesBelow, Nodes, TreeCost, EntryNodes;
      ghost var v0 := V();
      CopyingStart(v0, d, h);
      NothingSoFar(h.entries);
      for q := 0 to |h.entries|
        invariant Sound() && Copying(v0, V(), d, h, q) && Packed(V(), d) && forall r :: 0 <= r < q ==>
          EntryFits(h.entries, r)
        invariant Spent(v0, V(), NodesBelow(h.entries, q), CostSoFar(h.entries, q))
      {
        ghost var v := V();
        RoomIs(v, owner, built);
        ok := AddEntry(v0, d, h, q, now);
        if !ok {
          NotAll(h, q, v0, v, built);
          return;
        }
        SoFarOn(h.entries, q);
      }
      CopyingPackedFits(v0, V(), d, h);
      AllSoFar(h);
      ok := true;
    }

    /** The root directory, and the staging tree in it. */
    method Stage(staging: Host, now: nat) returns (ok: bool)
      requires Sound() && Live(V()) == {} && ROOT_INO < |inodes| && staging.HostDir? && HostOk(staging)
      modifies this
      ensures ok ==> Sound() && IsTree(TreeOf(V())) && Placed(V(), ROOT_INO, staging, Live(V()))
      ensures ok <==>
        HostFits(staging) && old(freeInodes) >= Nodes(staging) && Room(old(V()), built) >= TreeCost(staging)
    {
      hide Own, Tidy, DirShape, TreeOf, IsTree, Untouched, Entries, Placed, Packed, HostFits, TreeCost, Nodes, DirCost,
        Copying;
      EmptyTree(V());
      TreeCostIs(staging);
      ghost var blank := V();
      var root;
      ok, root := NewDir(ROOT_INO, now);
      if !ok {
        return;
      }
      assert ROOT_INO !in Live(blank);
      assert root == ROOT_INO;         // the first free inode, as the tool insists
      ghost var v := V();
      RootIsTree();
      ok := AddHostDir(root, staging, now);
      if !ok {
        return;
      }
      RoomIs(V(), owner, built);
      StagedAtRoot(v, V(), staging);
    }
  }

  lemma TooLong(v: Vol, v': Vol, i: nat, offset: nat, n: nat, built: nat)
    requires offset + n > MAX_FILE_SIZE
    ensures RamWrote(v, v', i, offset, n, built, false)
  {
  }

  lemma NoneFree(v: Vol)
    requires Tidy(v) && forall j :: 0 < j < |v.inodes| ==> j in Live(v)
    ensures v.freeInodes == 0
  {
    assert forall i <- FreeInodes(v) :: i in Live(v);
    assert FreeInodes(v) == {};
  }

  /** What entry `n` of a directory takes, beyond those before it. */
  function SlotCost(n: nat): int
  {
    if DIRENT * (n + 1) <= MAX_FILE_SIZE then Cost(DIRENT * (n + 1)) - Cost(DIRENT * n) else 0
  }

  lemma RecordSpent(v: Vol, v': Vol, d: nat, built: nat, ok: bool)
    requires Packed(v, d) && (ok ==> |v'.disk| == |v.disk| && v'.freeInodes == v.freeInodes)
    requires RamWrote(v, v', d, DIRENT * |Entries(v, d)|, DIRENT, built, ok)
    ensures var n := |Entries(v, d)|;
      if ok
      then
        && Spent(v, v', 0, SlotCost(n)) && DIRENT * (n + 1) <= MAX_FILE_SIZE
        && (|v'.inodes| == |v.inodes| && |Entries(v', d)| == n + 1 ==> Packed(v', d))
      else DIRENT * (n + 1) <= MAX_FILE_SIZE ==> Short(v, built, 0, SlotCost(n))
  {
    hide Entries, Took, Gaps, WriteGaps, Cost, Filled;
    var n := |Entries(v, d)|;
    if DIRENT * (n + 1) <= MAX_FILE_SIZE {
      RecordInBlock(v, d, DIRENT * n);
      FilledOn(v, v', d, DIRENT * n);
    }
  }

  lemma WroteCounts(v: Vol, v': Vol, i: nat, offset: nat, data: seq<Byte>)
    requires Wrote(v, v', i, offset, data, |data|)
    ensures v'.freeInodes == v.freeInodes && |v'.disk| == |v.disk|
  {
  }

  /** There is room in a record for the name, and in the directory for the record. */
  ghost predicate NameFits(v: Vol, d: nat, name: Name)
    requires d < |v.inodes|
  {
    |name| <= NAME_MAX && DIRENT * (|Entries(v, d)| + 1) <= MAX_FILE_SIZE
  }

  /** A staging tree with nothing in it too long or too large for the file system. */
  predicate HostFits(h: Host)
  {
    match h
    case HostFile(data, _) => |Stored(data)| <= MAX_FILE_SIZE
    case HostDir(es) =>
      && DIRENT * (2 + Rank(es, |es|)) <= MAX_FILE_SIZE
      && forall q :: 0 <= q < |es| && Copied(es[q]) ==> |es[q].name| <= NAME_MAX && HostFits(es[q].node)
    case Other => true
  }

  predicate EntryFits(es: seq<Entry>, q: nat)
    requires q < |es|
  {
    Copied(es[q]) ==>
      && |es[q].name| <= NAME_MAX && HostFits(es[q].node) && DIRENT * (3 + Rank(es, q)) <= MAX_FILE_SIZE
  }

  /* ---- what a staging tree takes ---- */

  /** The inodes of a staging tree: one for each file and each directory. */
  function Nodes(h: Host): nat
    decreases h, 0
  {
    match h
    case HostFile(_, _) => 1
    case HostDir(es) => 1 + NodesBelow(es, |es|)
    case Other => 0
  }

  function NodesBelow(es: seq<Entry>, q: nat): nat
    requires q <= |es|
    decreases es, q
  {
    if q == 0 then 0 else NodesBelow(es, q - 1) + if Copied(es[q - 1]) then Nodes(es[q - 1].node) else 0
  }

  function EntryNodes(e: Entry): nat { if Copied(e) then Nodes(e.node) else 0 }

  function FileCost(data: seq<Byte>): nat { if |Stored(data)| <= MAX_FILE_SIZE then Cost(|Stored(data)|) else 0 }

  /** The blocks of a directory of `n` records. */
  function DirCost(n: nat): nat { if DIRENT * n <= MAX_FILE_SIZE then Cost(DIRENT * n) else 0 }

  /** The blocks of a staging tree: those of each file, and of each directory with its dots and an
      entry for all that is copied, pointer blocks included. */
  function TreeCost(h: Host): nat
    decreases h, 0
  {
    match h
    case HostFile(data, _) => FileCost(data)
    case HostDir(es) => DirCost(2 + Rank(es, |es|)) + CostBelow(es, |es|)
    case Other => 0
  }

  function CostBelow(es: seq<Entry>, q: nat): nat
    requires q <= |es|
    decreases es, q
  {
    if q == 0 then 0 else CostBelow(es, q - 1) + if Copied(es[q - 1]) then TreeCost(es[q - 1].node) else 0
  }

  function EntryCost(es: seq<Entry>, q: nat): int
    requires q < |es|
  {
    if Copied(es[q]) then TreeCost(es[q].node) + SlotCost(2 + Rank(es, q)) else 0
  }

  /** What the first `q` entries take, the slots they have in their directory included. */
  function CostSoFar(es: seq<Entry>, q: nat): int
    requires q <= |es|
  {
    CostBelow(es, q) + DirCost(2 + Rank(es, q)) - DirCost(2)
  }

  lemma SlotCostIs(n: nat)
    ensures SlotCost(n) >= 0 && (DIRENT * (n + 1) <= MAX_FILE_SIZE ==> SlotCost(n) == DirCost(n + 1) - DirCost(n))
  {
    hide Cost;
    if DIRENT * (n + 1) <= MAX_FILE_SIZE { CostGrows(DIRENT * n, DIRENT * (n + 1)); }
  }

  lemma DotsCost()
    ensures SlotCost(0) + SlotCost(1) == DirCost(2) && SlotCost(0) >= 0 && SlotCost(1) >= 0
  {
    SlotCostIs(0);
    SlotCostIs(1);
    FilledNone0();
    hide Cost;
  }

  lemma FilledNone0()
    ensures Cost(0) == 0
  {
    CostIs(0);
  }

  lemma TreeCostIs(h: Host)
    requires h.HostDir?
    ensures TreeCost(h) == DirCost(2 + Rank(h.entries, |h.entries|)) + CostBelow(h.entries, |h.entries|)
    ensures Nodes(h) == 1 + NodesBelow(h.entries, |h.entries|)
    ensures HostFits(h) ==> TreeCost(h) >= DirCost(2)
  {
    hide Cost;
    if HostFits(h) { CostGrows(DIRENT * 2, DIRENT * (2 + Rank(h.entries, |h.entries|))); }
  }

  lemma FileSpent(v: Vol, v': Vol, i: nat, size: nat, built: nat, ok: bool)
    requires Filled(v, i, 0) && size <= MAX_FILE_SIZE && RamWrote(v, v', i, 0, size, built, ok)
    ensures if ok then v'.freeBlocks + Cost(size) == v.freeBlocks else Room(v, built) < Cost(size)
  {
    hide Took, Cost, WriteGaps;
    NoChain();
    assert BlocksUpTo(0) == 0;
    FilledAtOnce(v, v', i, size);
  }

  /** A directory holds the blocks of its records and no others. */
  ghost predicate Packed(v: Vol, d: nat)
  {
    d < |v.inodes| && Filled(v, d, DIRENT * |Entries(v, d)|)
  }

  lemma PackedKept(v: Vol, v': Vol, changed: set<nat>, d: nat)
    requires Packed(v, d) && Untouched(v, v', changed) && d !in changed
    ensures Packed(v', d)
  {
    hide Entries;
    UntouchedNode(v, v', changed, d);
    assert forall s :: At(v', d, s) == At(v, d, s);
    hide Untouched, At;
    FilledSame(v, v', d, DIRENT * |Entries(v, d)|);
  }

  lemma CopyingPacked(v: Vol, v': Vol, i: nat, h: Host, d: nat)
    requires h.HostDir? && Copying(v, v', i, h, |h.entries|) && Packed(v, d) && d in Live(v) && d != i
    ensures Packed(v', d)
  {
    hide Untouched, IsTree, TreeOf, Entries, Holds, NamesFrom, Filled;
    PackedKept(v, v', {i} + Spare(v), d);
  }

  lemma CopyingPackedFits(v0: Vol, v: Vol, d: nat, h: Host)
    requires h.HostDir? && Copying(v0, v, d, h, |h.entries|) && Packed(v, d)
    requires forall r :: 0 <= r < |h.entries| ==> EntryFits(h.entries, r)
    ensures HostFits(h)
  {
    hide Untouched, IsTree, TreeOf, Entries, NamesFrom, Rank, Grown, Item;
    assert forall q :: 0 <= q < |h.entries| && Copied(h.entries[q]) ==> EntryFits(h.entries, q);
  }

  lemma CopyingSlot(v0: Vol, v: Vol, d: nat, h: Host, q: nat)
    requires h.HostDir? && q < |h.entries| && Copying(v0, v, d, h, q)
    ensures d < |v.inodes| && |Entries(v, d)| == 2 + Rank(h.entries, q) && d in Live(v)
  {
    hide Untouched, IsTree, TreeOf, Entries, NamesFrom, Rank, Item;
  }

  lemma NothingSoFar(es: seq<Entry>)
    ensures NodesBelow(es, 0) == 0 && CostSoFar(es, 0) == 0
  {
  }

  lemma AllSoFar(h: Host)
    requires h.HostDir?
    ensures TreeCost(h) - DirCost(2) == CostSoFar(h.entries, |h.entries|)
  {
    hide DirCost;
  }

  lemma SoFarOn(es: seq<Entry>, q: nat)
    requires q < |es| && EntryFits(es, q)
    ensures NodesBelow(es, q + 1) == NodesBelow(es, q) + EntryNodes(es[q])
    ensures CostSoFar(es, q + 1) == CostSoFar(es, q) + EntryCost(es, q)
  {
    hide DirCost, SlotCost, HostFits;
    SlotCostIs(2 + Rank(es, q));
  }

  /** An entry that does not go in is one that does not fit, or too much is wanted in all. */
  lemma NotAll(h: Host, q: nat, v0: Vol, v: Vol, built: nat)
    requires h.HostDir? && q < |h.entries| && Spent(v0, v, NodesBelow(h.entries, q), CostSoFar(h.entries, q))
    requires !EntryFits(h.entries, q) || Short(v, built, EntryNodes(h.entries[q]), EntryCost(h.entries, q))
    ensures !HostFits(h) || Short(v0, built, NodesBelow(h.entries, |h.entries|), TreeCost(h) - DirCost(2))
  {
    hide DirCost, SlotCost, EntryCost, EntryNodes, CostSoFar, NodesBelow, TreeCost, Nodes;
    if HostFits(h) {
      FitsEach(h, q);
      SoFarOn(h.entries, q);
      SoFarGrows(h, q + 1);
      AllSoFar(h);
    }
  }

  lemma FitsEach(h: Host, q: nat)
    requires h.HostDir? && HostFits(h) && q < |h.entries|
    ensures EntryFits(h.entries, q)
  {
    if Copied(h.entries[q]) { RankGrows(h.entries, q, |h.entries|); }
  }

  lemma {:induction false} SoFarGrows(h: Host, q: nat)
    requires h.HostDir? && HostFits(h) && q <= |h.entries|
    ensures NodesBelow(h.entries, q) <= NodesBelow(h.entries, |h.entries|)
    ensures CostSoFar(h.entries, q) <= CostSoFar(h.entries, |h.entries|)
    decreases |h.entries| - q
  {
    hide CostSoFar, NodesBelow, HostFits;
    if q < |h.entries| {
      FitsEach(h, q);
      SoFarOn(h.entries, q);
      EntryCostIs(h.entries, q);
      SoFarGrows(h, q + 1);
    }
  }

  lemma EntryCostIs(es: seq<Entry>, q: nat)
    requires q < |es|
    ensures EntryCost(es, q) >= 0
  {
    hide SlotCost;
    SlotCostIs(2 + Rank(es, q));
  }

  lemma {:induction false} RankGrows(es: seq<Entry>, q: nat, r: nat)
    requires q < r <= |es| && Copied(es[q])
    ensures Rank(es, q) + 1 <= Rank(es, r)
    decreases r
  {
    if r > q + 1 { RankGrows(es, q, r - 1); }
  }

  /** A block a file holds is in memory. */
  lemma HeldInRam(v: Vol, owner: Owner, i: nat, s: Slot, built: nat)
    requires Own(v, owner) && InRam(v, built) && At(v, i, s) != 0
    ensures At(v, i, s) < built
  {
    hide At;
    assert At(v, i, s) in owner;
  }

  lemma MapInRam(v: Vol, owner: Owner, i: nat, k: nat, built: nat)
    requires Own(v, owner) && InRam(v, built) && Map(v, i, k) != 0
    ensures Map(v, i, k) < built
  {
    HeldInRam(v, owner, i, SlotOf(k), built);
  }

  lemma DirLength(v: Vol, d: nat)
    requires IsDir(v, d) && v.inodes[d].size % DIRENT == 0
    ensures v.inodes[d].size == DIRENT * |Entries(v, d)|
  {
  }

  /** `name` is free in directory `d`. */
  ghost predicate Unused(v: Vol, d: nat, name: Name)
  {
    IsDir(v, d) && !IsDot(name) && 0 !in name && forall k :: 0 <= k < |Entries(v, d)| ==> Entries(v, d)[k].name != name
  }

  /** A tree with one more name in it: the new inode `i`, at the end of directory `d`. */
  ghost predicate Added(v: Vol, v': Vol, d: nat, i: nat, name: Name)
  {
    && |v'.inodes| == |v.inodes| && 0 < i < |v.inodes| && i !in Live(v) && Live(v') == Live(v) + {i}
    && IsTree(TreeOf(v')) && Untouched(v, v', {d} + Spare(v))
    && IsDir(v, d) && IsDir(v', d) && Entries(v', d) == Entries(v, d) + [Ent(i, name)]
  }

  lemma NamedTree(v: Vol, d: nat, name: Name, i: nat, isDir: bool)
    requires IsTree(TreeOf(v)) && Unused(v, d, name) && i != 0 && i !in Live(v)
    ensures IsTree(PutEnt(NewNode(TreeOf(v), i, isDir, d), d, |Entries(v, d)|, Ent(i, name)))
  {
    EntriesInTree(v, d);
    var t := TreeOf(v);
    assert Vacant(t, d, |t.dirs[d]|, name) by {
      hide TreeOf, Entries;
      var home: Homes, depth: map<nat, nat> :| Shape(t, home, depth);
      assert GoodDir(t.dirs[d], home, d);
    }
    hide TreeOf, IsTree;
    TreeLive(v);
    CreateKeepsTree(t, d, |t.dirs[d]|, name, i, isDir);
  }

  /** Nothing but `d` and inodes that were not in use has changed, and there is still a tree. */
  ghost predicate Grown(v: Vol, v': Vol, d: nat)
  {
    && |v'.inodes| == |v.inodes| && IsTree(TreeOf(v')) && Untouched(v, v', {d} + Spare(v))
    && Live(v) <= Live(v') && d in Live(v) && IsDir(v', d)
  }

  ghost predicate OnlyDots(v: Vol, d: nat)
  {
    IsDir(v, d) && |Entries(v, d)| == 2 && Entries(v, d)[0].name == DOT && Entries(v, d)[1].name == DOTDOT
  }

  /** Every name in `d` but the dots is that of one of the first `n` entries. */
  ghost predicate NamesFrom(v: Vol, d: nat, h: Host, n: nat)
    requires h.HostDir? && n <= |h.entries|
  {
    && IsDir(v, d) && |Entries(v, d)| >= 2 && Entries(v, d)[0].name == DOT && Entries(v, d)[1].name == DOTDOT
    && forall k :: 2 <= k < |Entries(v, d)| ==> exists r :: 0 <= r < n && h.entries[r].name == Entries(v, d)[k].name
  }

  /** The first `n` entries of `h` have been copied into `d`, with inodes that were not in use. */
  ghost predicate Copying(v0: Vol, v: Vol, d: nat, h: Host, n: nat)
    requires h.HostDir? && n <= |h.entries|
  {
    Grown(v0, v, d) && NamesFrom(v, d, h, n) && Holds(v, d, h, n, Live(v) - Live(v0))
  }

  lemma CopyingStart(v: Vol, d: nat, h: Host)
    requires h.HostDir? && IsTree(TreeOf(v)) && OnlyDots(v, d)
    ensures Copying(v, v, d, h, 0)
  {
    hide IsTree, TreeOf, Entries, Untouched;
    UntouchedRefl(v, d);
    UntouchedMore(v, v, {d}, {d} + Spare(v));
  }

  lemma CopyingSkip(v0: Vol, v: Vol, d: nat, h: Host, q: nat)
    requires h.HostDir? && q < |h.entries| && Copying(v0, v, d, h, q) && !Copied(h.entries[q])
    ensures Copying(v0, v, d, h, q + 1)
  {
    hide IsTree, TreeOf, Entries, Grown;
    assert Holds(v, d, h, q + 1, Live(v) - Live(v0));
  }

  lemma CopyingUnused(v0: Vol, v: Vol, d: nat, h: Host, q: nat)
    requires h.HostDir? && HostOk(h) && q < |h.entries| && Copying(v0, v, d, h, q) && Copied(h.entries[q])
    ensures Unused(v, d, h.entries[q].name) && IsTree(TreeOf(v))
  {
    hide IsTree, TreeOf, Entries, Holds, Untouched;
  }

  lemma HoldsStep(v: Vol, v': Vol, changed: set<nat>, d: nat, h: Host, q: nat, i: nat, s: set<nat>, s': set<nat>)
    requires h.HostDir? && q < |h.entries| && Copied(h.entries[q]) && |h.entries[q].name| <= NAME_MAX
    requires Holds(v, d, h, q, s) && NamesFrom(v, d, h, q)
    requires Untouched(v, v', changed) && s !! changed && s <= s' && IsDir(v', d)
    requires Entries(v', d) == Entries(v, d) + [Ent(i, h.entries[q].name)] && Placed(v', i, h.entries[q].node, s')
    ensures Holds(v', d, h, q + 1, s') && NamesFrom(v', d, h, q + 1)
  {
    hide Untouched, Entries, Placed, NamesFrom, Rank, Item;
    NamesStep(v, v', d, h, q, i);
    RankStep(h.entries, q);
    NewItem(v', d, h.entries[q], 2 + Rank(h.entries, q), s');
    forall r | 0 <= r < q && Copied(h.entries[r]) ensures Item(v', d, h.entries[r], 2 + Rank(h.entries, r), s') {
      ItemFrame(v, v', changed, d, h.entries[r], 2 + Rank(h.entries, r), s, s');
    }
  }

  lemma RankStep(es: seq<Entry>, q: nat)
    requires q < |es| && Copied(es[q])
    ensures Rank(es, q + 1) == Rank(es, q) + 1
  {
  }

  lemma NewItem(v: Vol, d: nat, e: Entry, m: nat, s: set<nat>)
    requires d < |v.inodes| && |e.name| <= NAME_MAX && m < |Entries(v, d)| && Entries(v, d)[m].name == e.name
    requires Placed(v, Entries(v, d)[m].ino, e.node, s)
    ensures Item(v, d, e, m, s)
  {
  }

  lemma NamesStep(v: Vol, v': Vol, d: nat, h: Host, q: nat, i: nat)
    requires h.HostDir? && q < |h.entries| && NamesFrom(v, d, h, q) && IsDir(v', d)
    requires Entries(v', d) == Entries(v, d) + [Ent(i, h.entries[q].name)]
    ensures NamesFrom(v', d, h, q + 1)
  {
    hide Entries;
    forall k | 2 <= k < |Entries(v', d)|
      ensures exists r :: 0 <= r < q + 1 && h.entries[r].name == Entries(v', d)[k].name {
      if k == |Entries(v, d)| {
        assert h.entries[q].name == Entries(v', d)[k].name;
      } else {
        var r :| 0 <= r < q && h.entries[r].name == Entries(v, d)[k].name;
        assert h.entries[r].name == Entries(v', d)[k].name;
      }
    }
  }

  lemma GrownTrans(v0: Vol, v: Vol, v': Vol, d: nat, changed: set<nat>)
    requires Grown(v0, v, d) && |v'.inodes| == |v.inodes| && IsTree(TreeOf(v')) && IsDir(v', d)
    requires Untouched(v, v', changed) && changed <= {d} + Spare(v) && Live(v) <= Live(v')
    ensures Grown(v0, v', d)
  {
    hide IsTree, TreeOf, Untouched;
    UntouchedTrans(v0, v, v', {d} + Spare(v0), changed);
    UntouchedMore(v0, v', {d} + Spare(v0) + changed, {d} + Spare(v0));
  }

  lemma CopyingFile(v0: Vol, v: Vol, v': Vol, d: nat, h: Host, q: nat, i: nat)
    requires h.HostDir? && q < |h.entries| && Copied(h.entries[q]) && |h.entries[q].name| <= NAME_MAX
    requires Copying(v0, v, d, h, q) && Added(v, v', d, i, h.entries[q].name) && Placed(v', i, h.entries[q].node, {i})
    ensures Copying(v0, v', d, h, q + 1)
  {
    hide IsTree, TreeOf, Untouched, Entries, Holds, Placed, NamesFrom, Grown;
    var s, s' := Live(v) - Live(v0), Live(v') - Live(v0);
    GrownFacts(v0, v, d);
    UntouchedRefl(v', 0);
    assert 0 !in Live(v');
    PlacedFrame(v', v', {0}, i, h.entries[q].node, {i}, s');
    HoldsStep(v, v', {d} + Spare(v), d, h, q, i, s, s');
    GrownTrans(v0, v, v', d, {d} + Spare(v));
  }

  lemma GrownFacts(v: Vol, v': Vol, d: nat)
    requires Grown(v, v', d)
    ensures |v'.inodes| == |v.inodes| && IsTree(TreeOf(v')) && Live(v) <= Live(v') && d in Live(v) && IsDir(v', d)
    ensures Untouched(v, v', {d} + Spare(v))
  {
  }

  lemma CopyingDir(v0: Vol, v: Vol, v1: Vol, v': Vol, d: nat, h: Host, q: nat, i: nat)
    requires h.HostDir? && q < |h.entries| && Copied(h.entries[q]) && h.entries[q].node.HostDir?
    requires |h.entries[q].name| <= NAME_MAX
    requires Copying(v0, v, d, h, q) && Added(v, v1, d, i, h.entries[q].name)
    requires var g := h.entries[q].node; Copying(v1, v', i, g, |g.entries|)
    ensures Copying(v0, v', d, h, q + 1)
  {
    hide IsTree, TreeOf, Untouched, Entries, Holds, NamesFrom, Grown, Placed;
    var s, s' := Live(v) - Live(v0), Live(v') - Live(v0);
    GrownFacts(v0, v, d);
    GrownFacts(v1, v', i);
    UntouchedNode(v1, v', {i} + Spare(v1), d);
    UntouchedTrans(v, v1, v', {d} + Spare(v), {i} + Spare(v1));
    UntouchedMore(v, v', {d} + Spare(v) + ({i} + Spare(v1)), {d} + Spare(v));
    PlacedDir(v1, v', i, h.entries[q].node, s');
    HoldsStep(v, v', {d} + Spare(v), d, h, q, i, s, s');
    GrownTrans(v0, v, v', d, {d} + Spare(v));
  }

  lemma PlacedDir(v: Vol, v': Vol, i: nat, h: Host, s: set<nat>)
    requires h.HostDir? && Holds(v', i, h, |h.entries|, Live(v') - Live(v)) && IsDir(v', i)
    requires Live(v') - Live(v) <= s && i in s
    ensures Placed(v', i, h, s)
  {
    UntouchedRefl(v', 0);
    assert 0 !in Live(v');
    hide Untouched, Entries, Holds;
    HoldsFrame(v', v', {0}, i, h, |h.entries|, Live(v') - Live(v), s);
  }

  /** A new file with its bytes in place. */
  lemma FileFilled(v: Vol, v': Vol, i: nat, data: seq<Byte>)
    requires DirShape(v) && 0 < i < |v.inodes| && v.inodes[i].typ == File && v.inodes[i].size == 0
    requires Wrote(v, v', i, 0, data, |data|)
    ensures DirShape(v') && Untouched(v, v', {i}) && |v'.inodes| == |v.inodes| && v'.inodes[i].typ == File
    ensures TreeOf(v') == TreeOf(v) && Contents(v', i) == data && v'.inodes[i].size == |data|
  {
    WroteUntouched(v, v', i, 0, data, |data|);
    assert data[..|data|] == data;
    hide Own, Tidy, DirShape, TreeOf, Untouched, Wrote;
    UntouchedLength(v, v', {i});
    TreeAfterFileChange(v, v', i);
    DirShapeElsewhere(v, v', i);
  }

  lemma Restamped(v: Vol, owner: Owner, i: nat, n: Inode)
    requires Own(v, owner) && Tidy(v) && DirShape(v) && 0 < i < |v.inodes| && v.inodes[i].typ == File
    requires n == v.inodes[i].(mtime := n.mtime)
    ensures var v' := v.(inodes := v.inodes[i := n]);
      && Own(v', owner) && Tidy(v') && DirShape(v') && Untouched(v, v', {i})
      && Live(v') == Live(v) && TreeOf(v') == TreeOf(v) && Contents(v', i) == Contents(v, i)
  {
    var v' := v.(inodes := v.inodes[i := n]);
    MetaWrite(v, owner, i, n);
    assert OnlyFile(v, v', i) && Contents(v', i) == Contents(v, i) by { hide Own, At, ByteAt; }
    assert forall p: nat :: v'.inodes[i].size <= p ==> ByteAt(v', i, p) == 0 by { hide Own, At, ByteAt; }
    hide Own, Tidy, DirShape, TreeOf, OnlyFile, At, ByteAt, Untouched;
    OnlyFileUntouched(v, v', i);
    TidyAfter(v, v', i);
    DirShapeElsewhere(v, v', i);
    TreeAfterFileChange(v, v', i);
    TreeLive(v);
    TreeLive(v');
  }

  lemma ProgressInode(v0: Vol, v: Vol, i: nat, offset: nat, data: seq<Byte>, done: nat)
    requires done <= |data| && Progress(v0, v, i, offset, data, done)
    ensures i < |v.inodes| == |v0.inodes| && v.inodes[i].size == v0.inodes[i].size
      && v.inodes[i].typ == v0.inodes[i].typ
  {
  }

  lemma AppendRecord(v: Vol, v': Vol, d: nat, r: Record)
    requires DirShape(v) && IsDir(v, d) && Wrote(v, v', d, v.inodes[d].size, r, DIRENT)
    ensures DirShape(v') && Untouched(v, v', {d}) && Live(v') == Live(v) && IsDir(v', d)
    ensures Entries(v', d) == Entries(v, d) + [EntOf(r)]
    ensures TreeOf(v') == PutEnt(TreeOf(v), d, |Entries(v, d)|, EntOf(r))
  {
    hide Own, Tidy, Untouched, Wrote, EntOf, TreeOf;
    var k := |Entries(v, d)|;
    assert DIRENT * k == v.inodes[d].size;
    hide DirShape;
    WroteUntouched(v, v', d, DIRENT * k, r, DIRENT);
    UntouchedLength(v, v', {d});
    TreeAfterRecord(v, v', d, k, r);
    LiveElsewhere(v, v', d);
    hide Entries;
    EntriesInTree(v, d);
    EntriesInTree(v', d);
  }

  lemma UntouchedLength(v: Vol, v': Vol, s: set<nat>)
    requires Untouched(v, v', s)
    ensures |v'.inodes| == |v.inodes|
  {
  }

  /* ---- the finished image ---- */

  lemma {:induction false} BlankAt(v: Vol, i: nat, s: Slot)
    requires forall i :: 0 <= i < |v.inodes| ==> v.inodes[i] == ZeroInode()
    ensures At(v, i, s) == 0
    decreases Level(s)
  {
    if i < |v.inodes| && ValidSlot(s) && !InInode(s) { BlankAt(v, i, Holder(s)); }
  }

  lemma BlankVolume(v: Vol)
    requires Geometry(v) && v.freeBlocks == |v.disk| - v.dataStart && v.freeInodes == |v.inodes| - 1
    requires forall i :: 0 <= i < |v.inodes| ==> v.inodes[i] == ZeroInode()
    requires forall b :: 0 <= b < |v.bitmap| ==> v.bitmap[b] == (b < v.dataStart)
    ensures Own(v, map[]) && Tidy(v) && DirShape(v) && Live(v) == {}
  {
    hide Own, Tidy, Range;
    BlankOwn(v);
    BlankIsTidy(v);
  }

  lemma BlankOwn(v: Vol)
    requires Geometry(v) && v.freeBlocks == |v.disk| - v.dataStart
    requires forall i :: 0 <= i < |v.inodes| ==> v.inodes[i] == ZeroInode()
    requires forall b :: 0 <= b < |v.bitmap| ==> v.bitmap[b] == (b < v.dataStart)
    ensures Own(v, map[])
  {
    forall i: nat, s { BlankAt(v, i, s); }
    hide At;
    assert FreeSet(v) == Range(v.dataStart, |v.disk|);
    assert forall i: nat :: OwnedBy(map[], i) == {};
  }

  lemma BlankIsTidy(v: Vol)
    requires v.freeInodes == |v.inodes| - 1 && |v.inodes| > 1
    requires forall i :: 0 <= i < |v.inodes| ==> v.inodes[i] == ZeroInode()
    ensures Tidy(v)
  {
    forall i: nat, p: nat ensures ByteAt(v, i, p) == 0 {
      if p / BLOCK_SIZE < MAX_INDEX { BlankAt(v, i, SlotOf(p / BLOCK_SIZE)); }
    }
    hide ByteAt;
    assert FreeInodes(v) == Range(1, |v.inodes|);
  }

  /** What ends up on the device: the blocks that were built and written out, and above
      them whatever was there before. */
  function Image(v: Vol, written: nat, rest: seq<Block>): Vol
    requires written <= |v.disk|
  {
    v.(disk := v.disk[..written] + rest)
  }

  /** What is in a free block does not matter. */
  lemma {:induction false} FreeBlocksAt(v: Vol, owner: Owner, v': Vol, i: nat, s: Slot)
    requires Own(v, owner) && |v'.disk| == |v.disk| && v' == v.(disk := v'.disk)
    requires forall b :: v.dataStart <= b < |v.disk| && v.bitmap[b] ==> v'.disk[b] == v.disk[b]
    ensures At(v', i, s) == At(v, i, s)
    decreases Level(s)
  {
    hide WordAt;
    if i < |v.inodes| && ValidSlot(s) && !InInode(s) {
      FreeBlocksAt(v, owner, v', i, Holder(s));
      assert At(v, i, Holder(s)) != 0 ==> At(v, i, Holder(s)) in owner;
    }
  }

  lemma FreeBlocksDontMatter(v: Vol, owner: Owner, v': Vol)
    requires Own(v, owner) && |v'.disk| == |v.disk| && v' == v.(disk := v'.disk)
    requires forall b :: v.dataStart <= b < |v.disk| && v.bitmap[b] ==> v'.disk[b] == v.disk[b]
    ensures Own(v', owner) && Untouched(v, v', {})
  {
    forall i: nat, s { FreeBlocksAt(v, owner, v', i, s); }
    hide At;
    assert FreeSet(v') == FreeSet(v);
    forall i: nat, p: nat ensures ByteAt(v', i, p) == ByteAt(v, i, p) {
      assert Map(v, i, p / BLOCK_SIZE) != 0 ==> Map(v, i, p / BLOCK_SIZE) in owner;
    }
  }

  /** A sound volume whose directories are a tree holding a copy of `staging`. */
  ghost predicate GoodImage(v: Vol, staging: Host)
  {
    && (exists owner :: Own(v, owner)) && Tidy(v) && DirShape(v) && IsTree(TreeOf(v))
    && Placed(v, ROOT_INO, staging, Live(v))
  }

  lemma SameTree(v: Vol, v': Vol)
    requires Untouched(v, v', {}) && v'.inodes == v.inodes
    ensures TreeOf(v') == TreeOf(v) && Live(v') == Live(v)
  {
    hide Ents, At, ByteAt;
    forall i | i in TreeOf(v).dirs ensures Contents(v', i) == Contents(v, i) { UntouchedContents(v, v', {}, i); }
  }

  lemma ImageIsGood(v: Vol, owner: Owner, staging: Host, written: nat, rest: seq<Block>)
    requires Own(v, owner) && Tidy(v) && DirShape(v) && IsTree(TreeOf(v)) && Placed(v, ROOT_INO, staging, Live(v))
    requires v.dataStart <= written <= |v.disk| && |rest| == |v.disk| - written
    requires forall b :: written <= b < |v.disk| ==> !v.bitmap[b]
    ensures GoodImage(Image(v, written, rest), staging)
  {
    hide Own, Tidy, DirShape, TreeOf, IsTree, Untouched, Placed;
    OwnFacts(v, owner);
    var v' := Image(v, written, rest);
    FreeBlocksDontMatter(v, owner, v');
    StillTidy(v, v');
    SameTree(v, v');
    PlacedFrame(v, v', {}, ROOT_INO, staging, Live(v), Live(v));
  }

  lemma StillTidy(v: Vol, v': Vol)
    requires Tidy(v) && DirShape(v) && Untouched(v, v', {}) && v'.inodes == v.inodes && v'.freeInodes == v.freeInodes
    ensures Tidy(v') && DirShape(v')
  {
    hide At, ByteAt;
    assert FreeInodes(v') == FreeInodes(v);
    forall d: nat, k: nat ensures Map(v', d, k) == Map(v, d, k) { }
  }

  lemma RootIsTree()
    ensures IsTree(NewNode(Tree({}, map[]), ROOT_INO, true, ROOT_INO))
  {
    var home: Homes := map[];
    NewDirIsGood(home, ROOT_INO);
    assert Shape(NewNode(Tree({}, map[]), ROOT_INO, true, ROOT_INO), home, map[ROOT_INO := 0]);
  }

  lemma EmptyTree(v: Vol)
    requires Live(v) == {}
    ensures TreeOf(v) == Tree({}, map[])
  {
  }

  /** The image is at least a megabyte, and its bitmap is within what is built in memory. */
  predicate MapFits(sizeMb: Word) { sizeMb >= 1 && LayoutFor(sizeMb).built > 1 + LayoutFor(sizeMb).bitmapBlocks }

  /** There are inodes and blocks for all of it; inode 0 is never used. */
  ghost predicate TreeFits(l: Layout, h: Host)
  {
    Nodes(h) + 1 <= l.totalInodes && TreeCost(h) <= l.built - l.dataStart
  }

  /** One past the last block in use. */
  method LastUsed(b: Builder) returns (written: nat)
    requires b.dataStart <= b.built <= |b.bitmap|
    ensures b.dataStart <= written <= b.built && forall e :: written <= e < b.built ==> !b.bitmap[e]
  {
    written := b.dataStart;
    for c := b.dataStart to b.built
      invariant b.dataStart <= written <= c
      invariant forall e :: written <= e < c ==> !b.bitmap[e]
    {
      if b.bitmap[c] {
        written := c + 1;
      }
    }
  }

  /** Build an image of `sizeMb` megabytes from a staging tree.  Whatever the device held
      above the last block in use, the result is a sound volume holding the tree.  Of a tree
      that fits, building fails only when the blocks or the inodes run out. */
  method Build(sizeMb: Word, staging: Host, now: nat) returns (ok: bool, b: Builder?, written: nat)
    requires HostOk(staging) && LayoutFor(sizeMb).imageBlocks <= WORD_LIMIT - 8192
    ensures ok ==> b != null && written <= |b.disk| == LayoutFor(sizeMb).imageBlocks
    ensures ok ==> forall rest: seq<Block> | |rest| == |b.disk| - written :: GoodImage(Image(b.V(), written, rest),
      staging)
    ensures ok <==> MapFits(sizeMb) && staging.HostDir? && HostFits(staging) && TreeFits(LayoutFor(sizeMb), staging)
  {
    hide Own, Tidy, DirShape, TreeOf, IsTree, Placed, LayoutFor, HostFits, TreeCost, Nodes;
    b, ok, written := null, false, 0;
    if sizeMb < 1 || !staging.HostDir? {
      return;
    }
    var l := LayoutFor(sizeMb);
    LayoutIsRight(sizeMb);
    LayoutInodes(sizeMb);
    if l.built <= 1 + l.bitmapBlocks {
      return;
    }
    b := new Builder(l);
    ok := b.Stage(staging, now);
    if !ok {
      return;
    }
    OwnFacts(b.V(), b.owner);
    written := LastUsed(b);
    forall rest: seq<Block> | |rest| == |b.disk| - written ensures GoodImage(Image(b.V(), written, rest), staging) {
      ImageIsGood(b.V(), b.owner, staging, written, rest);
    }
  }

  lemma LayoutInodes(sizeMb: Word)
    ensures var l := LayoutFor(sizeMb); l.built <= l.imageBlocks < WORD_LIMIT && 64 <= l.totalInodes <= WORD_LIMIT
  {
  }

  lemma StagedAtRoot(v: Vol, v': Vol, staging: Host)
    requires staging.HostDir? && IsDir(v, ROOT_INO) && Copying(v, v', ROOT_INO, staging, |staging.entries|)
    ensures IsTree(TreeOf(v')) && Placed(v', ROOT_INO, staging, Live(v'))
  {
    hide IsTree, TreeOf, Untouched, Entries, Holds, NamesFrom, Placed;
    assert ROOT_INO in Live(v');
    PlacedDir(v, v', ROOT_INO, staging, Live(v'));
  }

  /* ---- reading the image back with the kernel's own lookup and read ---- */

  /** Following `names` in the staging tree leads to `g`. */
  ghost predicate Reaches(h: Host, names: seq<Name>, g: Host)
  {
    if names == [] then h == g
    else h.HostDir? && exists q :: 0 <= q < |h.entries| && Copied(h.entries[q]) && h.entries[q].name == names[0]
                                   && Reaches(h.entries[q].node, names[1..], g)
  }

  function PathOf(names: seq<Name>): Path
  {
    if names == [] then [] else [SLASH] + names[0] + PathOf(names[1..])
  }

  lemma CompLenOf(name: Name, rest: Path)
    requires SLASH !in name && (rest == [] || rest[0] == SLASH)
    ensures CompLen(name + rest) == |name|
  {
    if name != [] {
      assert (name + rest)[1..] == name[1..] + rest;
      CompLenOf(name[1..], rest);
    }
  }

  lemma ItemFacts(v: Vol, d: nat, e: Entry, m: nat, s: set<nat>)
    requires Item(v, d, e, m, s)
    ensures d < |v.inodes| && |e.name| <= NAME_MAX && m < |Entries(v, d)| && Entries(v, d)[m].name == e.name
    ensures Entries(v, d)[m].ino != 0 && Placed(v, Entries(v, d)[m].ino, e.node, s)
  {
    hide Entries;
  }

  lemma FindUnique(v: Vol, d: nat, m: nat)
    requires IsTree(TreeOf(v)) && IsDir(v, d) && m < |Entries(v, d)| && Entries(v, d)[m].ino != 0
    ensures Find(v, d, Entries(v, d)[m].name) == Ok(Entries(v, d)[m].ino)
  {
    hide TreeOf, Entries, IsTree, UniqueNames;
    EntriesInTree(v, d);
    TreeNamesUnique(TreeOf(v), d);
    FirstMatch(Entries(v, d), m);
  }

  lemma TreeNamesUnique(t: Tree, d: nat)
    requires IsTree(t) && d in t.dirs
    ensures UniqueNames(t.dirs[d])
  {
    hide UniqueNames;
    var home: Homes, depth: map<nat, nat> :| Shape(t, home, depth);
    assert GoodDir(t.dirs[d], home, d);
  }

  lemma FirstMatch(es: seq<Ent>, m: nat)
    requires UniqueNames(es) && m < |es| && es[m].ino != 0
    ensures FindIdx(es, es[m].name, 0) == m
  {
    var k := FindIdx(es, es[m].name, 0);
    assert Matches(es[m], es[m].name);
  }

  /** Whatever is in the staging tree, the kernel's path walk finds the copy of it. */
  lemma {:induction false} StagedIsFound(v: Vol, i: nat, h: Host, names: seq<Name>, g: Host, s: set<nat>)
    requires IsTree(TreeOf(v)) && HostOk(h) && Placed(v, i, h, s) && Reaches(h, names, g)
    ensures Walk(v, i, PathOf(names)).Ok? && Placed(v, Walk(v, i, PathOf(names)).value, g, s)
    decreases |names|
  {
    hide IsTree, TreeOf, Entries, Find, Rank;
    if names != [] {
      var q :| 0 <= q < |h.entries| && Copied(h.entries[q]) && h.entries[q].name == names[0]
               && Reaches(h.entries[q].node, names[1..], g);
      var m, rest := 2 + Rank(h.entries, q), PathOf(names[1..]);
      assert Item(v, i, h.entries[q], m, s);
      ItemFacts(v, i, h.entries[q], m, s);
      FindUnique(v, i, m);
      var j := Entries(v, i)[m].ino;
      StagedIsFound(v, j, h.entries[q].node, names[1..], g, s);
      CompLenOf(names[0], rest);
      WalkOne(v, i, names[0], rest, j);
    }
  }

  lemma WalkOne(v: Vol, i: nat, name: Name, rest: Path, j: nat)
    requires name != [] && SLASH !in name && |name| <= NAME_MAX && CompLen(name + rest) == |name|
      && Find(v, i, name) == Ok(j)
    ensures Walk(v, i, [SLASH] + name + rest) == Walk(v, j, rest)
  {
    hide Find;
    var p := [SLASH] + name + rest;
    assert p[1..] == name + rest;
    assert SkipSlashes(p) == name + rest;
    assert (name + rest)[..|name|] == name && (name + rest)[|name|..] == rest;
  }

  /** Mounted by the kernel, the image gives back every staged file byte for byte. */
  method ReadBack(w: Wfs, names: seq<Name>, ghost staging: Host, ghost file: Host) returns (bytes: seq<Byte>)
    requires Good(w) && GoodImage(w.V(), staging) && HostOk(staging)
    requires names != [] && Reaches(staging, names, file) && file.HostFile? && |file.data| < WORD_LIMIT
    modifies w
    ensures w.V() == old(w.V()) && bytes == file.data
  {
    hide Own, Tidy, DirShape, TreeOf, IsTree, Entries, Walk;
    StagedIsFound(w.V(), ROOT_INO, staging, names, file, Live(w.V()));
    var i := Lookup(w, PathOf(names));
    FileSize(w.V(), i.value);
    var r := w.Read(i.value, 0, w.inodes[i.value].size);
    bytes := r.value;
  }

  lemma FileSize(v: Vol, i: nat)
    requires Tidy(v) && i < |v.inodes|
    ensures v.inodes[i].size <= MAX_FILE_SIZE
  {
  }
}
