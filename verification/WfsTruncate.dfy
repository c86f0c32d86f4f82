/** Giving a whole file back: the order truncate frees slots in, and what is left. */
module WfsTruncate {
  import opened WfsLayout
  import opened WfsVolume

  const END: nat := 267 + 257 * 256 + 1

  /** Where in truncate's sweep a slot is freed: direct slots, then the indirect
      entries and their block, then each middle block after its entries, then the
      outer block. */
  function Pos(s: Slot): nat
  {
    match s
    case Direct(i) => i
    case IndirectEntry(j) => 10 + j
    case Indirect => 266
    case DoubleEntry(j, k) => 267 + 257 * j + k
    case Middle(j) => 267 + 257 * j + 256
    case Double => 267 + 257 * 256
  }

  lemma PosInjective(s: Slot, u: Slot)
    requires ValidSlot(s) && ValidSlot(u) && Pos(s) == Pos(u)
    ensures s == u
  {
  }

  /** The blocks of file `i` freed once the sweep has passed position `n`. */
  function Swept(owner: Owner, i: nat, n: nat): set<nat>
  {
    set b | b in owner && owner[b].0 == i && Pos(owner[b].1) < n
  }

  /** One step of the sweep frees exactly the block the slot names, and no block twice. */
  lemma SweepStep(v: Vol, owner: Owner, i: nat, s: Slot)
    requires Own(v, owner) && i < |v.inodes| && ValidSlot(s)
    ensures At(v, i, s) !in Swept(owner, i, Pos(s))
    ensures At(v, i, s) != 0 ==> v.dataStart <= At(v, i, s) < |v.bitmap| && v.bitmap[At(v, i, s)]
    ensures Swept(owner, i, Pos(s) + 1) == Swept(owner, i, Pos(s)) + if At(v, i, s) == 0 then {} else {At(v, i, s)}
  {
    hide At;
    forall b | b in owner && owner[b].0 == i && Pos(owner[b].1) == Pos(s) ensures owner[b].1 == s {
      PosInjective(owner[b].1, s);
    }
  }

  /** An absent pointer block has nothing below it to sweep. */
  lemma SweepSkip(v: Vol, owner: Owner, i: nat, m: nat, n: nat)
    requires Own(v, owner) && i < |v.inodes| && m <= n
    requires forall s :: ValidSlot(s) && m <= Pos(s) < n ==> At(v, i, s) == 0
    ensures Swept(owner, i, n) == Swept(owner, i, m)
  {
  }

  /** The `k`th entry of a pointer block. */
  function Child(parent: Slot, k: nat): Slot
    requires IsTable(parent)
  {
    match parent
    case Indirect => IndirectEntry(k)
    case Double => Middle(k)
    case Middle(j) => DoubleEntry(j, k)
  }

  /** An absent pointer block leaves nothing to sweep between its first entry and itself. */
  lemma SweepHole(v: Vol, owner: Owner, i: nat, parent: Slot)
    requires Own(v, owner) && i < |v.inodes| && ValidSlot(parent) && IsTable(parent) && At(v, i, parent) == 0
    ensures Swept(owner, i, Pos(parent) + 1)
         == Swept(owner, i, if parent.Double? then 267 else Pos(Child(parent, 0)))
  {
    forall s | ValidSlot(s) && (if parent.Double? then 267 else Pos(Child(parent, 0))) <= Pos(s) <= Pos(parent)
      ensures At(v, i, s) == 0
    {
      if s != parent {
        if parent.Double? && s.DoubleEntry? { AtBelowHole(v, i, Holder(s)); }
        PosInjective(s, s);
        AtBelowHole(v, i, s);
      }
    }
    SweepSkip(v, owner, i, if parent.Double? then 267 else Pos(Child(parent, 0)), Pos(parent) + 1);
  }

  lemma SweepEnd(v: Vol, owner: Owner, i: nat)
    requires Own(v, owner)
    ensures Swept(owner, i, END) == OwnedBy(owner, i)
  {
  }

  /** `v` with the blocks of `gone` handed back to the bitmap and the counter. */
  ghost predicate Released(v: Vol, v': Vol, gone: set<nat>)
    requires |v.bitmap| == |v.disk|
  {
    && v' == v.(bitmap := v'.bitmap, freeBlocks := v'.freeBlocks)
    && |v'.bitmap| == |v.bitmap|
    && (forall b :: 0 <= b < |v.bitmap| ==> v'.bitmap[b] == (v.bitmap[b] && b !in gone))
    && v'.freeBlocks == v.freeBlocks + |gone|
  }

  lemma ReleaseOne(v: Vol, r: Vol, r': Vol, gone: set<nat>, b: nat)
    requires |v.bitmap| == |v.disk| && Released(v, r, gone)
    requires b !in gone && b < |v.bitmap|
    requires r' == r.(bitmap := r.bitmap[b := false], freeBlocks := r.freeBlocks + 1)
    ensures Released(v, r', gone + {b})
  {
  }

  lemma SweepStart(v: Vol, owner: Owner, i: nat)
    requires Geometry(v)
    ensures Released(v, v, Swept(owner, i, 0))
  {
    assert Swept(owner, i, 0) == {};
  }

  function Truncated(n: Inode, now: nat): Inode
  {
    ZeroInode().(typ := n.typ, links := n.links, mtime := now)
  }

  /** After the sweep and the inode write-back the volume is sound again, file `i`
      holds nothing, every other file is untouched, and `freeBlocks` has risen by
      exactly the number of blocks the inode said it held. */
  lemma AfterSweep(v: Vol, owner: Owner, r: Vol, i: nat, n: Inode)
    requires Own(v, owner) && i < |v.inodes|
    requires Released(v, r, OwnedBy(owner, i))
    requires n.direct == ZeroInode().direct && n.indirect == 0 && n.double == 0 && n.blocks == 0
    ensures var v' := r.(inodes := r.inodes[i := n]);
      && Own(v', owner - OwnedBy(owner, i))
      && v'.freeBlocks == v.freeBlocks + v.inodes[i].blocks
      && (forall j: nat, u :: At(v', j, u) == if j == i then 0 else At(v, j, u))
      && (forall j: nat, p: nat :: ByteAt(v', j, p) == if j == i then 0 else ByteAt(v, j, p))
  {
    var v' := r.(inodes := r.inodes[i := n]);
    var owner' := owner - OwnedBy(owner, i);
    forall j: nat, u ensures At(v', j, u) == if j == i then 0 else At(v, j, u) {
      AfterSweepAt(v, r, i, n, j, u);
    }
    hide At;
    FreeAfterRelease(v, owner, v', i);
    forall j: nat { OwnedAfterRelease(owner, i, j); }
    assert Claims(v', owner');
  }

  lemma FreeAfterRelease(v: Vol, owner: Owner, v': Vol, i: nat)
    requires Geometry(v) && |v'.disk| == |v.disk| == |v'.bitmap| && v'.dataStart == v.dataStart
    requires forall b <- OwnedBy(owner, i) :: v.dataStart <= b < |v.disk| && v.bitmap[b]
    requires forall b :: 0 <= b < |v.bitmap| ==> v'.bitmap[b] == (v.bitmap[b] && b !in OwnedBy(owner, i))
    ensures |FreeSet(v')| == |FreeSet(v)| + |OwnedBy(owner, i)|
  {
    assert FreeSet(v') == FreeSet(v) + OwnedBy(owner, i);
  }

  lemma OwnedAfterRelease(owner: Owner, i: nat, j: nat)
    ensures OwnedBy(owner - OwnedBy(owner, i), j) == if j == i then {} else OwnedBy(owner, j)
  {
  }

  lemma AfterSweepAt(v: Vol, r: Vol, i: nat, n: Inode, j: nat, u: Slot)
    requires i < |v.inodes| && r.inodes == v.inodes && r.disk == v.disk
    requires n.direct == ZeroInode().direct && n.indirect == 0 && n.double == 0
    ensures At(r.(inodes := r.inodes[i := n]), j, u) == if j == i then 0 else At(v, j, u)
    decreases Level(u)
  {
    if j < |v.inodes| && ValidSlot(u) && !InInode(u) {
      AfterSweepAt(v, r, i, n, j, Holder(u));
    }
  }
}
