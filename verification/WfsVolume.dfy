/** A mounted volume as a value, the slots that can name a block, and the ownership
    invariant: every allocated data block is named by exactly one slot. */
module WfsVolume {
  import opened WfsLayout

  /** The superblock counters, the block bitmap, the inode table and the blocks.
      `dataStart` is the first block of the data region. */
  datatype Vol = Vol(dataStart: nat, freeBlocks: nat, freeInodes: nat,
                     bitmap: seq<bool>, inodes: seq<Inode>, disk: seq<Block>)

  ghost predicate Geometry(v: Vol)
  {
    && 1 <= v.dataStart <= |v.disk| == |v.bitmap| < WORD_LIMIT
    && ROOT_INO < |v.inodes| <= WORD_LIMIT
  }

  /** Every place a block number can be written: three in the inode, three in a
      pointer block reached from it. */
  datatype Slot =
    | Direct(i: nat) | Indirect | Double
    | IndirectEntry(j: nat) | Middle(j: nat) | DoubleEntry(j: nat, k: nat)

  predicate ValidSlot(s: Slot)
  {
    match s
    case Direct(i) => i < DIRECT
    case Indirect => true
    case Double => true
    case IndirectEntry(j) => j < PTRS
    case Middle(j) => j < PTRS
    case DoubleEntry(j, k) => j < PTRS && k < PTRS
  }

  /** Slots whose block is itself a pointer block. */
  predicate IsTable(s: Slot) { s.Indirect? || s.Double? || s.Middle? }

  predicate InInode(s: Slot) { s.Direct? || s.Indirect? || s.Double? }

  /** The slot naming the pointer block that holds `s`, and where in it `s` is. */
  function Holder(s: Slot): Slot
    requires !InInode(s)
  {
    match s
    case IndirectEntry(_) => Indirect
    case Middle(_) => Double
    case DoubleEntry(j, _) => Middle(j)
  }

  function Index(s: Slot): nat
    requires !InInode(s)
  {
    match s
    case IndirectEntry(j) => j
    case Middle(j) => j
    case DoubleEntry(_, k) => k
  }

  /** How many pointer blocks lie between the inode and the slot. */
  function Level(s: Slot): nat { if InInode(s) then 0 else if s.DoubleEntry? then 2 else 1 }

  function Ptr(disk: seq<Block>, t: nat, k: nat): nat
    requires k < PTRS
  {
    if 0 < t < |disk| then WordAt(disk[t], k) else 0
  }

  function InodeSlot(n: Inode, s: Slot): nat
    requires InInode(s) && ValidSlot(s)
  {
    match s
    case Direct(i) => n.direct[i]
    case Indirect => n.indirect
    case Double => n.double
  }

  function SlotVal(n: Inode, disk: seq<Block>, s: Slot): nat
    requires ValidSlot(s)
    decreases Level(s)
  {
    if InInode(s) then InodeSlot(n, s)
    else Ptr(disk, SlotVal(n, disk, Holder(s)), Index(s))
  }

  /** The block number in slot `s` of inode `i`; zero when there is none. */
  function At(v: Vol, i: nat, s: Slot): nat
  {
    if i < |v.inodes| && ValidSlot(s) then SlotVal(v.inodes[i], v.disk, s) else 0
  }

  type Owner = map<nat, (nat, Slot)>

  function FreeSet(v: Vol): set<nat>
    requires |v.bitmap| == |v.disk|
  {
    set b | v.dataStart <= b < |v.disk| && !v.bitmap[b]
  }

  function OwnedBy(owner: Owner, i: nat): set<nat>
  {
    set b | b in owner && owner[b].0 == i
  }

  /** The slot a data block is claimed to hang from really holds it. */
  ghost predicate Claims(v: Vol, owner: Owner)
    requires Geometry(v)
  {
    forall b <- owner ::
      && v.dataStart <= b < |v.disk| && v.bitmap[b]
      && owner[b].0 < |v.inodes| && ValidSlot(owner[b].1)
      && At(v, owner[b].0, owner[b].1) == b
  }

  /** Ownership: bits, slots and counters tell the same story.  `owner` says for each
      allocated data block which slot of which inode names it. */
  ghost predicate Own(v: Vol, owner: Owner)
  {
    && Geometry(v)
    && Claims(v, owner)
    && (forall i: nat, s :: At(v, i, s) != 0 ==> At(v, i, s) in owner && owner[At(v, i, s)] == (i, s))
    && (forall b :: v.dataStart <= b < |v.disk| && v.bitmap[b] ==> b in owner)
    && v.freeBlocks == |FreeSet(v)|
    && (forall i :: 0 <= i < |v.inodes| ==> v.inodes[i].blocks == |OwnedBy(owner, i)|)
  }

  function SetInodeSlot(n: Inode, s: Slot, b: Word): Inode
    requires InInode(s) && ValidSlot(s)
  {
    match s
    case Direct(i) => n.(direct := n.direct[i := b])
    case Indirect => n.(indirect := b)
    case Double => n.(double := b)
  }

  /** `v` after a free block has been claimed and zeroed. */
  function Claimed(v: Vol, b: nat): Vol
    requires |v.bitmap| == |v.disk| && b < |v.disk| && v.freeBlocks > 0
  {
    v.(bitmap := v.bitmap[b := true], freeBlocks := v.freeBlocks - 1, disk := v.disk[b := ZeroBlock()])
  }

  /** `v` after the newly claimed `b` has been written into inode slot `s`. */
  function LinkedInInode(v: Vol, i: nat, s: Slot, b: nat): Vol
    requires |v.bitmap| == |v.disk| && b < |v.disk| < WORD_LIMIT && v.freeBlocks > 0
    requires i < |v.inodes| && InInode(s) && ValidSlot(s)
  {
    var n := SetInodeSlot(v.inodes[i], s, b);
    Claimed(v, b).(inodes := v.inodes[i := n.(blocks := n.blocks + 1)])
  }

  /** `v` after the newly claimed `b` has been written into slot `s` of the pointer block `t`. */
  function LinkedInTable(v: Vol, i: nat, t: nat, k: nat, b: nat): Vol
    requires |v.bitmap| == |v.disk| && b < |v.disk| < WORD_LIMIT && v.freeBlocks > 0
    requires i < |v.inodes| && t < |v.disk| && k < PTRS
  {
    var c := Claimed(v, b);
    var n := v.inodes[i];
    c.(inodes := v.inodes[i := n.(blocks := n.blocks + 1)],
       disk := c.disk[t := SetWord(v.disk[t], k, b)])
  }

  lemma FreeIsPositive(v: Vol, b: nat)
    requires |v.bitmap| == |v.disk| && b in FreeSet(v) && v.freeBlocks == |FreeSet(v)|
    ensures v.freeBlocks > 0
  {
    assert FreeSet(v) - {b} < FreeSet(v);
  }

  /** Putting a claimed block in a slot of the inode changes that slot and no other. */
  lemma LinkInInodeAt(v: Vol, owner: Owner, i: nat, s: Slot, b: nat, j: nat, u: Slot)
    requires Own(v, owner) && b in FreeSet(v) && v.freeBlocks > 0
    requires i < |v.inodes| && InInode(s) && ValidSlot(s) && At(v, i, s) == 0
    ensures At(LinkedInInode(v, i, s, b), j, u) == if (j, u) == (i, s) then b else At(v, j, u)
    decreases Level(u)
  {
    hide WordAt;
    if j < |v.inodes| && ValidSlot(u) && !InInode(u) {
      LinkInInodeAt(v, owner, i, s, b, j, Holder(u));
      ZeroWords(Index(u));
    }
  }

  /** The same for a slot inside a pointer block: the block has one owner, so no other
      inode and no other tier can be looking at it. */
  lemma LinkInTableAt(v: Vol, owner: Owner, i: nat, s: Slot, b: nat, j: nat, u: Slot)
    requires Own(v, owner) && b in FreeSet(v) && v.freeBlocks > 0
    requires i < |v.inodes| && !InInode(s) && ValidSlot(s)
    requires At(v, i, Holder(s)) != 0 && At(v, i, s) == 0
    ensures At(LinkedInTable(v, i, At(v, i, Holder(s)), Index(s), b), j, u)
            == if (j, u) == (i, s) then b else At(v, j, u)
    decreases Level(u)
  {
    hide WordAt, SetWord, Own;
    var t := At(v, i, Holder(s));
    TableOwned(v, owner, i, Holder(s), j, if InInode(u) then u else Holder(u), b);
    if j < |v.inodes| && ValidSlot(u) && !InInode(u) {
      LinkInTableAt(v, owner, i, s, b, j, Holder(u));
      ZeroWords(Index(u));
      SetWordAt(v.disk[t], Index(s), b, Index(u));
    }
  }

  /** A block has one owner, and a free one none. */
  lemma TableOwned(v: Vol, owner: Owner, i: nat, s: Slot, j: nat, u: Slot, b: nat)
    requires Own(v, owner) && b in FreeSet(v) && At(v, i, s) != 0
    ensures At(v, j, u) == At(v, i, s) ==> j == i && u == s
    ensures At(v, j, u) != b && At(v, i, s) != b && At(v, i, s) < |v.disk| && 0 < b < |v.disk| < WORD_LIMIT
    ensures |v.bitmap| == |v.disk|
  {
    hide At;
  }

  lemma OwnedAfterLink(owner: Owner, i: nat, s: Slot, b: nat, j: nat)
    requires b !in owner
    ensures |OwnedBy(owner[b := (i, s)], j)| == |OwnedBy(owner, j)| + if j == i then 1 else 0
  {
    assert OwnedBy(owner[b := (i, s)], j) == OwnedBy(owner, j) + if j == i then {b} else {};
  }

  lemma FreeAfterClaim(v: Vol, v': Vol, b: nat)
    requires |v.bitmap| == |v.disk| == |v'.disk| && v'.dataStart == v.dataStart
    requires b in FreeSet(v) && v'.bitmap == v.bitmap[b := true]
    ensures |FreeSet(v')| == |FreeSet(v)| - 1
  {
    assert FreeSet(v') == FreeSet(v) - {b};
  }

  lemma OwnAfterLink(v: Vol, owner: Owner, v': Vol, i: nat, s: Slot, b: nat)
    requires Own(v, owner) && b in FreeSet(v) && v.freeBlocks > 0
    requires i < |v.inodes| && ValidSlot(s) && At(v, i, s) == 0
    requires |v'.disk| == |v.disk| && v'.dataStart == v.dataStart && |v'.inodes| == |v.inodes|
    requires v'.bitmap == v.bitmap[b := true] && v'.freeBlocks == v.freeBlocks - 1
    requires forall j: nat, u :: At(v', j, u) == if (j, u) == (i, s) then b else At(v, j, u)
    requires forall j :: 0 <= j < |v.inodes| ==>
      v'.inodes[j].blocks == v.inodes[j].blocks + if j == i then 1 else 0
    ensures Own(v', owner[b := (i, s)])
  {
    hide At;
    FreeAfterClaim(v, v', b);
    forall j: nat { OwnedAfterLink(owner, i, s, b, j); }
  }

  /* ---- file contents ---- */

  /** The slot behind block `k` of a file: the three tiers of the block map. */
  function SlotOf(k: nat): (s: Slot)
    requires k < MAX_INDEX
    ensures ValidSlot(s) && !IsTable(s)
  {
    if k < DIRECT then Direct(k)
    else if k - DIRECT < PTRS then IndirectEntry(k - DIRECT)
    else DoubleEntry((k - DIRECT - PTRS) / PTRS, (k - DIRECT - PTRS) % PTRS)
  }

  /** The disk block behind block `k` of file `i`; zero is a hole. */
  function Map(v: Vol, i: nat, k: nat): nat
  {
    if k < MAX_INDEX then At(v, i, SlotOf(k)) else 0
  }

  /** Byte `p` of file `i`, whatever its size says: holes are zero. */
  function ByteAt(v: Vol, i: nat, p: nat): Byte
  {
    var b := Map(v, i, p / BLOCK_SIZE);
    if 0 < b < |v.disk| then v.disk[b][p % BLOCK_SIZE] else 0
  }

  function Contents(v: Vol, i: nat): (c: seq<Byte>)
    requires i < |v.inodes|
    ensures |c| == v.inodes[i].size
    ensures forall p :: 0 <= p < |c| ==> c[p] == ByteAt(v, i, p)
  {
    seq(v.inodes[i].size, p requires 0 <= p => ByteAt(v, i, p))
  }

  lemma SlotOfInjective(k: nat, m: nat)
    requires k < MAX_INDEX && m < MAX_INDEX && SlotOf(k) == SlotOf(m)
    ensures k == m
  {
  }

  /** No block serves two places: distinct block indices of a file, and any indices of
      distinct files, sit on distinct disk blocks. */
  lemma MapInjective(v: Vol, owner: Owner, i: nat, k: nat, j: nat, m: nat)
    requires Own(v, owner) && Map(v, i, k) != 0 && Map(v, i, k) == Map(v, j, m)
    ensures i == j && k == m
  {
    SlotOfInjective(k, m);
  }

  /** What growing a file's block map may do: `i` gains blocks, nothing is remapped,
      and not one byte of any file changes. */
  ghost predicate Extends(v: Vol, v': Vol, i: nat)
  {
    && v'.dataStart == v.dataStart && v'.freeInodes == v.freeInodes
    && |v'.disk| == |v.disk| && |v'.inodes| == |v.inodes| && i < |v.inodes|
    && v'.inodes == v.inodes[i := v'.inodes[i]]
    && v'.inodes[i].(direct := v.inodes[i].direct, indirect := v.inodes[i].indirect,
                     double := v.inodes[i].double, blocks := v.inodes[i].blocks) == v.inodes[i]
    && (forall j: nat, u :: At(v, j, u) != 0 || j != i ==> At(v', j, u) == At(v, j, u))
    && (forall j: nat, p: nat :: ByteAt(v', j, p) == ByteAt(v, j, p))
  }

  lemma ExtendsRefl(v: Vol, i: nat)
    requires i < |v.inodes|
    ensures Extends(v, v, i)
  {
  }

  lemma ExtendsAt(v: Vol, v': Vol, i: nat, s: Slot)
    requires Extends(v, v', i)
    ensures At(v, i, s) != 0 ==> At(v', i, s) == At(v, i, s)
  {
    hide At;
  }

  lemma AtInInode(v: Vol, i: nat, s: Slot)
    requires i < |v.inodes| && InInode(s) && ValidSlot(s)
    ensures At(v, i, s) == InodeSlot(v.inodes[i], s)
  {
  }

  /** Below an absent pointer block every slot is empty. */
  lemma AtBelowHole(v: Vol, i: nat, s: Slot)
    requires !InInode(s) && At(v, i, Holder(s)) == 0
    ensures At(v, i, s) == 0
  {
  }

  /** Reading a pointer block is reading the slots it holds. */
  lemma EntryAt(v: Vol, owner: Owner, i: nat, s: Slot)
    requires Own(v, owner) && i < |v.inodes| && !InInode(s) && ValidSlot(s) && At(v, i, Holder(s)) != 0
    ensures At(v, i, Holder(s)) < |v.disk| && At(v, i, Holder(s)) !in FreeSet(v)
    ensures At(v, i, s) == WordAt(v.disk[At(v, i, Holder(s))], Index(s))
  {
    assert At(v, i, Holder(s)) in owner;
  }

  lemma OwnFacts(v: Vol, owner: Owner)
    requires Own(v, owner)
    ensures Geometry(v) && v.freeBlocks == |FreeSet(v)|
  {
  }

  lemma ExtendsTrans(v: Vol, w: Vol, x: Vol, i: nat)
    requires Extends(v, w, i) && Extends(w, x, i)
    ensures Extends(v, x, i)
  {
    hide At, ByteAt;
  }

  lemma BytesAfterLink(v: Vol, owner: Owner, v': Vol, i: nat, s: Slot, b: nat, t: nat, j: nat, p: nat)
    requires Own(v, owner) && b in FreeSet(v) && ValidSlot(s) && At(v, i, s) == 0
    requires forall j: nat, u :: At(v', j, u) == if (j, u) == (i, s) then b else At(v, j, u)
    requires |v'.disk| == |v.disk| && v'.disk[b] == ZeroBlock()
    requires t == b || (t in owner && IsTable(owner[t].1))
    requires forall c :: 0 <= c < |v.disk| && c != b && c != t ==> v'.disk[c] == v.disk[c]
    ensures ByteAt(v', j, p) == ByteAt(v, j, p)
  {
    hide At;
    var k := p / BLOCK_SIZE;
    if k < MAX_INDEX {
      assert At(v, j, SlotOf(k)) != t || t == b;
    }
  }

  /** The step behind `fill_slot`: a free block becomes slot `s` of inode `i`. */
  lemma LinkInInode(v: Vol, owner: Owner, i: nat, s: Slot, b: nat)
    requires Own(v, owner) && b in FreeSet(v) && v.freeBlocks > 0
    requires i < |v.inodes| && InInode(s) && ValidSlot(s) && At(v, i, s) == 0
    ensures Own(LinkedInInode(v, i, s, b), owner[b := (i, s)])
    ensures Extends(v, LinkedInInode(v, i, s, b), i)
    ensures At(LinkedInInode(v, i, s, b), i, s) == b
    ensures forall u :: u != s ==> At(LinkedInInode(v, i, s, b), i, u) == At(v, i, u)
  {
    var v' := LinkedInInode(v, i, s, b);
    forall j: nat, u ensures At(v', j, u) == if (j, u) == (i, s) then b else At(v, j, u) {
      LinkInInodeAt(v, owner, i, s, b, j, u);
    }
    hide At;
    OwnAfterLink(v, owner, v', i, s, b);
    forall j: nat, p: nat { BytesAfterLink(v, owner, v', i, s, b, b, j, p); }
  }

  /** The step behind `table_slot`: a free block becomes slot `s` of a pointer block. */
  lemma LinkInTable(v: Vol, owner: Owner, i: nat, s: Slot, b: nat)
    requires Own(v, owner) && b in FreeSet(v) && v.freeBlocks > 0
    requires i < |v.inodes| && !InInode(s) && ValidSlot(s)
    requires At(v, i, Holder(s)) != 0 && At(v, i, s) == 0
    ensures var v' := LinkedInTable(v, i, At(v, i, Holder(s)), Index(s), b);
      && Own(v', owner[b := (i, s)]) && Extends(v, v', i) && At(v', i, s) == b
      && forall u :: u != s ==> At(v', i, u) == At(v, i, u)
  {
    var t := At(v, i, Holder(s));
    var v' := LinkedInTable(v, i, t, Index(s), b);
    forall j: nat, u ensures At(v', j, u) == if (j, u) == (i, s) then b else At(v, j, u) {
      LinkInTableAt(v, owner, i, s, b, j, u);
    }
    hide At;
    OwnAfterLink(v, owner, v', i, s, b);
    forall j: nat, p: nat { BytesAfterLink(v, owner, v', i, s, b, t, j, p); }
  }

  /** Rewriting a data block changes one block of one file. */
  lemma DataWrite(v: Vol, owner: Owner, i: nat, k: nat, data: Block)
    requires Own(v, owner) && Map(v, i, k) != 0
    ensures var v' := v.(disk := v.disk[Map(v, i, k) := data]);
      && Own(v', owner)
      && (forall j: nat, u :: At(v', j, u) == At(v, j, u))
      && (forall j: nat, p: nat :: ByteAt(v', j, p)
            == if j == i && p / BLOCK_SIZE == k then data[p % BLOCK_SIZE] else ByteAt(v, j, p))
  {
    var b := Map(v, i, k);
    var v' := v.(disk := v.disk[b := data]);
    forall j: nat, u ensures At(v', j, u) == At(v, j, u) { DataWriteAt(v, owner, i, k, data, j, u); }
    hide At;
    assert FreeSet(v') == FreeSet(v);
    forall j: nat, p: nat
      ensures ByteAt(v', j, p) == if j == i && p / BLOCK_SIZE == k then data[p % BLOCK_SIZE] else ByteAt(v, j, p)
    {
      if Map(v, j, p / BLOCK_SIZE) == b { MapInjective(v, owner, i, k, j, p / BLOCK_SIZE); }
    }
  }

  lemma DataWriteAt(v: Vol, owner: Owner, i: nat, k: nat, data: Block, j: nat, u: Slot)
    requires Own(v, owner) && Map(v, i, k) != 0
    ensures At(v.(disk := v.disk[Map(v, i, k) := data]), j, u) == At(v, j, u)
    decreases Level(u)
  {
    hide WordAt;
    if j < |v.inodes| && ValidSlot(u) && !InInode(u) {
      DataWriteAt(v, owner, i, k, data, j, Holder(u));
    }
  }
}
