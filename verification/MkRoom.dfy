/** What the image builder (tools/mkwfs.c) has to build with, and what files filled from their start
    take of it.  Only part of the image is in memory, and it is filled from the bottom. */
module MkRoom {
  import opened WfsLayout
  import opened WfsVolume
  import opened WfsDriver
  import opened WfsRoom

  /** Only blocks that are built in memory are in use. */
  ghost predicate InRam(v: Vol, built: nat)
  {
    forall b :: built <= b < |v.bitmap| ==> !v.bitmap[b]
  }

  /** How many of the free blocks are in memory. */
  function Room(v: Vol, built: nat): int { v.freeBlocks - (|v.disk| - built) }

  ghost function FreeInRam(v: Vol, built: nat): set<nat>
    requires |v.bitmap| == |v.disk|
  {
    set b | b in FreeSet(v) && b < built
  }

  lemma RoomIs(v: Vol, owner: Owner, built: nat)
    requires Own(v, owner) && InRam(v, built) && v.dataStart <= built <= |v.disk|
    ensures Room(v, built) == |FreeInRam(v, built)|
  {
    hide At, Claims;
    var above := Range(built, |v.disk|);
    assert FreeSet(v) == FreeInRam(v, built) + above;
    Apart(FreeInRam(v, built), above);
  }

  function Range(lo: nat, hi: nat): (s: set<nat>)
    requires lo <= hi
    ensures |s| == hi - lo && forall x: nat :: x in s <==> lo <= x < hi
  {
    if lo == hi then {} else Range(lo, hi - 1) + {hi - 1}
  }

  /** Mapping block `k` fills the gaps on the way to it, if there are blocks for them all in memory. */
  ghost predicate RamMapped(v: Vol, v': Vol, i: nat, k: nat, built: nat, ok: bool)
  {
    if ok then Took(v, v', i, Gaps(v, i, k)) else Room(v, built) < |Gaps(v, i, k)|
  }

  lemma NotRamMapped(v: Vol, v1: Vol, i: nat, a: set<Slot>, s: Slot, k: nat, built: nat)
    requires k < MAX_INDEX && a <= Chain(k) && s in Chain(k) && At(v1, i, s) == 0
    requires Room(v1, built) == 0 && built <= |v.disk| == |v1.disk|
    requires (v1 == v && a == {}) || Took(v, v1, i, a)
    ensures forall v' :: RamMapped(v, v', i, k, built, false)
  {
    hide At, Chain;
    if v1 == v && a == {} { TookNone(v, v, i); }
    TooFew(v, v1, i, a, s, k, |v1.disk| - built);
  }

  lemma WasMapped(v: Vol, v': Vol, i: nat, k: nat, built: nat)
    requires Mapped(v, v', i, k, true)
    ensures RamMapped(v, v', i, k, built, true)
  {
  }

  lemma RamIsMapped(v: Vol, v': Vol, i: nat, k: nat, built: nat)
    requires RamMapped(v, v', i, k, built, true)
    ensures Mapped(v, v', i, k, true)
  {
  }

  /** A write is done exactly if it is not too long and there are blocks in memory for its gaps. */
  ghost predicate RamWrote(v: Vol, v': Vol, i: nat, offset: nat, n: nat, built: nat, ok: bool)
  {
    if ok then offset + n <= MAX_FILE_SIZE && Took(v, v', i, WriteGaps(v, i, offset, n))
    else offset + n > MAX_FILE_SIZE || Room(v, built) < |WriteGaps(v, i, offset, n)|
  }

  lemma RamShort(v0: Vol, v: Vol, v': Vol, i: nat, offset: nat, n: nat, k: nat, built: nat)
    requires var lo := offset / BLOCK_SIZE;
      lo <= k < BlocksUpTo(offset + n) && Took(v0, v, i, AllGaps(v0, i, lo, k)) && n > 0
    requires RamMapped(v, v', i, k, built, false) && built <= |v.disk| == |v0.disk|
    ensures RamWrote(v0, v', i, offset, n, built, false)
  {
    hide Took, AllGaps, Gaps;
    TooFewForAll(v0, v, i, offset / BLOCK_SIZE, k, BlocksUpTo(offset + n), |v.disk| - built);
  }

  lemma RamDone(v0: Vol, v: Vol, v': Vol, i: nat, offset: nat, n: nat, built: nat)
    requires offset + n <= MAX_FILE_SIZE
    requires var lo := offset / BLOCK_SIZE;
      Took(v0, v, i, AllGaps(v0, i, lo, if n == 0 then lo else BlocksUpTo(offset + n)))
    requires v'.freeBlocks == v.freeBlocks && forall u :: At(v', i, u) == At(v, i, u)
    ensures RamWrote(v0, v', i, offset, n, built, true)
  {
    hide Took, AllGaps, At;
    AllAccounted(v0, v, v', i, offset, n);
  }

  /* ---- a file filled from its start ---- */

  /** File `i` holds the blocks of its first `n` bytes, and no others. */
  ghost predicate Filled(v: Vol, i: nat, n: nat)
  {
    n <= MAX_FILE_SIZE && forall s :: At(v, i, s) != 0 <==> s in Chains(BlocksUpTo(n))
  }

  lemma FilledNone(v: Vol, i: nat)
    requires forall s :: At(v, i, s) == 0
    ensures Filled(v, i, 0) && Cost(0) == 0
  {
    hide At;
    assert BlocksUpTo(0) == 0;
  }

  lemma FilledSame(v: Vol, v': Vol, i: nat, n: nat)
    requires Filled(v, i, n) && forall s :: At(v', i, s) == At(v, i, s)
    ensures Filled(v', i, n)
  {
    hide At, Chains;
  }

  lemma {:induction false} ChainsGrow(a: nat, b: nat)
    requires a <= b <= MAX_INDEX
    ensures Chains(a) <= Chains(b)
    decreases b
  {
    hide Chain;
    if a < b { ChainsGrow(a, b - 1); }
  }

  lemma CostGrows(n: nat, m: nat)
    requires n <= m <= MAX_FILE_SIZE
    ensures Cost(n) <= Cost(m)
  {
    hide Chains;
    BlocksGrow(n, m);
    ChainsGrow(BlocksUpTo(n), BlocksUpTo(m));
    Within(Chains(BlocksUpTo(n)), Chains(BlocksUpTo(m)));
  }

  lemma BlocksGrow(n: nat, m: nat)
    requires n <= m <= MAX_FILE_SIZE
    ensures BlocksUpTo(n) <= BlocksUpTo(m) <= MAX_INDEX
  {
  }

  /** Written at once from nothing, a file takes what it costs. */
  lemma FilledAtOnce(v: Vol, v': Vol, i: nat, n: nat)
    requires n <= MAX_FILE_SIZE && forall s :: At(v, i, s) == 0
    ensures |WriteGaps(v, i, 0, n)| == Cost(n)
    ensures Took(v, v', i, WriteGaps(v, i, 0, n)) ==> Filled(v', i, n) && v'.freeBlocks + Cost(n) == v.freeBlocks
  {
    hide At, Chains, Chain, Gaps, AllGaps;
    BlocksGrow(n, n);
    EmptyGaps(v, i, BlocksUpTo(n));
    if n == 0 { assert Chains(0) == {} by { NoChain(); } }
  }

  lemma NoChain()
    ensures Chains(0) == {}
  {
  }

  /** So many inodes and blocks have been used up. */
  ghost predicate Spent(v: Vol, v': Vol, nodes: nat, blocks: int)
  {
    v'.freeInodes + nodes == v.freeInodes && v'.freeBlocks + blocks == v.freeBlocks && |v'.disk| == |v.disk|
  }

  /** There are not so many. */
  ghost predicate Short(v: Vol, built: nat, nodes: nat, blocks: int)
  {
    v.freeInodes < nodes || Room(v, built) < blocks
  }

  /** One record more at the end of a directory. */
  lemma FilledOn(v: Vol, v': Vol, d: nat, n: nat)
    requires Filled(v, d, n) && n % 32 == 0 && n + 32 <= MAX_FILE_SIZE
    ensures |Gaps(v, d, n / BLOCK_SIZE)| + Cost(n) == Cost(n + 32)
    ensures Took(v, v', d, Gaps(v, d, n / BLOCK_SIZE)) ==>
      Filled(v', d, n + 32) && v'.freeBlocks + Cost(n + 32) == v.freeBlocks + Cost(n)
  {
    hide At, Chain, Gaps, BlocksUpTo, Took, Chains;
    Blocks32(n);
    var k, a, b := n / BLOCK_SIZE, Chains(BlocksUpTo(n)), Chains(BlocksUpTo(n + 32));
    GapsLeft(v, d, k, a);
    ChainsNext(k);
    assert Gaps(v, d, k) + a == b;
    Apart(Gaps(v, d, k), a);
    if Took(v, v', d, Gaps(v, d, k)) { TookMore(v, v', d, a, Gaps(v, d, k)); }
  }

  lemma GapsLeft(v: Vol, i: nat, k: nat, c: set<Slot>)
    requires k < MAX_INDEX && forall s :: At(v, i, s) != 0 <==> s in c
    ensures Gaps(v, i, k) == Chain(k) - c
  {
    hide At, Chain;
  }

  lemma ChainsNext(k: nat)
    requires k < MAX_INDEX
    ensures Chains(k + 1) == Chains(k) + Chain(k)
  {
    hide Chain;
  }

  lemma TookMore(v: Vol, v': Vol, i: nat, a: set<Slot>, ss: set<Slot>)
    requires Took(v, v', i, ss) && forall s :: At(v, i, s) != 0 <==> s in a
    ensures (forall s :: At(v', i, s) != 0 <==> s in ss + a) && v'.freeBlocks + |ss| == v.freeBlocks
  {
    hide At;
  }

  lemma Blocks32(n: nat)
    requires n % 32 == 0 && n + 32 <= MAX_FILE_SIZE
    ensures var k := n / BLOCK_SIZE;
      k < MAX_INDEX && BlocksUpTo(n + 32) == k + 1 && BlocksUpTo(n) == if n % BLOCK_SIZE == 0 then k else k + 1
  {
  }
}
