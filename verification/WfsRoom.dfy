/** What a file takes of a volume (kernel/fs/wfs.c): the slots on the way to its blocks that are
    still empty, each of which costs one free block. */
module WfsRoom {
  import opened WfsLayout
  import opened WfsVolume

  /** The slots on the way to block `k` of a file, the last of them its own. */
  function Chain(k: nat): set<Slot>
    requires k < MAX_INDEX
  {
    if k < DIRECT then {Direct(k)}
    else if k - DIRECT < PTRS then {Indirect, IndirectEntry(k - DIRECT)}
    else
      var m := k - DIRECT - PTRS;
      {Double, Middle(m / PTRS), DoubleEntry(m / PTRS, m % PTRS)}
  }

  /** Those of them that are empty. */
  ghost function Gaps(v: Vol, i: nat, k: nat): set<Slot>
  {
    if k < MAX_INDEX then set s | s in Chain(k) && At(v, i, s) == 0 else {}
  }

  /** The same for blocks `lo` up to `hi`. */
  ghost function AllGaps(v: Vol, i: nat, lo: nat, hi: nat): set<Slot>
    decreases hi
  {
    if hi <= lo then {} else AllGaps(v, i, lo, hi - 1) + Gaps(v, i, hi - 1)
  }

  /** The slots filled in `i` are `ss`, at one block each. */
  ghost predicate Took(v: Vol, v': Vol, i: nat, ss: set<Slot>)
  {
    && v'.freeBlocks + |ss| == v.freeBlocks
    && (forall s <- ss :: At(v, i, s) == 0)
    && forall u :: At(v', i, u) == 0 <==> At(v, i, u) == 0 && u !in ss
  }

  lemma TookNone(v: Vol, v': Vol, i: nat)
    requires v'.freeBlocks == v.freeBlocks && forall u :: At(v', i, u) == At(v, i, u)
    ensures Took(v, v', i, {})
  {
    hide At;
  }

  lemma TookOne(v: Vol, v': Vol, i: nat, s: Slot)
    requires v'.freeBlocks + 1 == v.freeBlocks && At(v, i, s) == 0 && At(v', i, s) != 0
    requires forall u :: u != s ==> At(v', i, u) == At(v, i, u)
    ensures Took(v, v', i, {s})
  {
    hide At;
  }

  lemma TookTrans(v: Vol, v1: Vol, v2: Vol, i: nat, a: set<Slot>, b: set<Slot>)
    requires Took(v, v1, i, a) && Took(v1, v2, i, b)
    ensures Took(v, v2, i, a + b) && a !! b
  {
    hide At;
    forall s <- a ensures s !in b { assert At(v1, i, s) != 0; }
    Apart(a, b);
  }

  lemma Apart<T>(a: set<T>, b: set<T>)
    requires a !! b
    ensures |a + b| == |a| + |b|
  {
  }

  lemma Within<T>(a: set<T>, b: set<T>)
    requires a <= b
    ensures |a| <= |b|
  {
    assert b == a + (b - a);
    Apart(a, b - a);
  }

  /** What is filled is a gap no more. */
  lemma GapsAfter(v: Vol, v': Vol, i: nat, ss: set<Slot>, k: nat)
    requires Took(v, v', i, ss)
    ensures Gaps(v', i, k) == Gaps(v, i, k) - ss
  {
    hide At, Chain;
  }

  /** With the whole way filled and nothing else, its gaps were what was taken. */
  lemma TookGaps(v: Vol, v': Vol, i: nat, ss: set<Slot>, k: nat)
    requires k < MAX_INDEX && Took(v, v', i, ss) && ss <= Chain(k) && forall s <- Chain(k) :: At(v', i, s) != 0
    ensures ss == Gaps(v, i, k)
  {
    hide At, Chain;
  }

  /** Stopped at a gap with nothing free but `spare`, there was too little to begin with. */
  lemma TooFew(v: Vol, v': Vol, i: nat, ss: set<Slot>, s: Slot, k: nat, spare: nat)
    requires k < MAX_INDEX && Took(v, v', i, ss) && ss <= Chain(k) && v'.freeBlocks == spare
    requires s in Chain(k) && At(v', i, s) == 0
    ensures v.freeBlocks < |Gaps(v, i, k)| + spare
  {
    hide At, Chain;
    assert ss + {s} <= Gaps(v, i, k);
    assert s !in ss;
    Apart(ss, {s});
    Within(ss + {s}, Gaps(v, i, k));
  }

  /** One block more. */
  lemma AllGapsNext(v: Vol, i: nat, lo: nat, k: nat)
    requires lo <= k
    ensures AllGaps(v, i, lo, k + 1) == AllGaps(v, i, lo, k) + Gaps(v, i, k)
  {
  }

  lemma {:induction false} AllGapsGrow(v: Vol, i: nat, lo: nat, k: nat, hi: nat)
    requires k <= hi
    ensures AllGaps(v, i, lo, k) <= AllGaps(v, i, lo, hi)
    decreases hi
  {
    if k < hi { AllGapsGrow(v, i, lo, k, hi - 1); }
  }

  /** A write that has filled the way to the blocks before `k` fills that to `k` as well. */
  lemma TookOn(v: Vol, v1: Vol, v2: Vol, i: nat, lo: nat, k: nat)
    requires lo <= k && Took(v, v1, i, AllGaps(v, i, lo, k)) && Took(v1, v2, i, Gaps(v1, i, k))
    ensures Took(v, v2, i, AllGaps(v, i, lo, k + 1))
  {
    hide Took, Gaps, AllGaps;
    var a := AllGaps(v, i, lo, k);
    TookTrans(v, v1, v2, i, a, Gaps(v1, i, k));
    GapsAfter(v, v1, i, a, k);
    AllGapsNext(v, i, lo, k);
    assert a + Gaps(v1, i, k) == a + Gaps(v, i, k);
  }

  /** A write that could not fill the way to `k` had too little for all of it. */
  lemma TooFewForAll(v: Vol, v1: Vol, i: nat, lo: nat, k: nat, hi: nat, spare: nat)
    requires lo <= k < hi && Took(v, v1, i, AllGaps(v, i, lo, k)) && v1.freeBlocks < |Gaps(v1, i, k)| + spare
    ensures v.freeBlocks < |AllGaps(v, i, lo, hi)| + spare
  {
    hide At, Gaps, AllGaps;
    var a, b := AllGaps(v, i, lo, k), Gaps(v1, i, k);
    GapsAfter(v, v1, i, a, k);
    Apart(a, b);
    AllGapsNext(v, i, lo, k);
    AllGapsGrow(v, i, lo, k + 1, hi);
    Within(a + b, AllGaps(v, i, lo, hi));
  }

  lemma GapsSame(v: Vol, v': Vol, i: nat, k: nat)
    requires forall u :: At(v', i, u) == At(v, i, u)
    ensures Gaps(v', i, k) == Gaps(v, i, k)
  {
    hide At, Chain;
  }

  lemma FewGaps(v: Vol, i: nat, k: nat)
    ensures |Gaps(v, i, k)| <= 3 && (k < DIRECT ==> |Gaps(v, i, k)| <= 1)
  {
    hide At;
    if k < MAX_INDEX {
      ChainShort(k);
      Within(Gaps(v, i, k), Chain(k));
    }
  }

  lemma ChainShort(k: nat)
    requires k < MAX_INDEX
    ensures |Chain(k)| <= 3 && (k < DIRECT ==> |Chain(k)| == 1)
  {
  }

  /* ---- a whole file ---- */

  /** All the slots of a file of `hi` blocks. */
  function Chains(hi: nat): set<Slot>
    requires hi <= MAX_INDEX
  {
    if hi == 0 then {} else Chains(hi - 1) + Chain(hi - 1)
  }

  lemma {:induction false} EmptyGaps(v: Vol, i: nat, hi: nat)
    requires hi <= MAX_INDEX && forall u :: At(v, i, u) == 0
    ensures AllGaps(v, i, 0, hi) == Chains(hi)
    decreases hi
  {
    hide At, Chain;
    if hi > 0 { EmptyGaps(v, i, hi - 1); }
  }

  /** Up to ten blocks a file has no pointer blocks. */
  lemma {:induction false} FewChains(hi: nat)
    requires hi <= DIRECT
    ensures |Chains(hi)| == hi && forall s <- Chains(hi) :: s.Direct? && s.i < hi
  {
    if hi > 0 {
      FewChains(hi - 1);
      Apart(Chains(hi - 1), {Direct(hi - 1)});
    }
  }
}
