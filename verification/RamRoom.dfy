/** What a file takes of memory (kernel/fs/ramfs.c): a frame for each page that is missing, and
    heap memory for the array of their numbers each time it has to grow. */
module RamRoom {
  import opened WfsLayout
  import opened RamStore

  /** How much will still be had before it is refused: frames, and pieces of heap memory. */
  datatype Memory = Memory(frames: nat, room: nat)

  /** The length an array of `n` has with a place for page `k`: twice what it had, or four, or more
      if that is not enough. */
  function Grown(n: nat, k: nat): nat
  {
    if k < n then n else if n != 0 && 2 * n > k then 2 * n else if n == 0 && k < 4 then 4 else k + 1
  }

  /** The same for pages `lo` up to `hi`, one after the other. */
  function Length(n: nat, lo: nat, hi: nat): nat
    decreases hi
  {
    if hi <= lo then n else Grown(Length(n, lo, hi - 1), hi - 1)
  }

  /** How often it grows on the way. */
  function Growths(n: nat, lo: nat, hi: nat): nat
    decreases hi
  {
    if hi <= lo then 0 else Growths(n, lo, hi - 1) + if hi - 1 < Length(n, lo, hi - 1) then 0 else 1
  }

  /** The pages of `lo` up to `hi` that are not there. */
  ghost function Missing(ns: Nodes, i: nat, lo: nat, hi: nat): set<nat>
  {
    set k: nat | lo <= k < hi && BlockOf(ns, i, k) == 0
  }

  /** How many pages hold the first `n` bytes. */
  function PagesUpTo(n: nat): nat { (n + PAGE - 1) / PAGE }

  function SlotCount(ns: Nodes, i: nat): nat { if i in ns then |ns[i].blocks| else 0 }

  /** There is memory for pages `lo` up to `hi`. */
  ghost predicate RangeFits(ns: Nodes, i: nat, lo: nat, hi: nat, m: Memory)
  {
    m.frames >= |Missing(ns, i, lo, hi)| && m.room >= Growths(SlotCount(ns, i), lo, hi)
  }

  /** There is memory for `n` bytes at `offset`. */
  ghost predicate WriteFits(ns: Nodes, i: nat, offset: nat, n: nat, m: Memory)
  {
    n == 0 || RangeFits(ns, i, offset / PAGE, PagesUpTo(offset + n), m)
  }

  /** Pages `lo` up to `hi` are there, at just what was missing, and the others are as they were. */
  ghost predicate Supplied(ns: Nodes, ns': Nodes, i: nat, lo: nat, hi: nat, m: Memory, m': Memory)
  {
    && m'.frames + |Missing(ns, i, lo, hi)| == m.frames
    && m'.room + Growths(SlotCount(ns, i), lo, hi) == m.room
    && SlotCount(ns', i) == Length(SlotCount(ns, i), lo, hi)
    && (forall k: nat :: lo <= k < hi ==> BlockOf(ns', i, k) != 0)
    && forall k: nat :: !(lo <= k < hi) ==> BlockOf(ns', i, k) == BlockOf(ns, i, k)
  }

  /** What asking for page `k` comes to: it is there, at just what was missing; or something was
      refused, and then it is missing still. */
  ghost predicate Asked(ns: Nodes, ns': Nodes, i: nat, k: nat, m: Memory, m': Memory, ok: bool)
  {
    if ok then Supplied(ns, ns', i, k, k + 1, m, m')
    else !RangeFits(ns, i, k, k + 1, m) && BlockOf(ns', i, k) == 0 == BlockOf(ns, i, k)
  }

  /** A write is whole exactly if there is memory for it, and then takes just that; if not, it
      stopped where a page is still missing, between two pages. */
  ghost predicate WriteAccounted(ns: Nodes, ns': Nodes, i: nat, offset: nat, n: nat, done: nat, m: Memory, m': Memory)
  {
    && (done == n <==> WriteFits(ns, i, offset, n, m))
    && (done == n > 0 ==> Supplied(ns, ns', i, offset / PAGE, PagesUpTo(offset + n), m, m'))
    && (done < n ==>
          && BlockOf(ns', i, (offset + done) / PAGE) == 0 == BlockOf(ns, i, (offset + done) / PAGE)
          && (done == 0 || (offset + done) % PAGE == 0))
  }

  /* ---- the array ---- */

  /** A page the array has a place for makes it no longer, and a growth at least doubles it. */
  lemma GrownIs(n: nat, k: nat)
    ensures k < Grown(n, k) && n <= Grown(n, k) && (k < n <==> Grown(n, k) == n) && (k >= n ==> Grown(n, k) >= 2 * n)
  {
  }

  /** So it grows rarely: `g` times only if the range is longer than doubling `g - 1` times gives. */
  lemma {:induction false} RarelyGrows(n: nat, lo: nat, hi: nat)
    requires n > 0
    ensures Growths(n, lo, hi) > 0 ==> Doubled(n, Growths(n, lo, hi) - 1) < hi
    ensures Doubled(n, Growths(n, lo, hi)) <= Length(n, lo, hi)
    decreases hi
  {
    if lo < hi {
      RarelyGrows(n, lo, hi - 1);
      GrownIs(Length(n, lo, hi - 1), hi - 1);
    }
  }

  function Doubled(n: nat, times: nat): nat { if times == 0 then n else 2 * Doubled(n, times - 1) }

  /** An array long enough does not grow. */
  lemma {:induction false} LongEnough(n: nat, lo: nat, hi: nat)
    requires hi <= n
    ensures Growths(n, lo, hi) == 0 && Length(n, lo, hi) == n
    decreases hi
  {
    if lo < hi { LongEnough(n, lo, hi - 1); }
  }

  /** Where every page is there nothing is needed at all. */
  lemma AllThere(ns: Nodes, i: nat, offset: nat, n: nat, m: Memory)
    requires forall k: nat :: offset / PAGE <= k < PagesUpTo(offset + n) ==> BlockOf(ns, i, k) != 0
    ensures WriteFits(ns, i, offset, n, m)
  {
    var lo, hi := offset / PAGE, PagesUpTo(offset + n);
    assert Missing(ns, i, lo, hi) == {};
    if n > 0 {
      assert lo <= hi - 1;
      assert BlockOf(ns, i, hi - 1) != 0;
      LongEnough(SlotCount(ns, i), lo, hi);
    }
  }

  /* ---- page after page ---- */

  lemma MissingNext(ns: Nodes, i: nat, lo: nat, k: nat)
    requires lo <= k
    ensures |Missing(ns, i, lo, k + 1)| == |Missing(ns, i, lo, k)| + if BlockOf(ns, i, k) == 0 then 1 else 0
  {
    hide BlockOf;
    var a := Missing(ns, i, lo, k);
    assert Missing(ns, i, lo, k + 1) == if BlockOf(ns, i, k) == 0 then a + {k} else a;
  }

  lemma NoneMissing(ns: Nodes, i: nat, k: nat)
    ensures Missing(ns, i, k, k) == {}
  {
  }

  /** What one page needs. */
  lemma OnePage(ns: Nodes, i: nat, k: nat)
    ensures |Missing(ns, i, k, k + 1)| == if BlockOf(ns, i, k) == 0 then 1 else 0
    ensures var n := SlotCount(ns, i);
      Length(n, k, k + 1) == Grown(n, k) && Growths(n, k, k + 1) == if k < n then 0 else 1
  {
    hide BlockOf;
    MissingNext(ns, i, k, k);
    NoneMissing(ns, i, k);
    var n := SlotCount(ns, i);
    assert Length(n, k, k) == n && Growths(n, k, k) == 0;
  }

  lemma {:induction false} MoreNeeded(ns: Nodes, i: nat, lo: nat, k: nat, hi: nat)
    requires lo <= k <= hi
    ensures |Missing(ns, i, lo, k)| <= |Missing(ns, i, lo, hi)|
    ensures Growths(SlotCount(ns, i), lo, k) <= Growths(SlotCount(ns, i), lo, hi)
    decreases hi
  {
    hide BlockOf, SlotCount, Missing, Length;
    if k < hi {
      MoreNeeded(ns, i, lo, k, hi - 1);
      MissingNext(ns, i, lo, hi - 1);
    }
  }

  lemma NothingYet(ns: Nodes, i: nat, lo: nat, m: Memory)
    ensures Supplied(ns, ns, i, lo, lo, m, m)
  {
    assert Missing(ns, i, lo, lo) == {};
  }

  /** One page more. */
  lemma SuppliedOn(ns: Nodes, ns1: Nodes, ns2: Nodes, i: nat, lo: nat, k: nat, m: Memory, m1: Memory, m2: Memory)
    requires lo <= k && Supplied(ns, ns1, i, lo, k, m, m1) && Supplied(ns1, ns2, i, k, k + 1, m1, m2)
    ensures Supplied(ns, ns2, i, lo, k + 1, m, m2)
  {
    hide BlockOf, SlotCount, Missing, Grown;
    MissingNext(ns, i, lo, k);
    MissingNext(ns1, i, k, k);
    NoneMissing(ns1, i, k);
    var n := SlotCount(ns1, i);
    assert Length(n, k, k) == n && Growths(n, k, k) == 0;
  }

  /** A refusal on the way is too little for all of it. */
  lemma TooLittle(ns: Nodes, ns1: Nodes, i: nat, lo: nat, k: nat, hi: nat, m: Memory, m1: Memory)
    requires lo <= k < hi && Supplied(ns, ns1, i, lo, k, m, m1) && !RangeFits(ns1, i, k, k + 1, m1)
    ensures !RangeFits(ns, i, lo, hi, m)
  {
    hide BlockOf, SlotCount, Missing, Grown;
    MissingNext(ns, i, lo, k);
    MissingNext(ns1, i, k, k);
    NoneMissing(ns1, i, k);
    MoreNeeded(ns, i, lo, k + 1, hi);
    var n := SlotCount(ns1, i);
    assert Length(n, k, k) == n && Growths(n, k, k) == 0;
  }

  /* ---- a write ---- */

  /** How far the pages reach that hold what was written. */
  function Reached(offset: nat, done: nat): nat { if done == 0 then offset / PAGE else PagesUpTo(offset + done) }

  /** The pages written so far are there. */
  ghost predicate Underway(ns: Nodes, ns': Nodes, i: nat, offset: nat, done: nat, m: Memory, m': Memory)
  {
    Supplied(ns, ns', i, offset / PAGE, Reached(offset, done), m, m')
  }

  lemma SuppliedStart(ns: Nodes, i: nat, offset: nat, m: Memory)
    ensures Underway(ns, ns, i, offset, 0, m, m)
  {
    NothingYet(ns, i, offset / PAGE, m);
  }

  lemma ReachedIs(offset: nat, done: nat, chunk: nat)
    requires done == 0 || (offset + done) % PAGE == 0
    ensures Reached(offset, done) == (offset + done) / PAGE >= offset / PAGE
    ensures 0 < chunk && (offset + done) % PAGE + chunk <= PAGE ==>
      Reached(offset, done + chunk) == (offset + done) / PAGE + 1
  {
  }

  lemma GoneOn(ns: Nodes, ns1: Nodes, ns2: Nodes, i: nat, offset: nat, done: nat, chunk: nat, m: Memory, m1: Memory,
    m2: Memory)
    requires Underway(ns, ns1, i, offset, done, m, m1) && (done == 0 || (offset + done) % PAGE == 0)
    requires 0 < chunk && (offset + done) % PAGE + chunk <= PAGE
    requires Asked(ns1, ns2, i, (offset + done) / PAGE, m1, m2, true)
    ensures Underway(ns, ns2, i, offset, done + chunk, m, m2)
  {
    hide Supplied, Reached;
    ReachedIs(offset, done, chunk);
    SuppliedOn(ns, ns1, ns2, i, offset / PAGE, (offset + done) / PAGE, m, m1, m2);
  }

  lemma StoppedShort(ns: Nodes, ns1: Nodes, ns2: Nodes, i: nat, offset: nat, n: nat, done: nat, m: Memory, m1: Memory,
    m2: Memory)
    requires Underway(ns, ns1, i, offset, done, m, m1) && done < n && (done == 0 || (offset + done) % PAGE == 0)
    requires Asked(ns1, ns2, i, (offset + done) / PAGE, m1, m2, false)
    ensures WriteAccounted(ns, ns2, i, offset, n, done, m, m2)
  {
    hide BlockOf, Reached, Missing, SlotCount, RangeFits;
    var lo, k := offset / PAGE, (offset + done) / PAGE;
    ReachedIs(offset, done, 0);
    FurtherOn(offset, n, done);
    TooLittle(ns, ns1, i, lo, k, PagesUpTo(offset + n), m, m1);
  }

  lemma FurtherOn(offset: nat, n: nat, done: nat)
    requires done < n
    ensures (offset + done) / PAGE < PagesUpTo(offset + n)
  {
  }

  lemma AllSupplied(ns: Nodes, ns': Nodes, i: nat, offset: nat, n: nat, m: Memory, m': Memory)
    requires Underway(ns, ns', i, offset, n, m, m')
    ensures WriteAccounted(ns, ns', i, offset, n, n, m, m')
  {
    hide BlockOf, Missing, SlotCount, PagesUpTo;
  }

  /** The size is not part of the account. */
  lemma AccountedSize(ns: Nodes, ns1: Nodes, ns2: Nodes, i: nat, offset: nat, n: nat, done: nat, m: Memory, m': Memory)
    requires WriteAccounted(ns, ns1, i, offset, n, done, m, m') && i in ns1
    requires i in ns2 && ns2[i] == ns1[i].(size := ns2[i].size)
    ensures WriteAccounted(ns, ns2, i, offset, n, done, m, m')
  {
    hide Missing, PagesUpTo, RangeFits;
    assert forall k: nat :: BlockOf(ns2, i, k) == BlockOf(ns1, i, k);
    assert SlotCount(ns2, i) == SlotCount(ns1, i);
    hide BlockOf, SlotCount;
  }
}
