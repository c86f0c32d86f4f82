/** The write-through block cache (kernel/fs/wfs.c): coherent with the device whatever
    transfers fail, and least-recently-used while none do. */
module WfsCache {

  const CACHE_BLOCKS: nat := 64

  datatype Line<B> = Line(data: B, block: nat, stamp: nat)

  datatype Option<T> = None | Some(value: T)

  /* ---- the most recently touched blocks ---- */

  function Without(s: seq<nat>, b: nat): seq<nat>
  {
    if s == [] then [] else (if s[0] == b then [] else [s[0]]) + Without(s[1..], b)
  }

  /** `b` moves to the front. */
  function Touch(recent: seq<nat>, b: nat): seq<nat> { [b] + Without(recent, b) }

  /** The blocks of a history of touches, most recently touched first, each once. */
  function Recent(history: seq<nat>): seq<nat>
  {
    if history == [] then [] else Touch(Recent(history[..|history| - 1]), history[|history| - 1])
  }

  ghost predicate Distinct(s: seq<nat>)
  {
    forall i, j :: 0 <= i < j < |s| ==> s[i] != s[j]
  }

  /** When `b` was last touched. */
  function LastTouch(history: seq<nat>, b: nat): int
  {
    if history == [] then -1
    else if history[|history| - 1] == b then |history| - 1
    else LastTouch(history[..|history| - 1], b)
  }

  lemma {:induction false} WithoutAbsent(s: seq<nat>, b: nat)
    requires b !in s
    ensures Without(s, b) == s
  {
    if s != [] { WithoutAbsent(s[1..], b); }
  }

  /** `s` without its `p`th element. */
  function Omit(s: seq<nat>, p: nat): (r: seq<nat>)
    requires p < |s|
    ensures |r| == |s| - 1 && forall k :: 0 <= k < |r| ==> r[k] == if k < p then s[k] else s[k + 1]
  {
    s[..p] + s[p + 1..]
  }

  lemma {:induction false} WithoutPresent(s: seq<nat>, b: nat, p: nat)
    requires Distinct(s) && p < |s| && s[p] == b
    ensures Without(s, b) == Omit(s, p)
  {
    if p == 0 {
      assert b !in s[1..];
      WithoutAbsent(s[1..], b);
      assert Omit(s, 0) == s[1..];
    } else {
      assert s[1..][p - 1] == b;
      WithoutPresent(s[1..], b, p - 1);
      assert Omit(s, p) == [s[0]] + Omit(s[1..], p - 1);
    }
  }

  lemma OmitKeeps(s: seq<nat>, p: nat, x: nat)
    requires p < |s| && x in s && x != s[p]
    ensures x in Omit(s, p)
  {
    var q :| 0 <= q < |s| && s[q] == x;
    assert Omit(s, p)[if q < p then q else q - 1] == x;
  }

  lemma InPrefix(s: seq<nat>, p: nat, n: nat)
    requires n <= |s| && p < |s|
    ensures p < n ==> s[p] in s[..n]
  {
    if p < n { assert s[..n][p] == s[p]; }
  }

  /** Touching keeps each block once, and touches nothing but the order. */
  lemma TouchFacts(s: seq<nat>, b: nat)
    requires Distinct(s)
    ensures Distinct(Touch(s, b)) && (forall x :: x in Touch(s, b) <==> x == b || x in s)
    ensures forall n :: 0 <= n <= |s| && b !in s[..n] ==> n < |Touch(s, b)| && Touch(s, b)[..n + 1] == [b] + s[..n]
    ensures |Touch(s, b)| == if b in s then |s| else |s| + 1
  {
    if b in s {
      var p :| 0 <= p < |s| && s[p] == b;
      WithoutPresent(s, b, p);
      forall n | 0 <= n <= |s| && b !in s[..n] ensures n < |Touch(s, b)| && Touch(s, b)[..n + 1] == [b] + s[..n] {
        InPrefix(s, p, n);
      }
    } else {
      WithoutAbsent(s, b);
    }
  }

  ghost predicate ByLastTouch(h: seq<nat>, r: seq<nat>)
  {
    forall i, j :: 0 <= i < j < |r| ==> LastTouch(h, r[i]) > LastTouch(h, r[j])
  }

  lemma LastTouchSnoc(h: seq<nat>, b: nat, x: nat)
    ensures LastTouch(h + [b], x) == if x == b then |h| else LastTouch(h, x)
  {
    assert (h + [b])[..|h|] == h;
  }

  lemma {:induction false} LastTouchBound(h: seq<nat>, x: nat)
    ensures -1 <= LastTouch(h, x) < |h|
  {
    if h != [] { LastTouchBound(h[..|h| - 1], x); }
  }

  lemma ByLastTouchStep(h: seq<nat>, r: seq<nat>, b: nat)
    requires Distinct(r) && ByLastTouch(h, r)
    ensures ByLastTouch(h + [b], Touch(r, b))
  {
    var t := Touch(r, b);
    if b in r {
      var p :| 0 <= p < |r| && r[p] == b;
      WithoutPresent(r, b, p);
    } else {
      WithoutAbsent(r, b);
    }
    hide LastTouch, Without;
    forall i, j | 0 <= i < j < |t| ensures LastTouch(h + [b], t[i]) > LastTouch(h + [b], t[j]) {
      LastTouchSnoc(h, b, t[i]);
      LastTouchSnoc(h, b, t[j]);
      LastTouchBound(h, t[j]);
    }
  }

  /** `Recent` lists the touched blocks, each once, in order of their last touch. */
  lemma {:induction false} RecentIsByLastTouch(history: seq<nat>)
    ensures Distinct(Recent(history)) && (forall x :: x in Recent(history) <==> x in history)
    ensures ByLastTouch(history, Recent(history))
  {
    if history != [] {
      var h, b := history[..|history| - 1], history[|history| - 1];
      assert history == h + [b];
      RecentIsByLastTouch(h);
      TouchFacts(Recent(h), b);
      hide Touch;
      ByLastTouchStep(h, Recent(h), b);
    }
  }

  function Elems(s: seq<nat>): set<nat> { set x | x in s }

  function Below(n: nat): (s: set<nat>)
    ensures |s| == n && forall x: nat :: x in s <==> x < n
  {
    if n == 0 then {} else Below(n - 1) + {n - 1}
  }

  lemma {:induction false} DistinctCard(s: seq<nat>)
    requires Distinct(s)
    ensures |Elems(s)| == |s|
  {
    if s != [] {
      var t, x := s[..|s| - 1], s[|s| - 1];
      DistinctCard(t);
      assert x !in t;
      assert Elems(s) == Elems(t) + {x};
    }
  }

  lemma SubsetCard(s: set<nat>, t: set<nat>)
    requires s <= t
    ensures |s| <= |t| && (|s| == |t| ==> s == t)
  {
    assert t == s + (t - s);
  }

  /** A list of distinct line numbers is full exactly when it leaves none out. */
  lemma FullIffNoneMissing(order: seq<nat>, n: nat)
    requires Distinct(order) && forall k :: 0 <= k < |order| ==> order[k] < n
    ensures |order| <= n && (|order| == n <==> Elems(order) == Below(n))
  {
    DistinctCard(order);
    SubsetCard(Elems(order), Below(n));
  }

  /* ---- the state of the cache as a value ---- */

  /** Every line in use holds the device's own copy, and no block is held twice. */
  ghost predicate Coherent<B>(ls: seq<Line<B>>, device: seq<B>, clock: nat)
  {
    && |ls| == CACHE_BLOCKS
    && (forall i :: 0 <= i < |ls| && ls[i].stamp != 0 ==>
          ls[i].block < |device| && ls[i].data == device[ls[i].block] && ls[i].stamp <= clock)
    && (forall i, j :: 0 <= i < j < |ls| && ls[i].stamp != 0 && ls[j].stamp != 0 ==>
          ls[i].block != ls[j].block && ls[i].stamp != ls[j].stamp)
  }

  /** `order` lists the lines in use, newest first, and they hold the front of `recent`. */
  ghost predicate Lru<B>(ls: seq<Line<B>>, order: seq<nat>, recent: seq<nat>)
  {
    && |order| == (if |recent| < |ls| then |recent| else |ls|)
    && Distinct(order) && Distinct(recent)
    && (forall k :: 0 <= k < |order| ==> order[k] < |ls|)
    && (forall i :: 0 <= i < |ls| ==> (ls[i].stamp != 0 <==> i in order))
    && (forall k :: 0 <= k < |order| ==> ls[order[k]].block == recent[k])
    && (forall k, m :: 0 <= k < m < |order| ==> ls[order[k]].stamp > ls[order[m]].stamp)
  }

  /** The blocks held. */
  ghost function Held<B>(ls: seq<Line<B>>): set<nat>
  {
    set i | 0 <= i < |ls| && ls[i].stamp != 0 :: ls[i].block
  }

  /** While no transfer fails the cache holds exactly the most recently touched blocks. */
  lemma HoldsMostRecent<B>(ls: seq<Line<B>>, order: seq<nat>, recent: seq<nat>)
    requires Lru(ls, order, recent)
    ensures |order| <= |recent| && Held(ls) == set k | 0 <= k < |order| :: recent[k]
  {
    forall b | b in Held(ls) ensures b in set k | 0 <= k < |order| :: recent[k] {
      var i :| 0 <= i < |ls| && ls[i].stamp != 0 && ls[i].block == b;
      var k :| 0 <= k < |order| && order[k] == i;
      assert recent[k] == b;
    }
    forall k | 0 <= k < |order| ensures recent[k] in Held(ls) {
      assert ls[order[k]].stamp != 0 && ls[order[k]].block == recent[k];
    }
  }

  lemma CoherentTouch<B>(ls: seq<Line<B>>, device: seq<B>, clock: nat, s: nat, block: nat, device': seq<B>)
    requires Coherent(ls, device, clock) && s < |ls| && block < |device'| == |device|
    requires forall i :: 0 <= i < |ls| && i != s && ls[i].stamp != 0 ==> ls[i].block != block
    requires forall b :: 0 <= b < |device| && b != block ==> device'[b] == device[b]
    ensures Coherent(ls[s := Line(device'[block], block, clock + 1)], device', clock + 1)
  {
  }

  lemma CoherentLength<B>(ls: seq<Line<B>>, device: seq<B>, clock: nat)
    requires Coherent(ls, device, clock)
    ensures |ls| == CACHE_BLOCKS
  {
  }

  lemma HitIsDevice<B>(ls: seq<Line<B>>, device: seq<B>, clock: nat, s: nat)
    requires Coherent(ls, device, clock) && s < |ls|
    ensures ls[s].stamp != 0 ==> ls[s].block < |device| && ls[s].data == device[ls[s].block]
  {
  }

  lemma CoherentDrop<B>(ls: seq<Line<B>>, device: seq<B>, clock: nat, s: nat, line: Line<B>)
    requires Coherent(ls, device, clock) && s < |ls| && line.stamp == 0
    ensures Coherent(ls[s := line], device, clock)
  {
  }

  lemma Touched(s: seq<nat>, b: nat, p: nat)
    requires Distinct(s) && p < |s| && s[p] == b
    ensures Touch(s, b) == [b] + Omit(s, p) && Distinct(Touch(s, b)) && |Touch(s, b)| == |s|
  {
    WithoutPresent(s, b, p);
    TouchFacts(s, b);
  }

  /** Touching a line in use moves it, and its block, to the front. */
  lemma LruHit<B>(ls: seq<Line<B>>, order: seq<nat>, recent: seq<nat>, s: nat, line: Line<B>)
    requires Lru(ls, order, recent) && s < |ls| && ls[s].stamp != 0 && line.block == ls[s].block
    requires forall i :: 0 <= i < |ls| ==> ls[i].stamp < line.stamp
    ensures Lru(ls[s := line], Touch(order, s), Touch(recent, line.block))
  {
    hide Touch, Distinct, Without, Omit;
    var p :| 0 <= p < |order| && order[p] == s;
    var rest, rest' := Omit(order, p), Omit(recent, p);
    LruRest(ls, order, recent, p);
    Touched(order, s, p);
    Touched(recent, line.block, p);
    var order', recent' := Touch(order, s), Touch(recent, line.block);
    hide Lru;
    LruFront(ls, rest, rest', s, line, order', recent');
  }

  lemma RestIn(order: seq<nat>, p: nat)
    requires Distinct(order) && p < |order|
    ensures forall i: nat | i != order[p] :: i in Omit(order, p) <==> i in order
  {
    forall i: nat | i in order && i != order[p] { OmitKeeps(order, p, i); }
  }

  /** Leaving one line out of the order leaves the others in order. */
  lemma LruRest<B>(ls: seq<Line<B>>, order: seq<nat>, recent: seq<nat>, p: nat)
    requires Lru(ls, order, recent) && p < |order|
    ensures var rest, rest' := Omit(order, p), Omit(recent, p);
      && |rest| <= |rest'|
      && (forall k :: 0 <= k < |rest| ==> rest[k] < |ls| && ls[rest[k]].block == rest'[k])
      && (forall k, m :: 0 <= k < m < |rest| ==> ls[rest[k]].stamp > ls[rest[m]].stamp)
      && (forall i :: 0 <= i < |ls| && i != order[p] ==> (ls[i].stamp != 0 <==> i in rest))
  {
    hide Distinct;
    RestIn(order, p);
    hide Omit;
  }

  /** A line that goes to the front of lines that are in order. */
  lemma LruFront<B>(ls: seq<Line<B>>, rest: seq<nat>, rest': seq<nat>, s: nat, line: Line<B>, order: seq<nat>,
    recent: seq<nat>)
    requires s < |ls| && |rest| <= |rest'| && order == [s] + rest && recent == [line.block] + rest'
    requires Distinct(order) && Distinct(recent) && line.stamp != 0
    requires |order| == (if |recent| < |ls| then |recent| else |ls|)
    requires forall k :: 0 <= k < |rest| ==>
      rest[k] < |ls| && ls[rest[k]].block == rest'[k] && ls[rest[k]].stamp < line.stamp
    requires forall k, m :: 0 <= k < m < |rest| ==> ls[rest[k]].stamp > ls[rest[m]].stamp
    requires forall i :: 0 <= i < |ls| && i != s ==> (ls[i].stamp != 0 <==> i in rest)
    ensures Lru(ls[s := line], order, recent)
  {
    assert forall k :: 0 <= k < |rest| ==> rest[k] != s by {
      forall k | 0 <= k < |rest| ensures rest[k] != s { assert order[k + 1] == rest[k] && order[0] == s; }
    }
    hide Distinct;
    assert forall k :: 0 < k < |order| ==> order[k] == rest[k - 1] && recent[k] == rest'[k - 1];
    assert forall i :: i in order <==> i == s || i in rest;
  }

  /** Touching a block outside the first `n` leaves those in place behind it. */
  lemma MissFront(recent: seq<nat>, n: nat, b: nat)
    requires Distinct(recent) && n <= |recent| && b !in recent[..n]
    ensures var t := Touch(recent, b);
      |t| > n && t == [b] + t[1..] && forall k :: 0 <= k < n ==> t[1..][k] == recent[k]
  {
    TouchFacts(recent, b);
    var t := Touch(recent, b);
    assert t[..n + 1] == [b] + recent[..n];
    forall k | 0 <= k < n ensures t[1..][k] == recent[k] { assert t[..n + 1][k + 1] == recent[k]; }
  }

  lemma NotHeld<B>(ls: seq<Line<B>>, order: seq<nat>, recent: seq<nat>, b: nat)
    requires Lru(ls, order, recent)
    requires forall i :: 0 <= i < |ls| && ls[i].stamp != 0 ==> ls[i].block != b
    ensures |order| <= |recent| && b !in recent[..|order|]
  {
    forall k | 0 <= k < |order| ensures recent[k] != b { assert ls[order[k]].stamp != 0; }
  }

  lemma LruMissFree<B>(ls: seq<Line<B>>, order: seq<nat>, recent: seq<nat>, s: nat, line: Line<B>)
    requires Lru(ls, order, recent) && s < |ls| && line.stamp != 0 && ls[s].stamp == 0
    requires forall i :: 0 <= i < |ls| ==> ls[i].stamp < line.stamp
    requires line.block !in recent[..|order|]
    ensures Lru(ls[s := line], Touch(order, s), Touch(recent, line.block))
  {
    FullIffNoneMissing(order, |ls|);
    assert s in Below(|ls|) && s !in Elems(order);
    assert recent[..|order|] == recent;
    MissFront(recent, |order|, line.block);
    TouchFacts(order, s);
    TouchFacts(recent, line.block);
    WithoutAbsent(order, s);
    var order', recent' := Touch(order, s), Touch(recent, line.block);
    assert order' == [s] + order;
    hide Touch, Without, Distinct;
    LruFront(ls, order, recent'[1..], s, line, order', recent');
  }

  lemma LruMissFull<B>(ls: seq<Line<B>>, order: seq<nat>, recent: seq<nat>, s: nat, line: Line<B>)
    requires Lru(ls, order, recent) && s < |ls| && line.stamp != 0 && ls[s].stamp != 0
    requires forall i :: 0 <= i < |ls| ==> ls[i].stamp != 0 && ls[s].stamp <= ls[i].stamp < line.stamp
    requires line.block !in recent[..|order|]
    ensures Lru(ls[s := line], Touch(order, s), Touch(recent, line.block))
  {
    hide Lru, Distinct, Touch;
    AllInUse(ls, order, recent);
    var last := |order| - 1;
    OldestIsLast(ls, order, recent, s);
    MissFront(recent, |order|, line.block);
    TouchFacts(order, s);
    TouchFacts(recent, line.block);
    WithoutPresent(order, s, last);
    var order', recent', rest := Touch(order, s), Touch(recent, line.block), Omit(order, last);
    assert order' == [s] + rest by { TouchIs(order, s); }
    FullFront(ls, order, recent, s, line, rest, order', recent');
  }

  lemma TouchIs(s: seq<nat>, b: nat)
    ensures Touch(s, b) == [b] + Without(s, b)
  {
  }

  lemma AllInUse<B>(ls: seq<Line<B>>, order: seq<nat>, recent: seq<nat>)
    requires Lru(ls, order, recent) && forall i :: 0 <= i < |ls| ==> ls[i].stamp != 0
    ensures |order| == |ls| <= |recent| && Distinct(order) && Distinct(recent)
  {
    FullIffNoneMissing(order, |ls|);
    assert Elems(order) == Below(|ls|) by { assert forall i: nat :: i in Below(|ls|) ==> i in order; }
  }

  lemma FullFront<B>(ls: seq<Line<B>>, order: seq<nat>, recent: seq<nat>, s: nat, line: Line<B>, rest: seq<nat>,
    order': seq<nat>, recent': seq<nat>)
    requires Lru(ls, order, recent) && s < |ls| && line.stamp != 0
    requires forall i :: 0 <= i < |ls| ==> ls[i].stamp != 0 && ls[i].stamp < line.stamp
    requires |order| == |ls| && |rest| == |ls| - 1 && forall k :: 0 <= k < |rest| ==> rest[k] == order[k]
    requires order[|ls| - 1] == s && order' == [s] + rest && Distinct(order') && Distinct(recent')
    requires |recent'| >= |ls| && recent'[0] == line.block && forall k :: 0 <= k < |rest| ==>
      recent'[1..][k] == recent[k]
    ensures Lru(ls[s := line], order', recent')
  {
    assert recent' == [line.block] + recent'[1..];
    assert forall i :: 0 <= i < |ls| && i != s ==> i in rest by {
      forall i: nat | i < |ls| && i != s ensures i in rest {
        assert ls[i].stamp != 0 && i in order;
        var q :| 0 <= q < |order| && order[q] == i;
        assert rest[q] == i;
      }
    }
    hide Distinct;
    LruFront(ls, rest, recent'[1..], s, line, order', recent');
  }

  /** A block that is not held goes into a free line, or replaces the one that has
      waited longest. */
  lemma LruMiss<B>(ls: seq<Line<B>>, order: seq<nat>, recent: seq<nat>, s: nat, line: Line<B>)
    requires Lru(ls, order, recent) && s < |ls| && line.stamp != 0
    requires forall i :: 0 <= i < |ls| ==> ls[i].stamp < line.stamp
    requires forall i :: 0 <= i < |ls| && ls[i].stamp != 0 ==> ls[i].block != line.block
    requires ls[s].stamp != 0 ==> forall i :: 0 <= i < |ls| ==> ls[i].stamp != 0 && ls[s].stamp <= ls[i].stamp
    ensures Lru(ls[s := line], Touch(order, s), Touch(recent, line.block))
  {
    hide Touch, Lru;
    NotHeld(ls, order, recent, line.block);
    if ls[s].stamp == 0 { LruMissFree(ls, order, recent, s, line); } else { LruMissFull(ls, order, recent, s, line); }
  }

  lemma OldestIsLast<B>(ls: seq<Line<B>>, order: seq<nat>, recent: seq<nat>, s: nat)
    requires Lru(ls, order, recent) && s < |ls| && ls[s].stamp != 0
    requires forall i :: 0 <= i < |ls| ==> ls[s].stamp <= ls[i].stamp
    ensures order != [] && order[|order| - 1] == s
  {
    var m :| 0 <= m < |order| && order[m] == s;
  }

  /* ---- the cache ---- */

  class BlockCache<B> {
    const lines: array<Line<B>>
    var clock: nat
    var device: seq<B>

    ghost var history: seq<nat>     // blocks touched since the last reset
    ghost var clean: bool           // no transfer has failed since then
    ghost var order: seq<nat>       // the lines in use, most recently used first

    ghost predicate Valid()
      reads this, lines
    {
      Coherent(lines[..], device, clock) && (clean ==> Lru(lines[..], order, Recent(history)))
    }

    method Reset()
      requires lines.Length == CACHE_BLOCKS
      modifies this, lines
      ensures Valid() && clean && history == [] && device == old(device) && Held(lines[..]) == {}
    {
      for i := 0 to CACHE_BLOCKS
        invariant device == old(device)
        invariant forall j :: 0 <= j < i ==> lines[j].stamp == 0
      {
        lines[i] := lines[i].(stamp := 0);
      }
      clock, history, clean, order := 0, [], true, [];
    }

    /** The line holding `block`, if any. */
    method Find(block: nat) returns (r: Option<nat>)
      requires Valid()
      ensures match r
        case Some(i) => i < lines.Length && lines[i].stamp != 0 && lines[i].block == block
        case None => forall i :: 0 <= i < lines.Length && lines[i].stamp != 0 ==> lines[i].block != block
    {
      for i := 0 to CACHE_BLOCKS
        invariant forall j :: 0 <= j < i && lines[j].stamp != 0 ==> lines[j].block != block
      {
        if lines[i].stamp != 0 && lines[i].block == block {
          return Some(i);
        }
      }
      return None;
    }

    /** A free line, or the least recently used one. */
    method Victim() returns (worst: nat)
      requires Valid()
      ensures worst < lines.Length
      ensures lines[worst].stamp != 0 ==>
        forall i :: 0 <= i < lines.Length ==> lines[i].stamp != 0 && lines[worst].stamp <= lines[i].stamp
    {
      worst := 0;
      for i := 0 to CACHE_BLOCKS
        invariant worst < CACHE_BLOCKS
        invariant i > 0 ==> worst < i && forall j :: 0 <= j < i ==>
          lines[j].stamp != 0 && lines[worst].stamp <= lines[j].stamp
      {
        if lines[i].stamp == 0 {
          return i;
        }
        if i == 0 || lines[i].stamp < lines[worst].stamp {
          worst := i;
        }
      }
    }

    /** Where `block` goes: the line that holds it, or the one to be given up for it. */
    method Place(block: nat) returns (hit: bool, s: nat)
      requires Valid()
      ensures s < lines.Length && (hit ==> lines[s].stamp != 0 && lines[s].block == block)
      ensures hit <==> block in Held(lines[..])
      ensures forall i :: 0 <= i < lines.Length && i != s && lines[i].stamp != 0 ==> lines[i].block != block
      ensures forall line: Line<B> :: clean && line.block == block && line.stamp == clock + 1 ==>
        Lru(lines[..][s := line], Touch(order, s), Recent(history + [block]))
    {
      assert (history + [block])[..|history|] == history;
      var f := Find(block);
      if f.Some? {
        hit, s := true, f.value;
        assert lines[..][s].block == block;
        forall line: Line<B> | clean && line.block == block && line.stamp == clock + 1
          ensures Lru(lines[..][s := line], Touch(order, s), Recent(history + [block]))
        {
          LruHit(lines[..], order, Recent(history), s, line);
        }
      } else {
        hit := false;
        s := Victim();
        forall line: Line<B> | clean && line.block == block && line.stamp == clock + 1
          ensures Lru(lines[..][s := line], Touch(order, s), Recent(history + [block]))
        {
          LruMiss(lines[..], order, Recent(history), s, line);
        }
      }
    }

    /** Read a block.  `ok` says whether the transfer works, if one is needed; `junk` is
        what a failed one leaves in the buffer. */
    method Read(block: nat, ok: bool, junk: B) returns (r: Option<B>)
      requires Valid() && (ok ==> block < |device|)
      modifies this, lines
      ensures Valid() && device == old(device)
      ensures r.Some? <==> ok || block in old(Held(lines[..]))
      ensures r.Some? ==> block < |device| && r.value == device[block]
      ensures r.Some? ==> clean == old(clean) && history == old(history) + [block]
    {
      hide Coherent, Lru, Touch, Recent;
      CoherentLength(lines[..], device, clock);
      var hit, s := Place(block);
      ghost var ls, h := lines[..], history + [block];
      HitIsDevice(ls, device, clock, s);
      if !hit {
        if !ok {
          lines[s] := Line(junk, lines[s].block, 0);
          CoherentDrop(ls, device, clock, s, lines[s]);
          assert lines[..] == ls[s := lines[s]];
          clean := false;
          return None;
        }
        lines[s] := Line(device[block], block, lines[s].stamp);
      }
      clock := clock + 1;
      lines[s] := lines[s].(stamp := clock);
      order, history := Touch(order, s), h;
      assert lines[..] == ls[s := lines[s]];
      CoherentTouch(ls, device, clock - 1, s, block, device);
      return Some(lines[s].data);
    }

    /** Write a block through to the device.  A transfer that fails leaves `torn` there. */
    method Write(block: nat, data: B, ok: bool, torn: B) returns (done: bool)
      requires Valid() && block < |device|
      modifies this, lines
      ensures Valid() && done == ok
      ensures device == old(device)[block := if ok then data else torn]
      ensures done ==> clean == old(clean) && history == old(history) + [block]
    {
      hide Coherent, Lru, Touch, Recent;
      CoherentLength(lines[..], device, clock);
      var hit, s := Place(block);
      ghost var ls, h, dev := lines[..], history + [block], device;
      clock := clock + 1;
      lines[s] := Line(data, block, clock);
      device := device[block := if ok then data else torn];
      if !ok {
        lines[s] := lines[s].(stamp := 0);
        clean := false;
        CoherentTouch(ls, dev, clock - 1, s, block, device);
        CoherentDrop(ls[s := Line(device[block], block, clock)], device, clock, s, lines[s]);
        assert lines[..] == ls[s := Line(device[block], block, clock)][s := lines[s]];
        return false;
      }
      order, history := Touch(order, s), h;
      assert lines[..] == ls[s := lines[s]];
      CoherentTouch(ls, dev, clock - 1, s, block, device);
      return true;
    }
  }
}
