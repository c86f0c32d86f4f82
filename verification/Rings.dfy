/** Ring buffers: a fixed array, the place of the oldest element, and a count. */
module Rings {

  /** The place `k` after `i` in a ring of `cap` places. */
  function Place(cap: nat, i: nat, k: nat): nat { if i + k < cap then i + k else i + k - cap }

  /** The ring holds the queue `q`, oldest first. */
  ghost predicate Holds<T>(buf: seq<T>, tail: nat, q: seq<T>)
  {
    tail < |buf| && |q| <= |buf| && forall k :: 0 <= k < |q| ==> buf[Place(|buf|, tail, k)] == q[k]
  }

  /** Writing at the head, one past the newest element, appends. */
  lemma Pushed<T>(buf: seq<T>, tail: nat, q: seq<T>, x: T)
    requires Holds(buf, tail, q) && |q| < |buf|
    ensures Holds(buf[Place(|buf|, tail, |q|) := x], tail, q + [x])
  {
  }

  /** Moving the tail on removes the oldest. */
  lemma Popped<T>(buf: seq<T>, tail: nat, q: seq<T>)
    requires Holds(buf, tail, q) && q != []
    ensures buf[tail] == q[0] && Holds(buf, Place(|buf|, tail, 1), q[1..])
  {
    assert buf[Place(|buf|, tail, 0)] == q[0];
    forall k | 0 <= k < |q| - 1 ensures buf[Place(|buf|, Place(|buf|, tail, 1), k)] == q[1..][k] {
      assert buf[Place(|buf|, tail, k + 1)] == q[k + 1];
    }
  }

  /** The head moves with the count. */
  lemma HeadMoves(cap: nat, tail: nat, n: nat)
    requires tail < cap && n < cap
    ensures Place(cap, Place(cap, tail, n), 1) == if n + 1 < cap then Place(cap, tail, n + 1) else tail
  {
  }
}
