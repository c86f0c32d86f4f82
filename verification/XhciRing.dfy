/** xHCI transfer, command and event rings (kernel/drivers/xhci.c): the cycle bit as the
    only thing the two sides agree by (sections 4.9.2 and 4.9.3 of the xHCI Specification). */
module XhciRing {

  const RING_TRBS: nat := 256
  const RING_USABLE: nat := 255

  type Bit = b: int | 0 <= b < 2

  /** An entry; `control` without its cycle bit. */
  datatype Trb = Trb(parameter: nat, status: nat, control: nat, cycle: Bit)

  const LINK: nat := 6 * 1024 + 2      // a link entry that toggles the cycle

  /** Where entry number `k` of all ever written goes, and the cycle bit of its lap: one on
      the first, and the other on each lap from the one before. */
  function Slot(size: nat, k: nat): nat
    requires IsSize(size)
  {
    if size == RING_USABLE then k % 255 else k % 256
  }

  function Lap(size: nat, k: nat): Bit
    requires IsSize(size)
  {
    Alternate(if size == RING_USABLE then k / 255 else k / 256)
  }

  function Alternate(lap: nat): Bit { 1 - lap % 2 }

  lemma Alternates(lap: nat)
    ensures Alternate(lap + 1) == 1 - Alternate(lap)
  {
  }

  /** A ring with a link at its end, or one without. */
  predicate IsSize(size: nat) { size == RING_USABLE || size == RING_TRBS }

  lemma NextSlot(size: nat, k: nat)
    requires IsSize(size)
    ensures if Slot(size, k) + 1 == size then Slot(size, k + 1) == 0 && Lap(size, k + 1) == 1 - Lap(size, k)
            else Slot(size, k + 1) == Slot(size, k) + 1 && Lap(size, k + 1) == Lap(size, k)
    ensures Slot(size, k) < size
  {
    hide Alternate;
    if size == RING_USABLE {
      NextOn255(k);
      Alternates(k / 255);
    } else {
      NextOn256(k);
      Alternates(k / 256);
    }
  }

  lemma NextOn255(k: nat)
    ensures if k % 255 == 254 then (k + 1) % 255 == 0 && (k + 1) / 255 == k / 255 + 1
            else (k + 1) % 255 == k % 255 + 1 && (k + 1) / 255 == k / 255
  {
  }

  lemma NextOn256(k: nat)
    ensures if k % 256 == 255 then (k + 1) % 256 == 0 && (k + 1) / 256 == k / 256 + 1
            else (k + 1) % 256 == k % 256 + 1 && (k + 1) / 256 == k / 256
  {
  }

  /** Two entries less than a lap apart are in different places; one lap apart they differ
      in the cycle bit. */
  lemma Apart(size: nat, j: nat, k: nat)
    requires IsSize(size) && j < k
    ensures k < j + size ==> Slot(size, j) != Slot(size, k)
    ensures k == j + size ==> Slot(size, j) == Slot(size, k) && Lap(size, j) == 1 - Lap(size, k)
  {
    hide Alternate;
    if size == RING_USABLE {
      ApartOn255(j, k);
      Alternates(j / 255);
    } else {
      ApartOn256(j, k);
      Alternates(j / 256);
    }
  }

  lemma ApartOn255(j: nat, k: nat)
    requires j < k
    ensures k < j + 255 ==> j % 255 != k % 255
    ensures k == j + 255 ==> j % 255 == k % 255 && k / 255 == j / 255 + 1
  {
  }

  lemma ApartOn256(j: nat, k: nat)
    requires j < k
    ensures k < j + 256 ==> j % 256 != k % 256
    ensures k == j + 256 ==> j % 256 == k % 256 && k / 256 == j / 256 + 1
  {
  }

  /** Entries `m` up to `n` are in the ring, whole, with the bit of their lap; and every other
      place has the bit that says nothing has been written there on this lap. */
  ghost predicate InRing(size: nat, trbs: seq<Trb>, pushed: seq<Trb>, m: nat)
    requires IsSize(size)
  {
    && m <= |pushed| <= m + size <= m + |trbs|
    && (forall k :: m <= k < |pushed| ==> trbs[Slot(size, k)] == pushed[k] && pushed[k].cycle == Lap(size, k))
    && (forall k :: |pushed| <= k < m + size ==> trbs[Slot(size, k)].cycle == 1 - Lap(size, k))
  }

  lemma InRingBounds(size: nat, trbs: seq<Trb>, pushed: seq<Trb>, m: nat)
    requires IsSize(size) && InRing(size, trbs, pushed, m)
    ensures m <= |pushed| <= m + size
  {
  }

  /** Writing the next entry's control word, its cycle bit with it, publishes it. */
  lemma Published(size: nat, trbs: seq<Trb>, pushed: seq<Trb>, m: nat, t: Trb)
    requires IsSize(size) && InRing(size, trbs, pushed, m) && |pushed| < m + size
    requires t.cycle == Lap(size, |pushed|)
    ensures Slot(size, |pushed|) < |trbs| && InRing(size, trbs[Slot(size, |pushed|) := t], pushed + [t], m)
  {
    var n := |pushed|;
    NextSlot(size, n);
    var trbs' := trbs[Slot(size, n) := t];
    forall k | m <= k < n ensures trbs'[Slot(size, k)] == trbs[Slot(size, k)] { Apart(size, k, n); NextSlot(size, k); }
    forall k | n + 1 <= k < m + size ensures trbs'[Slot(size, k)].cycle == 1 - Lap(size, k) {
      Apart(size, n, k); NextSlot(size, k);
    }
  }

  /** Writing anything but the cycle bit where the next entry will go disturbs nothing. */
  lemma Unpublished(size: nat, trbs: seq<Trb>, pushed: seq<Trb>, m: nat, t: Trb)
    requires IsSize(size) && InRing(size, trbs, pushed, m) && |pushed| < m + size
    requires Slot(size, |pushed|) < |trbs| && t.cycle == trbs[Slot(size, |pushed|)].cycle
    ensures InRing(size, trbs[Slot(size, |pushed|) := t], pushed, m)
  {
    var n := |pushed|;
    var trbs' := trbs[Slot(size, n) := t];
    forall k | m <= k < n ensures trbs'[Slot(size, k)] == trbs[Slot(size, k)] { Apart(size, k, n); NextSlot(size, k); }
    forall k | n <= k < m + size ensures trbs'[Slot(size, k)].cycle == 1 - Lap(size, k) { NextSlot(size, k); }
  }

  /** What the consumer finds at its place: the next entry if there is one, and a bit that
      does not match if there is not. */
  lemma NextEntry(size: nat, trbs: seq<Trb>, pushed: seq<Trb>, m: nat)
    requires IsSize(size) && InRing(size, trbs, pushed, m)
    ensures Slot(size, m) < |trbs| && (trbs[Slot(size, m)].cycle == Lap(size, m) <==> m < |pushed|)
    ensures m < |pushed| ==> trbs[Slot(size, m)] == pushed[m] && InRing(size, trbs, pushed, m + 1)
  {
    NextSlot(size, m);
    if m < |pushed| {
      Apart(size, m, m + size);
      forall k | |pushed| <= k < m + 1 + size ensures trbs[Slot(size, k)].cycle == 1 - Lap(size, k) {
        NextSlot(size, k);
      }
    }
  }

  /* ---- a ring the driver writes and the controller reads ---- */

  /** The link's own cycle bit once `n` entries have been pushed: that of the last lap that
      was completed. */
  function LinkBit(n: nat): Bit { if n < 255 then 1 else Lap(RING_USABLE, n / 255 * 255 - 1) }

  /** How far a controller has got: the entries it has taken, and whether it is at the link. */
  datatype Progress = Progress(taken: nat, parked: bool)

  /** The link leads on from lap to lap once the driver, which has moved past `moved` entries, has
      been there too, and until it comes there again; at the end of the first lap it is ready. */
  predicate LeadsOn(taken: nat, moved: nat)
  {
    (taken <= moved || taken == RING_USABLE) && moved < taken + RING_USABLE
  }

  /** One look, with `pushed` entries published. */
  function Look(c: Progress, pushed: nat, moved: nat): Progress
  {
    if c.parked then c.(parked := !LeadsOn(c.taken, moved))
    else if c.taken < pushed then Progress(c.taken + 1, Slot(RING_USABLE, c.taken + 1) == 0)
    else c
  }

  function Looks(c: Progress, looks: nat, pushed: nat, moved: nat): Progress
  {
    if looks == 0 then c else Look(Looks(c, looks - 1, pushed, moved), pushed, moved)
  }

  /** All the looks there are during a push: two of them before the entry is there, one before
      the driver has moved on, one after. */
  function PushLooks(c: Progress, pushed: nat, looks: seq<nat>): Progress
    requires |looks| == 4
  {
    var c1 := Looks(c, looks[0], pushed, pushed);
    var c2 := Looks(c1, looks[1], pushed, pushed);
    var c3 := Looks(c2, looks[2], pushed + 1, pushed);
    Looks(c3, looks[3], pushed + 1, pushed + 1)
  }

  class TransferRing {
    const trbs: array<Trb>
    var index: nat                     // the driver's
    var cycle: Bit
    var at: nat                        // the controller's
    var ccs: Bit
    var consumed: seq<Trb>             // everything the controller has taken

    ghost var pushed: seq<Trb>         // everything the driver has published
    ghost var settled: bool            // the driver has moved on from the last of them

    /** What the controller has taken is the first part of what was pushed, entry for entry,
        and the rest is in the ring. */
    ghost predicate Valid()
      reads this, trbs
    {
      && trbs.Length == RING_TRBS && InRing(RING_USABLE, trbs[..], pushed, |consumed|)
        && consumed == pushed[..|consumed|]
      && Driver() && Controller()
    }

    /** The driver's place, its cycle, and the link it leaves behind. */
    ghost predicate Driver()
      requires trbs.Length == RING_TRBS
      reads `index, `cycle, `pushed, `settled, trbs
    {
      var n := if settled then |pushed| else |pushed| - 1;
      && n >= 0 && index == Slot(RING_USABLE, n) && cycle == Lap(RING_USABLE, n)
      && trbs[RING_USABLE].control == LINK && trbs[RING_USABLE].cycle == LinkBit(n)
    }

    /** The controller's place and cycle; after the last entry of a lap it is at the link. */
    ghost predicate Controller()
      reads `at, `ccs, `consumed
    {
      var m := |consumed|;
      if at == RING_USABLE then m > 0 && Slot(RING_USABLE, m) == 0 && ccs == Lap(RING_USABLE, m - 1)
      else at == Slot(RING_USABLE, m) && ccs == Lap(RING_USABLE, m)
    }

    ghost function Now(): Progress
      reads `at, `consumed
    {
      Progress(|consumed|, at == RING_USABLE)
    }

    /** The entries the driver has moved past. */
    ghost function Moved(): nat
      reads `pushed, `settled
    {
      if settled || pushed == [] then |pushed| else |pushed| - 1
    }

    /** ring_init, with the controller told where the ring starts. */
    constructor ()
      ensures Valid() && settled && pushed == consumed == [] && at == 0 && fresh(trbs)
    {
      trbs := new Trb[RING_TRBS](i => Trb(0, 0, 0, 0));
      index, cycle, at, ccs, consumed, pushed, settled := 0, 1, 0, 1, [], [], true;
      new;
      trbs[RING_USABLE] := Trb(0, 0, LINK, 1);
    }

    /** One look by the controller: an entry taken, the link followed, or nothing yet. */
    method ControllerStep()
      requires Valid()
      modifies `at, `ccs, `consumed
      ensures Valid() && Now() == Look(old(Now()), |pushed|, Moved())
      ensures consumed == old(consumed) || (|old(consumed)| < |pushed| && consumed == pushed[..|old(consumed)| + 1])
      ensures old(at) != RING_USABLE && |old(consumed)| < |pushed| ==>
        |consumed| == |old(consumed)| + 1 && at == old(at) + 1
      ensures old(at) == RING_USABLE && trbs[RING_USABLE].cycle == old(ccs) ==> at == 0
      ensures old(at) == RING_USABLE && trbs[RING_USABLE].cycle != old(ccs) ==> at == old(at)
    {
      hide InRing, Slot, Lap, LinkBit;
      ghost var m := |consumed|;
      NextEntry(RING_USABLE, trbs[..], pushed, m);
      NextSlot(RING_USABLE, m);
      if m > 0 { NextSlot(RING_USABLE, m - 1); }
      InRingBounds(RING_USABLE, trbs[..], pushed, m);
      ParkedIff(m, |pushed|, Moved());
      if trbs[at].cycle != ccs {
        return;
      }
      if at == RING_USABLE {
        at, ccs := 0, 1 - ccs;
        return;
      }
      consumed := consumed + [trbs[at]];
      at := at + 1;
      assert consumed == pushed[..m + 1];
    }

    method ControllerRuns(looks: nat)
      requires Valid()
      modifies `at, `ccs, `consumed
      ensures Valid() && |old(consumed)| <= |consumed| && (looks == 0 ==> consumed == old(consumed) && at == old(at))
      ensures Now() == Looks(old(Now()), looks, |pushed|, Moved())
    {
      hide InRing, Slot, Lap, LinkBit, Controller, Driver, Look, Moved;
      for i := 0 to looks
        invariant Valid() && |old(consumed)| <= |consumed| && (i == 0 ==> consumed == old(consumed) && at == old(at))
        invariant Now() == Looks(old(Now()), i, |pushed|, Moved())
      {
        ControllerStep();
      }
    }

    /** A store to a field of the next entry other than its control word. */
    method Store(t: Trb)
      requires Valid() && settled && |pushed| < |consumed| + RING_USABLE
      requires index < RING_USABLE && t.cycle == trbs[index].cycle
      modifies trbs
      ensures Valid() && trbs[index] == t
    {
      hide InRing, Slot, Lap, LinkBit, Controller;
      Unpublished(RING_USABLE, trbs[..], pushed, |consumed|, t);
      ghost var was := trbs[..];
      trbs[index] := t;
      assert trbs[..] == was[index := t];
    }

    /** The store of the control word. */
    method Publish(control: nat)
      requires Valid() && settled && |pushed| < |consumed| + RING_USABLE && index < RING_USABLE
      modifies `pushed, `settled, trbs
      ensures Valid() && !settled && pushed == old(pushed) + [old(trbs[index]).(control := control, cycle := cycle)]
    {
      hide InRing, Slot, Lap, LinkBit, Controller;
      ghost var t := trbs[index].(control := control, cycle := cycle);
      InRingBounds(RING_USABLE, trbs[..], pushed, |consumed|);
      Published(RING_USABLE, trbs[..], pushed, |consumed|, t);
      ghost var was := trbs[..];
      trbs[index] := trbs[index].(control := control, cycle := cycle);
      assert trbs[..] == was[index := t];
      assert (pushed + [t])[..|consumed|] == pushed[..|consumed|];
      pushed := pushed + [t];
      settled := false;
    }

    /** The driver moves on, at the end of a lap by way of the link. */
    method Settle()
      requires Valid() && !settled
      modifies `index, `cycle, `settled, trbs
      ensures Valid() && settled && index < RING_USABLE
    {
      hide InRing, Slot, Lap, LinkBit, Controller;
      ghost var n := |pushed| - 1;
      NextSlot(RING_USABLE, n);
      NextSlot(RING_USABLE, n + 1);
      NextLink(n);
      index := index + 1;
      if index == RING_USABLE {
        LinkApart(trbs[..], pushed, |consumed|, trbs[RING_USABLE].(control := LINK, cycle := cycle));
        ghost var was := trbs[..];
        trbs[RING_USABLE] := trbs[RING_USABLE].(control := LINK, cycle := cycle);
        assert trbs[..] == was[RING_USABLE := trbs[RING_USABLE]];
        index, cycle := 0, 1 - cycle;
      }
      settled := true;
    }

    /** ring_push, one store at a time, with the controller looking any number of times
        between them.  The control word, and the cycle bit in it, goes last. */
    method Push(parameter: nat, status: nat, control: nat, looks: seq<nat>)
      requires Valid() && settled && |pushed| < |consumed| + RING_USABLE && |looks| == 4
      modifies this, trbs
      ensures Valid() && settled && |old(consumed)| <= |consumed|
      ensures pushed == old(pushed) + [Trb(parameter, status, control, old(cycle))]
      ensures Now() == PushLooks(old(Now()), |old(pushed)|, looks)
      ensures looks == [0, 0, 0, 0] ==> consumed == old(consumed) && at == old(at)
    {
      hide InRing, Slot, Lap, LinkBit, Controller, Looks;
      NextSlot(RING_USABLE, |pushed|);
      Store(trbs[index].(parameter := parameter));
      ControllerRuns(looks[0]);
      Store(trbs[index].(status := status));
      ControllerRuns(looks[1]);
      Publish(control);
      ControllerRuns(looks[2]);
      Settle();
      ControllerRuns(looks[3]);
    }

    /** ring_rewind, with the controller told to start again from the top. */
    method Rewind()
      requires trbs.Length == RING_TRBS
      modifies this, trbs
      ensures Valid() && settled && pushed == consumed == []
    {
      for i := 0 to RING_TRBS
        invariant forall j :: 0 <= j < i ==> trbs[j] == Trb(0, 0, 0, 0)
      {
        trbs[i] := Trb(0, 0, 0, 0);
      }
      index, cycle, at, ccs, consumed, pushed, settled := 0, 1, 0, 1, [], [], true;
      trbs[RING_USABLE] := Trb(0, 0, LINK, 1);
    }

    /** Left to itself, the controller takes everything, unless it is at the link with a whole
        ring before it: then it takes nothing more. */
    method Drain(total: nat)
      requires Valid() && settled && total == |pushed|
      modifies `at, `ccs, `consumed
      ensures Valid() && if Stuck(old(Now()), |pushed|) then consumed == old(consumed) else consumed == pushed
    {
      hide InRing, Slot, Lap, LinkBit, Driver, Looks;
      InRingBounds(RING_USABLE, trbs[..], pushed, |consumed|);
      Drains(Now(), |pushed|, 2 * (total - |consumed|));
      ControllerRuns(2 * (total - |consumed|));
      assert pushed[..|pushed|] == pushed;
    }

    /** While less than a whole ring is outstanding the controller is never stuck: two looks
        are enough for it to take the next entry. */
    method TwoLooks()
      requires Valid() && settled && |consumed| < |pushed| < |consumed| + RING_USABLE
      modifies `at, `ccs, `consumed
      ensures Valid() && |consumed| > |old(consumed)|
    {
      hide InRing, Slot, Lap, LinkBit;
      ControllerStep();
      ControllerStep();
    }
  }

  /** A controller that is at the link goes on exactly while less than a whole ring is
      outstanding: with all of it pushed, the link has already been turned for the next lap. */
  lemma StuckIff(r: TransferRing)
    requires r.Valid() && r.settled && r.at == RING_USABLE
    ensures r.trbs[RING_USABLE].cycle == r.ccs <==> |r.pushed| < |r.consumed| + RING_USABLE
  {
    hide Slot, Lap, LinkBit;
    InRingBounds(RING_USABLE, r.trbs[..], r.pushed, |r.consumed|);
    ParkedIff(|r.consumed|, |r.pushed|, |r.pushed|);
  }

  /** And it can come to that: a lap pushed and taken, and another lap pushed before the
      controller looks at the link again.  It never gets past. */
  method StuckRing() returns (r: TransferRing)
    ensures fresh(r) && r.Valid() && r.settled && |r.pushed| == 2 * RING_USABLE && |r.consumed| == RING_USABLE
    ensures r.at == RING_USABLE && r.trbs[RING_USABLE].cycle != r.ccs
  {
    hide InRing, Slot, Lap, LinkBit, TransferRing.Controller, TransferRing.Driver;
    r := new TransferRing();
    for i := 0 to RING_USABLE
      invariant fresh(r) && fresh(r.trbs) && r.Valid() && r.settled && |r.pushed| == i && r.consumed == [] && r.at == 0
    {
      r.Push(0, 0, 0, [0, 0, 0, 0]);
    }
    for i := 0 to RING_USABLE
      invariant fresh(r) && r.Valid() && r.settled && |r.pushed| == RING_USABLE && |r.consumed| == r.at == i
    {
      r.ControllerStep();
    }
    for i := 0 to RING_USABLE
      invariant fresh(r) && fresh(r.trbs) && r.Valid() && r.settled
      invariant |r.pushed| == RING_USABLE + i && |r.consumed| == r.at == RING_USABLE
    {
      r.Push(0, 0, 0, [0, 0, 0, 0]);
    }
    StuckIff(r);
  }

  /** The link's cycle bit is what the controller waits for exactly when the link leads on. */
  lemma ParkedIff(m: nat, n: nat, moved: nat)
    requires m <= n <= m + RING_USABLE && (moved == n || moved + 1 == n)
    ensures m > 0 && Slot(RING_USABLE, m) == 0 ==> (LinkBit(moved) == Lap(RING_USABLE, m - 1) <==> LeadsOn(m, moved))
  {
    if m > 0 && m % 255 == 0 {
      var q := m / 255;
      assert m == 255 * q && (m - 1) / 255 == q - 1;
      if moved < m {
        assert moved / 255 == q - 1;
        if q > 1 { assert (moved / 255 * 255 - 1) / 255 == q - 2; }
      } else if moved < m + 255 {
        assert moved / 255 == q;
      } else {
        assert moved / 255 == q + 1 && moved / 255 * 255 - 1 == m + 254 && (m + 254) / 255 == q;
      }
    }
  }

  /** At the link, with a whole ring pushed since. */
  predicate Stuck(c: Progress, pushed: nat) { c.parked && pushed >= c.taken + RING_USABLE }

  /** A controller takes all there is, two looks to an entry, unless it is stuck, and it
      cannot get stuck by looking. */
  lemma {:induction false} Drains(c: Progress, pushed: nat, looks: nat)
    requires c.taken <= pushed <= c.taken + RING_USABLE
    ensures var c' := Looks(c, looks, pushed, pushed);
      && (Stuck(c, pushed) ==> c' == c)
      && (!Stuck(c, pushed) ==> c.taken <= c'.taken <= pushed && !Stuck(c', pushed))
      && (Stuck(c, pushed) || c'.taken == pushed || looks <= 2 * (c'.taken - c.taken) + if c'.parked then 0 else 1)
  {
    if looks > 0 {
      Drains(c, pushed, looks - 1);
    }
  }

  lemma NextLink(n: nat)
    ensures LinkBit(n + 1) == if Slot(RING_USABLE, n) + 1 == RING_USABLE then Lap(RING_USABLE, n) else LinkBit(n)
  {
    if n % 255 == 254 {
      assert (n + 1) / 255 * 255 - 1 == n;
    } else {
      assert (n + 1) / 255 == n / 255;
    }
  }

  /** The link is not one of the places entries go. */
  lemma LinkApart(trbs: seq<Trb>, pushed: seq<Trb>, m: nat, t: Trb)
    requires |trbs| == RING_TRBS && InRing(RING_USABLE, trbs, pushed, m)
    ensures InRing(RING_USABLE, trbs[RING_USABLE := t], pushed, m)
  {
    hide Lap;
    forall k: nat { NextSlot(RING_USABLE, k); }
  }

  /* ---- a ring the controller writes and the driver reads ---- */

  /** The event ring has no link: both sides wrap round by themselves. */
  class EventRing {
    const trbs: array<Trb>
    var index: nat                     // the driver's
    var cycle: Bit
    var at: nat                        // the controller's
    var pcs: Bit
    var taken: seq<Trb>
    ghost var posted: seq<Trb>

    ghost predicate Valid()
      reads this, trbs
    {
      && trbs.Length == RING_TRBS && InRing(RING_TRBS, trbs[..], posted, |taken|) && taken == posted[..|taken|]
      && index == Slot(RING_TRBS, |taken|) && cycle == Lap(RING_TRBS, |taken|)
      && at == Slot(RING_TRBS, |posted|) && pcs == Lap(RING_TRBS, |posted|)
    }

    constructor ()
      ensures Valid() && posted == taken == [] && fresh(trbs)
    {
      trbs := new Trb[RING_TRBS](i => Trb(0, 0, 0, 0));
      index, cycle, at, pcs, taken, posted := 0, 1, 0, 1, [], [];
    }

    /** The controller posts an event, with the cycle bit of its lap, where there is room. */
    method Post(parameter: nat, status: nat, control: nat)
      requires Valid() && |posted| < |taken| + RING_TRBS
      modifies `at, `pcs, `posted, trbs
      ensures Valid() && posted == old(posted) + [Trb(parameter, status, control, old(pcs))]
    {
      hide InRing, Slot, Lap;
      var e := Trb(parameter, status, control, pcs);
      InRingBounds(RING_TRBS, trbs[..], posted, |taken|);
      Published(RING_TRBS, trbs[..], posted, |taken|, e);
      NextSlot(RING_TRBS, |posted|);
      ghost var was := trbs[..];
      trbs[at] := e;
      assert trbs[..] == was[at := e];
      assert (posted + [e])[..|taken|] == posted[..|taken|];
      posted := posted + [e];
      at := at + 1;
      if at == RING_TRBS {
        at, pcs := 0, 1 - pcs;
      }
    }

    /** One look of event_wait: the oldest event not taken yet, if there is one. */
    method Poll() returns (found: bool, e: Trb)
      requires Valid()
      modifies `index, `cycle, `taken
      ensures Valid() && found == (|old(taken)| < |posted|)
      ensures found ==> e == posted[|old(taken)|] && taken == old(taken) + [e]
      ensures !found ==> taken == old(taken)
    {
      hide InRing, Slot, Lap;
      NextEntry(RING_TRBS, trbs[..], posted, |taken|);
      NextSlot(RING_TRBS, |taken|);
      e := trbs[index];
      found := e.cycle == cycle;
      if found {
        index := index + 1;
        if index == RING_TRBS {
          index, cycle := 0, 1 - cycle;
        }
        taken := taken + [e];
      }
    }
  }

  /* ---- every interleaving ---- */

  datatype Order = Order(parameter: nat, status: nat, control: nat, looks: seq<nat>)

  predicate Carries(t: Trb, o: Order) { t.parameter == o.parameter && t.status == o.status && t.control == o.control }

  /** What is pushed of `orders`, as far as there is room, and what the controller has taken
      after its looks. */
  function Progressed(orders: seq<Order>): (r: (nat, Progress))
    requires forall o <- orders :: |o.looks| == 4
    ensures r.0 <= |orders|
  {
    if orders == [] then (0, Progress(0, false))
    else
      var init := orders[..|orders| - 1];
      var (done, c) := Progressed(init);
      if done < |init| || done >= c.taken + RING_USABLE then (done, c)
      else (done + 1, PushLooks(c, done, orders[done].looks))
  }

  /** The first `done` of them are pushed. */
  ghost predicate Reached(orders: seq<Order>, done: nat, c: Progress)
    requires forall o <- orders :: |o.looks| == 4
  {
    done <= |orders| && Progressed(orders[..done]) == (done, c)
  }

  lemma NoneYet(orders: seq<Order>)
    requires forall o <- orders :: |o.looks| == 4
    ensures Reached(orders, 0, Progress(0, false))
  {
  }

  lemma OneMore(orders: seq<Order>, done: nat, c: Progress)
    requires done < |orders| && forall o <- orders :: |o.looks| == 4
    requires Reached(orders, done, c) && done < c.taken + RING_USABLE
    ensures Reached(orders, done + 1, PushLooks(c, done, orders[done].looks))
  {
    hide PushLooks;
    assert orders[..done + 1][..done] == orders[..done];
  }

  /** Once there is no room nothing more is pushed. */
  lemma {:induction false} FullStays(orders: seq<Order>, done: nat, c: Progress)
    requires forall o <- orders :: |o.looks| == 4
    requires Reached(orders, done, c) && (done == |orders| || done >= c.taken + RING_USABLE)
    ensures Progressed(orders) == (done, c)
  {
    if done < |orders| {
      var init := orders[..|orders| - 1];
      assert init[..done] == orders[..done];
      FullStays(init, done, c);
    } else {
      assert orders[..done] == orders;
    }
  }

  lemma TakenFirst(r: TransferRing)
    requires r.Valid()
    ensures r.consumed <= r.pushed
  {
    hide Slot, Lap, LinkBit;
  }

  /** Push what there is room for, the controller looking all the while. */
  method PushAll(orders: seq<Order>) returns (r: TransferRing, done: nat)
    requires forall o <- orders :: |o.looks| == 4
    ensures fresh(r) && r.Valid() && r.settled && done <= |orders| && |r.pushed| == done
    ensures forall k :: 0 <= k < done ==> Carries(r.pushed[k], orders[k])
    ensures (done, r.Now()) == Progressed(orders) && (done < |orders| ==> done == |r.consumed| + RING_USABLE)
  {
    hide TransferRing.Valid, PushLooks, Progressed, Reached;
    r := new TransferRing();
    done := 0;
    NoneYet(orders);
    while done < |orders|
      invariant r.Valid() && r.settled && fresh(r) && fresh(r.trbs) && done <= |orders| && |r.pushed| == done
      invariant forall k :: 0 <= k < done ==> Carries(r.pushed[k], orders[k])
      invariant Reached(orders, done, r.Now())
    {
      var room := Outstanding(r, done);
      if !room {
        break;
      }
      var o := orders[done];
      OneMore(orders, done, r.Now());
      r.Push(o.parameter, o.status, o.control, o.looks);
      done := done + 1;
    }
    FullStays(orders, done, r.Now());
  }

  /** Whatever is pushed, and whenever the controller looks: it takes exactly what was pushed,
      whole, once each and in order, as far as its looks lead it, and left to itself all of it. */
  method Interleave(orders: seq<Order>, drain: bool) returns (r: TransferRing, done: nat)
    requires forall o <- orders :: |o.looks| == 4
    ensures r.Valid() && done <= |orders| && |r.pushed| == done && r.consumed <= r.pushed
    ensures forall k :: 0 <= k < done ==> Carries(r.pushed[k], orders[k])
    ensures done == Progressed(orders).0 && (done < |orders| ==> done == Progressed(orders).1.taken + RING_USABLE)
    ensures !drain || Stuck(Progressed(orders).1, done) ==> |r.consumed| == Progressed(orders).1.taken
    ensures drain && !Stuck(Progressed(orders).1, done) ==> r.consumed == r.pushed
  {
    hide TransferRing.Valid, Progressed;
    r, done := PushAll(orders);
    if drain {
      r.Drain(done);
    }
    TakenFirst(r);
  }

  /** Whether there is room to push: what the driver knows from the events it has had. */
  method Outstanding(r: TransferRing, pushed: nat) returns (room: bool)
    requires r.Valid() && |r.pushed| == pushed
    ensures room <==> |r.pushed| < |r.consumed| + RING_USABLE
    ensures !room ==> |r.pushed| == |r.consumed| + RING_USABLE
  {
    room := pushed < |r.consumed| + RING_USABLE;
  }
}
