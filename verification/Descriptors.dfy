/** Descriptors and the references behind them (kernel/fs/vfs.c, kernel/fs/socket.c,
    kernel/fs/pipe.c, kernel/mm/shm.c): each object's count is the number of descriptors
    of it, in tables, in flight on connections, or waiting to be accepted. */
module Descriptors {

  const MAX_OPEN_FILES: nat := 32
  const MAX_PASSED: nat := 28
  const SOCK_FD_CAP: nat := 28
  const SOCK_BACKLOG: nat := 8
  const EBUSY: int := -16

  /** What a table slot names.  The ends of a pipe are counted apart. */
  datatype File =
    | NoFile | Console
    | PipeEnd(id: nat, writer: bool) | Shared(id: nat) | Endpoint(conn: nat, side: nat)

  predicate Counted(f: File) { f.PipeEnd? || f.Shared? || f.Endpoint? }

  /** A pipe or a shared memory object, and how often it has been freed. */
  datatype Thing = APipe(freed: nat) | AShared(freed: nat)

  /** The shared part of a connection: which ends are closed, and how many hold it. */
  datatype Conn = Conn(closed: seq<bool>, refs: int, freed: nat)

  type Refs = map<File, int>

  function RefOf(refs: Refs, f: File): int { if f in refs then refs[f] else 0 }

  /* ---- counting ---- */

  function Total(ss: seq<seq<File>>): multiset<File>
  {
    if ss == [] then multiset{} else Total(ss[..|ss| - 1]) + multiset(ss[|ss| - 1])
  }

  lemma {:induction false} TotalSet(ss: seq<seq<File>>, i: nat, s: seq<File>)
    requires i < |ss|
    ensures Total(ss[i := s]) + multiset(ss[i]) == Total(ss) + multiset(s)
  {
    var n := |ss| - 1;
    if i == n {
      assert ss[i := s][..n] == ss[..n];
    } else {
      TotalSet(ss[..n], i, s);
      assert ss[i := s][..n] == ss[..n][i := s];
      var a, a', last := Total(ss[..n]), Total(ss[..n][i := s]), multiset(ss[n]);
      assert a' + last + multiset(ss[i]) == a' + multiset(ss[i]) + last;
      assert a + last + multiset(s) == a + multiset(s) + last;
    }
  }

  lemma TotalSnoc(ss: seq<seq<File>>, s: seq<File>)
    ensures Total(ss + [s]) == Total(ss) + multiset(s)
  {
    assert (ss + [s])[..|ss|] == ss;
  }

  lemma {:induction false} TotalHas(ss: seq<seq<File>>, i: nat)
    requires i < |ss|
    ensures multiset(ss[i]) <= Total(ss)
  {
    if i < |ss| - 1 { TotalHas(ss[..|ss| - 1], i); }
  }

  lemma SeqSet(s: seq<File>, i: nat, f: File)
    requires i < |s|
    ensures multiset(s[i := f]) + multiset{s[i]} == multiset(s) + multiset{f}
  {
    assert s == s[..i] + [s[i]] + s[i + 1..];
    assert s[i := f] == s[..i] + [f] + s[i + 1..];
  }

  /** Every counted file has as many references as there are holders of it. */
  ghost predicate Balanced(refs: Refs, held: multiset<File>)
  {
    forall f :: Counted(f) ==> RefOf(refs, f) == held[f]
  }

  function Add(refs: Refs, f: File, n: int): Refs { if Counted(f) then refs[f := RefOf(refs, f) + n] else refs }

  lemma BalancedAdd(refs: Refs, held: multiset<File>, f: File)
    requires Balanced(refs, held)
    ensures Balanced(Add(refs, f, 1), held + multiset{f})
  {
  }

  lemma BalancedIs(refs: Refs, held: multiset<File>, f: File)
    requires Balanced(refs, held) && Counted(f)
    ensures RefOf(refs, f) == held[f]
  {
  }

  lemma BalancedTake(refs: Refs, held: multiset<File>, f: File)
    requires Balanced(refs, held + multiset{f})
    ensures Balanced(Add(refs, f, -1), held)
  {
    assert forall g :: (held + multiset{f})[g] == held[g] + if g == f then 1 else 0;
  }

  /* ---- what the counts mean for the objects ---- */

  function Once(b: bool): nat { if b then 1 else 0 }

  /** Freed exactly once, and exactly when nothing refers to it any more. */
  ghost predicate ThingOk(refs: Refs, things: seq<Thing>, id: nat)
    requires id < |things|
  {
    match things[id]
    case APipe(freed) => freed == Once(RefOf(refs, PipeEnd(id, false)) == 0 && RefOf(refs, PipeEnd(id, true)) == 0)
    case AShared(freed) => freed == Once(RefOf(refs, Shared(id)) == 0)
  }

  /** An end is closed exactly when no descriptor names it; the connection is held by the
      ends that are not; and it is freed once, when neither is left. */
  ghost predicate ConnOk(refs: Refs, conns: seq<Conn>, queues: seq<seq<File>>, c: nat)
    requires c < |conns| && |queues| == 2 * |conns|
  {
    var k := conns[c];
    && |k.closed| == 2
    && (forall s :: 0 <= s < 2 ==> (k.closed[s] <==> RefOf(refs, Endpoint(c, s)) == 0))
    && k.refs == Once(!k.closed[0]) + Once(!k.closed[1])
    && k.freed == Once(k.closed[0] && k.closed[1])
    && (k.closed[0] && k.closed[1] ==> queues[2 * c] == [] && queues[2 * c + 1] == [])
  }

  /** The object a descriptor names exists. */
  ghost predicate Known(things: seq<Thing>, conns: seq<Conn>, f: File)
  {
    match f
    case PipeEnd(id, _) => id < |things| && things[id].APipe?
    case Shared(id) => id < |things| && things[id].AShared?
    case Endpoint(c, s) => c < |conns| && s < 2
    case _ => true
  }

  ghost predicate NoEndpoints(qs: seq<seq<File>>)
  {
    forall q, k :: 0 <= q < |qs| && 0 <= k < |qs[q]| ==> !qs[q][k].Endpoint?
  }

  /** Only whether a count is zero matters to the objects. */
  ghost predicate SameZeros(refs: Refs, refs': Refs)
  {
    forall f :: Counted(f) ==> (RefOf(refs', f) == 0 <==> RefOf(refs, f) == 0)
  }

  ghost predicate ThingsOk(refs: Refs, things: seq<Thing>)
  {
    forall id :: 0 <= id < |things| ==> ThingOk(refs, things, id)
  }

  /** All connections but `but`, which is being closed; -1 for none. */
  ghost predicate ConnsOk(refs: Refs, conns: seq<Conn>, queues: seq<seq<File>>, but: int)
  {
    |queues| == 2 * |conns| && forall c :: 0 <= c < |conns| && c != but ==> ConnOk(refs, conns, queues, c)
  }

  ghost predicate AllKnown(things: seq<Thing>, conns: seq<Conn>, held: multiset<File>)
  {
    forall f :: f in held ==> Known(things, conns, f)
  }

  lemma ZerosEnough(refs: Refs, refs': Refs, things: seq<Thing>, conns: seq<Conn>, queues: seq<seq<File>>, but: int)
    requires SameZeros(refs, refs') && ThingsOk(refs, things) && ConnsOk(refs, conns, queues, but)
    ensures ThingsOk(refs', things) && ConnsOk(refs', conns, queues, but)
  {
    hide RefOf;
    forall id | 0 <= id < |things| ensures ThingOk(refs', things, id) { assert ThingOk(refs, things, id); }
    forall c | 0 <= c < |conns| && c != but ensures ConnOk(refs', conns, queues, c) {
      assert ConnOk(refs, conns, queues, c);
    }
  }

  /** What dropping one reference to a pipe or shared object frees. */
  function Freed(things: seq<Thing>, refs: Refs, f: File): seq<Thing>
  {
    if f.PipeEnd? && f.id < |things| && things[f.id].APipe?
       && RefOf(refs, PipeEnd(f.id, false)) <= 0 && RefOf(refs, PipeEnd(f.id, true)) <= 0
    then things[f.id := APipe(things[f.id].freed + 1)]
    else if f.Shared? && f.id < |things| && things[f.id].AShared? && RefOf(refs, f) <= 0
    then things[f.id := AShared(things[f.id].freed + 1)]
    else things
  }

  lemma FreedOk(refs: Refs, things: seq<Thing>, conns: seq<Conn>, queues: seq<seq<File>>, f: File, but: int)
    requires ThingsOk(refs, things) && ConnsOk(refs, conns, queues, but) && !f.Endpoint? && Counted(f)
    requires Known(things, conns, f) && RefOf(refs, f) > 0
    requires forall g :: Counted(g) ==> RefOf(refs, g) >= 0
    ensures var refs' := Add(refs, f, -1);
      && ThingsOk(refs', Freed(things, refs', f)) && ConnsOk(refs', conns, queues, but)
      && |Freed(things, refs', f)| == |things|
      && forall g :: Known(things, conns, g) ==> Known(Freed(things, refs', f), conns, g)
  {
    var refs' := Add(refs, f, -1);
    var things' := Freed(things, refs', f);
    forall id | 0 <= id < |things'| ensures ThingOk(refs', things', id) { FreedThing(refs, things, f, id); }
    forall c | 0 <= c < |conns| && c != but ensures ConnOk(refs', conns, queues, c) {
      assert ConnOk(refs, conns, queues, c);
    }
  }

  lemma FreedThing(refs: Refs, things: seq<Thing>, f: File, id: nat)
    requires id < |things| && ThingOk(refs, things, id) && !f.Endpoint? && Counted(f) && RefOf(refs, f) > 0
    requires f.id < |things| && (things[f.id].APipe? <==> f.PipeEnd?)
    requires forall g :: Counted(g) ==> RefOf(refs, g) >= 0
    ensures var refs' := Add(refs, f, -1);
      id < |Freed(things, refs', f)| && ThingOk(refs', Freed(things, refs', f), id)
  {
    var refs' := Add(refs, f, -1);
    assert RefOf(refs', f) == RefOf(refs, f) - 1;
    assert forall g :: g != f ==> RefOf(refs', g) == RefOf(refs, g);
    hide RefOf, Add;
    if f.PipeEnd? && id == f.id {
      assert RefOf(refs, PipeEnd(id, false)) >= 0 && RefOf(refs, PipeEnd(id, true)) >= 0;
    }
  }

  lemma Positive(refs: Refs, things: seq<Thing>, conns: seq<Conn>, held: multiset<File>, f: File)
    requires Balanced(refs, held) && AllKnown(things, conns, held) && f in held
    ensures Known(things, conns, f) && (Counted(f) ==> RefOf(refs, f) > 0) && forall g :: Counted(g) ==>
      RefOf(refs, g) >= 0
  {
  }

  lemma KnownStays(things: seq<Thing>, things': seq<Thing>, conns: seq<Conn>, held: multiset<File>, f: File)
    requires AllKnown(things, conns, held + multiset{f})
    requires forall g :: Known(things, conns, g) ==> Known(things', conns, g)
    ensures AllKnown(things', conns, held)
  {
    assert forall g :: g in held ==> g in held + multiset{f};
  }

  /* ---- the same without counts: who names what ---- */

  /** The tables, what is in flight, and how many connections and other objects there have been.
      What has been freed follows: an end of a connection is closed once nothing names it. */
  datatype Holding = Holding(tables: seq<seq<File>>, queues: seq<seq<File>>, backlog: seq<File>, conns: nat,
    things: nat)

  ghost function Names(h: Holding): multiset<File> { Total(h.tables) + Total(h.queues) + multiset(h.backlog) }

  /** The first free slot after the standard ones; -1 for none. */
  function FirstFree(t: seq<File>, from: nat): (fd: int)
    requires from <= |t|
    ensures fd == -1 || from <= fd < |t|
    decreases |t| - from
  {
    if from == |t| then -1 else if t[from] == NoFile then from else FirstFree(t, from + 1)
  }

  function FreeSlot(t: seq<File>): (fd: int)
    ensures fd == -1 || 3 <= fd < |t|
  {
    if |t| < 3 then -1 else FirstFree(t, 3)
  }

  function SlotSet(h: Holding, p: nat, fd: int, f: File): Holding
  {
    if p < |h.tables| && 0 <= fd < |h.tables[p]| then h.(tables := h.tables[p := h.tables[p][fd := f]]) else h
  }

  /** A reference given up, with `x` still in hand: the last to an end empties both queues. */
  ghost function Forgotten(h: Holding, f: File, x: multiset<File>): Holding
  {
    if f.Endpoint? && f !in Names(h) + x && 2 * f.conn + 1 < |h.queues|
    then h.(queues := h.queues[2 * f.conn := []][2 * f.conn + 1 := []]) else h
  }

  /** A reference put in the first free slot, or given up. */
  ghost function Placed(h: Holding, p: nat, f: File, x: multiset<File>): Holding
    requires p < |h.tables|
  {
    var fd := FreeSlot(h.tables[p]);
    if fd >= 0 then SlotSet(h, p, fd, f) else Forgotten(h, f, x)
  }

  /** A table with one more file, if it has room. */
  function OneMore(t: seq<File>, f: File): (r: seq<File>)
    ensures |r| == |t|
  {
    var fd := FreeSlot(t);
    if fd >= 0 then t[fd := f] else t
  }

  /** A table after as many of `fs` as it has room for. */
  function Filled(t: seq<File>, fs: seq<File>): (r: seq<File>)
    ensures |r| == |t|
    decreases |fs|
  {
    if fs == [] then t else Filled(OneMore(t, fs[0]), fs[1..])
  }

  /** And where they went. */
  function FilledAt(t: seq<File>, fs: seq<File>): seq<int>
    decreases |fs|
  {
    if fs == [] then []
    else
      var fd := FreeSlot(t);
      (if fd >= 0 then [fd] else []) + FilledAt(OneMore(t, fs[0]), fs[1..])
  }

  function Entry(t: seq<File>, fd: int): File { if 0 <= fd < MAX_OPEN_FILES && fd < |t| then t[fd] else NoFile }

  /** What a send answers: the errors in the order they are looked for. */
  ghost function SendAnswer(h: Holding, p: nat, fd: int, nums: seq<int>): Sent
    requires p < |h.tables|
  {
    var t := h.tables[p];
    var f := Entry(t, fd);
    if !f.Endpoint? || 2 * f.conn + f.side >= |h.queues| then BadFd
    else if |nums| > MAX_PASSED then TooMany
    else if exists j :: 0 <= j < |nums| && Entry(t, nums[j]) == NoFile then BadFd
    else if |h.queues[2 * f.conn + f.side]| + |nums| > SOCK_FD_CAP then
      (if f.side < 2 && Endpoint(f.conn, 1 - f.side) !in Names(h) then PeerGone else Blocked)
    else Queued
  }

  function Entries(t: seq<File>, nums: seq<int>): (r: seq<File>)
    ensures |r| == |nums| && forall j :: 0 <= j < |nums| ==> r[j] == Entry(t, nums[j])
  {
    seq(|nums|, j requires 0 <= j < |nums| => Entry(t, nums[j]))
  }

  /** After a send: the queue of the sender's side has the files as well. */
  ghost function AfterSend(h: Holding, p: nat, fd: int, nums: seq<int>): Holding
    requires p < |h.tables|
  {
    var f := Entry(h.tables[p], fd);
    if SendAnswer(h, p, fd, nums) != Queued then h
    else var q := 2 * f.conn + f.side; h.(queues := h.queues[q := h.queues[q] + Entries(h.tables[p], nums)])
  }

  /** The queue a descriptor receives from. */
  function Inbox(h: Holding, p: nat, fd: int): seq<File>
  {
    if p < |h.tables| && Entry(h.tables[p], fd).Endpoint? then
      var f := Entry(h.tables[p], fd);
      var q := 2 * f.conn + 1 - f.side;
      if 0 <= q < |h.queues| then h.queues[q] else []
    else []
  }

  /** After a receive: up to `due` files have left that queue for the table, oldest first. */
  function AfterReceive(h: Holding, p: nat, fd: int, due: nat): Holding
    requires p < |h.tables|
  {
    var f, box := Entry(h.tables[p], fd), Inbox(h, p, fd);
    if box == [] then h
    else
      var q, n := 2 * f.conn + 1 - f.side, if due < |box| then due else |box|;
      h.(queues := h.queues[q := box[n..]], tables := h.tables[p := Filled(h.tables[p], box[..n])])
  }

  ghost function AfterClose(h: Holding, p: nat, fd: int): Holding
    requires p < |h.tables|
  {
    var f := Entry(h.tables[p], fd);
    if f == NoFile then h else Forgotten(SlotSet(h, p, fd, NoFile), f, multiset{})
  }

  /** A pipe needs two slots; the first is held with the console while the second is sought. */
  function AfterPipe(h: Holding, p: nat): Holding
    requires p < |h.tables|
  {
    var t := h.tables[p];
    var r := FreeSlot(t);
    if r < 0 then h
    else
      var w := FreeSlot(t[r := Console]);
      if w < 0 then h
      else h.(things := h.things + 1,
        tables := h.tables[p := t[r := PipeEnd(h.things, false)][w := PipeEnd(h.things, true)]])
  }

  lemma NoPipe(h: Holding, p: nat)
    requires p < |h.tables|
    requires var t := h.tables[p]; FreeSlot(t) < 0 || FreeSlot(t[FreeSlot(t) := Console]) < 0
    ensures AfterPipe(h, p) == h
    ensures var r := FreeSlot(h.tables[p]);
      r >= 0 && h.tables[p][r] == NoFile ==>
        h.tables[p := h.tables[p][r := Console]][p := h.tables[p][r := Console][r := NoFile]] == h.tables
  {
    var t, r := h.tables[p], FreeSlot(h.tables[p]);
    if r >= 0 && t[r] == NoFile { assert t[r := Console][r := NoFile] == t; }
  }

  lemma PipeIs(h: Holding, p: nat, r: nat, w: nat)
    requires p < |h.tables| && r == FreeSlot(h.tables[p]) && w == FreeSlot(h.tables[p][r := Console])
    ensures var t := h.tables[p][r := Console];
      AfterPipe(h, p) == h.(things := h.things + 1,
        tables := h.tables[p := t][p := t[r := PipeEnd(h.things, false)][w := PipeEnd(h.things, true)]])
  {
    var t, f := h.tables[p], PipeEnd(h.things, false);
    assert t[r := Console][r := f] == t[r := f];
  }

  ghost function AfterShared(h: Holding, p: nat): Holding
    requires p < |h.tables|
  {
    Placed(h.(things := h.things + 1), p, Shared(h.things), multiset{})
  }

  ghost function AfterConnect(h: Holding, p: nat): Holding
    requires p < |h.tables|
  {
    var c := h.conns;
    if |h.backlog| >= SOCK_BACKLOG then h
    else Placed(h.(conns := c + 1, queues := h.queues + [[]] + [[]], backlog := h.backlog + [Endpoint(c, 1)]), p,
      Endpoint(c, 0), multiset{})
  }

  ghost function AfterAccept(h: Holding, p: nat): Holding
    requires p < |h.tables|
  {
    if h.backlog == [] then h else Placed(h.(backlog := h.backlog[1..]), p, h.backlog[0], multiset{})
  }

  /** A child has the console, then its parent's three standard descriptors. */
  function AfterSpawn(h: Holding, p: nat): Holding
    requires p < |h.tables|
  {
    h.(tables := h.tables + [Child(h.tables[p])])
  }

  function Child(t: seq<File>): (c: seq<File>)
  {
    seq(MAX_OPEN_FILES, i requires 0 <= i < MAX_OPEN_FILES => if i < 3 && i < |t| then t[i] else FreshTable()[i])
  }

  /** A table that has its parent's first `k` entries. */
  ghost predicate Inherited(t: seq<File>, c: seq<File>, k: nat)
  {
    |t| == |c| == MAX_OPEN_FILES && forall i :: 0 <= i < MAX_OPEN_FILES ==>
      c[i] == if i < k then t[i] else FreshTable()[i]
  }

  class World {
    var tables: seq<seq<File>>         // one per process
    var queues: seq<seq<File>>         // two per connection
    var backlog: seq<File>             // ends not accepted yet
    var conns: seq<Conn>
    var things: seq<Thing>
    var refs: Refs

    ghost function Held(): multiset<File>
      reads this
    {
      Total(tables) + Total(queues) + multiset(backlog)
    }

    ghost function View(): Holding
      reads this
    {
      Holding(tables, queues, backlog, |conns|, |things|)
    }

    ghost predicate Shapes()
      reads this
    {
      && |queues| == 2 * |conns| && NoEndpoints(queues) && |backlog| <= SOCK_BACKLOG
      && forall p :: 0 <= p < |tables| ==> |tables[p]| == MAX_OPEN_FILES
    }

    /** The invariant, with `inFlight` held by the operation in progress. */
    ghost predicate Inv(inFlight: multiset<File>, but: int := -1)
      reads this
    {
      && Shapes() && Balanced(refs, Held() + inFlight) && AllKnown(things, conns, Held() + inFlight)
      && ThingsOk(refs, things) && ConnsOk(refs, conns, queues, but)
    }

    ghost predicate Valid()
      reads this
    {
      Inv(multiset{})
    }

    /** One process, and nothing opened yet. */
    constructor ()
      ensures Valid() && View() == Holding([FreshTable()], [], [], 0, 0)
    {
      tables, queues, backlog, conns, things, refs := [], [], [], [], [], map[];
      new;
      NewTable();
    }

    /** vfs_fd_retain of something that is already held. */
    method Retain(f: File, ghost inFlight: multiset<File>)
      requires Inv(inFlight) && f in Held() + inFlight
      modifies `refs
      ensures Inv(inFlight + multiset{f})
    {
      hide Total, NoEndpoints, ThingsOk, ConnsOk;
      ghost var h := Held() + inFlight;
      BalancedAdd(refs, h, f);
      assert h + multiset{f} == Held() + (inFlight + multiset{f});
      ZerosEnough(refs, Add(refs, f, 1), things, conns, queues, -1);
      refs := Add(refs, f, 1);
    }

    /** vfs_fd_drop of anything but an end of a connection. */
    method DropPlain(f: File, ghost inFlight: multiset<File>, ghost but: int := -1)
      requires Inv(inFlight + multiset{f}, but) && !f.Endpoint?
      modifies `refs, `things
      ensures Inv(inFlight, but) && forall c, s :: RefOf(refs, Endpoint(c, s)) == RefOf(old(refs), Endpoint(c, s))
      ensures |things| == |old(things)|
    {
      hide Total, NoEndpoints, ThingsOk, ConnsOk, Freed, Balanced, AllKnown, Known;
      ghost var h := Held() + inFlight;
      assert h + multiset{f} == Held() + (inFlight + multiset{f});
      Positive(refs, things, conns, h + multiset{f}, f);
      BalancedTake(refs, h, f);
      if Counted(f) {
        FreedOk(refs, things, conns, queues, f, but);
        KnownStays(things, Freed(things, Add(refs, f, -1), f), conns, h, f);
        refs := Add(refs, f, -1);
        things := Freed(things, refs, f);
      } else {
        KnownStays(things, things, conns, h, f);
      }
    }

    /** drop_queued_fds: give back every descriptor still queued in a direction. */
    method DropQueue(q: nat, ghost inFlight: multiset<File>, ghost c: nat)
      requires Inv(inFlight, c) && q < |queues| && q / 2 == c
      modifies `refs, `things, `queues
      ensures Inv(inFlight, c) && |queues| == |old(queues)| && queues == old(queues)[q := []]
        && |things| == |old(things)|
      ensures forall d, s :: RefOf(refs, Endpoint(d, s)) == RefOf(old(refs), Endpoint(d, s))
    {
      hide Inv, Shapes;
      while |queues[q]| > 0
        invariant Inv(inFlight, c) && |queues| == |old(queues)| && queues == old(queues)[q := queues[q]]
          && |things| == |old(things)|
        invariant forall d, s :: RefOf(refs, Endpoint(d, s)) == RefOf(old(refs), Endpoint(d, s))
        decreases |queues[q]|
      {
        var f := PopQueue(q, inFlight, c);
        DropPlain(f, inFlight, c);
      }
    }

    method PopQueue(q: nat, ghost inFlight: multiset<File>, ghost c: int) returns (f: File)
      requires Inv(inFlight, c) && q < |queues| && queues[q] != [] && (c == -1 || q / 2 == c)
      modifies `queues
      ensures queues == old(queues)[q := old(queues)[q][1..]] && f == old(queues)[q][0] && !f.Endpoint?
      ensures Inv(inFlight + multiset{f}, c)
    {
      hide Balanced, AllKnown, ThingsOk, Total;
      f := queues[q][0];
      ghost var before := Held() + inFlight;
      TotalSet(queues, q, queues[q][1..]);
      assert queues[q] == [f] + queues[q][1..];
      assert multiset(queues[q]) == multiset{f} + multiset(queues[q][1..]);
      ConnsOkQueue(refs, conns, queues, q, queues[q][1..], c);
      SameSum(Total(tables), multiset(backlog), inFlight, Total(queues), Total(queues[q := queues[q][1..]]),
        multiset(queues[q][1..]), f);
      queues := queues[q := queues[q][1..]];
      assert Held() + (inFlight + multiset{f}) == before;
    }

    /** socket_unref: the last descriptor of an end closes it. */
    method DropEndpoint(c: nat, side: nat, ghost inFlight: multiset<File>)
      requires Inv(inFlight + multiset{Endpoint(c, side)}) && c < |conns| && side < 2
      modifies `refs, `things, `queues, `conns
      ensures Inv(inFlight) && View() == Forgotten(old(View()), Endpoint(c, side), inFlight)
    {
      hide ThingsOk, ConnsOk, Total, NoEndpoints, ConnOk, Balanced, AllKnown, Known;
      ghost var f, h := Endpoint(c, side), Held() + inFlight;
      assert h + multiset{f} == Held() + (inFlight + multiset{f});
      Positive(refs, things, conns, h + multiset{f}, f);
      BalancedTake(refs, h, f);
      KnownStays(things, things, conns, h, f);
      EndpointDown(refs, things, conns, queues, c, side);
      OpenEnd(refs, conns, queues, c, side);
      refs := Add(refs, Endpoint(c, side), -1);
      BalancedIs(refs, h, f);
      if RefOf(refs, Endpoint(c, side)) > 0 {
        return;
      }
      CloseEnd(c, side, inFlight);
    }

    /** The rest of socket_unref: give back what is queued, and let go of the connection. */
    method CloseEnd(c: nat, side: nat, ghost inFlight: multiset<File>)
      requires Inv(inFlight, c) && c < |conns| && side < 2 && |conns[c].closed| == 2
      requires RefOf(refs, Endpoint(c, side)) == 0 && !conns[c].closed[side]
      requires conns[c].closed[1 - side] <==> RefOf(refs, Endpoint(c, 1 - side)) == 0
      requires conns[c].refs == 1 + Once(!conns[c].closed[1 - side]) && conns[c].freed == 0
      modifies `refs, `things, `queues, `conns
      ensures Inv(inFlight) && |conns| == |old(conns)| && |things| == |old(things)| && 2 * c + 1 < |old(queues)|
      ensures queues == old(queues)[2 * c := []][2 * c + 1 := []]
    {
      hide Balanced, AllKnown, ThingsOk, ConnsOk, Total, NoEndpoints;
      var k := conns[c];
      k := k.(closed := k.closed[side := true]);
      ConnsBut(refs, conns, queues, c, k);
      KnownSame(things, conns, conns[c := k], Held() + inFlight);
      conns := conns[c := k];
      DropQueue(2 * c + side, inFlight, c);
      DropQueue(2 * c + 1 - side, inFlight, c);
      k := k.(refs := k.refs - 1);
      if k.refs <= 0 { k := k.(freed := k.freed + 1); }
      assert ConnOk(refs, conns[c := k], queues, c);
      EndClosed(refs, conns, conns[c := k], queues, c, k);
      KnownSame(things, conns, conns[c := k], Held() + inFlight);
      conns := conns[c := k];
    }

    /** vfs_fd_drop. */
    method Drop(f: File, ghost inFlight: multiset<File>)
      requires Inv(inFlight + multiset{f})
      modifies `refs, `things, `queues, `conns
      ensures Inv(inFlight) && View() == Forgotten(old(View()), f, inFlight)
    {
      hide Balanced, ThingsOk, ConnsOk, Total, NoEndpoints;
      assert f in Held() + (inFlight + multiset{f});
      if f.Endpoint? {
        DropEndpoint(f.conn, f.side, inFlight);
      } else {
        DropPlain(f, inFlight);
      }
    }

    /* ---- the descriptor table ---- */

    method FdAlloc(p: nat) returns (fd: int)
      requires p < |tables| && |tables[p]| == MAX_OPEN_FILES
      ensures fd == FreeSlot(tables[p]) && (fd >= 0 ==> tables[p][fd] == NoFile)
    {
      for i := 3 to MAX_OPEN_FILES
        invariant FreeSlot(tables[p]) == FirstFree(tables[p], i)
      {
        if tables[p][i] == NoFile {
          return i;
        }
      }
      return -1;
    }

    /** Put a reference that is in flight into a slot that holds none. */
    method SetSlot(p: nat, i: nat, f: File, ghost inFlight: multiset<File>)
      requires Inv(inFlight + multiset{f}) && p < |tables| && i < MAX_OPEN_FILES && !Counted(tables[p][i])
      modifies `tables
      ensures Inv(inFlight) && |tables| == |old(tables)| && tables == old(tables)[p := old(tables)[p][i := f]]
    {
      hide Balanced, AllKnown, ThingsOk, ConnsOk, Total, NoEndpoints;
      ghost var a := Held() + (inFlight + multiset{f});
      TotalSet(tables, p, tables[p][i := f]);
      SeqSet(tables[p], i, f);
      MovedIn(Total(tables), Total(tables[p := tables[p][i := f]]), multiset(tables[p]), multiset(tables[p][i := f]),
        tables[p][i], f);
      SwapCounted(Total(tables), Total(tables[p := tables[p][i := f]]), Total(queues), multiset(backlog), inFlight,
        tables[p][i], f);
      tables := tables[p := tables[p][i := f]];
      SameCounted(refs, things, conns, a, Held() + inFlight);
    }

    /** Clear a slot, its reference now in flight. */
    method TakeSlot(p: nat, i: nat, ghost inFlight: multiset<File>) returns (f: File)
      requires Inv(inFlight) && p < |tables| && i < MAX_OPEN_FILES
      modifies `tables
      ensures f == old(tables)[p][i] && Inv(inFlight + multiset{f})
      ensures |tables| == |old(tables)| && tables == old(tables)[p := old(tables)[p][i := NoFile]]
    {
      hide Balanced, AllKnown, ThingsOk, ConnsOk, Total, NoEndpoints;
      f := tables[p][i];
      ghost var a := Held() + inFlight;
      TotalSet(tables, p, tables[p][i := NoFile]);
      SeqSet(tables[p], i, NoFile);
      MovedIn(Total(tables[p := tables[p][i := NoFile]]), Total(tables), multiset(tables[p][i := NoFile]),
        multiset(tables[p]), NoFile, f);
      SwapCounted(Total(tables[p := tables[p][i := NoFile]]), Total(tables), Total(queues), multiset(backlog),
        inFlight, NoFile, f);
      tables := tables[p := tables[p][i := NoFile]];
      SameCounted(refs, things, conns, a, Held() + (inFlight + multiset{f}));
    }

    /** vfs_fd_install: the reference moves into the table, if there is room. */
    method Install(p: nat, f: File, ghost inFlight: multiset<File>) returns (fd: int)
      requires Inv(inFlight + multiset{f}) && p < |tables|
      modifies `tables
      ensures fd == FreeSlot(old(tables)[p]) && View() == SlotSet(old(View()), p, fd, f)
      ensures if fd >= 0 then Inv(inFlight) else Inv(inFlight + multiset{f})
    {
      hide Balanced, AllKnown, ThingsOk, ConnsOk, Total, NoEndpoints;
      fd := FdAlloc(p);
      if fd >= 0 {
        SetSlot(p, fd, f, inFlight);
      }
    }

    /** Install, or give the reference up. */
    method InstallOrDrop(p: nat, f: File, ghost inFlight: multiset<File>) returns (fd: int)
      requires Inv(inFlight + multiset{f}) && p < |tables|
      modifies this
      ensures Inv(inFlight) && fd == FreeSlot(old(tables)[p]) && View() == Placed(old(View()), p, f, inFlight)
    {
      hide Inv, Names;
      fd := Install(p, f, inFlight);
      if fd < 0 {
        Drop(f, inFlight);
      }
    }

    /** vfs_close.  The slot is emptied and what it held is dropped. */
    method Close(p: nat, fd: int) returns (ok: bool)
      requires Valid() && p < |tables|
      modifies this
      ensures Valid() && View() == AfterClose(old(View()), p, fd) && (ok <==> Entry(old(tables)[p], fd) != NoFile)
    {
      ValidShapes();
      if fd < 0 || fd >= MAX_OPEN_FILES || tables[p][fd] == NoFile {
        return false;
      }
      hide Inv, Names;
      var f := TakeSlot(p, fd, multiset{});
      Drop(f, multiset{});
      ok := true;
    }

    /* ---- passing descriptors ---- */

    /** Queue one descriptor on a connection, with a reference of its own. */
    method QueueOne(q: nat, f: File)
      requires Valid() && q < |queues| && f in Held() && !f.Endpoint?
      requires q / 2 < |conns| && |conns[q / 2].closed| == 2 && !conns[q / 2].closed[q % 2]
      modifies `refs, `queues
      ensures Valid() && queues == old(queues)[q := old(queues)[q] + [f]]
    {
      hide Balanced, AllKnown, ThingsOk, ConnsOk, Total;
      Retain(f, multiset{});
      ghost var a := Held() + (multiset{} + multiset{f});
      TotalSet(queues, q, queues[q] + [f]);
      SwapQueue(Total(tables), Total(queues), Total(queues[q := queues[q] + [f]]), multiset(backlog),
        multiset(queues[q]), f);
      LongerQueue(refs, conns, queues, q, f);
      queues := queues[q := queues[q] + [f]];
      SameCounted(refs, things, conns, a, Held() + multiset{});
    }

    /** vfs_send: collect the descriptors, then queue them all.  `Blocked` is waiting for room. */
    method Send(p: nat, fd: int, nums: seq<int>) returns (r: Sent)
      requires Valid() && p < |tables| && PlainFiles(tables[p], nums)
      modifies this
      ensures Valid() && r == SendAnswer(old(View()), p, fd, nums) && View() == AfterSend(old(View()), p, fd, nums)
      ensures r != Queued ==> refs == old(refs)
    {
      hide Inv, Names;
      ValidShapes();
      var f := Get(p, fd);
      if !f.Endpoint? {
        return BadFd;
      }
      SlotHeld(p, fd);
      EndOpen(f.conn, f.side);
      if |nums| > MAX_PASSED {
        return TooMany;
      }
      for i := 0 to |nums|
        invariant forall j :: 0 <= j < i ==> Entry(tables[p], nums[j]) != NoFile
      {
        if Get(p, nums[i]) == NoFile {
          return BadFd;
        }
      }
      var q := 2 * f.conn + f.side;
      if SOCK_FD_CAP < |queues[q]| + |nums| {
        PeerOpen(f.conn, 1 - f.side);
        return if conns[f.conn].closed[1 - f.side] then PeerGone else Blocked;
      }
      QueueAll(p, q, nums);
      r := Queued;
    }

    /** An end is closed exactly when nothing names it. */
    lemma PeerOpen(c: nat, side: nat)
      requires Valid() && c < |conns| && side < 2
      ensures |conns[c].closed| == 2 && (conns[c].closed[side] <==> Endpoint(c, side) !in Names(View()))
    {
      assert ConnOk(refs, conns, queues, c);
      assert (Held() + multiset{})[Endpoint(c, side)] == Held()[Endpoint(c, side)];
    }

    method QueueAll(p: nat, q: nat, nums: seq<int>)
      requires Valid() && p < |tables| && q < |queues| && PlainFiles(tables[p], nums) && |tables[p]| == MAX_OPEN_FILES
      requires q / 2 < |conns| && |conns[q / 2].closed| == 2 && !conns[q / 2].closed[q % 2]
      requires forall j :: 0 <= j < |nums| ==> Entry(tables[p], nums[j]) != NoFile
      modifies `refs, `queues
      ensures Valid() && queues == old(queues)[q := old(queues)[q] + Entries(tables[p], nums)]
    {
      hide Inv;
      ghost var es, was := Entries(tables[p], nums), queues[q];
      assert was + es[..0] == was;
      for i := 0 to |nums|
        invariant Valid() && queues == old(queues)[q := old(queues)[q] + es[..i]]
      {
        SlotHeld(p, nums[i]);
        QueueOne(q, tables[p][nums[i]]);
        assert was + es[..i + 1] == was + es[..i] + [tables[p][nums[i]]];
      }
      assert es[..|nums|] == es;
    }

    lemma ValidShapes()
      requires Valid()
      ensures |queues| == 2 * |conns| && forall p :: 0 <= p < |tables| ==> |tables[p]| == MAX_OPEN_FILES
      ensures |backlog| <= SOCK_BACKLOG
      ensures forall c :: 0 <= c < |conns| ==> |conns[c].closed| == 2
    {
      forall c | 0 <= c < |conns| ensures |conns[c].closed| == 2 { assert ConnOk(refs, conns, queues, c); }
    }

    /** What is in a table is held, and if it is an end of a connection, open. */
    lemma SlotHeld(p: nat, i: int)
      requires Valid() && p < |tables| && 0 <= i < |tables[p]|
      ensures tables[p][i] in Held() && Known(things, conns, tables[p][i])
    {
      TotalHas(tables, p);
      assert tables[p][i] in multiset(tables[p]);
      assert tables[p][i] in Held() + multiset{};
    }

    lemma EndOpen(c: nat, side: nat)
      requires Valid() && Endpoint(c, side) in Held()
      ensures c < |conns| && side < 2 && |conns[c].closed| == 2 && !conns[c].closed[side] && |queues| == 2 * |conns|
    {
      assert Endpoint(c, side) in Held() + multiset{};
      assert Known(things, conns, Endpoint(c, side));
      assert ConnOk(refs, conns, queues, c);
      assert (Held() + multiset{})[Endpoint(c, side)] > 0;
    }

    function Get(p: nat, fd: int): (f: File)
      requires p < |tables|
      reads this
      ensures f != NoFile ==> 0 <= fd < |tables[p]| && f == tables[p][fd] && fd < MAX_OPEN_FILES
    {
      if 0 <= fd < MAX_OPEN_FILES && fd < |tables[p]| then tables[p][fd] else NoFile
    }

    /** vfs_recv: `due` descriptors have come due; each goes into the table with the
        reference it carries, or, when the table is full, is given up. */
    method Receive(p: nat, fd: int, due: nat) returns (installed: seq<int>)
      requires Valid() && p < |tables|
      modifies this
      ensures Valid() && View() == AfterReceive(old(View()), p, fd, due)
      ensures var box := Inbox(old(View()), p, fd);
        installed == FilledAt(old(tables)[p], box[..if due < |box| then due else |box|])
    {
      hide Inv, Names, Filled, FilledAt;
      ValidShapes();
      var f := Get(p, fd);
      if !f.Endpoint? {
        NoneFilled(tables[p]);
        return [];
      }
      SlotHeld(p, fd);
      EndOpen(f.conn, f.side);
      var q := 2 * f.conn + 1 - f.side;
      var arrived := TakeDue(q, due);
      installed := InstallAll(p, arrived);
      if Inbox(old(View()), p, fd) == [] { NoneFilled(old(tables)[p]); }
    }

    method TakeDue(q: nat, due: nat) returns (arrived: seq<File>)
      requires Valid() && q < |queues|
      modifies `queues
      ensures var n := if due < |old(queues)[q]| then due else |old(queues)[q]|;
        arrived == old(queues)[q][..n] && queues == old(queues)[q := old(queues)[q][n..]]
      ensures Inv(multiset(arrived)) && forall f <- arrived :: !f.Endpoint?
    {
      hide Inv;
      arrived := [];
      while |arrived| < due && queues[q] != []
        invariant |arrived| <= due && |arrived| <= |old(queues)[q]| && arrived == old(queues)[q][..|arrived|]
        invariant queues == old(queues)[q := old(queues)[q][|arrived|..]]
        invariant Inv(multiset(arrived)) && forall f <- arrived :: !f.Endpoint?
        decreases |queues[q]|
      {
        var g := PopQueue(q, multiset(arrived), -1);
        assert multiset(arrived + [g]) == multiset(arrived) + multiset{g};
        arrived := arrived + [g];
      }
    }

    method InstallAll(p: nat, arrived: seq<File>) returns (installed: seq<int>)
      requires Inv(multiset(arrived)) && p < |tables| && forall f <- arrived :: !f.Endpoint?
      modifies this
      ensures Valid() && View() == old(View()).(tables := old(tables)[p := Filled(old(tables)[p], arrived)])
      ensures installed == FilledAt(old(tables)[p], arrived)
    {
      hide Inv, OneMore, FreeSlot, Filled, FilledAt;
      installed := [];
      ghost var t := tables[p];
      var rest := arrived;
      while rest != []
        invariant Inv(multiset(rest)) && (forall f <- rest :: !f.Endpoint?) && p < |tables|
        invariant View() == old(View()).(tables := old(tables)[p := tables[p]])
        invariant Filled(tables[p], rest) == Filled(t, arrived)
        invariant installed + FilledAt(tables[p], rest) == FilledAt(t, arrived)
        decreases |rest|
      {
        FilledNext(tables[p], rest);
        var got := InstallFirst(p, rest);
        if got >= 0 { installed := installed + [got]; }
        rest := rest[1..];
      }
      assert multiset(rest) == multiset{};
      NoneFilled(tables[p]);
    }

    lemma FilledNext(t: seq<File>, fs: seq<File>)
      requires fs != []
      ensures Filled(t, fs) == Filled(OneMore(t, fs[0]), fs[1..])
      ensures FilledAt(t, fs) == (if FreeSlot(t) >= 0 then [FreeSlot(t)] else []) + FilledAt(OneMore(t, fs[0]), fs[1..])
    {
      hide OneMore, FreeSlot;
    }

    method InstallFirst(p: nat, rest: seq<File>) returns (got: int)
      requires Inv(multiset(rest)) && p < |tables| && rest != [] && !rest[0].Endpoint?
      modifies this
      ensures Inv(multiset(rest[1..])) && got == FreeSlot(old(tables)[p])
      ensures View() == old(View()).(tables := old(tables)[p := OneMore(old(tables)[p], rest[0])])
    {
      hide Inv;
      assert rest == [rest[0]] + rest[1..];
      assert multiset(rest) == multiset(rest[1..]) + multiset{rest[0]};
      got := InstallOrDrop(p, rest[0], multiset(rest[1..]));
    }

    lemma NoneFilled(t: seq<File>)
      ensures Filled(t, []) == t && FilledAt(t, []) == []
    {
    }

    /* ---- making objects, and processes ---- */

    lemma Uncounted(x: multiset<File>, f: File)
      requires Inv(x) && !Counted(f)
      ensures Inv(x + multiset{f})
    {
      hide ThingsOk, ConnsOk, Total, NoEndpoints, Balanced, AllKnown;
      SameCounted(refs, things, conns, Held() + x, Held() + (x + multiset{f}));
    }

    /** A shared memory object with one reference, put in the table or given up. */
    method MakeShared(p: nat) returns (fd: int)
      requires Valid() && p < |tables|
      modifies this
      ensures Valid() && fd == FreeSlot(old(tables)[p]) && View() == AfterShared(old(View()), p)
    {
      hide Inv, Names;
      var f := SharedCreate();
      fd := InstallOrDrop(p, f, multiset{});
    }

    method SharedCreate() returns (f: File)
      requires Valid()
      modifies `things, `refs
      ensures Inv(multiset{} + multiset{f}) && f == Shared(|old(things)|) && |things| == |old(things)| + 1
    {
      f := Shared(|things|);
      NewShared(refs, things, conns, queues, Held() + multiset{});
      things, refs := things + [AShared(0)], refs[f := 1];
      assert Held() + multiset{} + multiset{f} == Held() + (multiset{} + multiset{f});
    }

    /** vfs_pipe: two slots, the first reserved while the second is sought. */
    method MakePipe(p: nat) returns (ok: bool)
      requires Valid() && p < |tables|
      modifies this
      ensures Valid() && View() == AfterPipe(old(View()), p) && (ok <==> |things| > |old(things)|)
    {
      hide Inv, Held, FreeSlot, AfterPipe, Counted;
      ValidShapes();
      ghost var h := View();
      var rfd := FdAlloc(p);
      if rfd < 0 {
        NoPipe(h, p);
        return false;
      }
      SetPlain(p, rfd, Console);
      var wfd := FdAlloc(p);
      if wfd < 0 {
        SetPlain(p, rfd, NoFile);
        NoPipe(h, p);
        return false;
      }
      FillPipe(p, rfd, wfd);
      PipeIs(h, p, rfd, wfd);
      ok := true;
    }

    /** A slot that holds nothing counted is given something else that is not. */
    method SetPlain(p: nat, i: nat, f: File)
      requires Valid() && p < |tables| && i < MAX_OPEN_FILES && |tables[p]| == MAX_OPEN_FILES
      requires tables[p][i] in {NoFile, Console} && f in {NoFile, Console}
      modifies `tables
      ensures Valid() && |tables| == |old(tables)| && tables == old(tables)[p := old(tables)[p][i := f]]
    {
      hide Inv;
      Uncounted(multiset{}, f);
      SetSlot(p, i, f, multiset{});
    }

    method FillPipe(p: nat, rfd: nat, wfd: nat)
      requires Valid() && p < |tables| && |tables[p]| == MAX_OPEN_FILES && rfd < MAX_OPEN_FILES && wfd < MAX_OPEN_FILES
        && rfd != wfd
      requires tables[p][rfd] == Console && tables[p][wfd] == NoFile
      modifies `things, `refs, `tables
      ensures Valid() && |things| == |old(things)| + 1
      ensures var id := |old(things)|;
        tables == old(tables)[p := old(tables)[p][rfd := PipeEnd(id, false)][wfd := PipeEnd(id, true)]]
    {
      hide Inv, Balanced;
      var id := PipeCreate();
      SetSlot(p, rfd, PipeEnd(id, false), multiset{PipeEnd(id, true)});
      assert multiset{PipeEnd(id, true)} == multiset{} + multiset{PipeEnd(id, true)};
      SetSlot(p, wfd, PipeEnd(id, true), multiset{});
    }

    /** pipe_create: one reader and one writer. */
    method PipeCreate() returns (id: nat)
      requires Valid()
      modifies `things, `refs
      ensures Inv(multiset{PipeEnd(id, true)} + multiset{PipeEnd(id, false)}) && id == |old(things)|
        && |things| == id + 1
    {
      id := |things|;
      NewPipe(refs, things, conns, queues, Held() + multiset{});
      things, refs := things + [APipe(0)], refs[PipeEnd(id, false) := 1][PipeEnd(id, true) := 1];
      ghost var x := multiset{PipeEnd(id, true)} + multiset{PipeEnd(id, false)};
      assert Held() + multiset{} + x == Held() + x;
    }

    /** socket_connect, and the descriptor for it: the far end waits to be accepted, unless too
        many are waiting already. */
    method Connect(p: nat) returns (fd: int)
      requires Valid() && p < |tables|
      modifies this
      ensures Valid() && View() == AfterConnect(old(View()), p)
      ensures fd == if |old(backlog)| == SOCK_BACKLOG then EBUSY else FreeSlot(old(tables)[p])
    {
      hide Inv, Names;
      ValidShapes();
      if |backlog| >= SOCK_BACKLOG {
        return EBUSY;
      }
      var mine := ConnCreate();
      fd := InstallOrDrop(p, mine, multiset{});
    }

    method ConnCreate() returns (mine: File)
      requires Valid() && |backlog| < SOCK_BACKLOG
      modifies `conns, `queues, `refs, `backlog
      ensures Inv(multiset{} + multiset{mine}) && |conns| == |old(conns)| + 1 && mine == Endpoint(|old(conns)|, 0)
      ensures queues == old(queues) + [[]] + [[]] && backlog == old(backlog) + [Endpoint(|old(conns)|, 1)]
    {
      hide Balanced, AllKnown, ThingsOk, ConnsOk, Total;
      mine := Endpoint(|conns|, 0);
      var theirs := Endpoint(|conns|, 1);
      NewConn(refs, things, conns, queues, Held() + multiset{});
      TotalSnoc(queues, []);
      TotalSnoc(queues + [[]], []);
      ghost var h := Held();
      conns, queues := conns + [Conn([false, false], 2, 0)], queues + [[]] + [[]];
      refs := refs[mine := 1][theirs := 1];
      backlog := backlog + [theirs];
      assert Held() + (multiset{} + multiset{mine}) == h + multiset{} + (multiset{theirs} + multiset{mine});
    }

    /** socket_accept, and the descriptor for it; with nothing waiting it would wait. */
    method Accept(p: nat) returns (fd: int)
      requires Valid() && p < |tables|
      modifies this
      ensures Valid() && View() == AfterAccept(old(View()), p) && fd == if old(backlog) == [] then -1
        else FreeSlot(old(tables)[p])
    {
      if backlog == [] {
        return -1;
      }
      var f := backlog[0];
      ghost var a := Held() + multiset{};
      assert backlog == [f] + backlog[1..];
      assert multiset(backlog) == multiset(backlog[1..]) + multiset{f};
      backlog := backlog[1..];
      assert a == Held() + (multiset{} + multiset{f});
      hide Inv, Names;
      fd := InstallOrDrop(p, f, multiset{});
    }

    /** A new process: console descriptors, then its parent's standard ones. */
    method Spawn(parent: nat)
      requires Valid() && parent < |tables|
      modifies `tables, `refs
      ensures Valid() && View() == AfterSpawn(old(View()), parent)
    {
      hide Inv, Held, Counted;
      ValidShapes();
      ghost var ts := tables;
      var child := |tables|;
      NewTable();
      for k := 0 to 3
        invariant Valid() && |tables| == child + 1 && tables[..child] == ts && Inherited(ts[parent], tables[child], k)
      {
        assert tables[parent] == tables[..child][parent];
        InheritOne(child, k, parent);
      }
      assert tables[child] == Child(ts[parent]);
      assert tables == ts + [tables[child]];
    }

    method InheritOne(child: nat, k: nat, parent: nat)
      requires Valid() && parent < |tables| && |tables[parent]| == MAX_OPEN_FILES && k < MAX_OPEN_FILES
      requires child < |tables| && |tables[child]| == MAX_OPEN_FILES && tables[child][k] == Console
      modifies `tables, `refs
      ensures Valid() && |tables| == |old(tables)|
        && tables == old(tables)[child := old(tables)[child][k := old(tables)[parent][k]]]
    {
      hide Balanced, AllKnown, ThingsOk, ConnsOk, Total, NoEndpoints;
      var f := tables[parent][k];
      SlotHeld(parent, k);
      assert f in Held() + multiset{};
      Retain(f, multiset{});
      SetSlot(child, k, f, multiset{});
    }

    method NewTable()
      requires Valid()
      modifies `tables
      ensures Valid() && tables == old(tables) + [FreshTable()]
    {
      hide Balanced, AllKnown, ThingsOk, ConnsOk, Total, NoEndpoints;
      ghost var a := Held() + multiset{};
      TotalSnoc(tables, FreshTable());
      ghost var t, t' := Total(tables), Total(tables + [FreshTable()]);
      tables := tables + [FreshTable()];
      forall g | Counted(g) ensures (Held() + multiset{})[g] == a[g] {
        assert g !in FreshTable();
        assert multiset(FreshTable())[g] == 0;
        assert t'[g] == t[g];
      }
      SameCounted(refs, things, conns, a, Held() + multiset{});
    }
  }

  /** vfs_init_fds: the console three times, and nothing else. */
  function FreshTable(): (t: seq<File>)
    ensures |t| == MAX_OPEN_FILES && forall i :: 0 <= i < |t| ==> t[i] == if i < 3 then Console else NoFile
  {
    seq(MAX_OPEN_FILES, i => if i < 3 then Console else NoFile)
  }

  lemma NewShared(refs: Refs, things: seq<Thing>, conns: seq<Conn>, queues: seq<seq<File>>, held: multiset<File>)
    requires Balanced(refs, held) && AllKnown(things, conns, held) && ThingsOk(refs, things)
      && ConnsOk(refs, conns, queues, -1)
    ensures var f, things' := Shared(|things|), things + [AShared(0)];
      var refs' := refs[f := 1];
      && Balanced(refs', held + multiset{f}) && AllKnown(things', conns, held + multiset{f})
      && ThingsOk(refs', things') && ConnsOk(refs', conns, queues, -1)
  {
    var f, things' := Shared(|things|), things + [AShared(0)];
    var refs' := refs[f := 1];
    assert !Known(things, conns, f) && f !in held;
    forall id | 0 <= id < |things'| ensures ThingOk(refs', things', id) {
      if id < |things| { assert ThingOk(refs, things, id); }
    }
    forall c | 0 <= c < |conns| ensures ConnOk(refs', conns, queues, c) { assert ConnOk(refs, conns, queues, c); }
  }

  lemma NewPipe(refs: Refs, things: seq<Thing>, conns: seq<Conn>, queues: seq<seq<File>>, held: multiset<File>)
    requires Balanced(refs, held) && AllKnown(things, conns, held) && ThingsOk(refs, things)
      && ConnsOk(refs, conns, queues, -1)
    ensures var id, things' := |things|, things + [APipe(0)];
      var refs', x := refs[PipeEnd(id, false) := 1][PipeEnd(id, true) := 1],
        multiset{PipeEnd(id, true)} + multiset{PipeEnd(id, false)};
      && Balanced(refs', held + x) && AllKnown(things', conns, held + x)
      && ThingsOk(refs', things') && ConnsOk(refs', conns, queues, -1)
  {
    var id, things' := |things|, things + [APipe(0)];
    var refs' := refs[PipeEnd(id, false) := 1][PipeEnd(id, true) := 1];
    assert !Known(things, conns, PipeEnd(id, false)) && !Known(things, conns, PipeEnd(id, true));
    forall i | 0 <= i < |things'| ensures ThingOk(refs', things', i) {
      if i < |things| { assert ThingOk(refs, things, i); }
    }
    forall c | 0 <= c < |conns| ensures ConnOk(refs', conns, queues, c) { assert ConnOk(refs, conns, queues, c); }
  }

  lemma NewConn(refs: Refs, things: seq<Thing>, conns: seq<Conn>, queues: seq<seq<File>>, held: multiset<File>)
    requires Balanced(refs, held) && AllKnown(things, conns, held) && ThingsOk(refs, things)
      && ConnsOk(refs, conns, queues, -1)
    ensures var c, conns' := |conns|, conns + [Conn([false, false], 2, 0)];
      var refs', x := refs[Endpoint(c, 0) := 1][Endpoint(c, 1) := 1],
        multiset{Endpoint(c, 1)} + multiset{Endpoint(c, 0)};
      && Balanced(refs', held + x) && AllKnown(things, conns', held + x)
      && ThingsOk(refs', things) && ConnsOk(refs', conns', queues + [[]] + [[]], -1)
  {
    var n, conns' := |conns|, conns + [Conn([false, false], 2, 0)];
    var refs', queues' := refs[Endpoint(n, 0) := 1][Endpoint(n, 1) := 1], queues + [[]] + [[]];
    assert !Known(things, conns, Endpoint(n, 0)) && !Known(things, conns, Endpoint(n, 1));
    forall id | 0 <= id < |things| ensures ThingOk(refs', things, id) { assert ThingOk(refs, things, id); }
    forall c | 0 <= c < |conns'| ensures ConnOk(refs', conns', queues', c) {
      if c < n { assert ConnOk(refs, conns, queues, c); }
    }
  }

  /** What the invariant says of a connection: it is freed once when no descriptor names
      either end, with nothing left queued, and not before. */
  lemma ConnectionFreedOnce(w: World, c: nat)
    requires w.Valid() && c < |w.conns|
    ensures var gone := Endpoint(c, 0) !in w.Held() && Endpoint(c, 1) !in w.Held();
      && w.conns[c].freed == Once(gone)
      && |w.queues| == 2 * |w.conns| && (gone ==> w.queues[2 * c] == [] && w.queues[2 * c + 1] == [])
  {
    assert ConnOk(w.refs, w.conns, w.queues, c);
    assert forall s :: RefOf(w.refs, Endpoint(c, s)) == (w.Held() + multiset{})[Endpoint(c, s)];
    assert w.Held() + multiset{} == w.Held();
  }

  /** And of a pipe: it is freed once, when neither end has a descriptor anywhere. */
  lemma PipeFreedOnce(w: World, id: nat)
    requires w.Valid() && id < |w.things| && w.things[id].APipe?
    ensures w.things[id].freed == Once(PipeEnd(id, false) !in w.Held() && PipeEnd(id, true) !in w.Held())
  {
    assert ThingOk(w.refs, w.things, id);
    assert forall b :: RefOf(w.refs, PipeEnd(id, b)) == (w.Held() + multiset{})[PipeEnd(id, b)];
    assert w.Held() + multiset{} == w.Held();
  }

  /* ---- every run ---- */

  datatype Event =
    | OpenPipe(p: nat) | OpenShared(p: nat) | DoConnect(p: nat) | DoAccept(p: nat) | DoSpawn(p: nat)
    | DoSend(p: nat, fd: int, nums: seq<int>) | DoReceive(p: nat, fd: int, due: nat) | DoClose(p: nat, fd: int)

  /** What an event makes of who names what, by a process there is.  Sends of sockets are passed
      over. */
  ghost function Happens(h: Holding, e: Event): Holding
  {
    if e.p >= |h.tables| then h
    else match e
      case OpenPipe(p) => AfterPipe(h, p)
      case OpenShared(p) => AfterShared(h, p)
      case DoConnect(p) => AfterConnect(h, p)
      case DoAccept(p) => AfterAccept(h, p)
      case DoSpawn(p) => AfterSpawn(h, p)
      case DoSend(p, fd, nums) => if PlainFiles(h.tables[p], nums) then AfterSend(h, p, fd, nums) else h
      case DoReceive(p, fd, due) => AfterReceive(h, p, fd, due)
      case DoClose(p, fd) => AfterClose(h, p, fd)
  }

  predicate PlainFiles(t: seq<File>, nums: seq<int>) { forall j :: 0 <= j < |nums| ==> !Entry(t, nums[j]).Endpoint? }

  ghost predicate Unfolds(hs: seq<Holding>, events: seq<Event>)
  {
    0 < |hs| <= |events| + 1 && forall k :: 0 <= k < |hs| - 1 ==> hs[k + 1] == Happens(hs[k], events[k])
  }

  /** Through any run, counting references does what looking for names would do: an end closes
      exactly when nothing names it, and what is queued is then let go.  Every count is right,
      nothing is freed while it is referred to or left when it is not, nothing is freed twice. */
  method RunEvents(w: World, events: seq<Event>) returns (ghost hs: seq<Holding>)
    requires w.Valid()
    modifies w
    ensures w.Valid() && Unfolds(hs, events) && |hs| == |events| + 1 && hs[0] == old(w.View())
      && hs[|events|] == w.View()
  {
    hide World.Inv, Happens;
    hs := [w.View()];
    for i := 0 to |events|
      invariant w.Valid() && Unfolds(hs, events) && |hs| == i + 1 && hs[0] == old(w.View()) && hs[i] == w.View()
    {
      Happen(w, events[i]);
      hs := hs + [w.View()];
    }
  }

  method Happen(w: World, e: Event)
    requires w.Valid()
    modifies w
    ensures w.Valid() && w.View() == Happens(old(w.View()), e)
  {
    hide World.Inv, AfterPipe, AfterShared, AfterConnect, AfterAccept, AfterSpawn, AfterSend, AfterReceive, AfterClose;
    if e.p < |w.tables| {
      match e {
        case OpenPipe(p) => var _ := w.MakePipe(p);
        case OpenShared(p) => var _ := w.MakeShared(p);
        case DoConnect(p) => var _ := w.Connect(p);
        case DoAccept(p) => var _ := w.Accept(p);
        case DoSpawn(p) => w.Spawn(p);
        case DoSend(p, fd, nums) => if PlainFiles(w.tables[p], nums) { var _ := w.Send(p, fd, nums); }
        case DoReceive(p, fd, due) => var _ := w.Receive(p, fd, due);
        case DoClose(p, fd) => var _ := w.Close(p, fd);
      }
    }
  }

  datatype Sent = Queued | BadFd | TooMany | PeerGone | Blocked

  lemma SwapQueue(t: multiset<File>, q: multiset<File>, q': multiset<File>, b: multiset<File>, s: multiset<File>,
    f: File)
    requires q' + s == q + (s + multiset{f})
    ensures forall g :: Counted(g) ==> (t + q' + b + multiset{})[g] == (t + q + b + (multiset{} + multiset{f}))[g]
  {
    forall g | Counted(g) ensures (t + q' + b + multiset{})[g] == (t + q + b + (multiset{} + multiset{f}))[g] {
      assert (q' + s)[g] == (q + (s + multiset{f}))[g];
    }
  }

  lemma LongerQueue(refs: Refs, conns: seq<Conn>, queues: seq<seq<File>>, q: nat, f: File)
    requires ConnsOk(refs, conns, queues, -1) && q < |queues| && q / 2 < |conns|
    requires |conns[q / 2].closed| == 2 && !conns[q / 2].closed[q % 2]
    ensures ConnsOk(refs, conns, queues[q := queues[q] + [f]], -1)
  {
    hide RefOf;
    var qs := queues[q := queues[q] + [f]];
    forall c | 0 <= c < |conns| ensures ConnOk(refs, conns, qs, c) { assert ConnOk(refs, conns, queues, c); }
  }

  /** One more of `f` and one less of `was`. */
  lemma MovedIn(t: multiset<File>, t': multiset<File>, s: multiset<File>, s': multiset<File>, was: File, f: File)
    requires t' + s == t + s' && s' + multiset{was} == s + multiset{f}
    ensures t' + multiset{was} == t + multiset{f}
  {
    forall g ensures (t' + multiset{was})[g] == (t + multiset{f})[g] {
      assert (t' + s)[g] == (t + s')[g] && (s' + multiset{was})[g] == (s + multiset{f})[g];
    }
  }

  lemma SwapCounted(t: multiset<File>, t': multiset<File>, q: multiset<File>, b: multiset<File>, x: multiset<File>,
    was: File, f: File)
    requires t' + multiset{was} == t + multiset{f} && !Counted(was)
    ensures forall g :: Counted(g) ==> (t' + q + b + x)[g] == (t + q + b + (x + multiset{f}))[g]
  {
    forall g | Counted(g) ensures (t' + q + b + x)[g] == (t + q + b + (x + multiset{f}))[g] {
      assert (t' + multiset{was})[g] == (t + multiset{f})[g];
    }
  }

  /** Holdings that differ only in files that are not counted. */
  lemma SameCounted(refs: Refs, things: seq<Thing>, conns: seq<Conn>, a: multiset<File>, b: multiset<File>)
    requires Balanced(refs, a) && AllKnown(things, conns, a) && forall g :: Counted(g) ==> b[g] == a[g]
    ensures Balanced(refs, b) && AllKnown(things, conns, b)
  {
    forall g | g in b ensures Known(things, conns, g) {
      if Counted(g) { assert b[g] == a[g] && g in a; }
    }
  }

  lemma ConnsBut(refs: Refs, conns: seq<Conn>, queues: seq<seq<File>>, c: nat, k: Conn)
    requires ConnsOk(refs, conns, queues, c) && c < |conns|
    ensures ConnsOk(refs, conns[c := k], queues, c)
  {
    var ks := conns[c := k];
    forall d | 0 <= d < |conns| && d != c ensures ConnOk(refs, ks, queues, d) { assert ConnOk(refs, conns, queues, d); }
  }

  lemma KnownSame(things: seq<Thing>, conns: seq<Conn>, conns': seq<Conn>, held: multiset<File>)
    requires AllKnown(things, conns, held) && |conns'| == |conns|
    ensures AllKnown(things, conns', held)
  {
  }

  lemma OpenEnd(refs: Refs, conns: seq<Conn>, queues: seq<seq<File>>, c: nat, side: nat)
    requires ConnsOk(refs, conns, queues, -1) && c < |conns| && side < 2 && RefOf(refs, Endpoint(c, side)) > 0
    ensures var k := conns[c];
      && |k.closed| == 2 && !k.closed[side] && (k.closed[1 - side] <==> RefOf(refs, Endpoint(c, 1 - side)) == 0)
      && k.refs == 1 + Once(!k.closed[1 - side]) && k.freed == 0
  {
    assert ConnOk(refs, conns, queues, c);
  }

  lemma SameSum(t: multiset<File>, b: multiset<File>, x: multiset<File>, q: multiset<File>, q': multiset<File>,
    rest: multiset<File>, f: File)
    requires q' + (multiset{f} + rest) == q + rest
    ensures t + q' + b + (x + multiset{f}) == t + q + b + x
  {
    forall g ensures q'[g] + multiset{f}[g] == q[g] {
      assert (q' + (multiset{f} + rest))[g] == (q + rest)[g];
    }
    assert q' + multiset{f} == q;
    assert t + q' + b + (x + multiset{f}) == t + (q' + multiset{f}) + b + x;
  }

  /** Shortening a queue of a connection that is still open, or of the one being closed. */
  lemma ConnsOkQueue(refs: Refs, conns: seq<Conn>, queues: seq<seq<File>>, q: nat, s: seq<File>, but: int)
    requires ConnsOk(refs, conns, queues, but) && q < |queues| && queues[q] != [] && (but == -1 || q / 2 == but)
    ensures ConnsOk(refs, conns, queues[q := s], but)
  {
    hide RefOf;
    var qs := queues[q := s];
    forall c | 0 <= c < |conns| && c != but ensures ConnOk(refs, conns, qs, c) {
      assert ConnOk(refs, conns, queues, c);
    }
  }

  /** Losing a reference to an end changes nothing but that end. */
  lemma EndpointDown(refs: Refs, things: seq<Thing>, conns: seq<Conn>, queues: seq<seq<File>>, c: nat, side: nat)
    requires ThingsOk(refs, things) && ConnsOk(refs, conns, queues, -1) && c < |conns| && side < 2
    requires RefOf(refs, Endpoint(c, side)) > 0
    ensures var refs' := Add(refs, Endpoint(c, side), -1);
      && ThingsOk(refs', things) && ConnsOk(refs', conns, queues, c)
      && (RefOf(refs', Endpoint(c, side)) > 0 ==> ConnsOk(refs', conns, queues, -1))
  {
    var refs' := Add(refs, Endpoint(c, side), -1);
    forall id | 0 <= id < |things| ensures ThingOk(refs', things, id) { assert ThingOk(refs, things, id); }
    forall d | 0 <= d < |conns| && d != c ensures ConnOk(refs', conns, queues, d) {
      assert ConnOk(refs, conns, queues, d);
    }
    if RefOf(refs', Endpoint(c, side)) > 0 {
      assert ConnOk(refs, conns, queues, c); assert ConnOk(refs', conns, queues, c);
    }
  }

  /** A connection one end of which has closed, its queues empty. */
  lemma EndClosed(refs: Refs, conns: seq<Conn>, conns': seq<Conn>, queues: seq<seq<File>>, c: nat, k: Conn)
    requires ConnsOk(refs, conns, queues, c) && c < |conns| && conns' == conns[c := k]
    requires ConnOk(refs, conns', queues, c)
    ensures ConnsOk(refs, conns', queues, -1)
  {
    forall d | 0 <= d < |conns| && d != c ensures ConnOk(refs, conns', queues, d) {
      assert ConnOk(refs, conns, queues, d);
    }
  }

  /* ---- who is let in first ---- */

  /** The ends that wait are those of different connections, in the order they were made. */
  ghost predicate InOrder(h: Holding)
  {
    && (forall f <- h.backlog :: f.Endpoint? && f.side == 1 && f.conn < h.conns)
    && forall i, j :: 0 <= i < j < |h.backlog| ==> h.backlog[i].conn < h.backlog[j].conn
  }

  /** So the one that is let in was made before all that go on waiting. */
  lemma OldestFirst(h: Holding, p: nat)
    requires InOrder(h) && p < |h.tables| && h.backlog != []
    ensures AfterAccept(h, p) == Placed(h.(backlog := AfterAccept(h, p).backlog), p, h.backlog[0], multiset{})
    ensures h.backlog == [h.backlog[0]] + AfterAccept(h, p).backlog
    ensures forall f <- AfterAccept(h, p).backlog :: f.Endpoint? && h.backlog[0].conn < f.conn
  {
    PlacedWaits(h.(backlog := h.backlog[1..]), p, h.backlog[0]);
    forall f <- h.backlog[1..] ensures f.Endpoint? && h.backlog[0].conn < f.conn {
      var j :| 0 <= j < |h.backlog[1..]| && h.backlog[1..][j] == f;
      assert h.backlog[j + 1] == f;
    }
  }

  lemma PlacedWaits(h: Holding, p: nat, f: File)
    requires p < |h.tables|
    ensures Placed(h, p, f, multiset{}).backlog == h.backlog && Placed(h, p, f, multiset{}).conns == h.conns
  {
    hide Names;
  }

  lemma OrderKept(h: Holding, e: Event)
    requires InOrder(h)
    ensures InOrder(Happens(h, e))
  {
    hide Names, Placed, SendAnswer, FreeSlot, Filled;
    if e.p < |h.tables| {
      match e
      case DoConnect(p) =>
        if |h.backlog| < SOCK_BACKLOG {
          var c := h.conns;
          PlacedWaits(h.(conns := c + 1, queues := h.queues + [[]] + [[]], backlog := h.backlog + [Endpoint(c, 1)]), p,
            Endpoint(c, 0));
        }
      case DoAccept(p) => if h.backlog != [] { PlacedWaits(h.(backlog := h.backlog[1..]), p, h.backlog[0]); }
      case OpenShared(p) => PlacedWaits(h.(things := h.things + 1), p, Shared(h.things));
      case _ =>
    }
  }

  /** In every state of a run that starts with nobody waiting. */
  lemma {:induction false} WaitInOrder(hs: seq<Holding>, events: seq<Event>, k: nat)
    requires Unfolds(hs, events) && k < |hs| && InOrder(hs[0])
    ensures InOrder(hs[k])
    decreases k
  {
    hide Happens, InOrder;
    if k > 0 {
      WaitInOrder(hs, events, k - 1);
      OrderKept(hs[k - 1], events[k - 1]);
      assert hs[k - 1 + 1] == Happens(hs[k - 1], events[k - 1]);
    }
  }
}
