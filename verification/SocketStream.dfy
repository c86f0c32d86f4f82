/** One direction of a local socket connection (kernel/fs/socket.c): bytes in a ring, and
    descriptors pinned to the place in the stream where their message ends. */
module SocketStream {
  import opened Rings

  const SOCK_CAP: nat := 4096
  const SOCK_FD_CAP: nat := 28

  type Byte = b: int | 0 <= b < 256

  /** A descriptor: what it is of does not matter here. */
  type File = nat

  datatype Slot = Slot(file: File, at: nat)

  datatype Msg = Msg(bytes: seq<Byte>, files: seq<File>)

  /* ---- what a list of messages puts in the stream ---- */

  function Bytes(log: seq<Msg>): seq<Byte>
  {
    if log == [] then [] else Bytes(log[..|log| - 1]) + log[|log| - 1].bytes
  }

  function Pinned(files: seq<File>, at: nat): (r: seq<Slot>)
    ensures |r| == |files| && forall k :: 0 <= k < |r| ==> r[k] == Slot(files[k], at)
  {
    seq(|files|, k requires 0 <= k < |files| => Slot(files[k], at))
  }

  /** The descriptors of the messages in order, each pinned to the end of its message. */
  function Slots(log: seq<Msg>): seq<Slot>
  {
    if log == [] then [] else Slots(log[..|log| - 1]) + Pinned(log[|log| - 1].files, |Bytes(log)|)
  }

  lemma LogSnoc(log: seq<Msg>, m: Msg)
    ensures Bytes(log + [m]) == Bytes(log) + m.bytes
    ensures Slots(log + [m]) == Slots(log) + Pinned(m.files, |Bytes(log)| + |m.bytes|)
  {
    assert (log + [m])[..|log|] == log;
  }

  /** Descriptor `k` of the stream is of message `j`: it comes after those of the messages
      before, and is pinned to where the bytes of that message end. */
  lemma {:induction false} SlotOfMessage(log: seq<Msg>, j: nat, k: nat)
    requires j < |log| && k < |log[j].files|
    ensures var i := |Slots(log[..j])| + k;
      i < |Slots(log)| && Slots(log)[i] == Slot(log[j].files[k], |Bytes(log[..j + 1])|)
  {
    hide Bytes, Pinned, Slots;
    var n := |log| - 1;
    SlotsLast(log);
    if j == n {
      assert log[..j + 1] == log;
    } else {
      SlotOfMessage(log[..n], j, k);
      assert log[..n][..j] == log[..j] && log[..n][..j + 1] == log[..j + 1];
    }
  }

  lemma SlotsLast(log: seq<Msg>)
    requires log != []
    ensures var n := |log| - 1;
      && Slots(log) == Slots(log[..n]) + Pinned(log[n].files, |Bytes(log)|)
      && |Slots(log)| == |Slots(log[..n])| + |log[n].files|
      && forall k :: 0 <= k < |log[n].files| ==>
           Slots(log)[|Slots(log[..n])| + k] == Slot(log[n].files[k], |Bytes(log)|)
  {
  }

  /* ---- the stream as a value ---- */

  /** Of the bytes of the messages, `written` are in and `read` out, and `bq` is between; of
      their descriptors, `taken` have left the queue and `fq` are in it; and of those taken
      the first `handed` were given to the receiver, none before its message was read. */
  ghost predicate Streams(log: seq<Msg>, written: nat, read: nat, bq: seq<Byte>, taken: nat, handed: nat, fq: seq<Slot>)
  {
    && read <= written <= |Bytes(log)| && bq == Bytes(log)[read..written]
    && handed <= taken <= |Slots(log)| && fq == Slots(log)[taken..]
    && forall k :: 0 <= k < handed ==> Slots(log)[k].at <= read
  }

  lemma StreamsBegin(log: seq<Msg>, written: nat, read: nat, bq: seq<Byte>, taken: nat, handed: nat, fq: seq<Slot>,
    m: Msg)
    requires Streams(log, written, read, bq, taken, handed, fq) && written == |Bytes(log)|
    ensures Streams(log + [m], written, read, bq, taken, handed, fq + Pinned(m.files, written + |m.bytes|))
  {
    LogSnoc(log, m);
    hide Bytes, Slots, Pinned;
    var s, t := Slots(log), Slots(log + [m]);
    assert t[taken..] == s[taken..] + Pinned(m.files, written + |m.bytes|);
    assert Bytes(log + [m])[read..written] == Bytes(log)[read..written];
    assert forall k :: 0 <= k < handed ==> t[k] == s[k];
  }

  lemma StreamsWrite(log: seq<Msg>, written: nat, read: nat, bq: seq<Byte>, taken: nat, handed: nat, fq: seq<Slot>,
    b: Byte)
    requires Streams(log, written, read, bq, taken, handed, fq) && written < |Bytes(log)| && b == Bytes(log)[written]
    ensures Streams(log, written + 1, read, bq + [b], taken, handed, fq)
  {
    hide Bytes, Slots;
  }

  lemma StreamsRead(log: seq<Msg>, written: nat, read: nat, bq: seq<Byte>, taken: nat, handed: nat, fq: seq<Slot>)
    requires Streams(log, written, read, bq, taken, handed, fq) && bq != []
    ensures bq[0] == Bytes(log)[read] && Streams(log, written, read + 1, bq[1..], taken, handed, fq)
  {
    hide Bytes, Slots;
  }

  lemma StreamsHand(log: seq<Msg>, written: nat, read: nat, bq: seq<Byte>, taken: nat, fq: seq<Slot>)
    requires Streams(log, written, read, bq, taken, taken, fq) && fq != [] && fq[0].at <= read
    ensures fq[0] == Slots(log)[taken] && Streams(log, written, read, bq, taken + 1, taken + 1, fq[1..])
  {
    hide Bytes, Slots;
  }

  lemma StreamsDrop(log: seq<Msg>, written: nat, read: nat, bq: seq<Byte>, taken: nat, handed: nat, fq: seq<Slot>)
    requires Streams(log, written, read, bq, taken, handed, fq) && fq != []
    ensures Streams(log, written, read, bq, taken + 1, handed, fq[1..])
  {
    hide Bytes, Slots;
  }

  function Least(a: nat, b: nat): nat { if a < b then a else b }

  function Names(slots: seq<Slot>): (r: seq<File>)
    ensures |r| == |slots| && forall k :: 0 <= k < |r| ==> r[k] == slots[k].file
  {
    seq(|slots|, k requires 0 <= k < |slots| => slots[k].file)
  }

  /** How many at the front of a queue are due, up to a number. */
  function DueCount(fq: seq<Slot>, read: nat, want: nat): (n: nat)
    ensures n <= |fq| && n <= want
    decreases want
  {
    if want == 0 || fq == [] || fq[0].at > read then 0 else 1 + DueCount(fq[1..], read, want - 1)
  }

  lemma NextDue(q: seq<Slot>, n: nat, read: nat, want: nat)
    requires n < |q| && n < want && q[n].at <= read
    ensures Names(q[..n + 1]) == Names(q[..n]) + [q[n].file] && q[n..][1..] == q[n + 1..] && q[n..][0] == q[n]
    ensures DueCount(q[n..], read, want - n) == 1 + DueCount(q[n + 1..], read, want - (n + 1))
  {
    assert q[n..][1..] == q[n + 1..];
  }

  lemma NoneDue(q: seq<Slot>, read: nat, want: nat)
    requires want == 0 || q == [] || q[0].at > read
    ensures DueCount(q, read, want) == 0
  {
  }

  predicate Due(file: File, slot: Slot, read: nat) { file == slot.file && slot.at <= read }

  /** `files` are the descriptors from number `from` on, and the messages of all of them
      have been read to the end. */
  ghost predicate HandedOver(slots: seq<Slot>, from: nat, files: seq<File>, read: nat)
  {
    from + |files| <= |slots| && forall k :: 0 <= k < |files| ==> Due(files[k], slots[from + k], read)
  }

  class Direction {
    const buf: array<Byte>
    var head: nat
    var tail: nat
    var count: nat
    var written: nat
    var read: nat
    const fds: array<Slot>
    var fdHead: nat
    var fdTail: nat
    var fdCount: nat
    var senderGone: bool
    var receiverGone: bool

    ghost var log: seq<Msg>            // every message begun
    ghost var taken: nat               // descriptors that have left the queue
    ghost var handed: nat              // of those, the ones the receiver was given
    ghost var bq: seq<Byte>            // what the rings hold
    ghost var fq: seq<Slot>

    ghost predicate ByteRing()
      reads `head, `tail, `count, `bq, buf
    {
      && buf.Length == SOCK_CAP && count == |bq| && Holds(buf[..], tail, bq)
      && head == if count < SOCK_CAP then Place(SOCK_CAP, tail, count) else tail
    }

    ghost predicate FdRing()
      reads `fdHead, `fdTail, `fdCount, `fq, fds
    {
      && fds.Length == SOCK_FD_CAP && fdCount == |fq| && Holds(fds[..], fdTail, fq)
      && fdHead == if fdCount < SOCK_FD_CAP then Place(SOCK_FD_CAP, fdTail, fdCount) else fdTail
    }

    ghost predicate Valid()
      reads this, buf, fds
    {
      && ByteRing() && FdRing()
      && (!receiverGone ==>
            Streams(log, written, read, bq, taken, handed, fq) && (handed == taken || (senderGone && fdCount == 0)))
    }

    /** The message being sent has been written out. */
    ghost predicate Quiet()
      reads `written, `log
    {
      written == |Bytes(log)|
    }

    constructor ()
      ensures Valid() && Quiet() && log == [] && bq == [] && fq == [] && handed == taken == 0 && written == read == 0
      ensures !senderGone && !receiverGone
      ensures fresh(buf) && fresh(fds)
    {
      buf := new Byte[SOCK_CAP](i => 0);
      fds := new Slot[SOCK_FD_CAP](i => Slot(0, 0));
      head, tail, count, written, read := 0, 0, 0, 0, 0;
      fdHead, fdTail, fdCount, senderGone, receiverGone := 0, 0, 0, false, false;
      log, taken, handed, bq, fq := [], 0, 0, [], [];
      hide Streams, Bytes, Slots;
      StreamsEmpty();
    }

    method PushByte(b: Byte)
      requires ByteRing() && count < SOCK_CAP
      modifies `head, `count, `bq, buf
      ensures ByteRing() && bq == old(bq) + [b]
    {
      Pushed(buf[..], tail, bq, b);
      HeadMoves(SOCK_CAP, tail, count);
      ghost var was := buf[..];
      buf[head] := b;
      assert buf[..] == was[head := b];
      head := (head + 1) % SOCK_CAP;
      count := count + 1;
      bq := bq + [b];
    }

    method PopByte() returns (b: Byte)
      requires ByteRing() && count > 0
      modifies `tail, `count, `bq
      ensures ByteRing() && b == old(bq)[0] && bq == old(bq)[1..]
    {
      Popped(buf[..], tail, bq);
      b := buf[tail];
      tail := (tail + 1) % SOCK_CAP;
      count := count - 1;
      bq := bq[1..];
    }

    method PushFd(s: Slot)
      requires FdRing() && fdCount < SOCK_FD_CAP
      modifies `fdHead, `fdCount, `fq, fds
      ensures FdRing() && fq == old(fq) + [s]
    {
      Pushed(fds[..], fdTail, fq, s);
      HeadMoves(SOCK_FD_CAP, fdTail, fdCount);
      ghost var was := fds[..];
      fds[fdHead] := s;
      assert fds[..] == was[fdHead := s];
      fdHead := (fdHead + 1) % SOCK_FD_CAP;
      fdCount := fdCount + 1;
      fq := fq + [s];
    }

    method PopFd() returns (s: Slot)
      requires FdRing() && fdCount > 0
      modifies `fdTail, `fdCount, `fq
      ensures FdRing() && s == old(fq)[0] && fq == old(fq)[1..]
    {
      hide Holds;
      FdRingFacts();
      Popped(fds[..], fdTail, fq);
      s := fds[fdTail];
      fdTail := (fdTail + 1) % SOCK_FD_CAP;
      fdCount := fdCount - 1;
      fq := fq[1..];
    }

    /** A message begins: its descriptors are queued, all of them, pinned to its end; even
        if there is nobody left to receive them. */
    method Begin(msg: Msg)
      requires Valid() && (receiverGone || Quiet()) && SOCK_FD_CAP - fdCount >= |msg.files| && !senderGone
      modifies `fdHead, `fdCount, `fq, `log, fds
      ensures Valid() && log == if receiverGone then old(log) else old(log) + [msg]
      ensures fq == old(fq) + Pinned(msg.files, written + |msg.bytes|)
    {
      hide Streams, ByteRing, Slots, Bytes;
      ghost var slots := Pinned(msg.files, written + |msg.bytes|);
      var i := 0;
      while i < |msg.files|
        invariant i <= |msg.files| && FdRing() && fq == old(fq) + slots[..i] && log == old(log)
      {
        PushFd(Slot(msg.files[i], written + |msg.bytes|));
        i := i + 1;
      }
      assert slots[..i] == slots;
      if !receiverGone {
        StreamsBegin(log, written, read, bq, taken, handed, old(fq), msg);
        log := log + [msg];
      }
    }

    /** As many of the message's bytes as there is room for, from number `from` on. */
    method Fill(msg: Msg, from: nat) returns (n: nat)
      requires Valid() && !receiverGone && log != [] && log[|log| - 1] == msg && from <= |msg.bytes|
      requires written == |Bytes(log)| - (|msg.bytes| - from)
      modifies `head, `count, `bq, `written, buf
      ensures Valid() && from <= n <= |msg.bytes| && written == |Bytes(log)| - (|msg.bytes| - n)
      ensures bq == old(bq) + msg.bytes[from..n] && |bq| <= SOCK_CAP && (n == |msg.bytes| || |bq| == SOCK_CAP)
    {
      hide Streams, FdRing, ByteRing, Slots, Bytes, Holds;
      n := from;
      ByteRingFits();
      while n < |msg.bytes| && count < SOCK_CAP
        invariant Valid() && from <= n <= |msg.bytes| && written == |Bytes(log)| - (|msg.bytes| - n)
        invariant count == |bq| <= SOCK_CAP && bq == old(bq) + msg.bytes[from..n]
      {
        LastBytes(log, n);
        WriteByte(msg.bytes[n]);
        n := n + 1;
      }
    }

    /** The next byte of the log goes into the ring. */
    method WriteByte(b: Byte)
      requires Valid() && !receiverGone && count < SOCK_CAP && written < |Bytes(log)| && b == Bytes(log)[written]
      modifies `head, `count, `bq, `written, buf
      ensures Valid() && written == old(written) + 1 && bq == old(bq) + [b] && count == |bq| <= SOCK_CAP
    {
      hide Streams, FdRing, Slots, Bytes, Holds;
      StreamsWrite(log, written, read, bq, taken, handed, fq, b);
      PushByte(b);
      written := written + 1;
      ByteRingFits();
    }

    lemma ValidFacts()
      requires Valid()
      ensures count <= SOCK_CAP && (!receiverGone ==> read <= written && count == written - read)
    {
    }

    lemma RoomFacts()
      requires Valid()
      ensures count == |bq| <= SOCK_CAP && fdCount == |fq| <= SOCK_FD_CAP
    {
    }

    lemma ByteRingFits()
      requires ByteRing()
      ensures count == |bq| <= SOCK_CAP
    {
    }

    /** What a receive does once there is something: bytes, then every descriptor whose
        message has now been read to its end, oldest first, as many as are wanted. */
    method Receive(len: nat, want: nat) returns (out: seq<Byte>, files: seq<File>)
      requires Valid() && !receiverGone
      modifies `tail, `count, `bq, `read, `fdTail, `fdCount, `fq, `taken, `handed
      ensures Valid()
      ensures read == old(read) + |out| <= |Bytes(log)| && out == Bytes(log)[old(read)..read]
      ensures handed == old(handed) + |files| <= |Slots(log)|
      ensures HandedOver(Slots(log), old(handed), files, read)
      ensures |out| == Least(len, |old(bq)|) && out == old(bq)[..|out|] && bq == old(bq)[|out|..]
      ensures |files| == DueCount(old(fq), read, want) && files == Names(old(fq)[..|files|]) && fq == old(fq)[|files|..]
    {
      out := TakeBytes(len);
      files := TakeFds(want);
    }

    method TakeBytes(len: nat) returns (out: seq<Byte>)
      requires Valid() && !receiverGone
      modifies `tail, `count, `bq, `read
      ensures Valid()
      ensures read == old(read) + |out| <= |Bytes(log)| && out == Bytes(log)[old(read)..read]
      ensures |out| == Least(len, |old(bq)|) && out == old(bq)[..|out|] && bq == old(bq)[|out|..]
    {
      hide Streams, FdRing, Slots, Bytes, Holds;
      StreamsBounds(log, written, read, bq, taken, handed, fq);
      out := [];
      while |out| < len && count > 0
        invariant Valid() && |out| <= len && |out| <= |old(bq)| && out == old(bq)[..|out|] && bq == old(bq)[|out|..]
        invariant read == old(read) + |out| <= |Bytes(log)| && out == Bytes(log)[old(read)..read]
      {
        StreamsRead(log, written, read, bq, taken, handed, fq);
        var b := PopByte();
        out := out + [b];
        read := read + 1;
        StreamsBounds(log, written, read, bq, taken, handed, fq);
      }
    }

    /** The oldest descriptor, its message read to the end. */
    method TakeFd() returns (file: File)
      requires Valid() && !receiverGone && fq != [] && fq[0].at <= read && taken == handed
      modifies `fdTail, `fdCount, `fq, `taken, `handed
      ensures Valid() && handed == taken == old(handed) + 1 <= |Slots(log)| && fq == old(fq)[1..]
      ensures file == old(fq)[0].file && old(fq)[0] == Slots(log)[old(handed)]
      ensures fdTail < fds.Length && fdCount == |fq| && (fq != [] ==> fds[fdTail] == fq[0])
    {
      hide Streams, ByteRing, FdRing, Slots, Bytes, Holds;
      StreamsHand(log, written, read, bq, taken, fq);
      FdRingFacts();
      var s := PopFd();
      file := s.file;
      taken, handed := taken + 1, handed + 1;
      StreamsBounds(log, written, read, bq, taken, handed, fq);
      FdRingFacts();
    }

    method TakeFds(want: nat) returns (files: seq<File>)
      requires Valid() && !receiverGone
      modifies `fdTail, `fdCount, `fq, `taken, `handed
      ensures Valid() && handed == old(handed) + |files| <= |Slots(log)|
      ensures HandedOver(Slots(log), old(handed), files, read)
      ensures |files| == DueCount(old(fq), read, want) && files == Names(old(fq)[..|files|]) && fq == old(fq)[|files|..]
    {
      hide Streams, ByteRing, FdRing, Slots, Bytes, Holds, DueCount, Names;
      StreamsBounds(log, written, read, bq, taken, handed, fq);
      FdRingFacts();
      files := [];
      while |files| < want && fdCount > 0 && fds[fdTail].at <= read
        invariant Valid() && |files| <= want && handed == old(handed) + |files| <= |Slots(log)|
        invariant fdTail < fds.Length && fdCount == |fq| && (fq != [] ==> fds[fdTail] == fq[0])
        invariant HandedOver(Slots(log), old(handed), files, read)
        invariant |files| <= |old(fq)| && files == Names(old(fq)[..|files|]) && fq == old(fq)[|files|..]
        invariant DueCount(old(fq), read, want) == |files| + DueCount(fq, read, want - |files|)
      {
        NextDue(old(fq), |files|, read, want);
        var file := TakeFd();
        files := files + [file];
      }
      NoneDue(fq, read, want - |files|);
    }

    lemma FdRingFacts()
      requires FdRing()
      ensures fdTail < fds.Length == SOCK_FD_CAP && fdCount == |fq| <= SOCK_FD_CAP
      ensures fq != [] ==> fds[fdTail] == fq[0]
    {
      if fq != [] { TailIsFirst(fds[..], fdTail, fq); }
    }

    /** An end closes: what is queued is given back, to be delivered to nobody. */
    method Close(sender: bool) returns (dropped: seq<File>)
      requires Valid()
      modifies `senderGone, `receiverGone, `fdTail, `fdCount, `fq, `taken
      ensures Valid() && fdCount == 0 && fq == [] && (if sender then senderGone else receiverGone)
      ensures senderGone == (sender || old(senderGone)) && receiverGone == (!sender || old(receiverGone))
      ensures |dropped| == |old(fq)| && forall k :: 0 <= k < |dropped| ==> dropped[k] == old(fq)[k].file
    {
      hide Streams, ByteRing, Slots, Bytes;
      dropped := [];
      while fdCount > 0
        invariant ByteRing() && FdRing() && (!receiverGone ==> Streams(log, written, read, bq, taken, handed, fq))
        invariant |dropped| + |fq| == |old(fq)| && fq == old(fq)[|dropped|..]
        invariant senderGone == old(senderGone) && receiverGone == old(receiverGone)
        invariant |dropped| == 0 ==> taken == old(taken)
        invariant forall k :: 0 <= k < |dropped| ==> dropped[k] == old(fq)[k].file
        decreases fdCount
      {
        if !receiverGone { StreamsDrop(log, written, read, bq, taken, handed, fq); }
        var s := PopFd();
        dropped := dropped + [s.file];
        taken := taken + 1;
      }
      if sender { senderGone := true; } else { receiverGone := true; }
    }
  }

  lemma LastBytes(log: seq<Msg>, n: nat)
    requires log != [] && n < |log[|log| - 1].bytes|
    ensures var m := log[|log| - 1];
      |m.bytes| <= |Bytes(log)| && m.bytes[n] == Bytes(log)[|Bytes(log)| - (|m.bytes| - n)]
  {
  }

  lemma StreamsEmpty()
    ensures Streams([], 0, 0, [], 0, 0, []) && |Bytes([])| == 0
  {
  }

  lemma StreamsBounds(log: seq<Msg>, written: nat, read: nat, bq: seq<Byte>, taken: nat, handed: nat, fq: seq<Slot>)
    requires Streams(log, written, read, bq, taken, handed, fq)
    ensures read <= written <= |Bytes(log)| && |bq| == written - read && handed <= taken <= |Slots(log)|
    ensures |fq| == |Slots(log)| - taken
  {
  }

  lemma TailIsFirst<T>(buf: seq<T>, tail: nat, q: seq<T>)
    requires Holds(buf, tail, q) && q != []
    ensures buf[tail] == q[0]
  {
    assert buf[Place(|buf|, tail, 0)] == q[0];
  }

  /* ---- every interleaving of a sender and a receiver ---- */

  /** Where a send is when it gives way: waiting for room for its descriptors, or for its
      bytes; or there is none. */
  datatype Phase = Idle | AwaitFds(msg: Msg) | AwaitRoom(msg: Msg, n: nat)

  /** A turn of the scheduler: a send begins, or goes on from where it waited; a receive
      that does not have to wait; or an end is closed. */
  datatype Turn = Send(msg: Msg) | Resume | Receive(len: nat, want: nat) | CloseSender | CloseReceiver

  ghost predicate InPhase(d: Direction, phase: Phase)
    reads d
  {
    !d.receiverGone ==>
      match phase
      case Idle => d.Quiet()
      case AwaitFds(_) => d.Quiet()
      case AwaitRoom(msg, n) =>
        d.log != [] && d.log[|d.log| - 1] == msg && n <= |msg.bytes| && d.written == |Bytes(d.log)| - (|msg.bytes| - n)
  }

  /* ---- what the turns come to, with queues for rings ---- */

  /** Both ends of a direction: the messages begun, the bytes and descriptors on their way,
      how many bytes went in and came out, where the sender is, and who has left. */
  datatype Link = Link(log: seq<Msg>, bq: seq<Byte>, fq: seq<Slot>, written: nat, read: nat, phase: Phase,
                       senderGone: bool, receiverGone: bool)

  const UNUSED := Link([], [], [], 0, 0, Idle, false, false)

  /** Descriptors go in together, when there is room for all. */
  function Sent(l: Link, msg: Msg): Link
  {
    if |l.fq| + |msg.files| > SOCK_FD_CAP then l.(phase := if l.receiverGone then Idle else AwaitFds(msg))
    else
      var fq := l.fq + Pinned(msg.files, l.written + |msg.bytes|);
      Filled(l.(fq := fq, log := if l.receiverGone then l.log else l.log + [msg]), msg, 0)
  }

  /** Bytes go in as far as there is room, unless nobody is left to read them. */
  function Filled(l: Link, msg: Msg, from: nat): Link
  {
    if l.receiverGone || from > |msg.bytes| || |l.bq| > SOCK_CAP then l.(phase := Idle)
    else
      var n := from + Least(|msg.bytes| - from, SOCK_CAP - |l.bq|);
      l.(bq := l.bq + msg.bytes[from..n], written := l.written + (n - from),
         phase := if n < |msg.bytes| then AwaitRoom(msg, n) else Idle)
  }

  /** A send is taken up when none is going on and the end is open. */
  predicate Accepts(l: Link, msg: Msg) { l.phase.Idle? && |msg.files| <= SOCK_FD_CAP && !l.senderGone }

  /** A turn, and what it hands the receiver. */
  function Play(l: Link, turn: Turn): (Link, Msg)
  {
    match turn
    case Send(msg) => (if Accepts(l, msg) then Sent(l, msg) else l, NOTHING)
    case Resume =>
      (if l.senderGone || l.phase.Idle? then l
       else if l.phase.AwaitFds? then Sent(l.(phase := Idle), l.phase.msg)
       else Filled(l, l.phase.msg, l.phase.n), NOTHING)
    case Receive(len, want) =>
      if l.receiverGone then (l, NOTHING)
      else
        var n := Least(len, |l.bq|);
        var m := DueCount(l.fq, l.read + n, want);
        (l.(bq := l.bq[n..], read := l.read + n, fq := l.fq[m..]), Msg(l.bq[..n], Names(l.fq[..m])))
    case CloseSender => (l.(fq := [], senderGone := true), NOTHING)
    case CloseReceiver => (l.(fq := [], receiverGone := true), NOTHING)
  }

  const NOTHING := Msg([], [])

  /** All the turns, and what each handed over. */
  function PlayAll(turns: seq<Turn>): (r: (Link, seq<Msg>))
    ensures |r.1| == |turns|
  {
    if turns == [] then (UNUSED, [])
    else
      var before := PlayAll(turns[..|turns| - 1]);
      var after := Play(before.0, turns[|turns| - 1]);
      (after.0, before.1 + [after.1])
  }

  /** The messages of the send turns that were taken up, in order. */
  function TakenUp(turns: seq<Turn>): seq<Msg>
  {
    if turns == [] then []
    else
      var init, last := turns[..|turns| - 1], turns[|turns| - 1];
      TakenUp(init) + if last.Send? && Accepts(PlayAll(init).0, last.msg) then [last.msg] else []
  }

  function Waiting(phase: Phase): seq<Msg> { if phase.AwaitFds? then [phase.msg] else [] }

  /** The messages in the stream are those whose send was taken up, in order: all but one that
      still waits for room for its descriptors, and none begun once the receiver had left. */
  lemma {:induction false} LogIsTakenUp(turns: seq<Turn>)
    ensures var l := PlayAll(turns).0;
      && l.log <= TakenUp(turns)
      && (!l.receiverGone ==> l.log + Waiting(l.phase) == TakenUp(turns))
  {
    hide Play, Accepts, Waiting;
    if turns == [] {
      NoneTakenUp();
    } else {
      var init, last := turns[..|turns| - 1], turns[|turns| - 1];
      LogIsTakenUp(init);
      TurnTakesUp(PlayAll(init).0, last, TakenUp(init));
    }
  }

  lemma NoneTakenUp()
    ensures UNUSED.log == [] && Waiting(UNUSED.phase) == []
  {
  }

  lemma TurnTakesUp(l: Link, turn: Turn, taken: seq<Msg>)
    requires l.log <= taken && (!l.receiverGone ==> l.log + Waiting(l.phase) == taken)
    ensures var l', taken' := Play(l, turn).0, taken + if turn.Send? && Accepts(l, turn.msg) then [turn.msg] else [];
      l'.log <= taken' && (!l'.receiverGone ==> l'.log + Waiting(l'.phase) == taken')
  {
    hide DueCount, Names, Least;
  }

  /** The descriptors handed over, all together. */
  function Files(outs: seq<Msg>): seq<File>
  {
    if outs == [] then [] else Files(outs[..|outs| - 1]) + outs[|outs| - 1].files
  }

  /* ---- the rings do what the queues do ---- */

  ghost function LinkOf(d: Direction, phase: Phase): Link
    reads d
  {
    Link(d.log, d.bq, d.fq, d.written, d.read, phase, d.senderGone, d.receiverGone)
  }

  /** A send from the start, or from waiting for room for its descriptors. */
  method Start(d: Direction, msg: Msg) returns (phase: Phase)
    requires d.Valid() && !d.senderGone && |msg.files| <= SOCK_FD_CAP && InPhase(d, Idle)
    modifies d, d.buf, d.fds
    ensures d.Valid() && InPhase(d, phase) && d.handed == old(d.handed)
    ensures LinkOf(d, phase) == Sent(old(LinkOf(d, Idle)), msg) && (d.log == old(d.log) || d.log == old(d.log) + [msg])
    ensures phase.AwaitFds? ==> phase.msg == msg
  {
    hide Direction.Valid, Bytes, Slots;
    d.RoomFacts();
    if SOCK_FD_CAP - d.fdCount < |msg.files| {
      return if d.receiverGone then Idle else AwaitFds(msg);
    }
    d.Begin(msg);
    if !d.receiverGone { LogSnoc(old(d.log), msg); }
    phase := Go(d, msg, 0);
  }

  /** The bytes, until all are in, the ring is full, or nobody is left to read them. */
  method Go(d: Direction, msg: Msg, from: nat) returns (phase: Phase)
    requires d.Valid() && from <= |msg.bytes| && InPhase(d, AwaitRoom(msg, from))
    modifies d, d.buf
    ensures d.Valid() && InPhase(d, phase) && d.handed == old(d.handed) && !phase.AwaitFds?
    ensures LinkOf(d, phase) == Filled(old(LinkOf(d, AwaitRoom(msg, from))), msg, from)
    ensures phase.AwaitRoom? ==> d.count == SOCK_CAP
  {
    hide Streams, Direction.FdRing, Slots, Bytes, Holds;
    d.RoomFacts();
    if d.receiverGone {
      return Idle;
    }
    var n := d.Fill(msg, from);
    d.RoomFacts();
    return if n < |msg.bytes| then AwaitRoom(msg, n) else Idle;
  }

  /** What the receiver has, measured against the messages: a prefix of their bytes, and the
      first of their descriptors in order, each with its message read to the end. */
  ghost predicate Delivered(log: seq<Msg>, received: seq<Byte>, given: seq<File>)
  {
    received <= Bytes(log) && HandedOver(Slots(log), 0, given, |received|)
  }

  lemma DeliveredGrows(log: seq<Msg>, m: Msg, received: seq<Byte>, given: seq<File>)
    requires Delivered(log, received, given)
    ensures Delivered(log + [m], received, given)
  {
    LogSnoc(log, m);
    hide Bytes, Slots, Pinned;
    var s, t := Slots(log), Slots(log + [m]);
    assert forall k :: 0 <= k < |s| ==> t[k] == s[k];
  }

  lemma DeliveredMore(log: seq<Msg>, received: seq<Byte>, given: seq<File>, out: seq<Byte>, files: seq<File>)
    requires Delivered(log, received, given) && |received| + |out| <= |Bytes(log)|
    requires out == Bytes(log)[|received|..|received| + |out|]
    requires HandedOver(Slots(log), |given|, files, |received| + |out|)
    ensures Delivered(log, received + out, given + files)
  {
    hide Bytes, Slots;
    assert received + out == Bytes(log)[..|received| + |out|];
    forall k | 0 <= k < |given + files| ensures Due((given + files)[k], Slots(log)[k], |received| + |out|) {
      if k < |given| {
        assert Due(given[k], Slots(log)[0 + k], |received|);
      } else {
        assert Due(files[k - |given|], Slots(log)[|given| + (k - |given|)], |received| + |out|);
      }
    }
  }

  /** Whoever runs when, and whichever end closes first: each turn hands over what it would with
      queues for rings, and altogether the receiver has a prefix of the bytes of the messages
      taken up, and the first of their descriptors, in order, none before its message was read
      to the end. */
  method Interleave(turns: seq<Turn>) returns (d: Direction, phase: Phase, outs: seq<Msg>)
    ensures d.Valid() && (LinkOf(d, phase), outs) == PlayAll(turns) && d.log <= TakenUp(turns)
    ensures Delivered(d.log, Bytes(outs), Files(outs)) && d.count <= SOCK_CAP
    ensures !d.receiverGone ==> d.read == |Bytes(outs)| && d.handed == |Files(outs)| && d.count == d.written - d.read
  {
    hide Bytes, Slots, Direction.Valid, Delivered, Play, InPhase, TakenUp;
    d := new Direction();
    phase, outs := Idle, [];
    NothingDelivered(d);
    for i := 0 to |turns|
      invariant fresh(d) && fresh(d.buf) && fresh(d.fds) && d.Valid() && InPhase(d, phase)
      invariant phase.AwaitFds? ==> |phase.msg.files| <= SOCK_FD_CAP
      invariant (LinkOf(d, phase), outs) == PlayAll(turns[..i])
      invariant Delivered(d.log, Bytes(outs), Files(outs))
      invariant !d.receiverGone ==> d.read == |Bytes(outs)| && d.handed == |Files(outs)|
    {
      var out;
      assert turns[..i + 1][..i] == turns[..i];
      phase, out := Turned(d, phase, outs, turns[i]);
      outs := outs + [out];
    }
    assert turns[..|turns|] == turns;
    LogIsTakenUp(turns);
    d.ValidFacts();
  }

  lemma NothingDelivered(d: Direction)
    ensures Delivered([], [], []) && Bytes([]) == [] && Files([]) == []
    ensures d.Quiet() ==> InPhase(d, Idle)
  {
  }

  /** The concatenations grow by what is handed over. */
  lemma OutsSnoc(outs: seq<Msg>, out: Msg)
    ensures Bytes(outs + [out]) == Bytes(outs) + out.bytes && Files(outs + [out]) == Files(outs) + out.files
    ensures out == NOTHING ==> Bytes(outs + [out]) == Bytes(outs) && Files(outs + [out]) == Files(outs)
  {
    assert (outs + [out])[..|outs|] == outs;
  }

  /** A sender that was waiting goes on. */
  method Resumed(d: Direction, phase: Phase, ghost received: seq<Byte>, ghost given: seq<File>) returns (phase': Phase)
    requires d.Valid() && InPhase(d, phase) && Delivered(d.log, received, given)
    requires phase.AwaitFds? ==> |phase.msg.files| <= SOCK_FD_CAP
    modifies d, d.buf, d.fds
    ensures d.Valid() && InPhase(d, phase') && (LinkOf(d, phase'), NOTHING) == Play(old(LinkOf(d, phase)), Resume)
    ensures phase'.AwaitFds? ==> |phase'.msg.files| <= SOCK_FD_CAP
    ensures Delivered(d.log, received, given) && d.handed == old(d.handed)
  {
    hide Bytes, Slots, Direction.Valid, Delivered, HandedOver, Files, DueCount, Names;
    phase' := phase;
    if !d.senderGone {
      if phase.AwaitFds? {
        phase' := Start(d, phase.msg);
        DeliveredGrows(old(d.log), phase.msg, received, given);
      } else if phase.AwaitRoom? {
        if d.receiverGone { phase' := Idle; } else { phase' := Go(d, phase.msg, phase.n); }
      }
    }
  }

  /** A receiver takes what there is. */
  method Received(d: Direction, ghost phase: Phase, ghost received: seq<Byte>, ghost given: seq<File>, len: nat,
    want: nat)
    returns (out: Msg)
    requires d.Valid() && InPhase(d, phase) && Delivered(d.log, received, given) && !d.receiverGone
    requires d.read == |received| && d.handed == |given|
    modifies d, d.buf, d.fds
    ensures d.Valid() && InPhase(d, phase) && (LinkOf(d, phase), out) == Play(old(LinkOf(d, phase)), Receive(len, want))
    ensures Delivered(d.log, received + out.bytes, given + out.files)
    ensures d.read == |received + out.bytes| && d.handed == |given + out.files|
  {
    hide Bytes, Slots, Direction.Valid, Delivered, HandedOver, Files, DueCount, Names;
    var bytes, files := d.Receive(len, want);
    DeliveredMore(d.log, received, given, bytes, files);
    out := Msg(bytes, files);
  }

  method Turned(d: Direction, phase: Phase, ghost outs: seq<Msg>, turn: Turn) returns (phase': Phase, out: Msg)
    requires d.Valid() && InPhase(d, phase) && Delivered(d.log, Bytes(outs), Files(outs))
    requires phase.AwaitFds? ==> |phase.msg.files| <= SOCK_FD_CAP
    requires !d.receiverGone ==> d.read == |Bytes(outs)| && d.handed == |Files(outs)|
    modifies d, d.buf, d.fds
    ensures d.Valid() && InPhase(d, phase') && (LinkOf(d, phase'), out) == Play(old(LinkOf(d, phase)), turn)
    ensures phase'.AwaitFds? ==> |phase'.msg.files| <= SOCK_FD_CAP
    ensures Delivered(d.log, Bytes(outs + [out]), Files(outs + [out]))
    ensures !d.receiverGone ==> d.read == |Bytes(outs + [out])| && d.handed == |Files(outs + [out])|
  {
    hide Bytes, Slots, Direction.Valid, Delivered, HandedOver, Files, DueCount, Names;
    phase', out := phase, NOTHING;
    ghost var received, given := Bytes(outs), Files(outs);
    match turn {
      case Send(msg) =>
        if phase.Idle? && |msg.files| <= SOCK_FD_CAP && !d.senderGone {
          phase' := Start(d, msg);
          DeliveredGrows(old(d.log), msg, received, given);
        }
      case Resume => phase' := Resumed(d, phase, received, given);
      case Receive(len, want) =>
        if !d.receiverGone { out := Received(d, phase, received, given, len, want); }
      case CloseSender => var _ := d.Close(true);
      case CloseReceiver => var _ := d.Close(false);
    }
    OutsSnoc(outs, out);
  }

  /** A send is taken up exactly if no other is going on, its end is open and its descriptors can ever
      fit, whatever bytes it has. */
  lemma SendIsTakenUp(turns: seq<Turn>, msg: Msg)
    ensures var l := PlayAll(turns).0;
      TakenUp(turns + [Send(msg)]) == if l.phase == Idle && !l.senderGone && |msg.files| <= SOCK_FD_CAP
                                      then TakenUp(turns) + [msg] else TakenUp(turns)
  {
    hide PlayAll;
    var all := turns + [Send(msg)];
    assert all[..|all| - 1] == turns && all[|all| - 1] == Send(msg);
    assert TakenUp(turns) + [] == TakenUp(turns);
  }

  /** Descriptors sent with no bytes arrive with the next receive that asks for them. */
  lemma DescriptorsAlone(l: Link, files: seq<File>, len: nat, want: nat)
    requires l.phase == Idle && !l.senderGone && !l.receiverGone && l.bq == [] && l.fq == [] && l.written == l.read
    requires |files| <= SOCK_FD_CAP && |files| <= want
    ensures Play(Play(l, Send(Msg([], files))).0, Receive(len, want)).1 == Msg([], files)
  {
    var l' := Play(l, Send(Msg([], files))).0;
    assert l'.fq == Pinned(files, l.written) && l'.bq == [] && l'.read == l.read;
    AllDue(l'.fq, l.read, want);
    assert l'.fq[..|files|] == l'.fq;
    assert Names(l'.fq) == files;
  }

  lemma {:induction false} AllDue(fq: seq<Slot>, read: nat, want: nat)
    requires |fq| <= want && forall k :: 0 <= k < |fq| ==> fq[k].at <= read
    ensures DueCount(fq, read, want) == |fq|
    decreases |fq|
  {
    if fq != [] { AllDue(fq[1..], read, want - 1); }
  }
}
