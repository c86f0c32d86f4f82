/** Pipes (kernel/fs/pipe.c): what is read is what was written, in order, and never more
    than the buffer is outstanding. */
module PipeStream {
  import opened Rings

  const PIPE_CAP: nat := 4096

  type Byte = b: int | 0 <= b < 256

  class Pipe {
    const buf: array<Byte>
    var head: nat
    var tail: nat
    var count: nat
    var readers: int
    var writers: int

    ghost var sent: seq<Byte>          // every byte ever written
    ghost var got: seq<Byte>           // every byte ever read

    /** The bytes read are a prefix of the bytes written, and the ring holds the rest. */
    ghost predicate Valid()
      reads this, buf
    {
      && buf.Length == PIPE_CAP && count <= PIPE_CAP
      && |sent| == |got| + count && got == sent[..|got|]
      && Holds(buf[..], tail, sent[|got|..]) && head == Head()
    }

    function Head(): nat
      reads this
    {
      if count < PIPE_CAP then Place(PIPE_CAP, tail, count) else tail
    }

    constructor ()
      ensures Valid() && fresh(buf) && sent == got == [] && readers == writers == 1
    {
      buf := new Byte[PIPE_CAP](i => 0);
      head, tail, count, readers, writers := 0, 0, 0, 1, 1;
      sent, got := [], [];
    }

    method Push(b: Byte)
      requires Valid() && count < PIPE_CAP
      modifies `head, `count, `sent, buf
      ensures Valid() && count == old(count) + 1 && sent == old(sent) + [b]
    {
      Pushed(buf[..], tail, sent[|got|..], b);
      HeadMoves(PIPE_CAP, tail, count);
      ghost var was := buf[..];
      buf[head] := b;
      assert buf[..] == was[head := b];
      assert sent[|got|..] + [b] == (sent + [b])[|got|..];
      head := (head + 1) % PIPE_CAP;
      count := count + 1;
      sent := sent + [b];
    }

    method Pop() returns (b: Byte)
      requires Valid() && count > 0
      modifies `tail, `count, `got
      ensures Valid() && count == old(count) - 1 && got == old(got) + [b] && b == sent[|old(got)|]
    {
      Popped(buf[..], tail, sent[|got|..]);
      assert sent[|got|..][1..] == sent[|got| + 1..];
      b := buf[tail];
      tail := (tail + 1) % PIPE_CAP;
      count := count - 1;
      got := got + [b];
    }

    /** What a read does once it does not have to wait: as many bytes as there are. */
    method Read(len: nat) returns (out: seq<Byte>)
      requires Valid() && (len == 0 || count > 0 || writers <= 0)
      modifies `tail, `count, `got
      ensures Valid() && got == old(got) + out
      ensures |out| == if len < old(count) then len else old(count)
    {
      out := [];
      while |out| < len && count > 0
        invariant Valid() && got == old(got) + out && |out| + count == old(count) && |out| <= len
      {
        var b := Pop();
        out := out + [b];
      }
    }

    /** What a write does between two waits: as many bytes as there is room for. */
    method Fill(data: seq<Byte>, from: nat) returns (n: nat)
      requires Valid() && from <= |data|
      modifies `head, `count, `sent, buf
      ensures Valid() && from <= n <= |data| && sent == old(sent) + data[from..n]
      ensures n == |data| || count == PIPE_CAP
    {
      n := from;
      while n < |data| && count < PIPE_CAP
        invariant Valid() && from <= n <= |data| && sent == old(sent) + data[from..n]
      {
        Push(data[n]);
        n := n + 1;
      }
    }
  }

  /* ---- every interleaving of one writer and one reader ---- */

  /** A turn of the scheduler: the writer goes on with what it has to write, or the reader
      reads, or an end is closed. */
  datatype Turn = Write | Read(len: nat) | CloseReaders | CloseWriters

  /** How far the writer and the reader are, which ends are open, and whether the writer was
      told that nobody is left to read. */
  datatype Line = Line(written: nat, read: nat, readers: bool, writers: bool, broken: bool)

  function Least(a: nat, b: nat): nat { if a < b then a else b }

  /** A turn, of a writer with `total` bytes to write. */
  function Play(total: nat, l: Line, turn: Turn): (l': Line)
    requires l.read <= l.written <= total && l.written - l.read <= PIPE_CAP
    ensures l'.read <= l'.written <= total && l'.written - l'.read <= PIPE_CAP
    ensures l.read <= l'.read && l.written <= l'.written
  {
    match turn
    case Write =>
      if !l.readers then l.(broken := true)
      else if l.broken then l
      else l.(written := l.written + Least(total - l.written, PIPE_CAP - (l.written - l.read)))
    case Read(len) => if l.read == l.written && l.writers then l
      else l.(read := l.read + Least(len, l.written - l.read))
    case CloseReaders => l.(readers := false)
    case CloseWriters => l.(writers := false)
  }

  function PlayAll(total: nat, turns: seq<Turn>): (l: Line)
    ensures l.read <= l.written <= total && l.written - l.read <= PIPE_CAP
  {
    if turns == [] then Line(0, 0, true, true, false)
    else Play(total, PlayAll(total, turns[..|turns| - 1]), turns[|turns| - 1])
  }

  /** The writer is told exactly when it has a turn after the readers left. */
  lemma {:induction false} BrokenIff(total: nat, turns: seq<Turn>)
    ensures !PlayAll(total, turns).readers <==> CloseReaders in turns
    ensures PlayAll(total, turns).broken
      <==> exists i, j :: 0 <= i < j < |turns| && turns[i] == CloseReaders && turns[j] == Write
  {
    if turns != [] {
      var n := |turns| - 1;
      BrokenIff(total, turns[..n]);
      assert turns == turns[..n] + [turns[n]];
      if turns[n] == Write && CloseReaders in turns[..n] {
        var i :| 0 <= i < n && turns[..n][i] == CloseReaders;
        assert turns[i] == CloseReaders && turns[n] == Write;
      }
      if i, j :| 0 <= i < j < |turns| && turns[i] == CloseReaders && turns[j] == Write {
        assert turns[..n][i] == CloseReaders && (j < n ==> turns[..n][j] == Write);
      }
      if i, j :| 0 <= i < j < n && turns[..n][i] == CloseReaders && turns[..n][j] == Write {
        assert turns[i] == CloseReaders && turns[j] == Write;
      }
    }
  }

  /** Nobody waits for nothing: while both ends are open, a turn each gets on, the writer's until
      all is written and the reader's until all is read. */
  lemma TurnsGetOn(total: nat, turns: seq<Turn>, len: nat)
    requires CloseReaders !in turns && len > 0
    ensures var l := PlayAll(total, turns);
      var w := Play(total, l, Write);
      var r := Play(total, w, Read(len));
      && (w.written == total || w.written - w.read == PIPE_CAP)
      && (l.read == total || r.read > l.read)
  {
    BrokenIff(total, turns);
  }

  /** The pipe with `n` bytes written of `data` and `received` read. */
  ghost predicate Midway(p: Pipe, data: seq<Byte>, n: nat, received: seq<Byte>)
    reads p, p.buf
  {
    p.Valid() && n <= |data| && p.sent == data[..n] && p.got == received
  }

  lemma MidwayFacts(p: Pipe, data: seq<Byte>, n: nat, received: seq<Byte>)
    requires Midway(p, data, n, received)
    ensures received <= data[..n] && |received| + p.count == n <= |data| && p.count <= PIPE_CAP
  {
  }

  ghost function LineOf(p: Pipe, n: nat, received: seq<Byte>, broken: bool): Line
    reads p
  {
    Line(n, |received|, p.readers > 0, p.writers > 0, broken)
  }

  method Turned(p: Pipe, data: seq<Byte>, n: nat, received: seq<Byte>, broken: bool, turn: Turn)
    returns (n': nat, received': seq<Byte>, broken': bool)
    requires Midway(p, data, n, received)
    modifies p, p.buf
    ensures |received| <= n <= |data| && n - |received| <= PIPE_CAP && Midway(p, data, n', received')
    ensures LineOf(p, n', received', broken') == Play(|data|, old(LineOf(p, n, received, broken)), turn)
  {
    hide Holds;
    MidwayFacts(p, data, n, received);
    n', received', broken' := n, received, broken;
    match turn {
      case Write =>
        if p.readers <= 0 {
          broken' := true;
        } else if !broken {
          n' := p.Fill(data, n);
          assert data[..n] + data[n..n'] == data[..n'];
        }
      case Read(len) =>
        if p.count > 0 || p.writers <= 0 {
          var out := p.Read(len);
          received' := received + out;
        }
      case CloseReaders => p.readers := 0;
      case CloseWriters => p.writers := 0;
    }
    MidwayFacts(p, data, n', received');
  }

  /** Whoever runs when, the bytes read are the first of what was to be written, and how many
      were written and read, and whether the writer was turned away, is what the turns say. */
  method Interleave(data: seq<Byte>, turns: seq<Turn>) returns (p: Pipe, received: seq<Byte>, n: nat, broken: bool)
    ensures p.Valid() && n <= |data| && p.sent == data[..n]
    ensures received <= data[..n] && |received| + p.count == n
    ensures PlayAll(|data|, turns) == LineOf(p, n, received, broken)
  {
    hide Pipe.Valid;
    p := new Pipe();
    received, n, broken := [], 0, false;
    for i := 0 to |turns|
      invariant fresh(p) && fresh(p.buf) && Midway(p, data, n, received)
      invariant PlayAll(|data|, turns[..i]) == LineOf(p, n, received, broken)
    {
      assert turns[..i + 1][..i] == turns[..i];
      n, received, broken := Turned(p, data, n, received, broken, turns[i]);
    }
    assert turns[..|turns|] == turns;
    MidwayFacts(p, data, n, received);
  }
}
