/** Positions in AML bytecode (kernel/acpi/aml_internal.h) and the two encodings all
    else is built from (kernel/acpi/aml_parse.c): package lengths (section 20.2.4 of the
    ACPI Specification) and name strings (section 20.2.2). */
module AmlStream {
  import opened AmlNamespace

  type Byte = b: int | 0 <= b < 256

  /** A position `p` in a table, and one past the last byte the construct may read. */
  datatype Stream = Stream(code: seq<Byte>, p: nat, end: nat)

  /** Both positions are in the table, whose length is a 32-bit word. */
  predicate InTable(s: Stream) { s.p <= |s.code| && s.end <= |s.code| < 0x1_0000_0000 }

  /** What every read relies on: the position has not passed the end. */
  predicate Ok(s: Stream) { s.p <= s.end <= |s.code| < 0x1_0000_0000 }

  /** Bytes still to be read. */
  function Left(s: Stream): nat { if s.p < s.end then s.end - s.p else 0 }

  function Peek(s: Stream): Byte
    requires Ok(s)
  {
    if s.p < s.end then s.code[s.p] else 0
  }

  /** The stream after aml_byte; at the end it stays where it is. */
  function Next(s: Stream): Stream { if s.p < s.end then s.(p := s.p + 1) else s }

  /** `t` is `s` moved forward within its bounds. */
  predicate Moved(s: Stream, t: Stream) { t == s.(p := t.p) && s.p <= t.p <= s.end }

  /** The part of a construct up to `stop`. */
  function Upto(s: Stream, stop: nat): Stream { s.(end := stop) }

  /* ---- package lengths ---- */

  /** The byte `k` places on; zero past the end, as aml_byte reads it. */
  function ByteAfter(s: Stream, k: nat): Byte
    requires Ok(s)
  {
    if s.p + k < s.end then s.code[s.p + k] else 0
  }

  /** The length as the specification defines it: the top two bits of the lead byte say
      how many bytes follow, and only with none are the low six bits the whole of it. */
  function PkgTotal(s: Stream): nat
    requires Ok(s)
  {
    var lead: int, b1: int, b2: int, b3: int := ByteAfter(s, 0), ByteAfter(s, 1), ByteAfter(s, 2), ByteAfter(s, 3);
    if lead / 64 == 0 then lead % 64
    else lead % 16 + 0x10 * b1 + (if lead / 64 >= 2 then 0x1000 * b2 else 0) + (if lead / 64 == 3 then 0x10_0000 * b3
      else 0)
  }

  function PkgHeader(s: Stream): nat
    requires Ok(s)
  {
    var n := 1 + ByteAfter(s, 0) / 64;
    if n <= Left(s) then n else Left(s)
  }

  /** Read a package length; what is left for the body after the length's own bytes. */
  method PkgLength(s: Stream) returns (t: Stream, len: nat)
    requires Ok(s)
    ensures Moved(s, t) && t.p == s.p + PkgHeader(s) && (s.p < s.end ==> s.p < t.p)
    ensures len == if PkgTotal(s) < PkgHeader(s) then 0 else PkgTotal(s) - PkgHeader(s)
  {
    if s.p == s.end {
      return s, 0;
    }
    var lead := Peek(s);
    t := Next(s);
    var extra := lead / 64;
    len := if extra != 0 then lead % 16 else lead % 64;
    var scale := 16;
    for i := 0 to extra
      invariant Moved(s, t) && t.p == s.p + if 1 + i <= Left(s) then 1 + i else Left(s)
      invariant scale == if i == 0 then 0x10 else if i == 1 then 0x1000 else if i == 2 then 0x10_0000 else 0x1000_0000
      invariant extra != 0 ==> len < scale    // so that adding the next byte is or-ing it in
      invariant extra != 0 ==> len == lead % 16 + (if i >= 1 then 0x10 * ByteAfter(s, 1) else 0)
                                     + (if i >= 2 then 0x1000 * ByteAfter(s, 2) else 0) + (if i == 3
                                       then 0x10_0000 * ByteAfter(s, 3) else 0)
      invariant extra == 0 ==> len == lead
    {
      len := len + Peek(t) * scale;
      t := Next(t);
      scale := scale * 256;
    }
    var header := t.p - s.p;
    len := if len < header then 0 else len - header;
  }

  /** The encoding of a total length in the fewest bytes. */
  function EncodePkg(total: nat): (r: seq<Byte>)
    requires total < 0x1000_0000
  {
    if total < 0x40 then [total]
    else if total < 0x1000 then [0x40 + total % 16, total / 16]
    else if total < 0x10_0000 then [0x80 + total % 16, total / 16 % 256, total / 0x1000]
    else [0xC0 + total % 16, total / 16 % 256, total / 0x1000 % 256, total / 0x10_0000]
  }

  /** A length that was encoded reads back, and its bytes are skipped exactly. */
  lemma PkgRoundTrip(total: nat, before: seq<Byte>, after: seq<Byte>)
    requires total < 0x1000_0000 && |before| + |after| < 0xFFFF_FF00
    ensures var e := EncodePkg(total);
      var s := Stream(before + e + after, |before|, |before| + |e| + |after|);
      PkgTotal(s) == total && PkgHeader(s) == |e|
  {
    var e := EncodePkg(total);
    var s := Stream(before + e + after, |before|, |before| + |e| + |after|);
    hide ByteAfter;
    forall k: nat | k < |e| ensures ByteAfter(s, k) == e[k] { ByteOf(s, before, e, after, k); }
    if total >= 0x10_0000 {
      FourBytes(total);
    } else if total >= 0x1000 {
      ThreeBytes(total);
    }
  }

  lemma ByteOf(s: Stream, before: seq<Byte>, e: seq<Byte>, after: seq<Byte>, k: nat)
    requires s == Stream(before + e + after, |before|, |before| + |e| + |after|) && Ok(s) && k < |e|
    ensures ByteAfter(s, k) == e[k]
  {
    assert s.code[|before| + k] == e[k];
  }

  lemma ThreeBytes(total: nat)
    ensures total == total % 16 + 0x10 * (total / 16 % 256) + 0x1000 * (total / 0x1000)
  {
    var q := total / 16;
    assert q / 256 == total / 0x1000;
    assert q == q % 256 + 256 * (q / 256);
  }

  lemma FourBytes(total: nat)
    ensures var low := total % 16 + 0x10 * (total / 16 % 256);
      total == low + 0x1000 * (total / 0x1000 % 256) + 0x10_0000 * (total / 0x10_0000)
  {
    ThreeBytes(total);
    var q := total / 0x1000;
    assert q / 256 == total / 0x10_0000;
    assert q == q % 256 + 256 * (q / 256);
  }

  lemma Nibbles(total: nat)
    requires total < 0x1000_0000
    ensures total == total % 16 + 16 * (total / 16)
    ensures total / 16 == total / 16 % 256 + 256 * (total / 0x1000)
    ensures total / 0x1000 == total / 0x1000 % 256 + 256 * (total / 0x10_0000)
  {
  }

  /** Where the body of a construct that starts here ends, kept within the stream. */
  function Stop(s: Stream, len: nat): (stop: nat)
    requires Ok(s)
    ensures s.p <= stop <= s.end
  {
    if s.p + len > s.end then s.end else s.p + len
  }

  /* ---- names ---- */

  const NAME_SIZE: nat := 128          // every caller's buffer

  /** Append to a C buffer that keeps one byte for the terminator. */
  function Put(text: Path, c: char): Path { if |text| + 1 < NAME_SIZE then text + [c] else text }

  /** What fits in the buffer. */
  function Cut(text: Path): Path { if |text| < NAME_SIZE then text else text[..NAME_SIZE - 1] }

  lemma PutCut(text: Path, c: char)
    ensures Put(Cut(text), c) == Cut(text + [c])
  {
  }

  function Carets(s: Stream): (n: nat)
    requires Ok(s)
    ensures n <= Left(s)
    decreases Left(s)
  {
    if s.p < s.end && s.code[s.p] == '^' as int then 1 + Carets(Next(s)) else 0
  }

  /** The prefix of a name: the root, or carets. */
  function Prefix(s: Stream): (r: Path)
    requires Ok(s)
    ensures |r| <= Left(s)
  {
    if Peek(s) == '\\' as int then ['\\'] else CaretText(Carets(s))
  }

  function CaretText(n: nat): (r: Path)
    ensures |r| == n
  {
    if n == 0 then [] else CaretText(n - 1) + ['^']
  }

  /** How many segments follow the prefix, and where the first is. */
  function Segments(s: Stream): nat
    requires Ok(s)
  {
    var t := s.(p := s.p + |Prefix(s)|);
    match Peek(t) case 0x00 => 0 case 0x2E => 2 case 0x2F => Peek(Next(t)) case _ => 1
  }

  function SegStart(s: Stream): nat
    requires Ok(s)
  {
    var t := s.(p := s.p + |Prefix(s)|);
    match Peek(t) case 0x00 => Next(t).p case 0x2E => Next(t).p case 0x2F => Next(Next(t)).p case _ => t.p
  }

  function SegAt(code: seq<Byte>, at: nat): Path
    requires at + 4 <= |code|
  {
    [code[at] as char, code[at + 1] as char, code[at + 2] as char, code[at + 3] as char]
  }

  /** `n` segments joined by dots. */
  function SegText(code: seq<Byte>, at: nat, n: nat): (r: Path)
    requires at + 4 * n <= |code|
    ensures |r| == if n == 0 then 0 else 5 * n - 1
  {
    if n == 0 then [] else (if n == 1 then [] else SegText(code, at, n - 1) + ['.']) + SegAt(code, at + 4 * (n - 1))
  }

  /** The whole of a name, before it is cut to the buffer. */
  function FullName(s: Stream): Path
    requires Ok(s) && SegStart(s) + 4 * Segments(s) <= s.end
  {
    Prefix(s) + SegText(s.code, SegStart(s), Segments(s))
  }

  /** Decode a name string into a dotted path.  It is malformed exactly when the segments
      it announces are not all there. */
  method NameString(s: Stream) returns (t: Stream, ok: bool, name: Path)
    requires Ok(s)
    ensures Moved(s, t) && '\0' !in name
    ensures ok <==> SegStart(s) + 4 * Segments(s) <= s.end
    ensures ok ==> t.p == SegStart(s) + 4 * Segments(s) && name == CStr(Cut(FullName(s)))
    ensures ok && s.p < s.end ==> s.p < t.p
  {
    hide Cut, Prefix, SegText, CStr;
    var text;
    t, text := TakePrefix(s);
    var segments: nat := 1;
    var lead := Peek(t);
    if lead == 0x00 {
      t := Next(t);
      segments := 0;
    } else if lead == 0x2E {
      t := Next(t);
      segments := 2;
    } else if lead == 0x2F {
      t := Next(t);
      segments := Peek(t);
      t := Next(t);
    }
    assert t.p == SegStart(s) && segments == Segments(s);
    ok, t, text := Joined(t, segments, text, Prefix(s));
    name := if ok then CStr(text) else [];
  }

  method TakePrefix(s: Stream) returns (t: Stream, text: Path)
    requires Ok(s)
    ensures Moved(s, t) && t.p == s.p + |Prefix(s)| && text == Cut(Prefix(s))
  {
    t, text := s, [];
    if Peek(t) == '\\' as int {
      t := Next(t);
      text := Put(text, '\\');
    } else {
      while Peek(t) == '^' as int
        invariant Moved(s, t) && text == Cut(CaretText(t.p - s.p)) && Carets(s) == t.p - s.p + Carets(t)
        decreases s.end - t.p
      {
        PutCut(CaretText(t.p - s.p), '^');
        t := Next(t);
        text := Put(text, '^');
      }
    }
  }

  /** Append `segments` segments to the text. */
  method Joined(start: Stream, segments: nat, before: Path, ghost prefix: Path)
    returns (ok: bool, t: Stream, text: Path)
    requires Ok(start) && before == Cut(prefix)
    ensures Moved(start, t)
    ensures ok <==> start.p + 4 * segments <= start.end
    ensures ok ==> t.p == start.p + 4 * segments && text == Cut(prefix + SegText(start.code, start.p, segments))
  {
    hide Cut, Put;
    t, text := start, before;
    assert prefix + [] == prefix;
    for i := 0 to segments
      invariant Moved(start, t) && t.p == start.p + 4 * i && text == Cut(prefix + SegText(start.code, start.p, i))
    {
      if Left(t) < 4 {
        return false, t, [];
      }
      ghost var sofar := prefix + SegText(start.code, start.p, i);
      if i != 0 {
        PutCut(sofar, '.');
        text := Put(text, '.');
        sofar := sofar + ['.'];
      }
      ghost var at := t.p;
      t, text := OneSegment(t, text, sofar);
      assert sofar + SegAt(start.code, at) == prefix + SegText(start.code, start.p, i + 1);
    }
    ok := true;
  }

  method OneSegment(start: Stream, before: Path, ghost sofar: Path) returns (t: Stream, text: Path)
    requires Ok(start) && Left(start) >= 4 && before == Cut(sofar)
    ensures Moved(start, t) && t.p == start.p + 4 && text == Cut(sofar + SegAt(start.code, start.p))
  {
    hide Cut, Put;
    t, text := start, before;
    ghost var full := sofar;
    for c := 0 to 4
      invariant Moved(start, t) && t.p == start.p + c && text == Cut(full)
      invariant full == sofar + SegAt(start.code, start.p)[..c]
    {
      PutCut(full, Peek(t) as char);
      text := Put(text, Peek(t) as char);
      full := full + [Peek(t) as char];
      t := Next(t);
    }
    assert SegAt(start.code, start.p)[..4] == SegAt(start.code, start.p);
  }

  /* ---- decoded names are names lookup and creation agree on ---- */

  /** The segments are made of name characters, as far as that matters here. */
  ghost predicate Clean(code: seq<Byte>, at: nat, n: nat)
    requires at + 4 * n <= |code|
  {
    forall k :: at <= k < at + 4 * n ==> code[k] as char !in {'\0', '.', '^', '\\'}
  }

  lemma {:induction false} SegTextClean(code: seq<Byte>, at: nat, n: nat)
    requires at + 4 * n <= |code| && Clean(code, at, n)
    ensures var r := SegText(code, at, n);
      && (forall k :: 0 <= k < |r| ==> r[k] !in {'\0', '^', '\\'})
      && (r != [] ==> r[0] != '.' && r[|r| - 1] != '.')
  {
    if n > 1 { SegTextClean(code, at, n - 1); }
  }

  lemma {:induction false} CaretTextAll(n: nat, k: nat)
    requires k < n
    ensures CaretText(n)[k] == '^'
  {
    if k < n - 1 { CaretTextAll(n - 1, k); }
  }

  lemma {:induction false} NoNul(text: Path)
    requires '\0' !in text
    ensures CStr(text) == text
  {
    if text != [] { NoNul(text[1..]); }
  }

  lemma {:induction false} AfterCaretsIs(p: Path, n: nat)
    requires n <= |p| && (forall k :: 0 <= k < n ==> p[k] == '^') && (n < |p| ==> p[n] != '^')
    ensures AfterCarets(p) == p[n..]
  {
    if n > 0 {
      AfterCaretsIs(p[1..], n - 1);
      assert p[1..][n - 1..] == p[n..];
    }
  }

  /** A decoded name is plain, so that what it creates is what it finds, unless the buffer
      cut it off just after a dot. */
  lemma DecodedNameIsPlain(s: Stream)
    requires Ok(s) && SegStart(s) + 4 * Segments(s) <= s.end && Clean(s.code, SegStart(s), Segments(s))
    ensures var full := FullName(s);
      Plain(CStr(Cut(full))) <==> !(|full| >= NAME_SIZE && full[NAME_SIZE - 2] == '.')
  {
    var pre, body := Prefix(s), SegText(s.code, SegStart(s), Segments(s));
    var full := FullName(s);
    var name := Cut(full);
    SegTextClean(s.code, SegStart(s), Segments(s));
    forall k | 0 <= k < |pre| && Peek(s) != '\\' as int ensures pre[k] == '^' { CaretTextAll(|pre|, k); }
    assert forall k :: 0 <= k < |full| ==> full[k] == if k < |pre| then pre[k] else body[k - |pre|];
    hide FullName, Prefix, SegText, Segments, SegStart;
    NoNul(name);
    PlainWhen(pre, body, name);
  }

  lemma PlainWhen(pre: Path, body: Path, name: Path)
    requires name == Cut(pre + body)
    requires pre == ['\\'] || forall k :: 0 <= k < |pre| ==> pre[k] == '^'
    requires forall k :: 0 <= k < |body| ==> body[k] !in {'\0', '^', '\\'}
    requires body != [] ==> body[0] != '.' && body[|body| - 1] != '.'
    ensures Plain(name) <==> !(|pre + body| >= NAME_SIZE && (pre + body)[NAME_SIZE - 2] == '.')
  {
    hide Cut, CreateBody;
    var full := pre + body;
    var n := if |pre| < |name| then |pre| else |name|;
    CutLast(full);
    CutAt(pre, body, name);
    assert pre[..n] == name[..n];
    BodyOf(pre, name, n);
    if n < |name| {
      assert name[n..][|name| - n - 1] == name[|name| - 1];
      assert name[n] == body[0];
    }
  }

  lemma CutAt(pre: Path, body: Path, name: Path)
    requires name == Cut(pre + body)
    ensures |name| <= |pre| + |body|
    ensures forall k :: 0 <= k < |name| ==> name[k] == if k < |pre| then pre[k] else body[k - |pre|]
  {
    forall k | 0 <= k < |name| ensures name[k] == if k < |pre| then pre[k] else body[k - |pre|] {
      assert name[k] == (pre + body)[k];
    }
  }

  lemma CutLast(full: Path)
    ensures |Cut(full)| == if |full| < NAME_SIZE then |full| else NAME_SIZE - 1
    ensures |full| >= NAME_SIZE ==> Cut(full)[NAME_SIZE - 2] == full[NAME_SIZE - 2]
    ensures |full| < NAME_SIZE ==> Cut(full) == full
  {
  }

  lemma BodyOf(pre: Path, name: Path, n: nat)
    requires n <= |name| && n <= |pre| && (n < |pre| ==> n == |name|) && pre[..n] == name[..n]
    requires pre == ['\\'] || forall k :: 0 <= k < |pre| ==> pre[k] == '^'
    requires n < |name| ==> name[n] !in {'.', '^', '\\'}
    ensures CreateBody(name) == name[n..]
  {
    assert forall k :: 0 <= k < n ==> name[k] == pre[k] by {
      forall k | 0 <= k < n ensures name[k] == pre[k] { assert name[..n][k] == pre[..n][k]; }
    }
    if name != [] && name[0] == '^' {
      assert n > 0;
      AfterCaretsIs(name, n);
    }
  }
}
