/** Bytes as they are found in a table: what a stream has next, packages with their length in front
    (section 20.2.4 of the ACPI Specification), and how long a number is. */
module AmlBytes {
  import opened AmlNamespace
  import opened AmlStream

  /** The bytes from here on are `bs`, and more may follow. */
  ghost predicate Has(s: Stream, bs: seq<Byte>)
  {
    Ok(s) && s.p + |bs| <= s.end && s.code[s.p..s.p + |bs|] == bs
  }

  function Skip(s: Stream, n: nat): Stream { s.(p := s.p + n) }

  lemma HasParts(s: Stream, a: seq<Byte>, b: seq<Byte>)
    requires Has(s, a + b)
    ensures Has(s, a) && Has(Skip(s, |a|), b)
  {
    assert s.code[s.p..s.p + |a|] == s.code[s.p..s.p + |a + b|][..|a|];
    assert s.code[s.p + |a|..s.p + |a| + |b|] == s.code[s.p..s.p + |a + b|][|a|..];
  }

  lemma HasByte(s: Stream, b: Byte, rest: seq<Byte>)
    requires Has(s, [b] + rest)
    ensures s.p < s.end && Peek(s) == b && Next(s) == Skip(s, 1) && Has(Next(s), rest)
  {
    HasParts(s, [b], rest);
    assert s.code[s.p..s.p + 1][0] == b;
  }

  /** What is all of a construct is still there when the stream is cut to it. */
  lemma HasUpto(s: Stream, bs: seq<Byte>)
    requires Has(s, bs)
    ensures Has(Upto(s, s.p + |bs|), bs)
  {
  }

  /* ---- packages ---- */

  /** The bytes a package length takes for a body of `len` bytes. */
  function HeaderSize(len: nat): nat
  {
    if len + 1 < 0x40 then 1 else if len + 2 < 0x1000 then 2 else if len + 3 < 0x10_0000 then 3 else 4
  }

  predicate Fits(len: nat) { len + 4 < 0x1000_0000 }

  function Package(body: seq<Byte>): (bs: seq<Byte>)
    requires Fits(|body|)
    ensures |bs| == HeaderSize(|body|) + |body|
  {
    EncodePkg(|body| + HeaderSize(|body|)) + body
  }

  lemma PackageLen(body: seq<Byte>)
    requires Fits(|body|)
    ensures |Package(body)| == HeaderSize(|body|) + |body|
  {
  }

  lemma PkgReads(s: Stream, total: nat)
    requires total < 0x1000_0000 && Has(s, EncodePkg(total))
    ensures PkgTotal(s) == total && PkgHeader(s) == |EncodePkg(total)|
  {
    var e := EncodePkg(total);
    forall k: nat | k < |e| ensures ByteAfter(s, k) == e[k] { assert s.code[s.p..s.p + |e|][k] == e[k]; }
    hide ByteAfter, Has;
    assert |e| <= Left(s) by { HasRoom(s, e); }
    Nibbles(total);
  }

  lemma HasRoom(s: Stream, bs: seq<Byte>)
    requires Has(s, bs)
    ensures Ok(s) && |bs| <= Left(s) && s.p + |bs| <= s.end
  {
  }

  /** A package's own length leads to its body and past it. */
  lemma PackageReads(s: Stream, body: seq<Byte>)
    requires Fits(|body|) && Has(s, Package(body))
    ensures var h := HeaderSize(|body|); var t := Skip(s, h);
      && PkgHeader(s) == h && PkgTotal(s) == |body| + h && Has(t, body) && Stop(t, |body|) == t.p + |body|
      && Has(Upto(t, t.p + |body|), body)
  {
    var total := |body| + HeaderSize(|body|);
    HasParts(s, EncodePkg(total), body);
    PkgReads(s, total);
    HasUpto(Skip(s, HeaderSize(|body|)), body);
  }

  /* ---- numbers ---- */

  /** The bytes of a number after its opcode. */
  function Width(op: Byte): nat
  {
    match op case 0x0A => 1 case 0x0B => 2 case 0x0C => 4 case 0x0E => 8 case _ => 0
  }

  predicate IsNumeral(op: Byte) { op in {0x00, 0x01, 0xFF, 0x0A, 0x0B, 0x0C, 0x0E} }
}
