/** Declarations of the ACPI machine language (section 20.2.5 of the ACPI Specification): what a list of
    them adds to the names there are, and the bytes it is encoded as. */
module AmlDecls {
  import opened AmlNamespace
  import opened AmlStream
  import opened AmlBytes
  import opened AmlPlaces
  import opened AmlFieldList

  /** `Open` is Scope; `Nest` is Device, Processor, PowerResource and ThermalZone, by opcode; `Value` is Name
      with a number; and `Plain` is Mutex, Event and OperationRegion. */
  datatype Decl =
    | Open(name: Ref, inner: seq<Decl>)
    | Nest(op: Byte, name: Ref, fixed: seq<Byte>, inner: seq<Decl>)
    | Method(name: Ref, flags: Byte, code: seq<Byte>)
    | Value(name: Ref, number: seq<Byte>)
    | Mutex(name: Ref, level: Byte)
    | Event(name: Ref)
    | Region(name: Ref, space: Byte, offset: seq<Byte>, length: seq<Byte>)
    | Fields(region: Ref, flags: Byte, items: seq<FieldItem>)
    | External(name: Ref, kind: Byte, args: Byte)
    | Alias(source: Ref, name: Ref)

  /** A name that bytecode can hold and the decoder's buffer too. */
  predicate NameOk(r: Ref) { RefOk(r) && |r.segs| <= 255 && |Written(r)| < NAME_SIZE }

  /** An opcode and the bytes of the number it announces. */
  predicate NumberOk(bs: seq<Byte>) { bs != [] && IsNumeral(bs[0]) && |bs| == 1 + Width(bs[0]) }

  /** The bytes between the name of a device and what is in it. */
  function FixedBytes(op: Byte): nat { match op case 0x83 => 6 case 0x84 => 3 case _ => 0 }

  ghost predicate DeclOk(d: Decl)
  {
    match d
    case Open(r, ds) => NameOk(r) && forall e <- ds :: DeclOk(e)
    case Nest(op, r, fixed, ds) =>
      0x82 <= op <= 0x85 && NameOk(r) && |fixed| == FixedBytes(op) && forall e <- ds :: DeclOk(e)
    case Method(r, _, _) => NameOk(r)
    case Value(r, n) => NameOk(r) && NumberOk(n)
    case Mutex(r, _) => NameOk(r)
    case Event(r) => NameOk(r)
    case Region(r, _, off, len) => NameOk(r) && NumberOk(off) && NumberOk(len)
    case Fields(r, _, items) => NameOk(r) && forall it <- items :: ItemOk(it)
    case External(r, _, _) => NameOk(r)
    case Alias(q, r) => NameOk(q) && NameOk(r)
  }

  /* ---- what they add ---- */

  /** The code of a method and how many arguments it takes. */
  datatype Code = Code(bytes: seq<Byte>, argc: nat)

  /** The names there are, of what kind each is, and the code of the methods among them. */
  datatype View = View(paths: set<Abs>, kinds: map<Abs, Kind>, methods: map<Abs, Code>)

  /** What is named is of that kind, unless it was something other than a bare scope before; what is
      made on the way to it is a scope. */
  ghost function Spined(ks: map<Abs, Kind>, base: Abs, segs: Abs, kind: Kind): map<Abs, Kind>
  {
    map q | q in ks.Keys + Spine(base, segs) ::
      if q == base + segs && (q !in ks || ks[q] == Scope) then kind else if q in ks then ks[q] else Scope
  }

  ghost function Named(v: View, at: Abs, r: Ref, kind: Kind): View
  {
    v.(paths := v.paths + Spine(Base(at, r), r.segs), kinds := Spined(v.kinds, Base(at, r), r.segs, kind))
  }

  /** The same for several names that are made where they stand. */
  ghost function Ranged(ks: map<Abs, Kind>, names: set<Abs>): map<Abs, Kind>
  {
    map q | q in ks.Keys + names :: if q in names && (q !in ks || ks[q] == Scope) then Object else ks[q]
  }

  /** The names of a list's ranges. */
  ghost function RangeNames(at: Abs, items: seq<FieldItem>): set<Abs>
  {
    set k | 0 <= k < |items| && items[k].Range? :: at + [items[k].seg]
  }

  /** A method is at `p`, whatever was there. */
  function Coded(v: View, p: Abs,
    c: Code): View { v.(kinds := v.kinds[p := Kind.Method], methods := v.methods[p := c]) }

  /** What is at `q` is at `p` as well. */
  function Shared(v: View, q: Abs, p: Abs): View
  {
    v.(kinds := if q in v.kinds then v.kinds[p := v.kinds[q]] else v.kinds,
       methods := if q in v.methods then v.methods[p := v.methods[q]] else v.methods - {p})
  }

  /** One declaration in scope `at`.  What is inside it is declared inside what it names: a device in
      the one it makes, a scope in what its name finds, or else makes. */
  ghost function AfterOne(v: View, at: Abs, d: Decl): View
    decreases d, 0
  {
    match d
    case Open(r, ds) =>
      var f := Found(v.paths, at, r);
      if f.Some? then After(v, f.value, ds) else After(Named(v, at, r, Scope), Target(at, r), ds)
    case Nest(_, r, _, ds) => After(Named(v, at, r, Device), Target(at, r), ds)
    case Method(r, flags, code) => Coded(Named(v, at, r, Kind.Method), Target(at, r), Code(code, flags % 8))
    case Value(r, _) => Named(v, at, r, Object)
    case Mutex(r, _) => Named(v, at, r, Kind.Mutex)
    case Event(r) => Named(v, at, r, Object)
    case Region(r, _, _, _) => Named(v, at, r, Kind.Region)
    case Fields(_, _, items) =>
      v.(paths := v.paths + RangeNames(at, items), kinds := Ranged(v.kinds, RangeNames(at, items)))
    case External(_, _, _) => v
    case Alias(q, r) =>
      var f := Found(v.paths, at, q);
      if f.None? then Named(v, at, r, Object) else Shared(Named(v, at, r, Object), f.value, Target(at, r))
  }

  ghost function After(v: View, at: Abs, ds: seq<Decl>): View
    decreases ds, 1
  {
    if ds == [] then v else After(AfterOne(v, at, ds[0]), at, ds[1..])
  }

  /** No name is ever taken away. */
  lemma {:induction false} OneAdds(v: View, at: Abs, d: Decl)
    ensures v.paths <= AfterOne(v, at, d).paths
    decreases d, 0
  {
    match d
    case Open(r, ds) =>
      var f := Found(v.paths, at, r);
      if f.Some? { Adds(v, f.value, ds); } else { Adds(Named(v, at, r, Scope), Target(at, r), ds); }
    case Nest(_, r, _, ds) => Adds(Named(v, at, r, Device), Target(at, r), ds);
    case _ =>
  }

  lemma {:induction false} Adds(v: View, at: Abs, ds: seq<Decl>)
    ensures v.paths <= After(v, at, ds).paths
    decreases ds, 1
  {
    if ds != [] {
      OneAdds(v, at, ds[0]);
      Adds(AfterOne(v, at, ds[0]), at, ds[1..]);
    }
  }

  /* ---- names as bytes ---- */

  function SegsBytes(segs: Abs): (bs: seq<Byte>)
    requires SegsOk(segs)
    ensures |bs| == 4 * |segs|
  {
    if segs == [] then [] else SegsBytes(segs[..|segs| - 1]) + SegBytes(segs[|segs| - 1])
  }

  function Lead(r: Ref): seq<Byte> { if r.root then [0x5C] else seq(r.up, k => 0x5E) }

  function Count(r: Ref): seq<Byte>
    requires |r.segs| <= 255
  {
    if |r.segs| == 1 then [] else if |r.segs| == 2 then [0x2E] else [0x2F, |r.segs|]
  }

  function NameBytes(r: Ref): seq<Byte>
    requires NameOk(r)
  {
    Lead(r) + Count(r) + SegsBytes(r.segs)
  }

  lemma {:induction false} SegTextIs(s: Stream, segs: Abs)
    requires SegsOk(segs) && Has(s, SegsBytes(segs))
    ensures SegText(s.code, s.p, |segs|) == Dotted(segs)
    decreases |segs|
  {
    hide SegBytes, SegOk;
    if segs != [] {
      var n := |segs|;
      var front, last := segs[..n - 1], segs[n - 1];
      HasParts(s, SegsBytes(front), SegBytes(last));
      SegTextIs(s, front);
      SegReads(Skip(s, 4 * (n - 1)), last);
      DottedLast(segs);
    }
  }

  lemma {:induction false} DottedLast(segs: Abs)
    requires segs != []
    ensures var n := |segs|;
      Dotted(segs) == (if n == 1 then [] else Dotted(segs[..n - 1]) + ['.']) + segs[n - 1]
    decreases |segs|
  {
    hide Dotted;
    var n, rest := |segs|, segs[1..];
    DottedFirst(segs);
    if n == 1 {
      assert [] + segs[0] == segs[0];
    } else {
      var front := segs[..n - 1];
      DottedLast(rest);
      DottedFirst(front);
      assert rest[n - 2] == segs[n - 1];
      if n > 2 {
        assert rest[..n - 2] == front[1..];
        var a, b, c: Path := segs[0] + ['.'], Dotted(front[1..]) + ['.'], segs[n - 1];
        assert a + (b + c) == a + b + c;
      }
    }
  }

  lemma DottedFirst(segs: Abs)
    requires segs != []
    ensures Dotted(segs) == if |segs| == 1 then segs[0] else segs[0] + ['.'] + Dotted(segs[1..])
  {
  }

  lemma {:induction false} CaretsAre(s: Stream, n: nat)
    requires Ok(s) && s.p + n < s.end && (forall k :: s.p <= k < s.p + n ==> s.code[k] == 0x5E)
      && s.code[s.p + n] != 0x5E
    ensures Carets(s) == n
    decreases n
  {
    if n > 0 { CaretsAre(Next(s), n - 1); }
  }

  lemma {:induction false} CaretTextIs(n: nat)
    ensures CaretText(n) == CaretsOf(n)
  {
    if n > 0 { CaretTextIs(n - 1); }
  }

  /** A name that was encoded decodes to itself, and is passed exactly. */
  lemma NameReads(s: Stream, r: Ref)
    requires NameOk(r) && Has(s, NameBytes(r))
    ensures SegStart(s) + 4 * Segments(s) == s.p + |NameBytes(r)| <= s.end
    ensures CStr(Cut(FullName(s))) == Written(r)
  {
    hide Has, Written, SegsBytes, SegText, Prefix, Dotted, SegOk, Segments, SegStart, Count, Lead, Cut, CStr;
    var a, b, c := Lead(r), Count(r), SegsBytes(r.segs);
    assert NameBytes(r) == a + (b + c);
    HasParts(s, a, b + c);
    var t := Skip(s, |a|);
    HasParts(t, b, c);
    SegmentsAre(s, t, r);
    SegTextIs(Skip(t, |b|), r.segs);
    HasRoom(Skip(t, |b|), c);
    WrittenIs(r);
  }

  lemma SegmentsAre(s: Stream, t: Stream, r: Ref)
    requires NameOk(r) && Has(s, Lead(r)) && t == Skip(s, |Lead(r)|) && Has(t, Count(r) + SegsBytes(r.segs))
    ensures SegStart(s) == t.p + |Count(r)| && Segments(s) == |r.segs|
    ensures Prefix(s) == if r.root then ['\\'] else CaretsOf(r.up)
  {
    hide Has, SegsBytes, Prefix, SegOk, Count;
    FirstAfter(t, r);
    PrefixReads(s, r);
    CountReads(t, r);
  }

  lemma FirstAfter(t: Stream, r: Ref)
    requires NameOk(r) && Has(t, Count(r) + SegsBytes(r.segs))
    ensures Ok(t) && t.p < t.end && Peek(t) !in {0x5C, 0x5E, 0x00}
    ensures Peek(t) == (if |r.segs| == 2 then 0x2E else 0x2F) || (|r.segs| == 1 && Peek(t) > 0x2F)
  {
    hide SegsBytes, SegOk, Has;
    HasParts(t, Count(r), SegsBytes(r.segs));
    if |r.segs| == 1 {
      OneSegBytes(r.segs);
      assert [] + SegsBytes(r.segs) == SegsBytes(r.segs);
      SegReads(t, r.segs[0]);
    } else if |r.segs| == 2 {
      HasByte(t, 0x2E, SegsBytes(r.segs));
    } else {
      assert Count(r) + SegsBytes(r.segs) == [0x2F] + ([|r.segs|] + SegsBytes(r.segs));
      HasByte(t, 0x2F, [|r.segs|] + SegsBytes(r.segs));
    }
  }

  lemma OneSegBytes(segs: Abs)
    requires |segs| == 1 && SegsOk(segs)
    ensures SegsBytes(segs) == SegBytes(segs[0])
  {
    assert SegsBytes(segs[..0]) == [];
  }

  lemma PrefixReads(s: Stream, r: Ref)
    requires NameOk(r) && Has(s, Lead(r)) && Ok(Skip(s, |Lead(r)|)) && s.p + |Lead(r)| < s.end
    requires Peek(Skip(s, |Lead(r)|)) !in {0x5C, 0x5E}
    ensures Prefix(s) == if r.root then ['\\'] else CaretsOf(r.up)
  {
    var a := Lead(r);
    forall k | s.p <= k < s.p + |a| ensures s.code[k] == a[k - s.p] {
      assert s.code[s.p..s.p + |a|][k - s.p] == a[k - s.p];
    }
    if !r.root {
      CaretsAre(s, r.up);
      CaretTextIs(r.up);
    }
  }

  lemma CountReads(t: Stream, r: Ref)
    requires NameOk(r) && Has(t, Count(r) + SegsBytes(r.segs)) && t.p < t.end && Peek(t) != 0
    requires Peek(t) == (if |r.segs| == 2 then 0x2E else 0x2F) || (|r.segs| == 1 && Peek(t) > 0x2F)
    ensures |r.segs| == match Peek(t) case 0x00 => 0 case 0x2E => 2 case 0x2F => Peek(Next(t)) case _ => 1
    ensures t.p + |Count(r)|
         == match Peek(t) case 0x00 => Next(t).p case 0x2E => Next(t).p case 0x2F => Next(Next(t)).p case _ => t.p
  {
    hide Has, SegsBytes, SegOk;
    if |r.segs| == 1 {
      OneSegBytes(r.segs);
      assert [] + SegsBytes(r.segs) == SegsBytes(r.segs);
      SegReads(t, r.segs[0]);
    } else if |r.segs| > 2 {
      assert Count(r) + SegsBytes(r.segs) == [0x2F] + ([|r.segs|] + SegsBytes(r.segs));
      HasByte(t, 0x2F, [|r.segs|] + SegsBytes(r.segs));
      HasByte(Next(t), |r.segs|, SegsBytes(r.segs));
    } else {
      HasByte(t, 0x2E, SegsBytes(r.segs));
    }
  }

  lemma WrittenIs(r: Ref)
    requires NameOk(r)
    ensures var w := (if r.root then ['\\'] else CaretsOf(r.up)) + Dotted(r.segs);
      w == Written(r) && CStr(Cut(w)) == w
  {
    hide Dotted, SegOk;
    DottedEnds(r.segs);
    Unterminated(Written(r));
  }

  /* ---- declarations as bytes ---- */

  /** The bytes of a declaration, if its packages are not too long to have a length. */
  ghost function Bytes(d: Decl): Option<seq<Byte>>
    requires DeclOk(d)
    decreases d, 0
  {
    match d
    case Open(r, ds) =>
      var a := BytesAll(ds);
      if a.None? || !Fits(|NameBytes(r) + a.value|) then None else Some([0x10] + Package(NameBytes(r) + a.value))
    case Nest(op, r, fixed, ds) =>
      var a := BytesAll(ds);
      if a.None? || !Fits(|NameBytes(r) + fixed + a.value|) then None
      else Some([0x5B] + ([op] + Package(NameBytes(r) + fixed + a.value)))
    case Method(r, flags, code) =>
      var body := NameBytes(r) + ([flags] + code);
      if Fits(|body|) then Some([0x14] + Package(body)) else None
    case Value(r, n) => Some([0x08] + (NameBytes(r) + n))
    case Mutex(r, level) => Some([0x5B] + ([0x01] + (NameBytes(r) + [level])))
    case Event(r) => Some([0x5B] + ([0x02] + NameBytes(r)))
    case Region(r, space, off, len) => Some([0x5B] + ([0x80] + (NameBytes(r) + ([space] + (off + len)))))
    case Fields(r, flags, items) =>
      var body := NameBytes(r) + ([flags] + ListBytes(items));
      if Fits(|body|) then Some([0x5B] + ([0x81] + Package(body))) else None
    case External(r, kind, args) => Some([0x15] + (NameBytes(r) + [kind, args]))
    case Alias(q, r) => Some([0x06] + (NameBytes(q) + NameBytes(r)))
  }

  ghost function BytesAll(ds: seq<Decl>): Option<seq<Byte>>
    requires forall d <- ds :: DeclOk(d)
    decreases ds, 1
  {
    if ds == [] then Some([])
    else
      var a, b := Bytes(ds[0]), BytesAll(ds[1..]);
      if a.None? || b.None? then None else Some(a.value + b.value)
  }

  /** A list is next in the stream, and nothing after it. */
  ghost predicate ListHere(s: Stream, ds: seq<Decl>)
  {
    (forall d <- ds :: DeclOk(d)) && BytesAll(ds).Some? && Has(s, BytesAll(ds).value)
      && s.end == s.p + |BytesAll(ds).value|
  }

  /** A declaration is next. */
  ghost predicate DeclHere(s: Stream, d: Decl) { DeclOk(d) && Bytes(d).Some? && Has(s, Bytes(d).value) }

  lemma ListNext(s: Stream, ds: seq<Decl>)
    requires ListHere(s, ds)
    ensures ds == [] <==> s.p == s.end
    ensures ds != [] ==>
      && DeclHere(s, ds[0]) && Bytes(ds[0]).value != []
      && ListHere(Skip(s, |Bytes(ds[0]).value|), ds[1..])
  {
    hide Has, DeclOk, Bytes;
    if ds != [] {
      var a, b := Bytes(ds[0]).value, BytesAll(ds[1..]).value;
      HasParts(s, a, b);
      SomeBytes(ds[0]);
    }
  }

  lemma SomeBytes(d: Decl)
    requires DeclOk(d) && Bytes(d).Some?
    ensures Bytes(d).value != []
  {
    hide Package, NameBytes, BytesAll, ListBytes;
  }

  /* ---- what is found where ---- */

  /** After the opcode of a construct: its package, whose body starts with its name. */
  lemma BodyReads(s: Stream, r: Ref, rest: seq<Byte>)
    requires NameOk(r) && Fits(|NameBytes(r) + rest|) && Has(s, Package(NameBytes(r) + rest))
    ensures var body := NameBytes(r) + rest; var t := Skip(s, HeaderSize(|body|));
      && PkgHeader(s) == HeaderSize(|body|) && PkgTotal(s) == |body| + HeaderSize(|body|)
      && Stop(t, |body|) == t.p + |body| == s.p + |Package(body)|
      && Has(t, NameBytes(r)) && Has(Upto(Skip(t, |NameBytes(r)|), t.p + |body|), rest)
  {
    hide Has, NameBytes, PkgHeader, PkgTotal, Package;
    var a := NameBytes(r);
    PackageLen(a + rest);
    PackageReads(s, a + rest);
    var t := Skip(s, HeaderSize(|a + rest|));
    HasParts(t, a, rest);
    HasUpto(Skip(t, |a|), rest);
  }

  /** What is in the bytes of each kind, after its first. */
  lemma DeclReads(s: Stream, d: Decl)
    requires DeclHere(s, d)
    ensures s.p < s.end && |Bytes(d).value| > 0 && Has(Next(s), Bytes(d).value[1..])
    ensures Peek(s) == match d case Open(_, _) => 0x10 case Method(_, _, _) => 0x14 case Value(_, _) => 0x08
                               case External(_, _, _) => 0x15 case Alias(_, _) => 0x06 case _ => 0x5B
  {
    hide Has, Package, NameBytes, BytesAll, ListBytes;
    var bs := Bytes(d).value;
    assert bs == [bs[0]] + bs[1..];
    HasByte(s, bs[0], bs[1..]);
  }

  /** And after its second, of those that have two. */
  lemma ExtendedReads(s: Stream, d: Decl)
    requires DeclHere(s, d) && !d.Open? && !d.Method? && !d.Value? && !d.External? && !d.Alias?
    ensures s.p + 1 < s.end && |Bytes(d).value| > 1 && Has(Next(Next(s)), Bytes(d).value[2..])
    ensures Next(s) == Skip(s, 1) && Next(Next(s)) == Skip(s, 2)
    ensures Peek(Next(s)) == match d case Nest(op, _, _, _) => op case Mutex(_, _) => 0x01 case Event(_) => 0x02
                                     case Region(_, _, _, _) => 0x80 case _ => 0x81
  {
    hide Has, Package, NameBytes, BytesAll, ListBytes;
    DeclReads(s, d);
    var bs := Bytes(d).value[1..];
    assert bs == [bs[0]] + bs[1..] && bs[1..] == Bytes(d).value[2..];
    HasByte(Next(s), bs[0], bs[1..]);
  }

  /** A package that starts with a name: how the decoder sees it. */
  ghost predicate Opens(s: Stream, r: Ref, rest: seq<Byte>, len: nat)
  {
    && NameOk(r) && Ok(s) && PkgTotal(s) >= PkgHeader(s) && len == PkgTotal(s) - PkgHeader(s)
      && s.p + PkgHeader(s) <= s.end
    && var t := Skip(s, PkgHeader(s));
    var u := Skip(t, |NameBytes(r)|);
    && SegStart(t) + 4 * Segments(t) == u.p <= t.end && CStr(Cut(FullName(t))) == Written(r)
    && Stop(t, len) == u.p + |rest| && Has(Upto(u, u.p + |rest|), rest)
  }

  lemma PackageOpens(s: Stream, r: Ref, rest: seq<Byte>)
    requires NameOk(r) && Fits(|NameBytes(r) + rest|) && Has(s, Package(NameBytes(r) + rest))
    ensures Opens(s, r, rest, |NameBytes(r) + rest|)
    ensures Stop(Skip(s, PkgHeader(s)), |NameBytes(r) + rest|) == s.p + |Package(NameBytes(r) + rest)|
  {
    hide Has, NameBytes, PkgHeader, PkgTotal, Package, Written, SegStart, Segments, FullName, Cut, CStr, HeaderSize;
    HasRoom(s, Package(NameBytes(r) + rest));
    PackageLen(NameBytes(r) + rest);
    BodyReads(s, r, rest);
    NameReads(Skip(s, PkgHeader(s)), r);
  }

  /** The declaration `k` bytes back, as what is left of it here. */
  lemma OpenReads(s: Stream, d: Decl)
    requires s.p >= 1 && DeclHere(s.(p := s.p - 1), d) && d.Open?
    ensures (forall e <- d.inner :: DeclOk(e)) && BytesAll(d.inner).Some? && NameOk(d.name)
    ensures var rest := BytesAll(d.inner).value;
      Opens(s, d.name, rest, |NameBytes(d.name) + rest|)
        && Stop(Skip(s, PkgHeader(s)), |NameBytes(d.name) + rest|) == s.p - 1 + |Bytes(d).value|
  {
    hide Has, NameBytes, Package, Opens, PkgHeader, NameOk, BytesAll;
    DeclReads(s.(p := s.p - 1), d);
    var rest := BytesAll(d.inner).value;
    assert Bytes(d).value[1..] == Package(NameBytes(d.name) + rest);
    PackageOpens(s, d.name, rest);
  }

  lemma NestReads(s: Stream, d: Decl)
    requires s.p >= 2 && DeclHere(s.(p := s.p - 2), d) && d.Nest?
    ensures (forall e <- d.inner :: DeclOk(e)) && BytesAll(d.inner).Some? && NameOk(d.name)
    ensures var rest := d.fixed + BytesAll(d.inner).value;
      Opens(s, d.name, rest, |NameBytes(d.name) + rest|)
        && Stop(Skip(s, PkgHeader(s)), |NameBytes(d.name) + rest|) == s.p - 2 + |Bytes(d).value|
  {
    hide Has, NameBytes, Package, Opens, PkgHeader, NameOk, BytesAll;
    ExtendedReads(s.(p := s.p - 2), d);
    var rest := d.fixed + BytesAll(d.inner).value;
    assert NameBytes(d.name) + d.fixed + BytesAll(d.inner).value == NameBytes(d.name) + rest;
    assert Bytes(d).value[2..] == Package(NameBytes(d.name) + rest);
    PackageOpens(s, d.name, rest);
  }

  lemma MethodDeclReads(s: Stream, d: Decl)
    requires s.p >= 1 && DeclHere(s.(p := s.p - 1), d) && d.Method?
    ensures NameOk(d.name)
    ensures var rest := [d.flags] + d.code;
      Opens(s, d.name, rest, |NameBytes(d.name) + rest|)
        && Stop(Skip(s, PkgHeader(s)), |NameBytes(d.name) + rest|) == s.p - 1 + |Bytes(d).value|
  {
    hide Has, NameBytes, Package, Opens, PkgHeader, NameOk;
    DeclReads(s.(p := s.p - 1), d);
    var rest := [d.flags] + d.code;
    assert Bytes(d).value[1..] == Package(NameBytes(d.name) + rest);
    PackageOpens(s, d.name, rest);
  }

  lemma FieldsRead(s: Stream, d: Decl)
    requires s.p >= 2 && DeclHere(s.(p := s.p - 2), d) && d.Fields?
    ensures NameOk(d.region) && forall it <- d.items :: ItemOk(it)
    ensures var rest := [d.flags] + ListBytes(d.items);
      Opens(s, d.region, rest, |NameBytes(d.region) + rest|)
        && Stop(Skip(s, PkgHeader(s)), |NameBytes(d.region) + rest|) == s.p - 2 + |Bytes(d).value|
  {
    hide Has, NameBytes, Package, Opens, PkgHeader, NameOk, ListBytes;
    ExtendedReads(s.(p := s.p - 2), d);
    var rest := [d.flags] + ListBytes(d.items);
    assert Bytes(d).value[2..] == Package(NameBytes(d.region) + rest);
    PackageOpens(s, d.region, rest);
  }

  /** A declaration that is a name and a few bytes, after the name. */
  ghost predicate NamedHere(s: Stream, r: Ref, rest: seq<Byte>)
  {
    && NameOk(r) && Ok(s) && SegStart(s) + 4 * Segments(s) == s.p + |NameBytes(r)| <= s.end
    && CStr(Cut(FullName(s))) == Written(r) && Has(Skip(s, |NameBytes(r)|), rest)
  }

  lemma NameThen(s: Stream, r: Ref, rest: seq<Byte>)
    requires NameOk(r) && Has(s, NameBytes(r) + rest)
    ensures NamedHere(s, r, rest)
  {
    hide NameBytes, Written, SegStart, Segments, FullName, Cut, CStr;
    HasParts(s, NameBytes(r), rest);
    NameReads(s, r);
  }

  /** What follows the name in each of them. */
  function Trailer(d: Decl): seq<Byte>
  {
    match d
    case Value(_, n) => n
    case Mutex(_, level) => [level]
    case Region(_, space, off, len) => [space] + (off + len)
    case External(_, kind, args) => [kind, args]
    case _ => []
  }

  /** And of what kind each makes its name. */
  function KindFor(d: Decl): Kind { match d case Mutex(_, _) => Kind.Mutex case Region(_, _, _,
    _) => Kind.Region case _ => Object }

  predicate IsPlain(d: Decl) { d.Value? || d.Mutex? || d.Event? || d.Region? || d.External? }

  lemma PlainBytes(d: Decl)
    requires IsPlain(d) && DeclOk(d)
    ensures NameOk(d.name) && Bytes(d).Some?
    ensures var k := if d.Value? || d.External? then 1 else 2; var bs := Bytes(d).value;
      |bs| == k + |NameBytes(d.name)| + |Trailer(d)| && bs[k..] == NameBytes(d.name) + Trailer(d)
  {
    hide NameBytes, NameOk, NumberOk;
    var a := NameBytes(d.name);
    match d
    case Event(_) => assert [0x5B] + ([0x02] + a) == [0x5B, 0x02] + (a + []);
    case _ =>
  }

  lemma PlainReads(s: Stream, k: nat, d: Decl)
    requires IsPlain(d) && k == (if d.Value? || d.External? then 1 else 2) && s.p >= k && DeclHere(s.(p := s.p - k), d)
    ensures NameOk(d.name) && NamedHere(s, d.name, Trailer(d))
    ensures |Bytes(d).value| == k + |NameBytes(d.name)| + |Trailer(d)|
  {
    hide Has, NameBytes, NameOk, NamedHere, Trailer, Bytes;
    var b := s.(p := s.p - k);
    DeclReads(b, d);
    if k == 2 { ExtendedReads(b, d); }
    PlainBytes(d);
    NameThen(s, d.name, Trailer(d));
  }

  lemma AliasReads(s: Stream, d: Decl)
    requires s.p >= 1 && DeclHere(s.(p := s.p - 1), d) && d.Alias?
    ensures NameOk(d.source) && NameOk(d.name) && NamedHere(s, d.source, NameBytes(d.name))
    ensures NamedHere(Skip(s, |NameBytes(d.source)|), d.name, [])
    ensures |Bytes(d).value| == 1 + |NameBytes(d.source)| + |NameBytes(d.name)|
  {
    hide Has, NameBytes, NameOk, NamedHere;
    var a, b := NameBytes(d.source), NameBytes(d.name);
    DeclReads(s.(p := s.p - 1), d);
    assert Bytes(d).value[1..] == a + b && b + [] == b;
    NameThen(s, d.source, b);
    HasParts(s, a, b);
    NameThen(Skip(s, |a|), d.name, []);
  }

  lemma FewerPaths(a: set<Abs>, b: set<Abs>)
    requires a <= b
    ensures |a| <= |b|
  {
    assert b == a + (b - a);
  }

  /** There is room for the first of a list where there is for all of it. */
  lemma FirstFits(v: View, at: Abs, ds: seq<Decl>)
    requires ds != []
    ensures |AfterOne(v, at, ds[0]).paths| <= |After(v, at, ds).paths|
  {
    hide AfterOne;
    Adds(AfterOne(v, at, ds[0]), at, ds[1..]);
    FewerPaths(AfterOne(v, at, ds[0]).paths, After(v, at, ds).paths);
  }

  /** And for the name of what is opened or nested where there is for what is in it. */
  lemma NameFits(v: View, at: Abs, r: Ref, kind: Kind, p: Abs, ds: seq<Decl>)
    ensures |Named(v, at, r, kind).paths| <= |After(Named(v, at, r, kind), p, ds).paths|
  {
    hide Named;
    Adds(Named(v, at, r, kind), p, ds);
    FewerPaths(Named(v, at, r, kind).paths, After(Named(v, at, r, kind), p, ds).paths);
  }

  /* ---- what a list comes to ---- */

  lemma {:induction false} AfterMore(v: View, at: Abs, a: seq<Decl>, b: seq<Decl>)
    ensures After(v, at, a + b) == After(After(v, at, a), at, b)
    decreases |a|
  {
    hide AfterOne;
    if a == [] {
      assert a + b == b;
    } else {
      assert (a + b)[0] == a[0] && (a + b)[1..] == a[1..] + b;
      AfterMore(AfterOne(v, at, a[0]), at, a[1..], b);
    }
  }

  /** A method nested in devices, each in the one before, is at the path their names make together,
      whatever stands before it in the innermost. */
  lemma {:induction false} Nested(v: View, at: Abs, names: seq<Ref>, before: seq<Decl>, r: Ref, flags: Byte,
    code: seq<Byte>)
    requires names != []
    ensures var p, d := Target(Within(at, names), r), NestIn(names, before + [Decl.Method(r, flags, code)]);
      var w := AfterOne(v, at, d);
      p in w.methods && w.methods[p] == Code(code, flags % 8) && p in w.kinds && w.kinds[p] == Kind.Method
    decreases |names|
  {
    hide Spine, Target;
    var m := Decl.Method(r, flags, code);
    var u, at1, rest := Named(v, at, names[0], Device), Target(at, names[0]), names[1..];
    if rest == [] {
      AfterMore(u, at1, before, [m]);
      OneOf(After(u, at1, before), at1, m);
    } else {
      Nested(u, at1, rest, before, r, flags, code);
      OneOf(u, at1, NestIn(rest, before + [m]));
    }
  }

  lemma OneOf(v: View, at: Abs, d: Decl)
    ensures After(v, at, [d]) == AfterOne(v, at, d)
  {
    hide AfterOne;
    assert [d][1..] == [];
    var u := AfterOne(v, at, d);
    assert After(u, at, []) == u;
  }

  /** The scope that names one inside the other lead to. */
  function Within(at: Abs, names: seq<Ref>): Abs
    decreases |names|
  {
    if names == [] then at else Within(Target(at, names[0]), names[1..])
  }

  function NestIn(names: seq<Ref>, inner: seq<Decl>): Decl
    requires names != []
    decreases |names|
  {
    if |names| == 1 then Nest(0x82, names[0], [], inner)
    else Nest(0x82, names[0], [], [NestIn(names[1..], inner)])
  }

  const SB: Seg := ['_', 'S', 'B', '_']
  const FOO: Seg := ['F', 'O', 'O', '_']
  const FOO_IN_SB: Decl := Open(Ref(true, 0, [SB]), [Decl.Method(Ref(false, 0, [FOO]), 0, [])])

  /** An instance: fourteen bytes that open the system bus and declare a method in it. */
  lemma FooInSb(v: View)
    ensures DeclOk(FOO_IN_SB) && Bytes(FOO_IN_SB)
      == Some([0x10, 0x0D, 0x5C, 0x5F, 0x53, 0x42, 0x5F, 0x14, 0x06, 0x46, 0x4F, 0x4F, 0x5F, 0x00])
    ensures AfterOne(v, [], FOO_IN_SB).methods == v.methods[[SB, FOO] := Code([], 0)]
  {
    hide NameBytes, NameOk, Package, BytesAll;
    var sb, foo := Ref(true, 0, [SB]), Ref(false, 0, [FOO]);
    var m := Decl.Method(foo, 0, []);
    NamesSpelt();
    FooSpelt();
    var body := NameBytes(sb) + BytesAll([m]).value;
    assert body == [0x5C, 0x5F, 0x53, 0x42, 0x5F, 0x14, 0x06, 0x46, 0x4F, 0x4F, 0x5F, 0x00];
    ShortPackage(body);
    assert [0x10] + ([0x0D] + body)
        == [0x10, 0x0D, 0x5C, 0x5F, 0x53, 0x42, 0x5F, 0x14, 0x06, 0x46, 0x4F, 0x4F, 0x5F, 0x00];
    hide AfterOne;
    FooAfter(v);
  }

  lemma FooAfter(v: View)
    ensures AfterOne(v, [], FOO_IN_SB).methods == v.methods[[SB, FOO] := Code([], 0)]
  {
    hide Named, Found;
    var sb, m := Ref(true, 0, [SB]), Decl.Method(Ref(false, 0, [FOO]), 0, []);
    OneOf(v, [SB], m);
    OneOf(Named(v, [], sb, Scope), [SB], m);
    assert Target([], sb) == [SB] && Target([SB], m.name) == [SB, FOO];
    FoundThere(v, sb);
    NamedSame(v, [], sb, Scope);
    NamedSame(v, [SB], m.name, Kind.Method);
    NamedSame(Named(v, [], sb, Scope), [SB], m.name, Kind.Method);
  }

  lemma NamedSame(v: View, at: Abs, r: Ref, kind: Kind)
    ensures Named(v, at, r, kind).methods == v.methods
  {
  }

  lemma FoundThere(v: View, r: Ref)
    requires r.root
    ensures Found(v.paths, [], r).Some? ==> Found(v.paths, [], r).value == r.segs
  {
    assert [] + r.segs == r.segs;
  }

  lemma ShortPackage(body: seq<Byte>)
    requires |body| < 0x3F
    ensures Package(body) == [|body| + 1] + body
  {
  }

  lemma FooSpelt()
    ensures var m := Decl.Method(Ref(false, 0, [FOO]), 0, []);
      DeclOk(m) && BytesAll([m]) == Some([0x14, 6, 0x46, 0x4F, 0x4F, 0x5F, 0])
  {
    hide NameBytes, NameOk, Package;
    var m := Decl.Method(Ref(false, 0, [FOO]), 0, []);
    NamesSpelt();
    var body := NameBytes(Ref(false, 0, [FOO])) + ([0] + []);
    assert body == [0x46, 0x4F, 0x4F, 0x5F, 0];
    ShortPackage(body);
    var bs := [0x14, 6, 0x46, 0x4F, 0x4F, 0x5F, 0];
    assert [0x14] + ([6] + body) == bs;
    assert [m][1..] == [] && BytesAll([]) == Some([]) && bs + [] == bs;
  }

  lemma NamesSpelt()
    ensures NameOk(Ref(true, 0, [SB])) && NameBytes(Ref(true, 0, [SB])) == [0x5C, 0x5F, 0x53, 0x42, 0x5F]
    ensures NameOk(Ref(false, 0, [FOO])) && NameBytes(Ref(false, 0, [FOO])) == [0x46, 0x4F, 0x4F, 0x5F]
  {
    assert SegOk(SB) && SegOk(FOO);
    OneSegBytes([SB]);
    OneSegBytes([FOO]);
  }
}
