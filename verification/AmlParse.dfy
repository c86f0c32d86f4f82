/** The load pass (kernel/acpi/aml_parse.c): declarations read from a table into the
    namespace, for any bytes whatever. */
module AmlParse {
  import opened AmlNamespace
  import opened AmlStream
  import opened AmlBytes
  import opened AmlPlaces
  import opened AmlFieldList
  import D = AmlDecls
  import F = AmlFields

  const MAX_ARGS: nat := 7
  const MAX_ELEMENTS: nat := 512

  /** What evaluating or reading data gives: nothing, a number, or some other object. */
  datatype Value = Nothing | Int(n: nat) | Thing

  /** A method's code, and how many arguments it takes. */
  datatype Body = Body(stream: Stream, argc: nat)

  /** Names and places stay; kinds may change. */
  ghost predicate Evolves(t: Tree, t': Tree)
  {
    && |t| <= |t'|
    && forall i :: 0 <= i < |t| ==>
         t'[i].name == t[i].name && t'[i].parent == t[i].parent && t[i].children <= t'[i].children
  }

  lemma EvolvesRefl(t: Tree)
    ensures Evolves(t, t)
  {
  }

  lemma EvolvesKeeps(t: Tree, t': Tree)
    requires Evolves(t, t')
    ensures Keeps(t, t')
  {
  }

  lemma EvolvesTrans(t: Tree, u: Tree, w: Tree)
    requires Evolves(t, u) && Evolves(u, w)
    ensures Evolves(t, w)
  {
  }

  /** aml_to_integer: strings and buffers have a value too, which is not modelled. */
  method AsInteger(v: Value) returns (n: nat)
    ensures v.Int? ==> n == v.n
    ensures v.Nothing? ==> n == 0
  {
    match v
    case Nothing => n := 0;
    case Int(k) => n := k;
    case Thing => n := *;
  }

  function Pow256(k: nat): nat { if k == 0 then 1 else 256 * Pow256(k - 1) }

  /** The number that `count` bytes spell, least significant first. */
  function LittleEndian(s: Stream, count: nat): nat
    requires Ok(s)
  {
    if count == 0 then 0 else LittleEndian(s, count - 1) + ByteAfter(s, count - 1) * Pow256(count - 1)
  }

  method ReadInteger(s: Stream, count: nat) returns (t: Stream, n: nat)
    requires Ok(s)
    ensures Moved(s, t) && n == LittleEndian(s, count) && t.p == if s.p + count <= s.end then s.p + count else s.end
  {
    t, n := s, 0;
    var scale: nat := 1;
    for i := 0 to count
      invariant Moved(s, t) && t.p == (if s.p + i <= s.end then s.p + i else s.end)
      invariant n == LittleEndian(s, i) && scale == Pow256(i)
    {
      n := n + Peek(t) * scale;
      t := Next(t);
      scale := scale * 256;
    }
  }

  /** A string literal: up to the terminator, and past it. */
  method ReadString(s: Stream) returns (t: Stream)
    requires Ok(s)
    ensures Moved(s, t)
    ensures forall k :: s.p <= k < t.p - 1 ==> s.code[k] != 0
    ensures t.p == s.end || (s.p < t.p && s.code[t.p - 1] == 0)
  {
    t := s;
    while t.p < t.end && t.code[t.p] != 0
      invariant Moved(s, t)
      invariant forall k :: s.p <= k < t.p ==> s.code[k] != 0
    {
      t := Next(t);
    }
    t := Next(t);
  }

  /* ---- data ---- */

  predicate IsData(op: Byte) { op in {0x00, 0x01, 0xFF, 0x0A, 0x0B, 0x0C, 0x0D, 0x0E, 0x11, 0x12, 0x13} }

  /** The number a numeral stands for. */
  function Numeral(s: Stream): nat
    requires Ok(s)
  {
    match Peek(s)
    case 0x00 => 0
    case 0x01 => 1
    case 0xFF => 0xFFFF_FFFF_FFFF_FFFF
    case op => LittleEndian(Next(s), Width(op))
  }

  /** One data object.  What is not data is left where it is. */
  method ParseData(s: Stream) returns (t: Stream, v: Value)
    requires Ok(s)
    ensures IsNumeral(Peek(s)) && s.p + 1 + Width(Peek(s)) <= s.end ==>
      v == Int(Numeral(s)) && t.p == s.p + 1 + Width(Peek(s))
    ensures Moved(s, t) && (s.p < s.end && IsData(Peek(s)) ==> s.p < t.p)
    ensures !IsData(Peek(s)) ==> t == s && v.Nothing?
    decreases Left(s), 0
  {
    var op := Peek(s);
    t := Next(s);
    match op {
      case 0x00 => v := Int(0);
      case 0x01 => v := Int(1);
      case 0xFF => v := Int(0xFFFF_FFFF_FFFF_FFFF);
      case 0x0A => var n; t, n := ReadInteger(t, 1); v := Int(n);
      case 0x0B => var n; t, n := ReadInteger(t, 2); v := Int(n);
      case 0x0C => var n; t, n := ReadInteger(t, 4); v := Int(n);
      case 0x0E => var n; t, n := ReadInteger(t, 8); v := Int(n);
      case 0x0D => t := ReadString(t); v := Thing;
      case 0x11 => t := ParseBuffer(t); v := Thing;
      case 0x12 => t := ParsePackage(t, false); v := Thing;
      case 0x13 => t := ParsePackage(t, true); v := Thing;
      case _ => t := s; v := Nothing;
    }
  }

  method ParseBuffer(s: Stream) returns (t: Stream)
    requires Ok(s)
    ensures Moved(s, t)
    decreases Left(s), 1
  {
    var len;
    t, len := PkgLength(s);
    var stop := Stop(t, len);
    var sub, size := ParseData(Upto(t, stop));
    t := t.(p := stop);
  }

  /** A package.  The element count may be read from beyond the package's own end, in
      which case no element is. */
  method ParsePackage(s: Stream, variable: bool) returns (t: Stream)
    requires Ok(s)
    ensures Moved(s, t)
    decreases Left(s), 1
  {
    var len;
    t, len := PkgLength(s);
    var stop := Stop(t, len);
    var at, count := t, 0;
    if variable {
      var sub, n := ParseData(Upto(t, stop));
      count := AsInteger(n);
      at := t.(p := sub.p);
    } else {
      count := Peek(t);
      at := Next(t);
    }
    if count > MAX_ELEMENTS { count := MAX_ELEMENTS; }
    for i := 0 to count
      invariant at == t.(p := at.p) && t.p <= at.p <= t.end
    {
      if at.p < stop {
        var sub, _ := ParseData(Upto(at, stop));
        at := at.(p := sub.p);
      }
    }
    t := t.(p := stop);
  }

  /* ---- field lists ---- */

  /** The field made for a range: the offset is kept in 32 bits. */
  function FieldFor(l: Laid): F.Field { F.Field(l.bit % 0x1_0000_0000, l.len, l.access) }

  /** Node `n` is the one a range is named by, and `f` is its field. */
  ghost predicate IsField(t: Tree, scope: nat, l: Laid, n: nat, f: F.Field)
  {
    n < |t| && t[n].parent == Some(scope) && |l.seg| == 4 && t[n].name == Pad(l.seg) && f == FieldFor(l)
  }

  /** Every field there is was there before or is one of the ranges, under its name. */
  ghost predicate FieldsCame(before: map<nat, F.Field>, after: map<nat, F.Field>, t: Tree, scope: nat, laid: seq<Laid>)
  {
    && before.Keys <= after.Keys
    && forall n <- after :: (n in before && after[n] == before[n])
         || exists k :: 0 <= k < |laid| && IsField(t, scope, laid[k], n, after[n])
  }

  /** One field may have come, under its name. */
  ghost predicate FieldCame(before: map<nat, F.Field>, after: map<nat, F.Field>, t: Tree, scope: nat, seg: Path,
    f: F.Field)
  {
    && before.Keys <= after.Keys
    && forall n <- after ::
         || (n in before && after[n] == before[n])
         || (n < |t| && t[n].parent == Some(scope) && t[n].name == Pad(seg) && after[n] == f)
  }

  lemma NoFieldsCame(fields: map<nat, F.Field>, t: Tree, scope: nat)
    ensures FieldsCame(fields, fields, t, scope, [])
  {
  }

  lemma FieldsCameMore(before: map<nat, F.Field>, mid: map<nat, F.Field>, after: map<nat, F.Field>, t: Tree, t': Tree,
    scope: nat, laid: seq<Laid>, l: Laid)
    requires FieldsCame(before, mid, t, scope, laid) && Evolves(t, t')
    requires FieldCame(mid, after, t', scope, l.seg, FieldFor(l)) && |l.seg| == 4
    ensures FieldsCame(before, after, t', scope, laid + [l])
  {
    hide Pad;
    forall n <- after | !(n in before && after[n] == before[n])
      ensures exists k :: 0 <= k < |laid + [l]| && IsField(t', scope, (laid + [l])[k], n, after[n])
    {
      if IsField(t', scope, l, n, after[n]) {
        assert (laid + [l])[|laid|] == l;
      } else {
        var k :| 0 <= k < |laid| && IsField(t, scope, laid[k], n, after[n]);
        assert (laid + [l])[k] == laid[k];
      }
    }
  }

  /* ---- declarations ---- */

  /** No method in the table has a package that ends before its flags. */
  ghost predicate Whole(code: seq<Byte>)
  {
    |code| < 0x1_0000_0000 ==>
      forall p, e :: 0 < p <= e <= |code| && code[p - 1] == 0x14 ==> !MethodCutShort(Stream(code, p, e))
  }

  /** Some method in some of the tables does. */
  ghost predicate Torn(tables: set<seq<Byte>>) { exists t <- tables :: !Whole(t) }

  /** Every method has its code, or is one that was cut short; but for `but`, which is being made. */
  ghost predicate Coded(t: Tree, bodies: map<nat, Body>, cuts: map<nat, nat>, but: Option<nat>)
  {
    forall i :: 0 <= i < |t| && but != Some(i) && t[i].kind == Method ==> i in bodies || i in cuts
  }

  lemma CutShort(t: Tree, bodies: map<nat, Body>, cuts: map<nat, nat>, i: nat)
    requires Coded(t, bodies, cuts, None) && i < |t| && t[i].kind == Method && i !in bodies
    ensures i in cuts
  {
  }

  /** The method being made gets its code, or is cut short. */
  lemma CodedSet(t: Tree, bodies: map<nat, Body>, cuts: map<nat, nat>, n: nat, b: Body, c: nat)
    requires Coded(t, bodies, cuts, Some(n))
    ensures Coded(t, bodies[n := b], cuts - {n}, None) && Coded(t, bodies - {n}, cuts[n := c], None)
  {
  }

  lemma CodedStays(t: Tree, t': Tree, bodies: map<nat, Body>, cuts: map<nat, nat>, r: Option<nat>)
    requires Coded(t, bodies, cuts, None) && KindsKept(t, t', r)
    ensures Coded(t', bodies, cuts, r)
  {
  }

  lemma CodedAfter(t: Tree, t': Tree, bodies: map<nat, Body>, cuts: map<nat, nat>, r: Option<nat>, kind: Kind)
    requires Coded(t, bodies, cuts, None) && KindsKept(t, t', r) && kind != Method
    requires r.Some? ==>
      r.value < |t'| && (t'[r.value].kind == kind || (r.value < |t| && t'[r.value].kind == t[r.value].kind))
    ensures Coded(t', bodies, cuts, None)
  {
  }

  lemma CodedBut(t: Tree, t': Tree, bodies: map<nat, Body>, cuts: map<nat, nat>, n: nat)
    requires Coded(t, bodies, cuts, Some(n)) && n < |t| == |t'| && t' == t[n := t'[n]]
    ensures Coded(t', bodies, cuts, Some(n))
  {
  }

  function Copied<T>(m: map<nat, T>, src: nat, dst: nat): map<nat, T>
  {
    if src in m then m[dst := m[src]] else m - {dst}
  }

  lemma CopyCoded(t: Tree, bodies: map<nat, Body>, cuts: map<nat, nat>, src: nat, dst: nat)
    requires Coded(t, bodies, cuts, None) && src < |t| && dst < |t|
    ensures Coded(t[dst := t[dst].(kind := t[src].kind)], Copied(bodies, src, dst), Copied(cuts, src, dst), None)
  {
  }

  lemma CutsRemain(cuts: map<nat, nat>, src: nat, dst: nat)
    ensures Copied(cuts, src, dst) != map[] ==> cuts != map[]
  {
    if cuts == map[] { assert Copied(cuts, src, dst) == map[]; }
  }

  lemma GrowsEvolves(t: Tree, t': Tree)
    requires Grows(t, t')
    ensures |t| <= |t'| && Evolves(t, t')
  {
  }

  lemma KindEvolves(t: Tree, n: nat, kind: Kind)
    requires n < |t|
    ensures Evolves(t, t[n := t[n].(kind := kind)])
  {
  }

  lemma TornBy(s: Stream, tables: set<seq<Byte>>)
    requires Ok(s) && 0 < s.p && s.code[s.p - 1] == 0x14 && s.code in tables
    ensures MethodCutShort(s) ==> Torn(tables)
  {
    hide MethodCutShort;
    assert s == Stream(s.code, s.p, s.end);
    if MethodCutShort(s) { assert !Whole(s.code); }
  }

  /** What decoding finds of a method is what the table describes. */
  lemma MethodIs(s: Stream, u: Stream, ok: bool, name: Path)
    requires Ok(s)
    requires var t := s.(p := s.p + PkgHeader(s));
      && (ok <==> SegStart(t) + 4 * Segments(t) <= t.end) && Moved(t, u)
      && (ok ==> u.p == SegStart(t) + 4 * Segments(t) && name == CStr(Cut(FullName(t))))
    ensures NameOf(s) == if ok then Some(name) else None
    ensures MethodOf(s) == if ok && Next(u).p <= MethodEnd(s)
                           then Some(MethodDecl(name, Body(Upto(Next(u), MethodEnd(s)), Peek(u) % 8))) else None
    ensures ok ==> (MethodCutShort(s) <==> Next(u).p > MethodEnd(s))
  {
    hide PkgTotal, PkgHeader, Prefix, FullName, SegStart, Segments, CStr, Cut;
  }

  /** The method described here is in the namespace, where there was memory for its name, and
      its code with it exactly when its package is not cut short. */
  ghost predicate Declares(nodes: Tree, bodies: map<nat, Body>, s: Stream, scope: nat, t: Tree, room: nat)
    requires Ok(s)
  {
    NameOf(s).Some? && room >= Needs(t, Some(scope), NameOf(s).value) ==>
      var c := Created(nodes, Some(scope), NameOf(s).value);
      && c.Some? && c.value < |nodes| && nodes[c.value].kind == Method
      && (c.value in bodies <==> !MethodCutShort(s))
      && (MethodOf(s).Some? ==> c.value in bodies && bodies[c.value] == MethodOf(s).value.body)
  }

  /* ---- the namespace as its paths ---- */

  ghost predicate InTree(t: Tree, bodies: map<nat, Body>) { forall n <- bodies :: n < |t| && Ok(bodies[n].stream) }

  /** The code of a method as bytes. */
  function CodeOf(b: Body): D.Code
    requires Ok(b.stream)
  {
    D.Code(b.stream.code[b.stream.p..b.stream.end], b.argc)
  }

  lemma PathsDiffer(t: Tree)
    requires AmlNamespace.Valid(t)
    ensures forall i: nat, j: nat :: i < |t| && j < |t| && PathTo(t, i) == PathTo(t, j) ==> i == j
  {
    hide AmlNamespace.Valid, PathTo;
    forall i: nat, j: nat | i < |t| && j < |t| && PathTo(t, i) == PathTo(t, j) ensures i == j { OnePath(t, i, j); }
  }

  /** What was a method is one, and nothing else that was there is. */
  ghost predicate SameMethods(t: Tree, t': Tree)
  {
    |t| <= |t'| && forall i :: 0 <= i < |t| ==> (t'[i].kind == Method <==> t[i].kind == Method)
  }

  lemma SameRefl(t: Tree)
    ensures SameMethods(t, t)
  {
  }

  lemma SameTrans(t: Tree, u: Tree, t': Tree)
    requires SameMethods(t, u) && SameMethods(u, t')
    ensures SameMethods(t, t')
  {
  }

  lemma GrownSame(t: Tree, t': Tree, r: Option<nat>, kind: Kind)
    requires Grows(t, t') && KindsKept(t, t', r) && kind != Method
    requires r.Some? ==>
      r.value < |t'| && (t'[r.value].kind == kind || (r.value < |t| && t'[r.value].kind == t[r.value].kind))
    ensures SameMethods(t, t')
  {
  }

  /** The methods there are, by their absolute paths.  What was stored to is a method no more. */
  ghost function Methods(t: Tree, bodies: map<nat, Body>): map<Abs, D.Code>
    requires AmlNamespace.Valid(t) && InTree(t, bodies)
  {
    PathsDiffer(t);
    map n | n in bodies && t[n].kind == Method :: PathTo(t, n) := CodeOf(bodies[n])
  }

  /** What each name is of, by absolute path. */
  ghost function Kinds(t: Tree): map<Abs, Kind>
    requires AmlNamespace.Valid(t)
  {
    map p | p in Paths(t) :: t[NodeOf(t, p)].kind
  }

  ghost function NodeOf(t: Tree, p: Abs): (i: nat)
    requires AmlNamespace.Valid(t) && p in Paths(t)
    ensures i < |t| && PathTo(t, i) == p
  {
    var i: nat :| i < |t| && PathTo(t, i) == p;
    i
  }

  lemma KindOf(t: Tree, i: nat)
    requires AmlNamespace.Valid(t) && i < |t|
    ensures PathTo(t, i) in Kinds(t) && Kinds(t)[PathTo(t, i)] == t[i].kind
  {
    hide AmlNamespace.Valid, PathTo, Paths;
    OnPaths(t, i);
    OnePath(t, NodeOf(t, PathTo(t, i)), i);
  }

  lemma WhichNode(t: Tree, p: Abs) returns (i: nat)
    requires AmlNamespace.Valid(t) && p in Paths(t)
    ensures i < |t| && PathTo(t, i) == p && p in Kinds(t) && Kinds(t)[p] == t[i].kind
  {
    hide AmlNamespace.Valid, PathTo, Kinds;
    i := NodeOf(t, p);
    KindOf(t, i);
  }

  lemma KindsKeys(t: Tree)
    requires AmlNamespace.Valid(t)
    ensures Kinds(t).Keys == Paths(t)
  {
    hide AmlNamespace.Valid, PathTo;
  }

  /** A node is of that kind, unless it was something other than a bare scope; the others are what they
      were, and new ones scopes. */
  ghost predicate KindSet(t: Tree, t': Tree, n: nat, kind: Kind)
  {
    KindsKept(t, t', Some(n)) && n < |t'| && t'[n].kind == if n < |t| && t[n].kind != Scope then t[n].kind else kind
  }

  lemma KindIsSet(t: Tree, t': Tree, n: nat, kind: Kind)
    requires Grows(t, t') && KindsKept(t, t', Some(n)) && n < |t'|
    requires t'[n].kind == kind || (n < |t| && t'[n].kind == t[n].kind)
    requires kind != Scope ==> t'[n].kind != Scope
    ensures KindSet(t, t', n, kind)
  {
  }

  /** So of the paths all but the last are of the kinds they should be. */
  lemma KindsBut(t: Tree, t': Tree, base: Abs, segs: Abs, kind: Kind, n: nat)
    requires AmlNamespace.Valid(t) && AmlNamespace.Valid(t') && Keeps(t, t') && KindsKept(t, t', Some(n)) && n < |t'|
    requires Paths(t') == Paths(t) + Spine(base, segs) && PathTo(t', n) == base + segs
    ensures var a, b := Kinds(t'), D.Spined(Kinds(t), base, segs, kind);
      a.Keys == b.Keys && forall q <- a :: q != base + segs ==> a[q] == b[q]
  {
    hide AmlNamespace.Valid, PathTo, Kinds, Keeps, Paths, Spine;
    KindsKeys(t);
    KindsKeys(t');
    var a, b := Kinds(t'), D.Spined(Kinds(t), base, segs, kind);
    forall q <- a | q != base + segs ensures a[q] == b[q] {
      var i := WhichNode(t', q);
      if q in Paths(t) {
        var j := WhichNode(t, q);
        KeepsMore(t, t');
        PathStays(t, t', j);
        OnePath(t', i, j);
      } else if i < |t| {
        PathStays(t, t', i);
        OnPaths(t, i);
      }
    }
  }

  lemma KindsNamed(t: Tree, t': Tree, base: Abs, segs: Abs, kind: Kind, n: nat)
    requires AmlNamespace.Valid(t) && AmlNamespace.Valid(t') && Keeps(t, t') && KindSet(t, t', n, kind)
    requires Paths(t') == Paths(t) + Spine(base, segs) && PathTo(t', n) == base + segs && segs != []
    ensures Kinds(t') == D.Spined(Kinds(t), base, segs, kind)
  {
    hide AmlNamespace.Valid, PathTo, Kinds, Keeps, Paths, Spine, KindsKept;
    KindsBut(t, t', base, segs, kind, n);
    KindsKeys(t);
    KindOf(t', n);
    var q := base + segs;
    if q in Paths(t) {
      var j := WhichNode(t, q);
      KeepsMore(t, t');
      PathStays(t, t', j);
      OnePath(t', n, j);
    } else if n < |t| {
      PathStays(t, t', n);
      OnPaths(t, n);
    }
  }

  lemma KindsPut(t: Tree, n: nat, kind: Kind)
    requires AmlNamespace.Valid(t) && n < |t| && AmlNamespace.Valid(t[n := t[n].(kind := kind)])
    ensures Kinds(t[n := t[n].(kind := kind)]) == Kinds(t)[PathTo(t, n) := kind]
  {
    hide AmlNamespace.Valid, PathTo, Kinds, Paths;
    var t' := t[n := t[n].(kind := kind)];
    assert Keeps(t, t') && Keeps(t', t);
    hide Keeps;
    PathsStay(t, t');
    PathsStay(t', t);
    KindsKeys(t);
    KindsKeys(t');
    KindOf(t, n);
    forall q <- Kinds(t') ensures Kinds(t')[q] == Kinds(t)[PathTo(t, n) := kind][q] {
      var i := WhichNode(t', q);
      PathStays(t', t, i);
      KindOf(t, i);
      if q == PathTo(t, n) { OnePath(t, i, n); }
    }
  }

  ghost function ViewOf(t: Tree, bodies: map<nat, Body>): D.View
    requires AmlNamespace.Valid(t) && InTree(t, bodies)
  {
    D.View(Paths(t), Kinds(t), Methods(t, bodies))
  }

  lemma MethodIn(t: Tree, bodies: map<nat, Body>, n: nat)
    requires AmlNamespace.Valid(t) && InTree(t, bodies) && n in bodies && t[n].kind == Method
    ensures PathTo(t, n) in Methods(t, bodies) && Methods(t, bodies)[PathTo(t, n)] == CodeOf(bodies[n])
  {
    hide AmlNamespace.Valid, PathTo, CodeOf;
    PathsDiffer(t);
  }

  lemma WhichMethod(t: Tree, bodies: map<nat, Body>, p: Abs) returns (n: nat)
    requires AmlNamespace.Valid(t) && InTree(t, bodies) && p in Methods(t, bodies)
    ensures n in bodies && t[n].kind == Method && PathTo(t, n) == p && Methods(t, bodies)[p] == CodeOf(bodies[n])
  {
    hide AmlNamespace.Valid, PathTo, CodeOf;
    PathsDiffer(t);
    n :| n in bodies && t[n].kind == Method && PathTo(t, n) == p;
  }

  /** A method in the view is at its path, and looking its path up from the root finds it. */
  lemma MethodFound(t: Tree, bodies: map<nat, Body>, p: Abs)
    requires AmlNamespace.Valid(t) && InTree(t, bodies) && p in Methods(t, bodies) && p != [] && SegsOk(p)
    ensures |t| > 0
    ensures var n := Lookup(t, Some(ROOT), ['\\'] + Dotted(p));
      && n.Some? && n.value in bodies && t[n.value].kind == Method && PathTo(t, n.value) == p
      && CodeOf(bodies[n.value]) == Methods(t, bodies)[p]
  {
    hide AmlNamespace.Valid, PathTo, Dotted, Lookup, CodeOf, Methods, Paths;
    var n := WhichMethod(t, bodies, p);
    RootPath(t);
    var r := Ref(true, 0, p);
    assert Written(r) == ['\\'] + Dotted(p) && Target([], r) == p;
    OnPaths(t, n);
    LookupIs(t, ROOT, r);
    var f := Lookup(t, Some(ROOT), Written(r));
    OnePath(t, f.value, n);
  }

  lemma KeepsMore(t: Tree, t': Tree)
    requires Keeps(t, t')
    ensures |t| <= |t'|
  {
  }

  lemma MethodsStay(t: Tree, t': Tree, bodies: map<nat, Body>)
    requires AmlNamespace.Valid(t) && AmlNamespace.Valid(t') && Keeps(t, t') && InTree(t, bodies) && SameMethods(t, t')
    ensures InTree(t', bodies) && Methods(t', bodies) == Methods(t, bodies)
  {
    hide AmlNamespace.Valid, PathTo, CodeOf, Keeps, Methods;
    KeepsMore(t, t');
    var a, b := Methods(t, bodies), Methods(t', bodies);
    forall p <- a ensures p in b && b[p] == a[p] {
      var n := WhichMethod(t, bodies, p);
      PathStays(t, t', n);
      MethodIn(t', bodies, n);
    }
    forall p <- b ensures p in a {
      var n := WhichMethod(t', bodies, p);
      PathStays(t, t', n);
      MethodIn(t, bodies, n);
    }
  }

  /** One more is a method now, with code `b`. */
  lemma MethodSet(t: Tree, t': Tree, bodies: map<nat, Body>, n: nat, b: Body)
    requires AmlNamespace.Valid(t) && AmlNamespace.Valid(t') && Keeps(t, t') && InTree(t, bodies)
    requires n < |t'| && Ok(b.stream) && t'[n].kind == Method
    requires forall i :: 0 <= i < |t| && i != n ==> (t'[i].kind == Method <==> t[i].kind == Method)
    ensures InTree(t', bodies[n := b]) && Methods(t', bodies[n := b]) == Methods(t, bodies)[PathTo(t', n) := CodeOf(b)]
  {
    hide AmlNamespace.Valid, PathTo, CodeOf, Keeps, Methods;
    KeepsMore(t, t');
    var p, bs := PathTo(t', n), bodies[n := b];
    var a, c := Methods(t, bodies)[p := CodeOf(b)], Methods(t', bs);
    MethodIn(t', bs, n);
    forall q <- Methods(t, bodies) ensures q in c && (q != p ==> c[q] == a[q]) {
      var i := WhichMethod(t, bodies, q);
      PathStays(t, t', i);
      if i != n { MethodIn(t', bs, i); }
    }
    forall q <- c ensures q in a {
      var i := WhichMethod(t', bs, q);
      if i != n {
        PathStays(t, t', i);
        MethodIn(t, bodies, i);
      }
    }
  }

  /** A name whose spine there is room for can be made, and is then all that has come. */
  lemma RoomToName(t: Tree, room: nat, bodies: map<nat, Body>, at: nat, r: Ref, kind: Kind)
    requires AmlNamespace.Valid(t) && InTree(t, bodies) && at < |t| && RefOk(r)
    requires |D.Named(ViewOf(t, bodies), PathTo(t, at), r, kind).paths| <= |t| + room
    ensures room >= Needs(t, Some(at), Written(r))
  {
    hide AmlNamespace.Valid, PathTo, Paths, Spine, Methods, Needs, Written, Kinds, D.Spined;
    NeedsIs(t, at, r);
    AsManyPaths(t);
    var spine := Spine(Base(PathTo(t, at), r), r.segs);
    assert Paths(t) + spine == Paths(t) + (spine - Paths(t));
  }

  lemma NamedNow(t: Tree, t': Tree, bodies: map<nat, Body>, at: nat, r: Ref, kind: Kind, n: nat)
    requires AmlNamespace.Valid(t) && AmlNamespace.Valid(t') && Keeps(t, t') && InTree(t, bodies) && SameMethods(t, t')
    requires at < |t| && RefOk(r) && Created(t', Some(at), Written(r)) == Some(n) && KindSet(t, t', n, kind)
    requires |t'| == |t| + Needs(t, Some(at), Written(r))
    ensures InTree(t', bodies) && ViewOf(t', bodies) == D.Named(ViewOf(t, bodies), PathTo(t, at), r, kind)
    ensures at < |t'| && PathTo(t', at) == PathTo(t, at) && n < |t'| && PathTo(t', n) == Target(PathTo(t, at), r)
  {
    hide AmlNamespace.Valid, PathTo, Paths, Spine, Methods, Needs, Written, Created, Keeps, Kinds, D.Spined, KindSet;
    SpineCame(t, t', at, r);
    MethodsStay(t, t', bodies);
    CreatedIs(t', at, r);
    KeepsMore(t, t');
    KindsNamed(t, t', Base(PathTo(t, at), r), r.segs, kind, n);
  }

  /** A child of that name has come, if there was room for it. */
  ghost predicate Came(t: Tree, t': Tree, limit: nat, scope: nat, seg: Seg)
    requires AmlNamespace.Valid(t) && AmlNamespace.Valid(t') && scope < |t|
  {
    var x := {PathTo(t, scope) + [seg]};
    |Paths(t) + x| <= limit ==> Paths(t') == Paths(t) + x && Kinds(t') == D.Ranged(Kinds(t), x)
  }

  lemma DefineCame(t: Tree, t': Tree, limit: nat, scope: nat, seg: Seg, r: Option<nat>)
    requires AmlNamespace.Valid(t) && AmlNamespace.Valid(t') && Grows(t, t') && scope < |t| && |t'| <= limit
    requires r == Child(t', scope, seg) && (r.Some? ==> KindSet(t, t', r.value, Object))
    requires if Child(t, scope, seg).Some? then |t'| == |t|
      else |t'| == |t| == limit || (|t'| == |t| + 1 && Child(t', scope, seg).Some?)
    ensures Came(t, t', limit, scope, seg)
  {
    hide AmlNamespace.Valid, PathTo, Paths, Child, Down, Kinds, KindSet, D.Ranged, D.Spined;
    var p := PathTo(t, scope);
    PathsStay(t, t');
    AsManyPaths(t);
    AsManyPaths(t');
    OneDown(t, scope, seg);
    DownIff(t, scope, [seg]);
    PathStays(t, t', scope);
    OneDown(t', scope, seg);
    DownIff(t', scope, [seg]);
    var x := {p + [seg]};
    if |t'| == |t| {
      SameSize(Paths(t), Paths(t'));
      if Child(t, scope, seg).Some? { assert Paths(t) + x == Paths(t); }
    } else {
      SameSize(Paths(t) + x, Paths(t'));
    }
    if |Paths(t) + x| <= limit {
      DownIs(t', scope, [seg]);
      OneSpine(p, seg);
      KindsNamed(t, t', p, [seg], Object, r.value);
      KindsKeys(t);
      OneRanged(Kinds(t), p, seg);
    }
  }

  lemma OneSpine(base: Abs, seg: Seg)
    ensures Spine(base, [seg]) == {base + [seg]}
  {
    assert [seg][..1] == [seg];
  }

  lemma OneRanged(ks: map<Abs, Kind>, base: Abs, seg: Seg)
    ensures D.Spined(ks, base, [seg], Object) == D.Ranged(ks, {base + [seg]})
  {
    OneSpine(base, seg);
    hide Spine;
  }

  lemma RangedMore(ks: map<Abs, Kind>, a: set<Abs>, b: set<Abs>)
    ensures D.Ranged(D.Ranged(ks, a), b) == D.Ranged(ks, a + b)
  {
  }

  ghost function LaidNames(at: Abs, laid: seq<Laid>): set<Abs>
  {
    set k | 0 <= k < |laid| :: at + [Pad(laid[k].seg)]
  }

  /** The names of a list have come, if there was room for them all. */
  ghost predicate RangesCame(t: Tree, t': Tree, limit: nat, scope: nat, laid: seq<Laid>)
    requires AmlNamespace.Valid(t) && AmlNamespace.Valid(t') && scope < |t|
  {
    var xs := LaidNames(PathTo(t, scope), laid);
    |Paths(t) + xs| <= limit ==> Paths(t') == Paths(t) + xs && Kinds(t') == D.Ranged(Kinds(t), xs)
  }

  lemma NoRangesCame(t: Tree, limit: nat, scope: nat)
    requires AmlNamespace.Valid(t) && scope < |t|
    ensures RangesCame(t, t, limit, scope, [])
  {
    hide AmlNamespace.Valid, PathTo, Paths, Kinds;
    assert LaidNames(PathTo(t, scope), []) == {};
    assert D.Ranged(Kinds(t), {}) == Kinds(t);
  }

  lemma RangesCameMore(t: Tree, u: Tree, t': Tree, limit: nat, scope: nat, laid: seq<Laid>, l: Laid)
    requires AmlNamespace.Valid(t) && AmlNamespace.Valid(u) && AmlNamespace.Valid(t') && scope < |t| && Keeps(t, u)
    requires RangesCame(t, u, limit, scope, laid) && scope < |u| && Came(u, t', limit, scope, Pad(l.seg))
    ensures RangesCame(t, t', limit, scope, laid + [l])
  {
    hide AmlNamespace.Valid, PathTo, Paths, Pad, Keeps, Kinds, D.Ranged, LaidNames;
    var p := PathTo(t, scope);
    PathStays(t, u, scope);
    var a, x := LaidNames(p, laid), p + [Pad(l.seg)];
    LaidNamesMore(p, laid, l);
    var ps, qs := Paths(t) + a, Paths(t) + (a + {x});
    D.FewerPaths(ps, qs);
    assert ps + {x} == qs;
    RangedMore(Kinds(t), a, {x});
  }

  lemma LaidNamesMore(p: Abs, laid: seq<Laid>, l: Laid)
    ensures LaidNames(p, laid + [l]) == LaidNames(p, laid) + {p + [Pad(l.seg)]}
  {
    hide Pad;
    var all, a, x := laid + [l], LaidNames(p, laid), p + [Pad(l.seg)];
    forall y | y in LaidNames(p, all) ensures y in a + {x} { }
    assert all[|laid|] == l;
    forall k | 0 <= k < |laid| ensures p + [Pad(laid[k].seg)] in LaidNames(p, all) { assert all[k] == laid[k]; }
  }

  /** A list's ranges, where its bytes are. */
  lemma RangesHere(u: Stream, stop: nat, at: Abs, flags: Byte, items: seq<FieldItem>)
    requires (forall it <- items :: ItemOk(it)) && Ok(u) && stop == u.p + 1 + |ListBytes(items)| <= u.end
    requires Has(Upto(u, stop), [flags] + ListBytes(items))
    ensures u.p < u.end && Peek(u) == flags && Ok(Upto(Next(u), stop))
    ensures LaidNames(at, FieldsOf(Cursor(Upto(Next(u), stop), 0, AccessWidth(flags)))) == D.RangeNames(at, items)
  {
    hide FieldsOf, AccessWidth, ListBytes, Has;
    HasByte(Upto(u, stop), flags, ListBytes(items));
    HasRoom(Upto(u, stop), [flags] + ListBytes(items));
    var c := Cursor(Upto(Next(u), stop), 0, AccessWidth(flags));
    ListReads(c, items);
    LayNames(at, items, 0, AccessWidth(flags));
  }

  lemma {:induction false} LayNames(at: Abs, items: seq<FieldItem>, bit: nat, access: nat)
    requires forall it <- items :: ItemOk(it)
    ensures LaidNames(at, Lay(items, bit, access)) == D.RangeNames(at, items)
    decreases |items|
  {
    hide ReadBits, AccessWidth, Pad, SegOk;
    if items == [] {
      assert LaidNames(at, []) == {} == D.RangeNames(at, items);
    } else {
      var it, rest := items[0], items[1..];
      assert ItemOk(it);
      RangeNamesFirst(at, items);
      match it
      case Range(seg, bits) =>
        SegIs(seg);
        LayNames(at, rest, bit + ReadBits(bits), access);
        LaidNamesFirst(at, Laid(seg, bit, ReadBits(bits), access), Lay(rest, bit + ReadBits(bits), access));
      case Gap(bits) => LayNames(at, rest, bit + ReadBits(bits), access);
      case Access(kind, _) => LayNames(at, rest, bit, AccessWidth(kind));
    }
  }

  lemma LaidNamesFirst(at: Abs, l: Laid, rest: seq<Laid>)
    ensures LaidNames(at, [l] + rest) == {at + [Pad(l.seg)]} + LaidNames(at, rest)
  {
    hide Pad;
    var all := [l] + rest;
    forall k | 0 <= k < |all| ensures at + [Pad(all[k].seg)] in {at + [Pad(l.seg)]} + LaidNames(at, rest) {
      if k > 0 { assert all[k] == rest[k - 1]; }
    }
    assert all[0] == l;
    forall k | 0 <= k < |rest| ensures at + [Pad(rest[k].seg)] in LaidNames(at, all) { assert all[k + 1] == rest[k]; }
  }

  lemma RangeNamesFirst(at: Abs, items: seq<FieldItem>)
    requires items != []
    ensures D.RangeNames(at, items)
         == (if items[0].Range? then {at + [items[0].seg]} else {}) + D.RangeNames(at, items[1..])
  {
    var rest := items[1..];
    forall k | 0 <= k < |items| && items[k].Range?
      ensures at + [items[k].seg] in (if items[0].Range? then {at + [items[0].seg]} else {}) + D.RangeNames(at, rest) {
      if k > 0 { assert items[k] == rest[k - 1]; }
    }
    forall k | 0 <= k < |rest| && rest[k].Range? ensures at + [rest[k].seg] in D.RangeNames(at, items) {
      assert items[k + 1] == rest[k];
    }
  }

  /** A name made, said to be a method and given its code is all that has come. */
  lemma MethodCame(t: Tree, u: Tree, bodies: map<nat, Body>, at: nat, r: Ref, n: nat, b: Body)
    requires AmlNamespace.Valid(t) && AmlNamespace.Valid(u) && Evolves(t, u) && InTree(t, bodies)
    requires at < |t| && RefOk(r) && Created(u, Some(at), Written(r)) == Some(n) && n < |u| && KindsKept(t, u, Some(n))
    requires |u| == |t| + Needs(t, Some(at), Written(r)) && Ok(b.stream)
    requires AmlNamespace.Valid(u[n := u[n].(kind := Method)])
    ensures var t' := u[n := u[n].(kind := Method)];
      var v, p := ViewOf(t, bodies), PathTo(t, at);
      && InTree(t', bodies[n := b])
      && ViewOf(t', bodies[n := b]) == D.Coded(D.Named(v, p, r, Method), Target(p, r), CodeOf(b))
  {
    hide AmlNamespace.Valid, PathTo, Paths, Methods, CodeOf, Created, Needs, Written, Evolves, Spine, Kinds, D.Spined,
      KindsKept;
    EvolvesKeeps(t, u);
    var t' := u[n := u[n].(kind := Method)];
    assert Keeps(u, t') && Keeps(t', u) && Keeps(t, t');
    SpineCame(t, u, at, r);
    CreatedIs(u, at, r);
    PathsStay(u, t');
    PathsStay(t', u);
    PathStays(u, t', n);
    KindsBut(t, u, Base(PathTo(t, at), r), r.segs, Method, n);
    KindsPut(u, n, Method);
    OthersKept(t, u, n);
    MethodSet(t, t', bodies, n, b);
  }

  lemma OthersKept(t: Tree, u: Tree, n: nat)
    requires KindsKept(t, u, Some(n))
    ensures forall i :: 0 <= i < |t| && i != n ==> u[i].kind == t[i].kind
  {
  }

  lemma CodeReads(u: Stream, stop: nat, flags: Byte, code: seq<Byte>)
    requires Ok(u) && stop == u.p + |[flags] + code| <= u.end && Has(Upto(u, stop), [flags] + code)
    ensures u.p < u.end && Peek(u) == flags && Next(u).p <= stop && u.code[Next(u).p..stop] == code
  {
    HasByte(Upto(u, stop), flags, code);
  }

  /* ---- what the stream has, as the loader meets it ---- */

  lemma NumberReads(s: Stream, n: seq<Byte>, rest: seq<Byte>)
    requires D.NumberOk(n) && Has(s, n + rest)
    ensures IsNumeral(Peek(s)) && s.p + 1 + Width(Peek(s)) <= s.end && 1 + Width(Peek(s)) == |n|
    ensures Has(Skip(s, |n|), rest)
  {
    HasParts(s, n, rest);
    assert s.code[s.p..s.p + |n|][0] == n[0];
  }

  lemma NumberHere(t: Stream, s: Stream, d: D.Decl)
    requires d.Value? && D.DeclHere(s, d) && Has(t, D.Trailer(d))
    ensures IsNumeral(Peek(t)) && t.p + 1 + Width(Peek(t)) <= t.end && 1 + Width(Peek(t)) == |D.Trailer(d)|
  {
    hide Has, D.NumberOk, D.Bytes;
    assert d.number + [] == d.number;
    NumberReads(t, d.number, []);
  }

  lemma TwoBytes(t: Stream, d: D.Decl)
    requires d.External? && Has(t, D.Trailer(d))
    ensures Next(Next(t)).p == t.p + |D.Trailer(d)|
  {
  }

  lemma LevelReads(t: Stream, d: D.Decl)
    requires d.Mutex? && Has(t, D.Trailer(d))
    ensures Next(t).p == t.p + |D.Trailer(d)|
  {
  }

  lemma RegionReads(t: Stream, s: Stream, d: D.Decl)
    requires d.Region? && D.DeclHere(s, d) && Has(t, D.Trailer(d))
    ensures Ok(t) && t.p < t.end && |D.Trailer(d)| == 1 + |d.offset| + |d.length|
    ensures var s := Next(t);
      && IsNumeral(Peek(s)) && s.p + 1 + Width(Peek(s)) <= s.end && 1 + Width(Peek(s)) == |d.offset|
      && var u := Skip(s, |d.offset|);
      IsNumeral(Peek(u)) && u.p + 1 + Width(Peek(u)) <= u.end && 1 + Width(Peek(u)) == |d.length|
  {
    hide Has, D.NumberOk, D.Bytes;
    HasByte(t, d.space, d.offset + d.length);
    NumberReads(Next(t), d.offset, d.length);
    assert d.length + [] == d.length;
    NumberReads(Skip(Next(t), |d.offset|), d.length, []);
    HasRoom(t, D.Trailer(d));
  }

  lemma InnerHere(u: Stream, stop: nat, ds: seq<D.Decl>)
    requires (forall d <- ds :: D.DeclOk(d)) && D.BytesAll(ds).Some? && stop == u.p + |D.BytesAll(ds).value|
    requires Has(Upto(u, stop), D.BytesAll(ds).value)
    ensures D.ListHere(Upto(u, stop), ds)
  {
    hide Has, D.BytesAll, D.DeclOk;
  }

  lemma SomeBody(r: Ref)
    requires RefOk(r)
    ensures CreateBody(Written(r)) != []
  {
    var d := Dotted(r.segs);
    DottedEnds(r.segs);
    DottedParts(r.segs);
    hide Dotted, SegOk;
    if r.root {
      assert Written(r)[1..] == d;
    } else if r.up == 0 {
      assert Written(r) == d;
    } else {
      CaretsAside(r.up, d);
    }
  }

  lemma {:induction false} CaretsAside(n: nat, rest: Path)
    requires rest == [] || rest[0] != '^'
    ensures AfterCarets(CaretsOf(n) + rest) == rest
    decreases n
  {
    var p := CaretsOf(n) + rest;
    if n == 0 { assert p == rest; } else {
      assert p[0] == '^' && p[1..] == CaretsOf(n - 1) + rest;
      CaretsAside(n - 1, rest);
    }
  }

  lemma RefIsOk(r: Ref)
    requires D.NameOk(r)
    ensures RefOk(r)
  {
  }

  lemma NestOf(s: Stream, d: D.Decl)
    requires D.DeclHere(s, d) && d.Nest?
    ensures |d.fixed| == D.FixedBytes(d.op) && 0x82 <= d.op <= 0x85
  {
  }

  lemma AfterFixed(u: Stream, u': Stream, stop: nat, fixed: seq<Byte>, ds: seq<D.Decl>)
    requires (forall d <- ds :: D.DeclOk(d)) && D.BytesAll(ds).Some?
      && stop == u.p + |fixed + D.BytesAll(ds).value| <= u.end
    requires Has(Upto(u, stop), fixed + D.BytesAll(ds).value)
    requires u' == u.(p := if u.p + |fixed| <= u.end then u.p + |fixed| else u.end)
    ensures D.ListHere(Upto(u', stop), ds)
  {
    hide Has, D.BytesAll, D.DeclOk;
    HasParts(Upto(u, stop), fixed, D.BytesAll(ds).value);
    InnerHere(u', stop, ds);
  }

  lemma GotBack(d: D.Decl, s: Stream, t: Stream, at: Abs, v: D.View, v': D.View, limit: nat, limit': nat)
    requires s.p < s.end && Got(Some(d), Next(s), 1, t, at, v, v', limit, limit')
    ensures Got(Some(d), s, 0, t, at, v, v', limit, limit')
  {
    hide D.AfterOne, D.Bytes, D.DeclOk;
  }

  lemma GotFacts(d: D.Decl, s: Stream, t: Stream, at: Abs, v: D.View, v': D.View, limit: nat, limit': nat)
    requires Got(Some(d), s, 0, t, at, v, v', limit, limit')
    ensures D.DeclOk(d) && D.Bytes(d).Some? && t.p == s.p + |D.Bytes(d).value|
    ensures v' == D.AfterOne(v, at, d) && limit' == limit
  {
  }

  lemma GotSecond(d: D.Decl, s: Stream, t: Stream, at: Abs, v: D.View, v': D.View, limit: nat, limit': nat)
    requires s.p < s.end && Got(Some(d), Next(s), 2, t, at, v, v', limit, limit')
    ensures Got(Some(d), s, 1, t, at, v, v', limit, limit')
  {
    hide D.AfterOne, D.Bytes, D.DeclOk;
  }

  /** A declaration that only makes a name has made it. */
  lemma PlainGot(d: D.Decl, s: Stream, k: nat, t: Stream, at: Abs, v: D.View, v': D.View, limit: nat)
    requires k <= s.p && D.DeclHere(s.(p := s.p - k), d) && D.IsPlain(d) && D.NameOk(d.name)
    requires |D.Bytes(d).value| == k + |D.NameBytes(d.name)| + |D.Trailer(d)|
    requires t.p == s.p + |D.NameBytes(d.name)| + |D.Trailer(d)|
    requires v' == if d.External? then v else D.Named(v, at, d.name, D.KindFor(d))
    ensures Got(Some(d), s, k, t, at, v, v', limit, limit)
  {
    hide D.Bytes, D.NameBytes, D.Named, D.DeclOk, Has, D.Trailer;
  }

  lemma AliasGot(d: D.Decl, s: Stream, t: Stream, at: Abs, v: D.View, v': D.View, limit: nat)
    requires 1 <= s.p && D.DeclHere(s.(p := s.p - 1), d) && t.p == s.p - 1 + |D.Bytes(d).value|
    requires v' == D.AfterOne(v, at, d)
    ensures Got(Some(d), s, 1, t, at, v, v', limit, limit)
  {
    hide D.Bytes, D.DeclOk, Has, D.AfterOne;
  }

  /** A node that has become what another is. */
  lemma AliasCame(t: Tree, bodies: map<nat, Body>, src: nat, dst: nat)
    requires AmlNamespace.Valid(t) && InTree(t, bodies) && src < |t| && dst < |t|
    requires AmlNamespace.Valid(t[dst := t[dst].(kind := t[src].kind)])
    ensures var t' := t[dst := t[dst].(kind := t[src].kind)];
      && InTree(t', Copied(bodies, src, dst))
      && ViewOf(t', Copied(bodies, src, dst))
      == D.Shared(ViewOf(t, bodies), PathTo(t, src), PathTo(t, dst))
  {
    hide AmlNamespace.Valid, PathTo, Paths, Methods, CodeOf, Kinds;
    KindOf(t, src);
    KindsPut(t, dst, t[src].kind);
    var t', bs := t[dst := t[dst].(kind := t[src].kind)], Copied(bodies, src, dst);
    assert Keeps(t, t') && Keeps(t', t);
    hide Keeps;
    PathsStay(t, t');
    PathsStay(t', t);
    PathStays(t, t', dst);
    if src in bodies && t[src].kind == Method {
      MethodIn(t, bodies, src);
      MethodSet(t, t', bodies, dst, bodies[src]);
    } else {
      if PathTo(t, src) in Methods(t, bodies) {
        var n := WhichMethod(t, bodies, PathTo(t, src));
        OnePath(t, n, src);
      }
      MethodGone(t, t', bodies, bs, dst);
    }
  }

  lemma MethodGone(t: Tree, t': Tree, bodies: map<nat, Body>, bs: map<nat, Body>, dst: nat)
    requires AmlNamespace.Valid(t) && AmlNamespace.Valid(t') && Keeps(t, t') && InTree(t, bodies) && InTree(t', bs)
    requires dst < |t| == |t'| && !(dst in bs && t'[dst].kind == Method)
    requires forall i :: 0 <= i < |t| && i != dst ==> t'[i] == t[i]
    requires forall i: nat :: i != dst ==> (i in bs <==> i in bodies) && (i in bs ==> bs[i] == bodies[i])
    ensures Methods(t', bs) == Methods(t, bodies) - {PathTo(t, dst)}
  {
    hide AmlNamespace.Valid, PathTo, CodeOf, Keeps, Methods;
    var a, c := Methods(t, bodies) - {PathTo(t, dst)}, Methods(t', bs);
    forall q <- a ensures q in c && c[q] == a[q] {
      var i := WhichMethod(t, bodies, q);
      PathStays(t, t', i);
      MethodIn(t', bs, i);
    }
    forall q <- c ensures q in a {
      var i := WhichMethod(t', bs, q);
      PathStays(t, t', i);
      if PathTo(t, i) == PathTo(t, dst) { OnePath(t, i, dst); }
      MethodIn(t, bodies, i);
    }
  }

  lemma OpenGot(d: D.Decl, s: Stream, t: Stream, at: Abs, v: D.View, v': D.View, limit: nat)
    requires 1 <= s.p && D.DeclHere(s.(p := s.p - 1), d) && d.Open? && t.p == s.p - 1 + |D.Bytes(d).value|
    requires var f := Found(v.paths, at, d.name);
      v' == if f.Some? then D.After(v, f.value, d.inner)
            else D.After(D.Named(v, at, d.name, Scope), Target(at, d.name), d.inner)
    ensures Got(Some(d), s, 1, t, at, v, v', limit, limit)
  {
    hide D.Bytes, D.Named, D.DeclOk, Has, Found, Target, D.After;
  }

  lemma NestGot(d: D.Decl, s: Stream, t: Stream, at: Abs, v: D.View, v': D.View, limit: nat)
    requires 2 <= s.p && D.DeclHere(s.(p := s.p - 2), d) && d.Nest? && t.p == s.p - 2 + |D.Bytes(d).value|
    requires v' == D.After(D.Named(v, at, d.name, Device), Target(at, d.name), d.inner)
    ensures Got(Some(d), s, 2, t, at, v, v', limit, limit)
  {
    hide D.Bytes, D.Named, D.DeclOk, Has, Target, D.After;
  }

  lemma MethodGot(d: D.Decl, s: Stream, t: Stream, at: Abs, v: D.View, v': D.View, limit: nat)
    requires 1 <= s.p && D.DeclHere(s.(p := s.p - 1), d) && d.Method? && t.p == s.p - 1 + |D.Bytes(d).value|
    requires v' == D.Coded(D.Named(v, at, d.name, Method), Target(at, d.name), D.Code(d.code, d.flags % 8))
    ensures Got(Some(d), s, 1, t, at, v, v', limit, limit)
  {
    hide D.Bytes, D.Named, D.DeclOk, Has, Target;
  }

  lemma FieldsGot(d: D.Decl, s: Stream, t: Stream, at: Abs, v: D.View, v': D.View, limit: nat)
    requires 2 <= s.p && D.DeclHere(s.(p := s.p - 2), d) && d.Fields? && t.p == s.p - 2 + |D.Bytes(d).value|
    requires var names := D.RangeNames(at, d.items);
      v' == v.(paths := v.paths + names, kinds := D.Ranged(v.kinds, names))
    ensures Got(Some(d), s, 2, t, at, v, v', limit, limit)
  {
    hide D.Bytes, D.DeclOk, Has, D.RangeNames;
  }

  lemma NoneGotAll(s: Stream, k: nat)
    ensures forall t, at, v, v', limit: nat, limit': nat :: Got(None, s, k, t, at, v, v', limit, limit')
  {
  }

  lemma SeenPaths(t: Tree, bodies: map<nat, Body>)
    requires AmlNamespace.Valid(t) && InTree(t, bodies)
    ensures ViewOf(t, bodies).paths == Paths(t)
  {
  }

  lemma NamesCame(t: Tree, t': Tree, bodies: map<nat, Body>)
    requires AmlNamespace.Valid(t) && AmlNamespace.Valid(t') && Evolves(t, t') && InTree(t, bodies)
      && SameMethods(t, t')
    ensures InTree(t', bodies) && ViewOf(t', bodies) == ViewOf(t, bodies).(paths := Paths(t'), kinds := Kinds(t'))
    ensures ViewOf(t, bodies).paths == Paths(t) && ViewOf(t, bodies).kinds == Kinds(t)
  {
    hide AmlNamespace.Valid, Evolves, Paths, Methods, PathTo, Kinds;
    EvolvesKeeps(t, t');
    MethodsStay(t, t', bodies);
  }

  /** What was wanted has been declared, and the stream is past it. */
  ghost predicate Got(d: Option<D.Decl>, s: Stream, k: nat, t: Stream, at: Abs, v: D.View, v': D.View, limit: nat,
    limit': nat)
  {
    d.Some? ==>
      && D.DeclOk(d.value) && D.Bytes(d.value).Some? && t.p == s.p - k + |D.Bytes(d.value).value|
      && v' == D.AfterOne(v, at, d.value) && limit' == limit
  }

  /** A call that ran off its table: of which method, and which were cut short at the time. */
  datatype Stray = Stray(node: nat, cuts: map<nat, nat>)

  class Loader {
    const ns: Namespace
    var bodies: map<nat, Body>
    var cuts: map<nat, nat>  // methods cut short, which have arguments but no code
    var fields: map<nat, F.Field>
    var wild: bool           // one of them has been called, and ran off its table
    ghost var strayed: Option<Stray>
    ghost var tables: set<seq<Byte>>

    /** The namespace is a tree, every method's code lies in a table that was loaded, every field
        has an access width the hardware has, and a wild machine called a method cut short. */
    ghost predicate Sized()
      reads this, ns
    {
      && AmlNamespace.Valid(ns.nodes)
      && (forall n <- bodies :: n < |ns.nodes| && Ok(bodies[n].stream) && bodies[n].argc <= MAX_ARGS)
      && (forall n <- bodies :: bodies[n].stream.code in tables)
      && (forall n <- cuts :: n < |ns.nodes| && cuts[n] <= MAX_ARGS)
      && (forall n <- fields :: n < |ns.nodes| && F.FieldOk(fields[n]))
      && (wild ==> strayed.Some? && strayed.value.node in strayed.value.cuts)
    }

    /** And only a table that is torn cuts a method short, or makes the machine wild. */
    ghost predicate Valid()
      reads this, ns
    {
      Sized() && Coded(ns.nodes, bodies, cuts, None) && (cuts != map[] || wild ==> Torn(tables))
    }

    constructor (ns: Namespace)
      requires AmlNamespace.Valid(ns.nodes)
      requires forall i :: 0 <= i < |ns.nodes| ==> ns.nodes[i].kind != Method
      ensures Valid() && this.ns == ns && !wild && tables == {}
    {
      this.ns := ns;
      bodies, cuts, fields, wild, strayed, tables := map[], map[], map[], false, None, {};
    }

    /** The names there are, and the methods among them. */
    ghost function Seen(): D.View
      requires Sized()
      reads this, ns
    {
      ViewOf(ns.nodes, bodies)
    }

    /** How many nodes there are and can be. */
    ghost function Limit(): nat
      reads ns
    {
      |ns.nodes| + ns.room
    }

    /** Declaration `d` is what the stream has `k` bytes back, and there is room for what it adds. */
    ghost predicate Wanted(s: Stream, k: nat, scope: nat, d: Option<D.Decl>)
      requires Sized() && scope < |ns.nodes|
      reads this, ns
    {
      d.Some? ==>
        k <= s.p && D.DeclHere(s.(p := s.p - k), d.value)
        && |D.AfterOne(Seen(), PathTo(ns.nodes, scope), d.value).paths| <= Limit()
    }

    lemma ValidFacts()
      requires Valid()
      ensures Sized() && AmlNamespace.Valid(ns.nodes) && InTree(ns.nodes, bodies)
    {
    }

    /** What is wanted is still wanted past its first byte, and past its second. */
    lemma WantedFirst(s: Stream, scope: nat, d: D.Decl)
      requires Valid() && scope < |ns.nodes| && Ok(s) && Wanted(s, 0, scope, Some(d))
      ensures Wanted(Next(s), 1, scope, Some(d)) && s.p < s.end
      ensures Peek(s) == match d case Open(_, _) => 0x10 case Method(_, _, _) => 0x14 case Value(_, _) => 0x08
                                 case External(_, _, _) => 0x15 case Alias(_, _) => 0x06 case _ => 0x5B
    {
      hide Valid, ViewOf, PathTo, D.AfterOne, D.DeclOk, D.Bytes, Has;
      D.DeclReads(s, d);
      assert Next(s).(p := Next(s).p - 1) == s;
    }

    lemma NoneWanted(s: Stream, k: nat, scope: nat)
      requires Valid() && scope < |ns.nodes|
      ensures Wanted(s, k, scope, None)
    {
    }

    lemma WantedSecond(s: Stream, scope: nat, d: D.Decl)
      requires Valid() && scope < |ns.nodes| && Ok(s) && Wanted(s, 1, scope, Some(d))
      requires !d.Open? && !d.Method? && !d.Value? && !d.External? && !d.Alias?
      ensures Wanted(Next(s), 2, scope, Some(d)) && s.p < s.end && (d.Nest? ==> 0x82 <= d.op <= 0x85)
      ensures Peek(s) == match d case Nest(op, _, _, _) => op case Mutex(_, _) => 0x01 case Event(_) => 0x02
                                 case Region(_, _, _, _) => 0x80 case _ => 0x81
    {
      hide Valid, ViewOf, PathTo, D.AfterOne, D.DeclOk, D.Bytes, Has;
      var b := s.(p := s.p - 1);
      D.ExtendedReads(b, d);
      if d.Nest? { NestOf(b, d); }
      assert Next(b) == s && Next(s).(p := Next(s).p - 2) == b;
    }

    lemma PlainWanted(s: Stream, k: nat, scope: nat, d: D.Decl)
      requires Valid() && scope < |ns.nodes| && Ok(s) && Wanted(s, k, scope, Some(d)) && D.IsPlain(d)
      requires k == if d.Value? || d.External? then 1 else 2
      ensures k <= s.p && D.DeclHere(s.(p := s.p - k), d) && D.NameOk(d.name) && RefOk(d.name)
      ensures D.NamedHere(s, d.name, D.Trailer(d))
      ensures |D.Bytes(d).value| == k + |D.NameBytes(d.name)| + |D.Trailer(d)|
      ensures AmlNamespace.Valid(ns.nodes) && Sized()
      ensures !d.External? ==> |D.Named(Seen(), PathTo(ns.nodes, scope), d.name, D.KindFor(d)).paths| <= Limit()
    {
      hide AmlNamespace.Valid, ViewOf, PathTo, D.Named, D.Bytes, D.NamedHere, D.NameBytes, D.Trailer, RefOk, D.DeclOk,
        Has;
      D.PlainReads(s, k, d);
      RefIsOk(d.name);
    }

    lemma AliasWanted(s: Stream, scope: nat, d: D.Decl)
      requires Valid() && scope < |ns.nodes| && Ok(s) && Wanted(s, 1, scope, Some(d)) && d.Alias?
      ensures 1 <= s.p && D.DeclHere(s.(p := s.p - 1), d)
      ensures D.NameOk(d.source) && RefOk(d.source) && D.NameOk(d.name) && RefOk(d.name)
      ensures D.NamedHere(s, d.source, D.NameBytes(d.name))
      ensures D.NamedHere(Skip(s, |D.NameBytes(d.source)|), d.name, [])
      ensures |D.Bytes(d).value| == 1 + |D.NameBytes(d.source)| + |D.NameBytes(d.name)|
      ensures AmlNamespace.Valid(ns.nodes) && Sized()
      ensures |D.Named(Seen(), PathTo(ns.nodes, scope), d.name, Object).paths| <= Limit()
    {
      hide AmlNamespace.Valid, ViewOf, PathTo, D.Named, D.Bytes, D.NamedHere, D.NameBytes, RefOk, D.DeclOk, Has, Found,
        Target;
      D.AliasReads(s, d);
      RefIsOk(d.source);
      RefIsOk(d.name);
    }

    lemma OpenWanted(s: Stream, scope: nat, d: D.Decl)
      requires Valid() && scope < |ns.nodes| && Ok(s) && Wanted(s, 1, scope, Some(d)) && d.Open?
      ensures 1 <= s.p && D.DeclHere(s.(p := s.p - 1), d) && D.NameOk(d.name) && RefOk(d.name)
      ensures (forall e <- d.inner :: D.DeclOk(e)) && D.BytesAll(d.inner).Some?
      ensures var rest := D.BytesAll(d.inner).value;
        D.Opens(s, d.name, rest, |D.NameBytes(d.name) + rest|)
          && Stop(Skip(s, PkgHeader(s)), |D.NameBytes(d.name) + rest|) == s.p - 1 + |D.Bytes(d).value|
      ensures AmlNamespace.Valid(ns.nodes) && Sized()
      ensures var at, v := PathTo(ns.nodes, scope), Seen();
        var f := Found(v.paths, at, d.name);
        if f.Some? then |D.After(v, f.value, d.inner).paths| <= Limit()
        else
          && |D.Named(v, at, d.name, Scope).paths| <= Limit()
          && |D.After(D.Named(v, at, d.name, Scope), Target(at, d.name), d.inner).paths| <= Limit()
    {
      hide AmlNamespace.Valid, ViewOf, PathTo, D.Named, D.Bytes, D.Opens, D.NameBytes, RefOk, D.DeclOk, D.BytesAll,
        Found,
        Target, D.After, Has, PkgHeader;
      D.OpenReads(s, d);
      RefIsOk(d.name);
      var at := PathTo(ns.nodes, scope);
      D.NameFits(Seen(), at, d.name, Scope, Target(at, d.name), d.inner);
    }

    lemma NestWanted(s: Stream, scope: nat, d: D.Decl)
      requires Valid() && scope < |ns.nodes| && Ok(s) && Wanted(s, 2, scope, Some(d)) && d.Nest?
      ensures 2 <= s.p && D.DeclHere(s.(p := s.p - 2), d) && D.NameOk(d.name) && RefOk(d.name)
      ensures (forall e <- d.inner :: D.DeclOk(e)) && D.BytesAll(d.inner).Some? && |d.fixed| == D.FixedBytes(d.op)
      ensures var rest := d.fixed + D.BytesAll(d.inner).value;
        D.Opens(s, d.name, rest, |D.NameBytes(d.name) + rest|)
          && Stop(Skip(s, PkgHeader(s)), |D.NameBytes(d.name) + rest|) == s.p - 2 + |D.Bytes(d).value|
      ensures AmlNamespace.Valid(ns.nodes) && Sized()
      ensures var at, v := PathTo(ns.nodes, scope), Seen();
        && |D.Named(v, at, d.name, Device).paths| <= Limit()
        && |D.After(D.Named(v, at, d.name, Device), Target(at, d.name), d.inner).paths| <= Limit()
    {
      hide AmlNamespace.Valid, ViewOf, PathTo, D.Named, D.Bytes, D.Opens, D.NameBytes, RefOk, D.DeclOk, D.BytesAll,
        Target, D.After, Has, PkgHeader;
      D.NestReads(s, d);
      NestOf(s.(p := s.p - 2), d);
      RefIsOk(d.name);
      var at := PathTo(ns.nodes, scope);
      D.NameFits(Seen(), at, d.name, Device, Target(at, d.name), d.inner);
    }

    lemma MethodWanted(s: Stream, scope: nat, d: D.Decl)
      requires Valid() && scope < |ns.nodes| && Ok(s) && Wanted(s, 1, scope, Some(d)) && d.Method?
      ensures 1 <= s.p && D.DeclHere(s.(p := s.p - 1), d) && D.NameOk(d.name) && RefOk(d.name)
      ensures var rest := [d.flags] + d.code;
        D.Opens(s, d.name, rest, |D.NameBytes(d.name) + rest|)
          && Stop(Skip(s, PkgHeader(s)), |D.NameBytes(d.name) + rest|) == s.p - 1 + |D.Bytes(d).value|
      ensures AmlNamespace.Valid(ns.nodes) && Sized()
      ensures |D.Named(Seen(), PathTo(ns.nodes, scope), d.name, Method).paths| <= Limit()
    {
      hide AmlNamespace.Valid, ViewOf, PathTo, D.Named, D.Bytes, D.Opens, D.NameBytes, RefOk, D.DeclOk, Has, PkgHeader;
      D.MethodDeclReads(s, d);
      RefIsOk(d.name);
    }

    lemma FieldsWanted(s: Stream, scope: nat, d: D.Decl)
      requires Valid() && scope < |ns.nodes| && Ok(s) && Wanted(s, 2, scope, Some(d)) && d.Fields?
      ensures 2 <= s.p && D.DeclHere(s.(p := s.p - 2), d) && D.NameOk(d.region)
      ensures forall it <- d.items :: ItemOk(it)
      ensures var rest := [d.flags] + ListBytes(d.items);
        D.Opens(s, d.region, rest, |D.NameBytes(d.region) + rest|)
          && Stop(Skip(s, PkgHeader(s)), |D.NameBytes(d.region) + rest|) == s.p - 2 + |D.Bytes(d).value|
      ensures AmlNamespace.Valid(ns.nodes) && Sized()
      ensures |Paths(ns.nodes) + D.RangeNames(PathTo(ns.nodes, scope), d.items)| <= Limit()
    {
      hide AmlNamespace.Valid, PathTo, Paths, Methods, D.Bytes, D.Opens, D.NameBytes, D.DeclOk, Has, PkgHeader,
        ListBytes, D.RangeNames, D.Ranged, Kinds;
      D.FieldsRead(s, d);
    }

    /** Valid still, and nothing in the earlier namespace `t` has been lost. */
    ghost predicate Since(t: Tree)
      reads this, ns
    {
      Valid() && |t| <= |ns.nodes| && Evolves(t, ns.nodes)
    }

    method Create(scope: nat, name: Path, kind: Kind) returns (r: Option<nat>)
      requires Valid() && scope < |ns.nodes| && kind != Method
      modifies ns
      ensures Since(old(ns.nodes)) && (r.Some? ==> r.value < |ns.nodes| && r == Created(ns.nodes, Some(scope), name))
      ensures r.Some? <==> old(ns.room) >= Needs(old(ns.nodes), Some(scope), name)
      ensures Limit() == old(Limit()) && (r.Some? ==> ns.room == old(ns.room) - Needs(old(ns.nodes), Some(scope), name))
      ensures SameMethods(old(ns.nodes), ns.nodes)
      ensures r.Some? && CreateBody(name) != [] ==> KindSet(old(ns.nodes), ns.nodes, r.value, kind)
    {
      hide AmlNamespace.Valid, Created, Torn, KindsKept, SameMethods, KindSet, CreateBody;
      r := ns.CreatePath(Some(scope), name, kind);
      if r.Some? && CreateBody(name) != [] { KindIsSet(old(ns.nodes), ns.nodes, r.value, kind); }
      GrownSame(old(ns.nodes), ns.nodes, r, kind);
      CodedAfter(old(ns.nodes), ns.nodes, bodies, cuts, r, kind);
    }

    /** The same for a name there is room for: it is what has come. */
    method CreateNamed(scope: nat, name: Path, kind: Kind, ghost want: Option<Ref>) returns (r: Option<nat>)
      requires Valid() && scope < |ns.nodes| && kind != Method
      requires want.Some? ==>
        && RefOk(want.value) && name == Written(want.value)
        && |D.Named(Seen(), PathTo(ns.nodes, scope), want.value, kind).paths| <= Limit()
      modifies ns
      ensures Since(old(ns.nodes)) && (r.Some? ==> r.value < |ns.nodes|)
      ensures want.Some? ==>
        && Seen() == D.Named(old(Seen()), PathTo(old(ns.nodes), scope), want.value, kind) && Limit() == old(Limit())
        && r.Some? && PathTo(ns.nodes, r.value) == Target(PathTo(old(ns.nodes), scope), want.value)
    {
      hide AmlNamespace.Valid, Created, Torn, Needs, Evolves, Coded, Written, PathTo, ViewOf, SameMethods, KindSet,
        CreateBody;
      ghost var t := ns.nodes;
      if want.Some? { RoomToName(t, ns.room, bodies, scope, want.value, kind); }
      if want.Some? { SomeBody(want.value); }
      r := Create(scope, name, kind);
      if want.Some? {
        EvolvesKeeps(t, ns.nodes);
        NamedNow(t, ns.nodes, bodies, scope, want.value, kind, r.value);
      }
    }

    method Find(scope: nat, name: Path) returns (r: Option<nat>)
      requires Valid() && scope < |ns.nodes|
      ensures r == Lookup(ns.nodes, Some(scope), name) && (r.Some? ==> r.value < |ns.nodes|)
    {
      r := Lookup(ns.nodes, Some(scope), name);
      if r.Some? { LookupInTree(ns.nodes, Some(scope), name); }
    }

    method MakeKind(n: nat, kind: Kind)
      requires Valid() && n < |ns.nodes| && kind != Method
      modifies ns
      ensures Since(old(ns.nodes)) && ns.nodes == old(ns.nodes)[n := old(ns.nodes)[n].(kind := kind)]
        && ns.room == old(ns.room)
    {
      hide AmlNamespace.Valid;
      ns.SetKind(n, kind);
    }

    /** A gap, an access width, a connection: what moves on without naming bits. */
    static method SkipItem(s: Stream, bitAt: nat, access: nat, ghost c: Cursor)
      returns (t: Stream, bitAt': nat, access': nat)
      requires InTable(s) && s.p < s.end && Peek(s) <= 0x03 && F.AccessWidth(access)
      requires c == Cursor(s, c.bit, access) && bitAt == c.bit % 0x1_0000_0000
      ensures InTable(t) && Left(t) < Left(s) && F.AccessWidth(access') && !Ended(c)
      ensures Item(c) == (Cursor(t, Item(c).0.bit, access'), []) && bitAt' == Item(c).0.bit % 0x1_0000_0000
    {
      hide PkgTotal, PkgHeader, AccessWidth;
      var lead := Peek(s);
      t, bitAt', access' := Next(s), bitAt, access;
      if lead == 0x00 {
        var gap;
        t, gap := PkgLength(t);
        bitAt' := (bitAt + gap) % 0x1_0000_0000;
      } else if lead == 0x01 {
        access' := AccessWidth(Peek(t));
        t := Next(Next(t));
      } else if lead == 0x03 {
        t := Next(Next(Next(t)));
      }
    }

    /** A list of named bit ranges, gaps and access changes, laid end to end. */
    method ParseFieldList(s: Stream, scope: nat, flags: Byte)
      requires Valid() && scope < |ns.nodes| && InTable(s)
      modifies `fields, ns
      ensures Since(old(ns.nodes))
      ensures FieldsCame(old(fields), fields, ns.nodes, scope, FieldsOf(Cursor(s, 0, AccessWidth(flags))))
      ensures Limit() == old(Limit()) && SameMethods(old(ns.nodes), ns.nodes)
      ensures RangesCame(old(ns.nodes), ns.nodes, Limit(), scope, FieldsOf(Cursor(s, 0, AccessWidth(flags))))
    {
      hide Valid, AmlNamespace.Valid, Evolves, FieldsCame, PkgTotal, PkgHeader, AccessWidth, FieldsOf, SoFar, Item,
        RangesCame, SameMethods;
      SameRefl(ns.nodes);
      ValidFacts();
      EvolvesRefl(ns.nodes);
      var t := s;
      var bitAt: nat, access := 0, AccessWidth(flags);
      ghost var c, laid := Cursor(s, 0, AccessWidth(flags)), [];
      ghost var all := FieldsOf(c);
      NoFieldsCame(fields, ns.nodes, scope);
      ghost var t0, limit := ns.nodes, Limit();
      NoRangesCame(t0, limit, scope);
      SoFarNone(c);
      while t.p < t.end
        invariant InTable(t) && F.AccessWidth(access) && c == Cursor(t, c.bit, access) && bitAt == c.bit % 0x1_0000_0000
        invariant Since(old(ns.nodes)) && scope < |ns.nodes|
        invariant FieldsCame(old(fields), fields, ns.nodes, scope, laid) && SoFar(all, laid, c)
        invariant AmlNamespace.Valid(ns.nodes) && Limit() == limit && SameMethods(t0, ns.nodes)
          && RangesCame(t0, ns.nodes, limit, scope, laid)
        decreases Left(t)
      {
        SoFarNext(all, laid, c);
        if Peek(t) <= 0x03 {
          t, bitAt, access := SkipItem(t, bitAt, access, c);
          assert laid + [] == laid;
        } else {
          if Left(t) < 4 {
            return;
          }
          ghost var before := ns.nodes;
          EvolvesKeeps(t0, before);
          var width;
          t, width := ParseNamed(t, scope, bitAt, access, c, laid, old(fields), t0);
          ValidFacts();
          SameTrans(t0, before, ns.nodes);
          EvolvesTrans(old(ns.nodes), before, ns.nodes);
          bitAt := (bitAt + width) % 0x1_0000_0000;
        }
        c, laid := Item(c).0, laid + Item(c).1;
      }
      SoFarNext(all, laid, c);
    }

    /** One two-byte declaration, after its prefix. */
    method ParseExtended(s: Stream, scope: nat, ghost want: Option<D.Decl>) returns (t: Stream, ok: bool)
      requires Valid() && scope < |ns.nodes| && Ok(s) && s.code in tables && Wanted(s, 1, scope, want)
      requires want.Some? ==>
        !want.value.Open? && !want.value.Method? && !want.value.Value? && !want.value.External? && !want.value.Alias?
      modifies `bodies, `cuts, `fields, ns
      ensures Since(old(ns.nodes)) && Moved(s, t) && (want.Some? ==> ok)
      ensures Got(want, s, 1, t, PathTo(old(ns.nodes), scope), old(Seen()), Seen(), old(Limit()), Limit())
      decreases Left(s), 2
    {
      hide Valid, AmlNamespace.Valid, Evolves, PkgTotal, PkgHeader, Prefix, FullName, SegStart, Segments, MethodOf,
        MethodEnd, Declared, PathTo, ViewOf, D.AfterOne, D.Bytes, D.DeclOk, Wanted, Got;
      EvolvesRefl(ns.nodes);
      ValidFacts();
      ghost var before, seen, limit := ns.nodes, Seen(), Limit();
      if want.Some? { WantedSecond(s, scope, want.value); } else { NoneWanted(Next(s), 2, scope); }
      var op := Peek(s);
      t, ok := Next(s), true;
      match op {
        case 0x80 => t, ok := ParseRegion(t, scope, want);
        case 0x81 => t := ParseField(t, scope, want);
        case 0x86 => t := ParseIndexField(t, scope, false);
        case 0x87 => t := ParseIndexField(t, scope, true);
        case 0x82 => t := ParseDevice(t, scope, 0, want);
        case 0x83 => t := ParseDevice(t, scope, 6, want);           // Processor: id, block address and length
        case 0x84 => t := ParseDevice(t, scope, 3, want);           // PowerResource: level and order
        case 0x85 => t := ParseDevice(t, scope, 0, want);
        case 0x01 => t, ok := ParseMutex(t, scope, want);
        case 0x02 => t, ok := ParseEvent(t, scope, want);
        case _ => t := t.(p := t.end);                              // not known: the rest is given up
      }
      ValidFacts();
      if want.Some? {
        GotSecond(want.value, s, t, PathTo(before, scope), seen, Seen(), limit, Limit());
      } else {
        NoneGotAll(s, 1);
      }
    }

    method ParseRegion(s: Stream, scope: nat, ghost want: Option<D.Decl>) returns (t: Stream, ok: bool)
      requires Valid() && scope < |ns.nodes| && Ok(s) && Wanted(s, 2, scope, want)
      requires want.Some? ==> want.value.Region?
      modifies `bodies, `cuts, `fields, ns
      ensures Since(old(ns.nodes)) && Moved(s, t) && (want.Some? ==> ok)
      ensures Got(want, s, 2, t, PathTo(old(ns.nodes), scope), old(Seen()), Seen(), old(Limit()), Limit())
    {
      hide Valid, AmlNamespace.Valid, Evolves, PkgTotal, PkgHeader, Prefix, FullName, SegStart, Segments, PathTo,
        ViewOf,
        Written, CStr, Cut, D.NameBytes, D.NameOk, D.Named, D.Bytes, D.DeclHere, D.DeclOk, Wanted, Got, RefOk, Has,
          D.Trailer;
      EvolvesRefl(ns.nodes);
      ValidFacts();
      ghost var before, seen, limit := ns.nodes, Seen(), Limit();
      if want.Some? { PlainWanted(s, 2, scope, want.value); } else { NoneGotAll(s, 2); }
      var name, off, len;
      t, ok, name := NameString(s);
      if !ok {
        return;
      }
      if want.Some? { RegionReads(t, s.(p := s.p - 2), want.value); }
      t := Next(t);
      t, off := ParseData(t);
      t, len := ParseData(t);
      var _ := CreateNamed(scope, name, Region, if want.Some? then Some(want.value.name) else None);
      ValidFacts();
      if want.Some? { PlainGot(want.value, s, 2, t, PathTo(before, scope), seen, Seen(), limit); }
    }

    method ParseMutex(s: Stream, scope: nat, ghost want: Option<D.Decl>) returns (t: Stream, ok: bool)
      requires Valid() && scope < |ns.nodes| && Ok(s) && Wanted(s, 2, scope, want)
      requires want.Some? ==> want.value.Mutex?
      modifies `bodies, `cuts, `fields, ns
      ensures Since(old(ns.nodes)) && Moved(s, t) && (want.Some? ==> ok)
      ensures Got(want, s, 2, t, PathTo(old(ns.nodes), scope), old(Seen()), Seen(), old(Limit()), Limit())
    {
      hide Valid, AmlNamespace.Valid, Evolves, PkgTotal, PkgHeader, Prefix, FullName, SegStart, Segments, PathTo,
        ViewOf,
        Written, CStr, Cut, D.NameBytes, D.NameOk, D.Named, D.Bytes, D.DeclHere, D.DeclOk, Wanted, Got, RefOk, Has,
          D.Trailer;
      EvolvesRefl(ns.nodes);
      ValidFacts();
      ghost var before, seen, limit := ns.nodes, Seen(), Limit();
      if want.Some? { PlainWanted(s, 2, scope, want.value); } else { NoneGotAll(s, 2); }
      var name;
      t, ok, name := NameString(s);
      if ok {
        if want.Some? { LevelReads(t, want.value); }
        t := Next(t);
        var _ := CreateNamed(scope, name, Mutex, if want.Some? then Some(want.value.name) else None);
      }
      ValidFacts();
      if want.Some? { PlainGot(want.value, s, 2, t, PathTo(before, scope), seen, Seen(), limit); }
    }

    method ParseEvent(s: Stream, scope: nat, ghost want: Option<D.Decl>) returns (t: Stream, ok: bool)
      requires Valid() && scope < |ns.nodes| && Ok(s) && Wanted(s, 2, scope, want)
      requires want.Some? ==> want.value.Event?
      modifies `bodies, `cuts, `fields, ns
      ensures Since(old(ns.nodes)) && Moved(s, t) && (want.Some? ==> ok)
      ensures Got(want, s, 2, t, PathTo(old(ns.nodes), scope), old(Seen()), Seen(), old(Limit()), Limit())
    {
      hide Valid, AmlNamespace.Valid, Evolves, PkgTotal, PkgHeader, Prefix, FullName, SegStart, Segments, PathTo,
        ViewOf,
        Written, CStr, Cut, D.NameBytes, D.NameOk, D.Named, D.Bytes, D.DeclHere, D.DeclOk, Wanted, Got, RefOk, Has;
      EvolvesRefl(ns.nodes);
      ValidFacts();
      ghost var before, seen, limit := ns.nodes, Seen(), Limit();
      if want.Some? { PlainWanted(s, 2, scope, want.value); } else { NoneGotAll(s, 2); }
      var name;
      t, ok, name := NameString(s);
      if ok {
        var _ := CreateNamed(scope, name, Object, if want.Some? then Some(want.value.name) else None);
      }
      ValidFacts();
      if want.Some? { PlainGot(want.value, s, 2, t, PathTo(before, scope), seen, Seen(), limit); }
    }

    method ParseField(s: Stream, scope: nat, ghost want: Option<D.Decl>) returns (t: Stream)
      requires Valid() && scope < |ns.nodes| && Ok(s) && Wanted(s, 2, scope, want)
      requires want.Some? ==> want.value.Fields?
      modifies `bodies, `cuts, `fields, ns
      ensures Since(old(ns.nodes)) && Moved(s, t)
      ensures Got(want, s, 2, t, PathTo(old(ns.nodes), scope), old(Seen()), Seen(), old(Limit()), Limit())
    {
      hide Valid, AmlNamespace.Valid, Evolves, PkgTotal, PkgHeader, Prefix, FullName, SegStart, Segments, PathTo,
        ViewOf,
        Written, CStr, Cut, D.NameBytes, D.NameOk, D.Named, D.Bytes, D.DeclHere, D.DeclOk, Wanted, Got, RefOk, Has,
          FieldsOf, FieldsCame, D.RangeNames, LaidNames, ListBytes, D.Ranged, Kinds,
        Paths, SameMethods;
      EvolvesRefl(ns.nodes);
      ValidFacts();
      ghost var before, seen, limit := ns.nodes, Seen(), Limit();
      if want.Some? { FieldsWanted(s, scope, want.value); } else { NoneGotAll(s, 2); }
      var len;
      t, len := PkgLength(s);
      var stop := Stop(t, len);
      var u, ok, name := NameString(t);
      if ok {
        var region := Find(scope, name);
        var flags := Peek(u);
        if want.Some? { RangesHere(u, stop, PathTo(before, scope), want.value.flags, want.value.items); }
        u := Next(u);
        ParseFieldList(Upto(u, stop), scope, flags);
      }
      t := t.(p := stop);
      ValidFacts();
      if want.Some? {
        NamesCame(before, ns.nodes, bodies);
        FieldsGot(want.value, s, t, PathTo(before, scope), seen, Seen(), limit);
      }
    }

    /** A field reached through another: two names, and for a bank field a value. */
    method ParseIndexField(s: Stream, scope: nat, bank: bool) returns (t: Stream)
      requires Valid() && scope < |ns.nodes| && Ok(s)
      modifies `bodies, `cuts, `fields, ns
      ensures Since(old(ns.nodes)) && Moved(s, t)
    {
      hide Valid, AmlNamespace.Valid, Evolves, PkgTotal, PkgHeader, Prefix, FullName, SegStart, Segments;
      EvolvesRefl(ns.nodes);
      var len;
      t, len := PkgLength(s);
      var stop := Stop(t, len);
      var u, ok, name := NameString(t);
      u, ok, name := NameString(u);
      if bank {
        var v;
        u, v := ParseData(u);
      }
      var flags := Peek(u);
      u := Next(u);
      ParseFieldList(Upto(u, stop), scope, flags);
      t := t.(p := stop);
    }

    /** A construct with a name, `fixed` bytes, and declarations inside. */
    method ParseDevice(s: Stream, scope: nat, fixed: nat, ghost want: Option<D.Decl>) returns (t: Stream)
      requires Valid() && scope < |ns.nodes| && Ok(s) && s.code in tables && Wanted(s, 2, scope, want)
      requires want.Some? ==> want.value.Nest? && fixed == D.FixedBytes(want.value.op)
      modifies `bodies, `cuts, `fields, ns
      ensures Since(old(ns.nodes)) && Moved(s, t)
      ensures Got(want, s, 2, t, PathTo(old(ns.nodes), scope), old(Seen()), Seen(), old(Limit()), Limit())
      decreases Left(s), 1
    {
      hide Valid, AmlNamespace.Valid, Evolves, PkgTotal, PkgHeader, Prefix, FullName, SegStart, Segments, PathTo,
        ViewOf,
        Written, CStr, Cut, D.NameBytes, D.NameOk, D.Named, D.Bytes, D.DeclHere, D.DeclOk, Wanted, Got, RefOk, Has,
          D.After, D.BytesAll, Target;
      EvolvesRefl(ns.nodes);
      ValidFacts();
      ghost var before, seen, limit := ns.nodes, Seen(), Limit();
      ghost var r := if want.Some? then Some(want.value.name) else None;
      ghost var inner := if want.Some? then Some(want.value.inner) else None;
      if want.Some? { NestWanted(s, scope, want.value); } else { NoneGotAll(s, 2); }
      var len;
      t, len := PkgLength(s);
      var stop := Stop(t, len);
      var u, ok, name := NameString(t);
      if ok {
        ghost var u0 := u;
        for i := 0 to fixed
          invariant Moved(t, u) && u.p == if u0.p + i <= t.end then u0.p + i else t.end
        {
          u := Next(u);
        }
        if want.Some? { AfterFixed(u0, u, stop, want.value.fixed, inner.value); }
        var n := CreateNamed(scope, name, Device, r);
        ghost var between := ns.nodes;
        ValidFacts();
        var _, _ := ParseTerms(Upto(u, stop), if n.Some? then n.value else scope, inner);
        EvolvesTrans(before, between, ns.nodes);
      }
      t := t.(p := stop);
      ValidFacts();
      if want.Some? { NestGot(want.value, s, t, PathTo(before, scope), seen, Seen(), limit); }
    }

    /** A list of declarations.  Whatever the bytes, the list is left at or before its end
        and, if there was anything in it, past its first opcode; and bytes that encode a list add to
        the namespace what the list does. */
    method ParseTerms(s: Stream, scope: nat, ghost want: Option<seq<D.Decl>>) returns (t: Stream, ok: bool)
      requires Valid() && scope < |ns.nodes| && InTable(s) && s.code in tables
      requires want.Some? ==>
        D.ListHere(s, want.value) && |D.After(Seen(), PathTo(ns.nodes, scope), want.value).paths| <= Limit()
      modifies `bodies, `cuts, `fields, ns
      ensures Since(old(ns.nodes))
      ensures if s.p < s.end then Moved(s, t) && s.p < t.p else t == s && ok
      ensures OneMethod(s) ==> ok && Declared(Next(s), scope, old(ns.nodes), old(ns.room))
      ensures want.Some? ==>
        ok && Limit() == old(Limit()) && Seen() == D.After(old(Seen()), PathTo(old(ns.nodes), scope), want.value)
      decreases Left(s), 0
    {
      hide Valid, AmlNamespace.Valid, Evolves, PkgTotal, PkgHeader, Prefix, FullName, SegStart, Segments, MethodOf,
        MethodEnd, Declared, PathTo, ViewOf, D.After, D.AfterOne, D.ListHere, D.Bytes, D.DeclHere, D.DeclOk, Got;
      EvolvesRefl(ns.nodes);
      t, ok := s, true;
      ValidFacts();
      ghost var at, limit := PathTo(ns.nodes, scope), Limit();
      ghost var rest := if want.Some? then want.value else [];
      ghost var all := D.After(Seen(), at, rest);
      while t.p < t.end
        invariant Since(old(ns.nodes)) && (s.p < s.end ==> Moved(s, t)) && (s.p >= s.end ==> t == s)
        invariant InTable(t) && t.end == s.end && ok && (t != s ==> s.p < t.p)
        invariant t == s ==> ns.nodes == old(ns.nodes) && ns.room == old(ns.room)
        invariant OneMethod(s) ==> t == s || (t.p == s.end && Declared(Next(s), scope, old(ns.nodes), old(ns.room)))
        invariant Sized() && (want.Some? ==> D.ListHere(t, rest) && Limit() == limit && Pending(scope, at, rest, all))
        decreases Left(t)
      {
        ValidFacts();
        ghost var before, now := ns.nodes, Seen();
        ghost var d: Option<D.Decl> := None;
        if want.Some? {
          PendingNext(t, scope, at, rest, all);
          d := Some(rest[0]);
        }
        var u;
        if want.None? { NoneWanted(t, 0, scope); }
        u, ok := ParseTerm(t, scope, d);
        EvolvesTrans(old(ns.nodes), before, ns.nodes);
        ValidFacts();
        if want.Some? {
          GotFacts(rest[0], t, u, at, now, Seen(), limit, Limit());
          PendingDone(before, scope, at, rest, all, now);
          rest := rest[1..];
        }
        t := u;
        if !ok {
          return;
        }
      }
      if want.Some? { PendingNone(t, scope, at, rest, all); }
    }

    /** What is still to come makes of what there is now what the whole list makes of what there was. */
    ghost predicate Pending(scope: nat, at: Abs, rest: seq<D.Decl>, all: D.View)
      requires Sized() && scope < |ns.nodes|
      reads this, ns
    {
      PathTo(ns.nodes, scope) == at && D.After(Seen(), at, rest) == all && |all.paths| <= Limit()
    }

    lemma PendingNext(t: Stream, scope: nat, at: Abs, rest: seq<D.Decl>, all: D.View)
      requires Valid() && scope < |ns.nodes| && D.ListHere(t, rest) && t.p < t.end && Pending(scope, at, rest, all)
      ensures rest != [] && Wanted(t, 0, scope, Some(rest[0])) && D.DeclOk(rest[0]) && D.Bytes(rest[0]).Some?
      ensures D.ListHere(Skip(t, |D.Bytes(rest[0]).value|), rest[1..])
    {
      hide AmlNamespace.Valid, ViewOf, PathTo, D.AfterOne, D.After, D.DeclOk, D.Bytes, D.ListHere, Has;
      D.ListNext(t, rest);
      D.FirstFits(Seen(), at, rest);
    }

    lemma PendingDone(before: Tree, scope: nat, at: Abs, rest: seq<D.Decl>, all: D.View, v: D.View)
      requires Valid() && AmlNamespace.Valid(before) && scope < |before| && Evolves(before, ns.nodes)
      requires rest != [] && PathTo(before, scope) == at && scope < |ns.nodes|
      requires D.After(v, at, rest) == all && Seen() == D.AfterOne(v, at, rest[0]) && |all.paths| <= Limit()
      ensures Pending(scope, at, rest[1..], all)
    {
      hide ViewOf, PathTo, D.AfterOne, AmlNamespace.Valid, Evolves;
      EvolvesKeeps(before, ns.nodes);
      PathStays(before, ns.nodes, scope);
    }

    lemma PendingNone(t: Stream, scope: nat, at: Abs, rest: seq<D.Decl>, all: D.View)
      requires Valid() && scope < |ns.nodes| && D.ListHere(t, rest) && t.p >= t.end && Pending(scope, at, rest, all)
      ensures Seen() == all
    {
      hide Valid, ViewOf, PathTo, D.AfterOne, D.DeclOk, D.Bytes, D.ListHere;
      D.ListNext(t, rest);
    }

    /** One declaration. */
    method ParseTerm(s: Stream, scope: nat, ghost want: Option<D.Decl>) returns (t: Stream, ok: bool)
      requires Valid() && scope < |ns.nodes| && Ok(s) && s.code in tables && s.p < s.end && Wanted(s, 0, scope, want)
      modifies `bodies, `cuts, `fields, ns
      ensures Since(old(ns.nodes)) && Moved(s, t) && s.p < t.p
      ensures Peek(s) == 0x14 ==>
        ok && t.p == MethodEnd(Next(s)) && Declared(Next(s), scope, old(ns.nodes), old(ns.room))
      ensures want.Some? ==> ok
      ensures Got(want, s, 0, t, PathTo(old(ns.nodes), scope), old(Seen()), Seen(), old(Limit()), Limit())
      decreases Left(s), 0, 0
    {
      hide Valid, AmlNamespace.Valid, Evolves, PkgTotal, PkgHeader, Prefix, FullName, SegStart, Segments, MethodOf,
        MethodEnd, Declared, PathTo, ViewOf, D.AfterOne, D.Bytes, D.DeclOk, Wanted, Got;
      EvolvesRefl(ns.nodes);
      ValidFacts();
      ghost var before, seen, limit := ns.nodes, Seen(), Limit();
      if want.Some? { WantedFirst(s, scope, want.value); } else { NoneWanted(Next(s), 1, scope); }
      if want.None? { NoneGotAll(s, 0); }
      var op := Peek(s);
      t, ok := Next(s), true;
      match op {
        case 0x08 => t, ok := ParseName(t, scope, want);
        case 0x10 => t := ParseScope(t, scope, want);
        case 0x14 => t := ParseMethod(t, scope, want);
        case 0x06 => t, ok := ParseAlias(t, scope, want);
        case 0x15 => t, ok := ParseExternal(t, scope, want);
        case 0x5B => t, ok := ParseExtended(t, scope, want);
        case _ => t := s.(p := s.end);                    // not a declaration: give up the list
      }
      ValidFacts();
      if want.Some? { GotBack(want.value, s, t, PathTo(before, scope), seen, Seen(), limit, Limit()); }
    }

    method ParseName(s: Stream, scope: nat, ghost want: Option<D.Decl>) returns (t: Stream, ok: bool)
      requires Valid() && scope < |ns.nodes| && Ok(s) && Wanted(s, 1, scope, want)
      requires want.Some? ==> want.value.Value?
      modifies `bodies, `cuts, `fields, ns
      ensures Since(old(ns.nodes)) && Moved(s, t) && (want.Some? ==> ok)
      ensures Got(want, s, 1, t, PathTo(old(ns.nodes), scope), old(Seen()), Seen(), old(Limit()), Limit())
    {
      hide Valid, AmlNamespace.Valid, Evolves, PkgTotal, PkgHeader, Prefix, FullName, SegStart, Segments, PathTo,
        ViewOf,
        Written, CStr, Cut, D.NameBytes, D.NameOk, D.Named, D.Bytes, D.DeclHere, D.DeclOk, Wanted, Got, RefOk, Has,
          D.Trailer;
      EvolvesRefl(ns.nodes);
      ValidFacts();
      ghost var before, seen, limit := ns.nodes, Seen(), Limit();
      if want.Some? { PlainWanted(s, 1, scope, want.value); } else { NoneGotAll(s, 1); }
      var name, v;
      t, ok, name := NameString(s);
      if !ok {
        return;
      }
      if want.Some? { NumberHere(t, s.(p := s.p - 1), want.value); }
      t, v := ParseData(t);
      MakeName(scope, name, if want.Some? then Some(want.value.name) else None);
      ValidFacts();
      if want.Some? { PlainGot(want.value, s, 1, t, PathTo(before, scope), seen, Seen(), limit); }
    }

    method ParseAlias(s: Stream, scope: nat, ghost want: Option<D.Decl>) returns (t: Stream, ok: bool)
      requires Valid() && scope < |ns.nodes| && Ok(s) && Wanted(s, 1, scope, want)
      requires want.Some? ==> want.value.Alias?
      modifies `bodies, `cuts, `fields, ns
      ensures Since(old(ns.nodes)) && Moved(s, t) && (want.Some? ==> ok)
      ensures Got(want, s, 1, t, PathTo(old(ns.nodes), scope), old(Seen()), Seen(), old(Limit()), Limit())
    {
      hide Valid, AmlNamespace.Valid, Evolves, PkgTotal, PkgHeader, Prefix, FullName, SegStart, Segments, PathTo,
        ViewOf,
        Written, CStr, Cut, D.NameBytes, D.NameOk, D.Named, D.Bytes, D.DeclHere, D.DeclOk, Wanted, Got, RefOk, Has,
          D.AfterOne;
      EvolvesRefl(ns.nodes);
      ValidFacts();
      ghost var before, seen, limit := ns.nodes, Seen(), Limit();
      if want.Some? { AliasWanted(s, scope, want.value); } else { NoneGotAll(s, 1); }
      var target, name;
      t, ok, target := NameString(s);
      if !ok {
        return;
      }
      t, ok, name := NameString(t);
      if !ok {
        return;
      }
      MakeAlias(scope, target, name, want);
      ValidFacts();
      if want.Some? { AliasGot(want.value, s, t, PathTo(before, scope), seen, Seen(), limit); }
    }

    method ParseExternal(s: Stream, scope: nat, ghost want: Option<D.Decl>) returns (t: Stream, ok: bool)
      requires Valid() && scope < |ns.nodes| && Ok(s) && Wanted(s, 1, scope, want)
      requires want.Some? ==> want.value.External?
      ensures Moved(s, t) && (want.Some? ==> ok)
      ensures Got(want, s, 1, t, PathTo(ns.nodes, scope), Seen(), Seen(), Limit(), Limit())
    {
      hide Valid, AmlNamespace.Valid, Evolves, PkgTotal, PkgHeader, Prefix, FullName, SegStart, Segments, PathTo,
        ViewOf,
        Written, CStr, Cut, D.NameBytes, D.NameOk, D.Named, D.Bytes, D.DeclHere, D.DeclOk, Wanted, Got, RefOk, Has,
          D.Trailer;
      ValidFacts();
      if want.Some? { PlainWanted(s, 1, scope, want.value); } else { NoneGotAll(s, 1); }
      var name;
      t, ok, name := NameString(s);
      if ok {
        if want.Some? { TwoBytes(t, want.value); }
        t := Next(Next(t));
      }
      if want.Some? { PlainGot(want.value, s, 1, t, PathTo(ns.nodes, scope), Seen(), Seen(), Limit()); }
    }

    method ParseScope(s: Stream, scope: nat, ghost want: Option<D.Decl>) returns (t: Stream)
      requires Valid() && scope < |ns.nodes| && Ok(s) && s.code in tables && Wanted(s, 1, scope, want)
      requires want.Some? ==> want.value.Open?
      modifies `bodies, `cuts, `fields, ns
      ensures Since(old(ns.nodes)) && Moved(s, t)
      ensures Got(want, s, 1, t, PathTo(old(ns.nodes), scope), old(Seen()), Seen(), old(Limit()), Limit())
      decreases Left(s), 1
    {
      hide Valid, AmlNamespace.Valid, Evolves, PkgTotal, PkgHeader, Prefix, FullName, SegStart, Segments, PathTo,
        ViewOf,
        Written, CStr, Cut, D.NameBytes, D.NameOk, D.Named, D.Bytes, D.DeclHere, D.DeclOk, Wanted, Got, RefOk, Has,
          D.After, D.BytesAll, Target, Found, Lookup;
      EvolvesRefl(ns.nodes);
      ValidFacts();
      ghost var before, seen, limit := ns.nodes, Seen(), Limit();
      ghost var r := if want.Some? then Some(want.value.name) else None;
      ghost var inner := if want.Some? then Some(want.value.inner) else None;
      if want.Some? { OpenWanted(s, scope, want.value); } else { NoneGotAll(s, 1); }
      var len;
      t, len := PkgLength(s);
      var stop := Stop(t, len);
      var u, ok, name := NameString(t);
      if ok {
        var n := Find(scope, name);
        if want.Some? {
          LookupIs(before, scope, r.value);
          SeenPaths(before, bodies);
          InnerHere(u, stop, inner.value);
        }
        if n.None? {
          n := CreateNamed(scope, name, Scope, r);
        }
        ghost var between := ns.nodes;
        ValidFacts();
        var _, _ := ParseTerms(Upto(u, stop), if n.Some? then n.value else scope, inner);
        EvolvesTrans(before, between, ns.nodes);
      }
      t := t.(p := stop);
      ValidFacts();
      if want.Some? { OpenGot(want.value, s, t, PathTo(before, scope), seen, Seen(), limit); }
    }

    ghost predicate Declared(s: Stream, scope: nat, t: Tree, room: nat)
      requires Ok(s)
      reads this, ns
    {
      Declares(ns.nodes, bodies, s, scope, t, room)
    }

    /** A method: its name, its flags, and code up to the end of its package.  When the package
        ends before the flags do, the length of the code wraps and the table holds none of it. */
    method ParseMethod(s: Stream, scope: nat, ghost want: Option<D.Decl>) returns (t: Stream)
      requires Valid() && scope < |ns.nodes| && Ok(s) && s.code in tables && 0 < s.p && s.code[s.p - 1] == 0x14
      requires Wanted(s, 1, scope, want) && (want.Some? ==> want.value.Method?)
      modifies `bodies, `cuts, `fields, ns
      ensures Since(old(ns.nodes)) && Moved(s, t) && t.p == MethodEnd(s)
      ensures Declared(s, scope, old(ns.nodes), old(ns.room))
      ensures Got(want, s, 1, t, PathTo(old(ns.nodes), scope), old(Seen()), Seen(), old(Limit()), Limit())
    {
      hide Valid, AmlNamespace.Valid, Evolves, PkgTotal, PkgHeader, Prefix, FullName, SegText, Created, SegStart,
        Segments, CStr, Cut, MethodOf, NameOf, MethodCutShort, Torn, Needs, PathTo, ViewOf, Written, D.NameBytes,
        D.NameOk, D.Named, D.Bytes, D.DeclHere, D.DeclOk, Wanted, Got, RefOk, Has, Target;
      EvolvesRefl(ns.nodes);
      ValidFacts();
      ghost var before, seen, limit := ns.nodes, Seen(), Limit();
      if want.Some? { MethodWanted(s, scope, want.value); } else { NoneGotAll(s, 1); }
      var len;
      t, len := PkgLength(s);
      var stop := Stop(t, len);
      var u, ok, name := NameString(t);
      MethodIs(s, u, ok, name);
      if ok {
        TornBy(s, tables);
        if want.Some? { CodeReads(u, stop, want.value.flags, want.value.code); }
        DefineMethod(scope, name, Next(u), stop, Peek(u), if want.Some? then Some(want.value.name) else None);
      }
      t := t.(p := stop);
      ValidFacts();
      if want.Some? { MethodGot(want.value, s, t, PathTo(before, scope), seen, Seen(), limit); }
    }

    method DefineMethod(scope: nat, name: Path, s: Stream, stop: nat, flags: Byte, ghost want: Option<Ref>)
      requires Valid() && scope < |ns.nodes| && Ok(s) && stop <= s.end && s.code in tables
        && (s.p > stop ==> Torn(tables))
      requires want.Some? ==>
        && RefOk(want.value) && name == Written(want.value) && s.p <= stop
        && |D.Named(Seen(), PathTo(ns.nodes, scope), want.value, Method).paths| <= Limit()
      modifies `bodies, `cuts, `fields, ns
      ensures Since(old(ns.nodes))
      ensures old(ns.room) >= Needs(old(ns.nodes), Some(scope), name) ==>
        var c := Created(ns.nodes, Some(scope), name);
        && c.Some? && c.value < |ns.nodes| && ns.nodes[c.value].kind == Method
        && (c.value in bodies <==> s.p <= stop) && (s.p <= stop ==> bodies[c.value] == Body(Upto(s, stop), flags % 8))
      ensures want.Some? ==>
        && Limit() == old(Limit())
        && var at, v := PathTo(old(ns.nodes), scope), old(Seen());
        Seen() == D.Coded(D.Named(v, at, want.value, Method), Target(at, want.value),
          D.Code(s.code[s.p..stop], flags % 8))
    {
      hide AmlNamespace.Valid, Evolves, Created, Torn, KindsKept, Coded, Grows, Needs, PathTo, ViewOf, Written, Target,
        D.Named, D.Coded;
      ghost var before := ns.nodes;
      if want.Some? { RoomToName(before, ns.room, bodies, scope, want.value, Method); }
      var n := ns.CreatePath(Some(scope), name, Method);
      GrowsEvolves(before, ns.nodes);
      CodedStays(before, ns.nodes, bodies, cuts, n);
      if n.Some? {
        ghost var between := ns.nodes;
        ns.SetKind(n.value, Method);
        KindEvolves(between, n.value, Method);
        EvolvesTrans(before, between, ns.nodes);
        CreatedAlike(between, ns.nodes, Some(scope), name);
        CodedBut(between, ns.nodes, bodies, cuts, n.value);
        if want.Some? {
          MethodCame(before, between, bodies, scope, want.value, n.value, Body(Upto(s, stop), flags % 8));
        }
        SetBody(n.value, s, stop, flags);
      }
    }

    /** A named object; its value replaces a field that had the name. */
    method MakeName(scope: nat, name: Path, ghost want: Option<Ref>)
      requires Valid() && scope < |ns.nodes|
      requires want.Some? ==>
        && RefOk(want.value) && name == Written(want.value)
        && |D.Named(Seen(), PathTo(ns.nodes, scope), want.value, Object).paths| <= Limit()
      modifies `bodies, `cuts, `fields, ns
      ensures Since(old(ns.nodes))
      ensures want.Some? ==>
        Seen() == D.Named(old(Seen()), PathTo(old(ns.nodes), scope), want.value, Object) && Limit() == old(Limit())
    {
      hide AmlNamespace.Valid, Evolves, Coded, Torn, Created, PathTo, ViewOf, D.Named, Written;
      var n := CreateNamed(scope, name, Object, want);
      if n.Some? {
        fields := fields - {n.value};
      }
    }

    method SetBody(n: nat, s: Stream, stop: nat, flags: Byte)
      requires Sized() && n < |ns.nodes| && Coded(ns.nodes, bodies, cuts, Some(n))
        && (cuts != map[] || wild ==> Torn(tables))
      requires Ok(s) && stop <= s.end && s.code in tables && (s.p > stop ==> Torn(tables))
      modifies `bodies, `cuts
      ensures Valid() && (n in bodies <==> s.p <= stop)
      ensures s.p <= stop ==> bodies == old(bodies)[n := Body(Upto(s, stop), flags % 8)]
    {
      hide AmlNamespace.Valid, Torn, Coded;
      var codeLen := (stop - s.p) % 0x1_0000_0000;
      CodeInTable(s, stop);
      if s.p + codeLen <= |s.code| {
        var body := Body(Upto(s, s.p + codeLen), flags % 8);
        CodedSet(ns.nodes, bodies, cuts, n, body, 0);
        bodies, cuts := bodies[n := body], cuts - {n};
        assert old(cuts) == map[] ==> cuts == map[];
      } else {
        CodedSet(ns.nodes, bodies, cuts, n, Body(s, 0), flags % 8);
        bodies, cuts := bodies - {n}, cuts[n := flags % 8];
      }
    }

    /** A second name for what `target` is. */
    method MakeAlias(scope: nat, target: Path, name: Path, ghost want: Option<D.Decl>)
      requires Valid() && scope < |ns.nodes|
      requires want.Some? ==>
        && want.value.Alias? && RefOk(want.value.source) && target == Written(want.value.source)
        && RefOk(want.value.name) && name == Written(want.value.name)
        && |D.Named(Seen(), PathTo(ns.nodes, scope), want.value.name, Object).paths| <= Limit()
      modifies `bodies, `cuts, `fields, ns
      ensures Since(old(ns.nodes))
      ensures want.Some? ==>
        Limit() == old(Limit()) && Seen() == D.AfterOne(old(Seen()), PathTo(old(ns.nodes), scope), want.value)
    {
      hide AmlNamespace.Valid, Evolves, Torn, Coded, Created, Needs, Copied, Lookup, PathTo, ViewOf, Written, Found,
        D.Named,
        RefOk, D.Shared, Target;
      ghost var before, seen := ns.nodes, Seen();
      var src := Find(scope, target);
      if want.Some? {
        LookupIs(before, scope, want.value.source);
        SeenPaths(before, bodies);
      }
      var dst := CreateNamed(scope, name, Object, if want.Some? then Some(want.value.name) else None);
      if src.Some? && dst.Some? {
        ghost var between := ns.nodes;
        ns.SetKind(dst.value, ns.nodes[src.value].kind);
        KindEvolves(between, dst.value, between[src.value].kind);
        EvolvesTrans(before, between, ns.nodes);
        if want.Some? {
          EvolvesKeeps(before, between);
          PathStays(before, between, src.value);
          AliasCame(between, bodies, src.value, dst.value);
        }
        Copy(src.value, dst.value, between);
      }
    }

    /** What one node has, another has as well. */
    method Copy(src: nat, dst: nat, ghost t: Tree)
      requires Sized() && src < |ns.nodes| && dst < |t| == |ns.nodes| && Coded(t, bodies, cuts, None)
      requires ns.nodes == t[dst := t[dst].(kind := t[src].kind)] && (cuts != map[] || wild ==> Torn(tables))
      modifies `bodies, `cuts, `fields
      ensures Valid() && bodies == Copied(old(bodies), src, dst)
    {
      hide AmlNamespace.Valid, Torn, Coded;
      CopyCoded(t, bodies, cuts, src, dst);
      CutsRemain(cuts, src, dst);
      bodies, cuts := Copied(bodies, src, dst), Copied(cuts, src, dst);
      fields := Copied(fields, src, dst);
    }

    /** A named range of a list. */
    method ParseNamed(s: Stream, scope: nat, bitAt: nat, access: nat, ghost c: Cursor, ghost laid: seq<Laid>,
      ghost before: map<nat, F.Field>, ghost t0: Tree) returns (t: Stream, width: nat)
      requires Valid() && scope < |ns.nodes| && InTable(s) && Left(s) >= 4 && Peek(s) > 0x03 && F.AccessWidth(access)
      requires c == Cursor(s, c.bit, access) && bitAt == c.bit % 0x1_0000_0000
      requires FieldsCame(before, fields, ns.nodes, scope, laid)
      requires AmlNamespace.Valid(t0) && scope < |t0| && Keeps(t0, ns.nodes)
        && RangesCame(t0, ns.nodes, Limit(), scope, laid)
      modifies `fields, ns
      ensures Since(old(ns.nodes)) && !Ended(c) && Item(c).0 == Cursor(t, c.bit + width, access)
      ensures FieldsCame(before, fields, ns.nodes, scope, laid + Item(c).1)
      ensures Limit() == old(Limit()) && RangesCame(t0, ns.nodes, Limit(), scope, laid + Item(c).1)
      ensures SameMethods(old(ns.nodes), ns.nodes)
    {
      hide AmlNamespace.Valid, Evolves, FieldsCame, PkgTotal, PkgHeader, Valid, Pad, RangesCame, Keeps, SameMethods,
        Item, AccessWidth, FieldCame, Came;
      NamedItem(c);
      ValidFacts();
      var seg := SegAt(s.code, s.p);
      t, width := PkgLength(s.(p := s.p + 4));
      ghost var was, mid := ns.nodes, fields;
      NameField(scope, seg, F.Field(bitAt, width, access));
      ValidFacts();
      FieldsCameMore(before, mid, fields, was, ns.nodes, scope, laid, Laid(seg, c.bit, width, access));
      RangesCameMore(t0, was, ns.nodes, Limit(), scope, laid, Laid(seg, c.bit, width, access));
    }

    method NameField(scope: nat, seg: Path, f: F.Field)
      requires Valid() && scope < |ns.nodes| && F.FieldOk(f)
      modifies `fields, ns
      ensures Since(old(ns.nodes)) && FieldCame(old(fields), fields, ns.nodes, scope, seg, f)
      ensures Limit() == old(Limit()) && Came(old(ns.nodes), ns.nodes, Limit(), scope, Pad(seg))
      ensures SameMethods(old(ns.nodes), ns.nodes)
    {
      hide AmlNamespace.Valid, Child, Torn, KindsKept, Coded, Pad, Alike, Grows, Evolves, Came, SameMethods, KindSet;
      var n := ns.Define(scope, seg, Object);
      GrowsEvolves(old(ns.nodes), ns.nodes);
      CodedAfter(old(ns.nodes), ns.nodes, bodies, cuts, n, Object);
      GrownSame(old(ns.nodes), ns.nodes, n, Object);
      if n.Some? { KindIsSet(old(ns.nodes), ns.nodes, n.value, Object); }
      DefineCame(old(ns.nodes), ns.nodes, Limit(), scope, Pad(seg), n);
      if n.Some? {
        if * {                      // memory for the field object
          fields := fields[n.value := f];
        }
      }
    }
  }

  /** A list that is one method and nothing else. */
  predicate OneMethod(s: Stream)
  {
    Ok(s) && s.p < s.end && Peek(s) == 0x14 && MethodEnd(Next(s)) == s.end
  }

  datatype MethodDecl = MethodDecl(name: Path, body: Body)

  /** Where the package that starts here ends. */
  function MethodEnd(s: Stream): nat
    requires Ok(s)
  {
    Stop(s.(p := s.p + PkgHeader(s)), if PkgTotal(s) < PkgHeader(s) then 0 else PkgTotal(s) - PkgHeader(s))
  }

  /** The name of the method declared here, if it is inside the table. */
  function NameOf(s: Stream): Option<Path>
    requires Ok(s)
  {
    var t := s.(p := s.p + PkgHeader(s));
    if SegStart(t) + 4 * Segments(t) > t.end then None else Some(CStr(Cut(FullName(t))))
  }

  /** The method declared here, its name and its flags inside its package. */
  function MethodOf(s: Stream): Option<MethodDecl>
    requires Ok(s)
  {
    var t := s.(p := s.p + PkgHeader(s));
    if SegStart(t) + 4 * Segments(t) > t.end then None
    else
      var u := t.(p := SegStart(t) + 4 * Segments(t));
      if Next(u).p > MethodEnd(s) then None
      else Some(MethodDecl(CStr(Cut(FullName(t))),
        Body(Upto(Next(u), MethodEnd(s)), (if u.p < u.end then u.code[u.p] else 0) % 8)))
  }

  /** The package of the method whose length starts here ends before its flags. */
  predicate MethodCutShort(s: Stream)
    requires Ok(s)
  {
    var t := s.(p := s.p + PkgHeader(s));
    var len := if PkgTotal(s) < PkgHeader(s) then 0 else PkgTotal(s) - PkgHeader(s);
    && SegStart(t) + 4 * Segments(t) <= t.end
    && Next(t.(p := SegStart(t) + 4 * Segments(t))).p > Stop(t, len)
  }

  /** The length subtraction wraps exactly when the package is cut short, and then the code
      it describes runs off the table. */
  lemma CodeInTable(s: Stream, stop: nat)
    requires Ok(s) && stop <= s.end
    ensures s.p + (stop - s.p) % 0x1_0000_0000 <= |s.code| <==> s.p <= stop
  {
  }

  const ONE_METHOD: seq<Byte> := [0x14, 6, 70, 79, 79, 95, 0]

  lemma OneHeader(e: nat)
    requires 1 <= e <= 7
    ensures var s := Stream(ONE_METHOD, 1, e);
      PkgHeader(s) == (if e == 1 then 0 else 1) && PkgTotal(s) == (if e == 1 then 0 else 6)
  {
  }

  lemma OneName(p: nat, e: nat)
    requires 1 <= p <= e <= 7 && (p == e || p == 2)
    ensures var t := Stream(ONE_METHOD, p, e); SegStart(t) == p && Segments(t) == if p == e then 0 else 1
  {
    var t := Stream(ONE_METHOD, p, e);
    assert Carets(t) == 0 && Prefix(t) == [];
  }

  /** A table that declares a method and is whole. */
  lemma WholeMethod()
    ensures Whole(ONE_METHOD)
  {
    hide PkgHeader, PkgTotal, SegStart, Segments;
    forall p, e | 0 < p <= e <= 7 && ONE_METHOD[p - 1] == 0x14 ensures !MethodCutShort(Stream(ONE_METHOD, p, e)) {
      OneHeader(e);
      OneName(if e == 1 then 1 else 2, e);
    }
  }

  /** A package of length one around a method's name and flags. */
  lemma CutShortMethod()
    ensures MethodCutShort(Stream([1, 65, 66, 67, 68, 0], 0, 6))
  {
    var t := Stream([1, 65, 66, 67, 68, 0], 1, 6);
    assert Carets(t) == 0 && Prefix(t) == [];
  }
}
