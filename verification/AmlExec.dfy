/** The interpreter (kernel/acpi/aml_exec.c).  Every method below is one of its mutually
    recursive functions, and the decreases clauses are the proof that evaluating any
    bytecode ends: call depth first, then bytes left to read.

    A term may be known to be the encoding of an expression or a statement over numbers.  Then
    evaluating it takes exactly its bytes and does exactly what it means.  What objects other
    than numbers come to, and what hardware answers, is left open. */
module AmlExec {
  import opened AmlNamespace
  import opened AmlStream
  import opened AmlBytes
  import opened AmlParse
  import opened AmlMeaning
  import opened AmlReading
  import opened AmlWords
  import opened AmlPlaces
  import D = AmlDecls

  const MAX_DEPTH: nat := 24

  /** One activation of a method. */
  class Context {
    const scope: nat
    const depth: nat
    var locals: Eight
    var args: Seven
    var result: Value
    var returned: bool
    var broke: bool
    var continued: bool

    constructor (scope: nat, depth: nat, args: seq<Value>)
      requires |args| <= ARGS
      ensures this.scope == scope && this.depth == depth && Now() == Started(args)
    {
      this.scope, this.depth := scope, depth;
      locals, result := seq(LOCALS, k => Nothing), Nothing;
      this.args := args + seq(ARGS - |args|, k => Nothing);
      returned, broke, continued := false, false, false;
    }

    ghost function Now(): State
      reads this
    {
      State(locals, args, result, returned, broke, continued)
    }
  }

  datatype Target = Discard | Local(k: nat) | Argument(k: nat) | Element | Named(node: Option<nat>)

  /** Calls still allowed; zero only where a call is refused. */
  function Calls(depth: nat): nat { if depth <= MAX_DEPTH then MAX_DEPTH + 1 - depth else 0 }

  /** What every step needs: a valid machine that still has the names of `t0`, a scope in
      it, and a position within bounds. */
  ghost predicate Ready(m: Loader, ctx: Context, s: Stream, t0: Tree)
    reads m, m.ns
  {
    m.Since(t0) && ctx.scope < |t0| && ctx.depth <= MAX_DEPTH && Ok(s) && s.code in m.tables
  }

  method ParseDeclarations(m: Loader, ctx: Context, s: Stream, ghost t0: Tree) returns (t: Stream)
    requires Ready(m, ctx, s, t0) && s.p < s.end
    modifies m`bodies, m`cuts, m`fields, m.ns
    ensures m.Since(t0) && Moved(s, t) && s.p < t.p
  {
    hide AmlNamespace.Valid, Evolves, Loader.Valid;
    ghost var before := m.ns.nodes;
    var ok;
    t, ok := m.ParseTerms(s, ctx.scope, None);
    EvolvesTrans(t0, before, m.ns.nodes);
  }

  method CreateName(m: Loader, ctx: Context, name: Path, ghost t0: Tree) returns (n: Option<nat>)
    requires m.Since(t0) && ctx.scope < |t0|
    modifies m`bodies, m`cuts, m`fields, m.ns
    ensures m.Since(t0) && (n.Some? ==> n.value < |m.ns.nodes|)
  {
    hide AmlNamespace.Valid, Evolves, Loader.Valid;
    ghost var before := m.ns.nodes;
    n := m.Create(ctx.scope, name, Object);
    EvolvesTrans(t0, before, m.ns.nodes);
  }

  predicate TargetOk(m: Loader, target: Target)
    reads m.ns
  {
    match target
    case Named(n) => n.Some? ==> n.value < |m.ns.nodes|
    case Local(k) => k < LOCALS
    case Argument(k) => k < ARGS
    case _ => true
  }

  function TargetOf(p: Place): Target
  {
    match p case Nowhere => Discard case InLocal(k) => Local(k) case InArg(k) => Argument(k)
  }

  /** Storing through a name makes it an object, unless it is a field: then it is hardware
      that changes.  Nothing is not stored. */
  method StoreTo(m: Loader, ctx: Context, target: Target, v: Value, ghost t0: Tree)
    requires m.Since(t0) && TargetOk(m, target)
    modifies m.ns, ctx
    ensures m.Since(t0) && |m.ns.nodes| == |old(m.ns.nodes)|
    ensures forall p: Place :: PlaceOk(p) && target == TargetOf(p) && v.Int? ==>
      ctx.Now() == Assign(old(ctx.Now()), p, v.n)
    ensures target.Named? || target.Element? ==> ctx.Now() == old(ctx.Now())
  {
    hide AmlNamespace.Valid, Evolves, Loader.Valid;
    match target
    case Local(k) => if v != Nothing { ctx.locals := ctx.locals[k := v]; }
    case Argument(k) => if v != Nothing { ctx.args := ctx.args[k := v]; }
    case Named(n) =>
      if n.Some? && n.value !in m.fields && v != Nothing {
        ghost var before := m.ns.nodes;
        m.MakeKind(n.value, Object);
        EvolvesTrans(t0, before, m.ns.nodes);
      }
    case _ =>
  }

  /** Every target gets its value. */
  method StoreAll(m: Loader, ctx: Context, targets: seq<Target>, vals: seq<Value>, ghost t0: Tree,
    ghost want: Option<seq<Place>>)
    requires m.Since(t0) && |targets| == |vals| && forall k :: 0 <= k < |targets| ==> TargetOk(m, targets[k])
    requires want.Some? ==> |want.value| == |targets| && AllPlaces(want.value) && (forall v <- vals :: v.Int?)
    requires want.Some? ==> forall k :: 0 <= k < |targets| ==> targets[k] == TargetOf(want.value[k])
    modifies m.ns, ctx
    ensures m.Since(t0)
    ensures want.Some? ==> ctx.Now() == AssignAll(old(ctx.Now()), want.value, Numerals(vals))
  {
    hide AmlNamespace.Valid, Evolves, AssignAll, Assign, PlaceOk, Loader.Valid;
    ghost var st := ctx.Now();
    ghost var ps := if want.Some? then want.value else [];
    if want.Some? { AssignAllStart(st, ps, Numerals(vals)); }
    for k := 0 to |targets|
      invariant m.Since(t0) && |m.ns.nodes| == |old(m.ns.nodes)|
      invariant want.Some? ==> AssignAll(st, ps, Numerals(vals)) == AssignAll(ctx.Now(), ps[k..], Numerals(vals)[k..])
    {
      if want.Some? { AssignAllNext(ctx.Now(), ps, Numerals(vals), k); }
      StoreTo(m, ctx, targets[k], vals[k], t0);
    }
    if want.Some? { AssignAllEnd(ctx.Now(), ps[|ps|..], Numerals(vals)[|ps|..]); }
  }

  /* ---- operands and targets ---- */

  /** The node a name stands for, if it is whole and there is one. */
  ghost function NamedBy(nodes: Tree, scope: nat, s: Stream): (n: Option<nat>)
    requires Ok(s)
  {
    if AmlNamespace.Valid(nodes) && scope < |nodes| && SegStart(s) + 4 * Segments(s) <= s.end
    then Lookup(nodes, Some(scope), CStr(Cut(FullName(s)))) else None
  }

  /** What a name may run: nothing unless it is a method's, and a method cut short that takes no
      arguments makes the machine wild. */
  ghost predicate NameRan(nodes: Tree, bodies: map<nat, Body>, cuts: map<nat, nat>, scope: nat, depth: nat, s: Stream,
    was: bool, wild: bool)
    requires Ok(s)
  {
    var n := NamedBy(nodes, scope, s);
    if n.None? || n.value >= |nodes| || nodes[n.value].kind != Method then wild == was
    else n.value !in bodies && n.value in cuts && cuts[n.value] == 0 && depth < MAX_DEPTH ==> wild
  }

  /** A name in an operand position: a value, or a call with the terms that follow. */
  method EvalName(m: Loader, ctx: Context, s: Stream, ghost t0: Tree) returns (t: Stream, v: Value, failed: bool)
    requires Ready(m, ctx, s, t0) && s.p < s.end
    modifies m`bodies, m`cuts, m`fields, m`wild, m`strayed, m.ns, ctx
    ensures m.Since(t0) && Moved(s, t) && (failed || s.p < t.p)
    ensures old(m.wild) ==> m.wild
    ensures NameRan(old(m.ns.nodes), old(m.bodies), old(m.cuts), ctx.scope, ctx.depth, s, old(m.wild), m.wild)
    decreases Calls(ctx.depth), Left(s), 0
  {
    hide AmlNamespace.Valid, Evolves, Prefix, Segments, SegStart, FullName, Lookup, Here, Done, Torn, Coded;
    var ok, name;
    t, ok, name := NameString(s);
    if !ok {
      return t, Nothing, true;
    }
    var n := m.Find(ctx.scope, name);
    if n.None? {
      return t, Int(0), false;
    }
    if m.ns.nodes[n.value].kind != Method {
      v := *;
      return t, v, false;
    }
    var argc := if n.value in m.bodies then m.bodies[n.value].argc
      else if n.value in m.cuts then m.cuts[n.value] else 0;
    ghost var t1 := m.ns.nodes;
    EvolvesRefl(t1);
    failed := false;
    var args := [];
    for i := 0 to argc
      invariant m.Since(t1) && Moved(s, t) && s.p < t.p && |args| == i
      invariant old(m.wild) ==> m.wild
      invariant i == 0 ==> !failed && m.ns.nodes == t1 && m.bodies == old(m.bodies)
    {
      var arg;
      t, arg, failed := EvalOperand(m, ctx, t, failed, t1, None);
      args := args + [arg];
    }
    v := Nothing;
    if !failed {
      v := CallMethod(m, n.value, args, ctx.depth + 1, t1, None);
    }
    EvolvesTrans(t0, t1, m.ns.nodes);
  }

  /** An operand is any term with a value. */
  method EvalOperand(m: Loader, ctx: Context, s: Stream, failed: bool, ghost t0: Tree, ghost want: Option<Expr>)
    returns (t: Stream, v: Value, failed': bool)
    requires Ready(m, ctx, s, t0) && (want.Some? ==> !failed && ExprHere(want.value, ctx.Now(), s))
    modifies m`bodies, m`cuts, m`fields, m`wild, m`strayed, m.ns, ctx
    ensures m.Since(t0) && Moved(s, t) && (failed ==> failed')
    ensures if want.Some? then m.wild == old(m.wild) else old(m.wild) ==> m.wild
    ensures want.Some? ==> ExprDone(want.value, old(ctx.Now()), ctx.Now(), s, t, v, failed')
    decreases Calls(ctx.depth), Left(s), 4
  {
    hide ExprHere, ExprDone;
    if want.Some? { ExprBranch(want.value, ctx.Now(), s); }
    if failed || s.p == s.end {
      return s, Nothing, failed;
    }
    t, v, failed' := EvalTerm(m, ctx, s, failed, t0, if want.Some? then Expression(want.value) else Any);
  }

  /** `n` operands one after the other. */
  method EvalOperands(m: Loader, ctx: Context, s: Stream, failed: bool, n: nat, ghost t0: Tree,
    ghost want: Option<seq<Expr>>)
    returns (t: Stream, vals: seq<Value>, failed': bool)
    requires Ready(m, ctx, s, t0)
    requires want.Some? ==> !failed && |want.value| == n && AllExprsHere(want.value, ctx.Now(), s)
    modifies m`bodies, m`cuts, m`fields, m`wild, m`strayed, m.ns, ctx
    ensures m.Since(t0) && Moved(s, t) && (failed ==> failed') && |vals| == n
    ensures if want.Some? then m.wild == old(m.wild) else old(m.wild) ==> m.wild
    ensures want.Some? ==> AllExprsDone(want.value, old(ctx.Now()), ctx.Now(), s, t, vals, failed')
    decreases Calls(ctx.depth), Left(s), 5
  {
    hide AmlNamespace.Valid, Evolves, ExprHere, ExprDone, AllExprsHere, AllExprsDone, Operating, Loader.Valid;
    t, vals, failed' := s, [], failed;
    ghost var st := ctx.Now();
    ghost var es := if want.Some? then want.value else [];
    if want.Some? { OperatingStart(es, st, s); }
    for i := 0 to n
      invariant m.Since(t0) && Moved(s, t) && (failed ==> failed') && |vals| == i
      invariant if want.Some? then m.wild == old(m.wild) else old(m.wild) ==> m.wild
      invariant want.Some? ==> !failed' && Operating(es, i, st, ctx.Now(), s, t, vals)
    {
      ghost var before, at := ctx.Now(), t;
      if want.Some? { OperandHere(es, i, st, before, s, t, vals); }
      var v;
      t, v, failed' := EvalOperand(m, ctx, t, failed', t0, if want.Some? then Some(es[i]) else None);
      if want.Some? { OperatingOn(es, i, st, before, ctx.Now(), s, at, t, vals, v, failed'); }
      vals := vals + [v];
    }
    if want.Some? { OperatingEnd(es, st, ctx.Now(), s, t, vals); }
  }

  /** Where a result goes. */
  method ParseTarget(m: Loader, ctx: Context, s: Stream, ghost t0: Tree, ghost want: Option<Place>)
    returns (t: Stream, ok: bool, target: Target)
    requires Ready(m, ctx, s, t0) && (want.Some? ==> PlaceOk(want.value) && Has(s, [PlaceByte(want.value)]))
    modifies m`bodies, m`cuts, m`fields, m`wild, m`strayed, m.ns, ctx
    ensures m.Since(t0) && Moved(s, t) && TargetOk(m, target)
    ensures if want.Some? then m.wild == old(m.wild) else old(m.wild) ==> m.wild
    ensures want.Some? ==> ok && t == Skip(s, 1) && target == TargetOf(want.value) && ctx.Now() == old(ctx.Now())
    decreases Calls(ctx.depth), Left(s), 0
  {
    hide AmlNamespace.Valid, Evolves, Prefix, Segments, SegStart, FullName, Lookup, Loader.Valid;
    var op := Peek(s);
    if want.Some? { PlaceHere(want.value, s); }
    if op == 0x00 {
      return Next(s), true, Discard;
    }
    if 0x60 <= op < 0x68 {
      return Next(s), true, Local(op - 0x60);
    }
    if 0x68 <= op < 0x6F {
      return Next(s), true, Argument(op - 0x68);
    }
    if op == 0x88 {                                       // Index, which takes a target too
      var failed, container, index, inner;
      t := Next(s);
      t, container, failed := EvalOperand(m, ctx, t, false, t0, None);
      t, index, failed := EvalOperand(m, ctx, t, failed, t0, None);
      t, ok, inner := ParseTarget(m, ctx, t, t0, None);
      return t, !(failed || container.Nothing?), Element;
    }
    if op == 0x83 {                                       // DerefOf
      var failed, r;
      t := Next(s);
      t, r, failed := EvalOperand(m, ctx, t, false, t0, None);
      if * {                                              // it was an index reference
        return t, true, Element;
      }
      return t, true, Discard;
    }
    var name;
    t, ok, name := NameString(s);
    if !ok {
      return t, false, Discard;
    }
    var n := m.Find(ctx.scope, name);
    if n.None? {
      n := CreateName(m, ctx, name, t0);
    }
    target := Named(n);
  }

  /** `n` targets, none of which is stored to yet. */
  method ParseTargets(m: Loader, ctx: Context, s: Stream, n: nat, ghost t0: Tree, ghost want: Option<seq<Place>>)
    returns (t: Stream, ok: bool, targets: seq<Target>)
    requires Ready(m, ctx, s, t0)
    requires want.Some? ==> |want.value| == n && AllPlaces(want.value) && Has(s, PlaceBytes(want.value))
    modifies m`bodies, m`cuts, m`fields, m`wild, m`strayed, m.ns, ctx
    ensures m.Since(t0) && Moved(s, t) && (forall k :: 0 <= k < |targets| ==> TargetOk(m, targets[k]))
      && (ok ==> |targets| == n)
    ensures if want.Some? then m.wild == old(m.wild) else old(m.wild) ==> m.wild
    ensures want.Some? ==> ok && t == Skip(s, n) && ctx.Now() == old(ctx.Now())
    ensures want.Some? ==> forall k :: 0 <= k < n ==> targets[k] == TargetOf(want.value[k])
    decreases Calls(ctx.depth), Left(s), 1
  {
    hide AmlNamespace.Valid, Evolves, PlaceBytes, PlaceByte, Loader.Valid;
    t, ok, targets := s, true, [];
    ghost var ps := if want.Some? then want.value else [];
    for i := 0 to n
      invariant m.Since(t0) && Moved(s, t) && |targets| == i && forall k :: 0 <= k < i ==> TargetOk(m, targets[k])
      invariant if want.Some? then m.wild == old(m.wild) else old(m.wild) ==> m.wild
      invariant want.Some? ==> t == Skip(s, i) && ctx.Now() == old(ctx.Now()) && forall k :: 0 <= k < i ==>
        targets[k] == TargetOf(ps[k])
    {
      ghost var t1 := m.ns.nodes;
      EvolvesRefl(t1);
      if want.Some? { PlacesAt(ps, s, i); }
      var good, target;
      t, good, target := ParseTarget(m, ctx, t, t1, if want.Some? then Some(ps[i]) else None);
      EvolvesTrans(t0, t1, m.ns.nodes);
      if !good {
        return t, false, targets;
      }
      targets := targets + [target];
    }
  }

  /* ---- operators: operands, and then targets ---- */

  /** From the top: the first bit set is the highest. */
  method FindLeft(v: nat) returns (r: nat)
    requires v < LIMIT
    ensures r == BitLen(v)
  {
    LimitIs();
    var i := 64;
    while i > 0
      invariant 0 <= i <= 64 && v < Pow2(i)
    {
      i := i - 1;
      if v / Pow2(i) % 2 == 1 {
        BitIsTop(v, i);
        return i + 1;
      }
      NoTopBit(v, i);
    }
    assert Pow2(0) == 1;
    r := 0;
  }

  lemma BitIsTop(v: nat, i: nat)
    requires v < Pow2(i + 1) && v / Pow2(i) % 2 == 1
    ensures BitLen(v) == i + 1
  {
    hide BitLen;
    assert v >= Pow2(i) by { if v < Pow2(i) { Zero(v, Pow2(i)); } }
    BitLenIs(v, i);
  }

  lemma Zero(v: nat, m: nat)
    requires v < m
    ensures v / m == 0
  {
  }

  lemma NoTopBit(v: nat, i: nat)
    requires v < Pow2(i + 1) && v / Pow2(i) % 2 != 1
    ensures v < Pow2(i)
  {
    if v >= Pow2(i) {
      QuotientIs(v, Pow2(i), 1, v - Pow2(i));
    }
  }

  /** From the bottom: the first bit set is the lowest. */
  method FindRight(v: nat) returns (r: nat)
    requires v < LIMIT
    ensures r == LowBit(v)
  {
    LimitIs();
    for i := 0 to 64
      invariant v % Pow2(i) == 0
    {
      if v / Pow2(i) % 2 == 1 {
        LowBitIs(v, i);
        return i + 1;
      }
      EvenAbove(v, i);
    }
    Small(v, Pow2(64));
    r := 0;
  }

  lemma {:induction false} LowBitIs(v: nat, i: nat)
    requires v % Pow2(i) == 0 && v / Pow2(i) % 2 == 1
    ensures LowBit(v) == i + 1
    decreases i
  {
    if i > 0 {
      Halves(v, Pow2(i - 1));
      LowBitIs(v / 2, i - 1);
    }
  }

  /** A multiple of 2m is even, and half of it a multiple of m as many times over. */
  lemma Halves(v: nat, m: nat)
    requires m > 0 && v % (2 * m) == 0
    ensures v % 2 == 0 && v / 2 % m == 0 && v / 2 / m == v / (2 * m)
  {
    var q := v / (2 * m);
    assert v == 2 * m * q;
    assert v == 2 * (m * q);
    assert v / 2 == m * q + 0;
    QuotientIs(v / 2, m, q, 0);
  }

  lemma EvenAbove(v: nat, i: nat)
    requires v % Pow2(i) == 0 && v / Pow2(i) % 2 != 1
    ensures v % Pow2(i + 1) == 0
  {
    var m := Pow2(i);
    var q := v / m;
    assert v == m * q && q == 2 * (q / 2);
    assert v == 2 * m * (q / 2) + 0 by { assert m * (2 * (q / 2)) == 2 * m * (q / 2); }
    QuotientIs(v, 2 * m, q / 2, 0);
  }

  /** binary, and the quotient of Divide: the sum or the bits, wrapping at 64. */
  method Binary(op: Byte, a: nat, b: nat) returns (r: nat)
    requires op in {0x72, 0x74, 0x77, 0x78, 0x79, 0x7A, 0x7B, 0x7C, 0x7D, 0x7E, 0x7F, 0x85} && a < LIMIT && b < LIMIT
    ensures r == Result(op, [a, b])
  {
    hide FromBits, Bit, And, Or, Xor, Complement, Pow2;
    match op
    case 0x72 =>
      r := a + b;
      if r >= LIMIT { r := r - LIMIT; }
    case 0x74 => r := if b <= a then a - b else LIMIT - (b - a);
    case 0x77 => r := a * b % LIMIT;
    case 0x78 => r := if b != 0 then a / b else 0;
    case 0x79 =>
      if b < 64 { LeftIsWord(a, b); }
      r := if b < 64 then ShiftLeft(a, b) else 0;
    case 0x7A =>
      if b < 64 { RightIsWord(a, b); }
      r := if b < 64 then ShiftRight(a, b) else 0;
    case 0x7B =>
      AndIsWord(a, b);
      r := WordAnd(a, b);
    case 0x7C =>
      AndIsWord(a, b);
      r := WordNot(WordAnd(a, b));
    case 0x7D =>
      OrIsWord(a, b);
      r := WordOr(a, b);
    case 0x7E =>
      OrIsWord(a, b);
      r := WordNot(WordOr(a, b));
    case 0x7F =>
      XorIsWord(a, b);
      r := WordXor(a, b);
    case _ => r := if b != 0 then a % b else 0;
  }

  /** logical, and the two that join truths. */
  method Logical(op: Byte, x: nat, y: nat) returns (r: nat)
    requires op in {0x90, 0x91, 0x93, 0x94, 0x95}
    ensures r == Result(op, [x, y])
  {
    hide WordNot;
    var b := if op == 0x90 then x != 0 && y != 0
      else if op == 0x91 then x != 0 || y != 0
      else if op == 0x93 then x == y
      else if op == 0x94 then x > y else x < y;
    r := if b then WordNot(0) else 0;
    NotZero();
  }

  lemma NotZero()
    ensures WordNot(0) == ONES
  {
    XorIsWord(0, 0);
  }

  /** The value of an operator on numbers, and what goes into its targets. */
  method Compute(op: Byte, vals: seq<Value>) returns (v: Value, stores: seq<Value>)
    requires Numeric(op) && |vals| == ShapeOf(op).operands && forall v <- vals :: v.Int? && v.n < LIMIT
    ensures v == Int(Result(op, Numerals(vals))) && stores == Ints(Stored(op, Numerals(vals)))
  {
    hide AmlMeaning.Binary, BitLen, LowBit, WordNot, Complement;
    var ns := Numerals(vals);
    var n;
    if |ns| == 2 {
      assert ns == [ns[0], ns[1]];
      if op >= 0x90 {
        n := Logical(op, ns[0], ns[1]);
      } else {
        n := Binary(op, ns[0], ns[1]);
      }
    } else {
      XorIsWord(ns[0], 0);
      match op
      case 0x80 => n := WordNot(ns[0]);
      case 0x81 => n := FindLeft(ns[0]);
      case 0x82 => n := FindRight(ns[0]);
      case 0x87 => n := 0;                                                     // SizeOf
      case 0x8E => n := 1;                                                     // ObjectType
      case 0x92 => n := if ns[0] != 0 then 0 else ONES;
      case _ => n := ns[0];
    }
    v := Int(n);
    if op == 0x78 {
      var rem := if ns[1] != 0 then ns[0] % ns[1] else 0;
      stores := Ints([rem, n]);
    } else {
      stores := if ShapeOf(op).targets == 1 then Ints([n]) else Ints([]);
    }
  }

  method EvalOperator(m: Loader, ctx: Context, s: Stream, op: Byte, ghost t0: Tree, ghost want: Option<Expr>)
    returns (t: Stream, v: Value, failed: bool)
    requires Ready(m, ctx, s, t0) && ShapeOf(op).Operator?
    requires want.Some? ==> ApplyHere(want.value, op, ctx.Now(), s)
    modifies m`bodies, m`cuts, m`fields, m`wild, m`strayed, m.ns, ctx
    ensures m.Since(t0) && Moved(s, t)
    ensures if want.Some? then m.wild == old(m.wild) else old(m.wild) ==> m.wild
    ensures want.Some? ==> ApplyDone(want.value, old(ctx.Now()), ctx.Now(), s, t, v, failed)
    decreases Calls(ctx.depth), Left(s), 6
  {
    hide AmlNamespace.Valid, Evolves, ShapeOf, ApplyHere, ApplyDone, AllExprsHere, AllExprsDone, Numeric, Result,
      Stored, AssignAll, Loader.Valid;
    hide PlaceBytes, Numerals, Ints, AllPlaces, TargetOf;
    var shape := ShapeOf(op);
    ghost var st := ctx.Now();
    if want.Some? { ApplyOperands(want.value, op, st, s); }
    ghost var es := if want.Some? then want.value.operands else [];
    var vals;
    t, vals, failed := EvalOperands(m, ctx, s, false, shape.operands, t0, if want.Some? then Some(es) else None);
    ghost var st1, at := ctx.Now(), t;
    if want.Some? { ApplyTargets(want.value, op, st, st1, s, t, vals, failed); }
    if shape.strict && failed {
      return t, Nothing, true;
    }
    var ok, targets;
    t, ok, targets := ParseTargets(m, ctx, t, shape.targets, t0, if want.Some? then Some(want.value.targets) else None);
    if !ok {
      return t, Nothing, true;
    }
    var stores;
    if Numeric(op) && AllNumbers(vals) {
      v, stores := Compute(op, vals);
    } else {
      v := *;
      stores := seq(shape.targets, k => v);
    }
    StoreAll(m, ctx, targets, stores, t0, if want.Some? then Some(want.value.targets) else None);
    if want.Some? { ApplyFinished(want.value, op, st, st1, ctx.Now(), s, at, t, vals, v, stores, failed); }
  }

  /** Increment and decrement: find the target, then read it back as an operand. */
  method EvalIncrement(m: Loader, ctx: Context, s: Stream, up: bool, ghost t0: Tree, ghost want: Option<Expr>)
    returns (t: Stream, v: Value, failed: bool)
    requires Ready(m, ctx, s, t0)
    requires want.Some? ==> BumpHere(want.value, up, ctx.Now(), s)
    modifies m`bodies, m`cuts, m`fields, m`wild, m`strayed, m.ns, ctx
    ensures m.Since(t0) && Moved(s, t)
    ensures if want.Some? then m.wild == old(m.wild) else old(m.wild) ==> m.wild
    ensures want.Some? ==> BumpDone(want.value, old(ctx.Now()), ctx.Now(), s, t, v, failed)
    decreases Calls(ctx.depth), Left(s), 6
  {
    hide AmlNamespace.Valid, Evolves, BumpHere, BumpDone, ExprHere, ExprDone, TargetOf, Loader.Valid;
    ghost var st := ctx.Now();
    if want.Some? { BumpTarget(want.value, up, st, s); }
    var ok, target;
    t, ok, target := ParseTarget(m, ctx, s, t0, if want.Some? then Some(want.value.place) else None);
    if !ok {
      return t, Nothing, true;
    }
    ghost var t1 := m.ns.nodes;
    EvolvesRefl(t1);
    var reread := Upto(s, t.p);
    var r, was;
    r, was, failed := EvalOperand(m, ctx, reread, false, t1, if want.Some? then Some(Reread(want.value.place))
      else None);
    if want.Some? { BumpRead(want.value, st, ctx.Now(), reread, r, was, failed); }
    var n := AsInteger(was);
    v := Int((n + if up then 1 else ONES) % LIMIT);
    StoreTo(m, ctx, target, v, t1);
    EvolvesTrans(t0, t1, m.ns.nodes);
    if want.Some? { BumpFinished(want.value, up, st, ctx.Now(), s, t, v, failed); }
  }

  /* ---- buffers, packages and control flow ---- */

  method RunBuffer(m: Loader, ctx: Context, s: Stream, ghost t0: Tree) returns (t: Stream, failed: bool)
    requires Ready(m, ctx, s, t0)
    modifies m`bodies, m`cuts, m`fields, m`wild, m`strayed, m.ns, ctx
    ensures m.Since(t0) && Moved(s, t)
    ensures old(m.wild) ==> m.wild
    decreases Calls(ctx.depth), Left(s), 6
  {
    hide AmlNamespace.Valid, Evolves, PkgTotal, PkgHeader, Loader.Valid;
    var len;
    t, len := PkgLength(s);
    var stop := Stop(t, len);
    var sub, size;
    sub, size, failed := EvalOperand(m, ctx, Upto(t, stop), false, t0, None);
    t := t.(p := stop);
  }

  method RunPackage(m: Loader, ctx: Context, s: Stream, variable: bool, ghost t0: Tree)
    returns (t: Stream, failed: bool)
    requires Ready(m, ctx, s, t0)
    modifies m`bodies, m`cuts, m`fields, m`wild, m`strayed, m.ns, ctx
    ensures m.Since(t0) && Moved(s, t)
    ensures old(m.wild) ==> m.wild
    decreases Calls(ctx.depth), Left(s), 6
  {
    hide AmlNamespace.Valid, Evolves, PkgTotal, PkgHeader, Loader.Valid;
    var len;
    t, len := PkgLength(s);
    var stop := Stop(t, len);
    var at, count := t, 0;
    failed := false;
    if variable {
      var sub, n;
      sub, n, failed := EvalOperand(m, ctx, Upto(t, stop), false, t0, None);
      count := AsInteger(n);
      at := t.(p := sub.p);
    } else {
      count := Peek(t);
      at := Next(t);
    }
    if count > MAX_ELEMENTS { count := MAX_ELEMENTS; }
    var i := 0;
    while i < count && at.p < stop
      invariant m.Since(t0) && at == t.(p := at.p) && t.p <= at.p <= t.end
      invariant old(m.wild) ==> m.wild
    {
      var sub, item;
      sub, item, failed := EvalOperand(m, ctx, Upto(at, stop), failed, t0, None);
      at := at.(p := sub.p);
      i := i + 1;
    }
    t := t.(p := stop);
  }

  /** If, and the Else that may follow it. */
  method RunIf(m: Loader, ctx: Context, s: Stream, ghost t0: Tree, ghost want: Option<Stmt>)
    returns (t: Stream, failed: bool)
    requires Ready(m, ctx, s, t0)
    requires want.Some? ==> want.value.If? && RestHere(want.value, ctx.Now(), s)
    modifies m`bodies, m`cuts, m`fields, m`wild, m`strayed, m.ns, ctx
    ensures m.Since(t0) && Moved(s, t)
    ensures if want.Some? then m.wild == old(m.wild) else old(m.wild) ==> m.wild
    ensures want.Some? ==> RestDone(want.value, old(ctx.Now()), ctx.Now(), s, t, failed)
    decreases Calls(ctx.depth), Left(s), 6
  {
    hide AmlNamespace.Valid, Evolves, PkgTotal, PkgHeader, RestHere, RestDone, ExprHere, ExprDone, ListHere, ListDone,
      IfYes, IfNo, ElseHere, ElseDone, Loader.Valid;
    ghost var st := ctx.Now();
    if want.Some? { IfStarts(want.value, st, s); }
    var len;
    t, len := PkgLength(s);
    var stop := Stop(t, len);
    var sub, c;
    sub, c, failed := EvalOperand(m, ctx, Upto(t, stop), false, t0, if want.Some? then Some(want.value.c) else None);
    ghost var st1 := ctx.Now();
    if want.Some? { IfDecided(want.value, st, st1, s, sub, c, failed); }
    var cond := AsInteger(c);
    if cond != 0 && !failed {
      var _, ok := RunTerms(m, ctx, sub, t0, if want.Some? then Some(want.value.yes) else None);
      if want.Some? { ListOk(want.value.yes, st1, ctx.Now(), ok); }
    }
    ghost var st2 := ctx.Now();
    var after := t.(p := stop);
    if want.Some? { IfElse(want.value, st, st1, st2, s, after, cond); }
    t := RunElse(m, ctx, after, cond, failed, t0, want, st2);
    if want.Some? { IfFinished(want.value, st, st1, st2, ctx.Now(), s, t, cond, failed); }
  }

  /** The Else of an If that decided on `cond`, if there is one. */
  method RunElse(m: Loader, ctx: Context, s: Stream, cond: nat, failed: bool, ghost t0: Tree, ghost want: Option<Stmt>,
    ghost st: State) returns (t: Stream)
    requires Ready(m, ctx, s, t0) && ctx.Now() == st
    requires want.Some? ==> !failed && ElseHere(want.value, cond, st, s)
    modifies m`bodies, m`cuts, m`fields, m`wild, m`strayed, m.ns, ctx
    ensures m.Since(t0) && Moved(s, t)
    ensures if want.Some? then m.wild == old(m.wild) else old(m.wild) ==> m.wild
    ensures want.Some? ==> ElseDone(want.value, cond, st, ctx.Now(), s, t)
    decreases Calls(ctx.depth), Left(s), 5
  {
    hide AmlNamespace.Valid, Evolves, PkgTotal, PkgHeader, ListHere, ListDone, IfNo, Run, Text, Loader.Valid;
    t := s;
    if Peek(s) == 0xA1 {
      var len;
      t, len := PkgLength(Next(s));
      var stop := Stop(t, len);
      if cond == 0 && !failed {
        var _, ok := RunTerms(m, ctx, Upto(t, stop), t0, if want.Some? then Some(want.value.no) else None);
        if want.Some? { ListOk(want.value.no, st, ctx.Now(), ok); }
      }
      t := t.(p := stop);
    }
  }

  /** While: the same bytes again each turn, and a ceiling on the turns. */
  method RunWhile(m: Loader, ctx: Context, s: Stream, ghost t0: Tree, ghost want: Option<Stmt>)
    returns (t: Stream, failed: bool)
    requires Ready(m, ctx, s, t0)
    requires want.Some? ==> want.value.While? && RestHere(want.value, ctx.Now(), s)
    modifies m`bodies, m`cuts, m`fields, m`wild, m`strayed, m.ns, ctx
    ensures m.Since(t0) && Moved(s, t)
    ensures if want.Some? then m.wild == old(m.wild) else old(m.wild) ==> m.wild
    ensures want.Some? ==> RestDone(want.value, old(ctx.Now()), ctx.Now(), s, t, failed)
    decreases Calls(ctx.depth), Left(s), 6
  {
    hide AmlNamespace.Valid, Evolves, PkgTotal, PkgHeader, RestHere, RestDone, ExprHere, ExprDone, ListHere, ListDone,
      Turning, Loader.Valid;
    ghost var st := ctx.Now();
    if want.Some? { WhileStarts(want.value, st, s); }
    var len;
    t, len := PkgLength(s);
    var stop := Stop(t, len);
    var body := t.p;
    failed := false;
    ghost var left: nat := MAX_TURNS;
    for turn := 0 to MAX_TURNS
      invariant m.Since(t0) && !failed && left == MAX_TURNS - turn
      invariant if want.Some? then m.wild == old(m.wild) else old(m.wild) ==> m.wild
      invariant want.Some? ==> Turning(want.value, st, ctx.Now(), Upto(t, stop), left)
    {
      ghost var st1 := ctx.Now();
      if want.Some? { TurnStarts(want.value, st, st1, Upto(t, stop), left); }
      var sub, c;
      sub, c, failed := EvalOperand(m, ctx, Upto(t, stop), failed, t0, if want.Some? then Some(want.value.c) else None);
      ghost var st2 := ctx.Now();
      if want.Some? { TurnDecided(want.value, st, st1, st2, Upto(t, stop), sub, c, failed, left); }
      var cond := AsInteger(c);
      if cond == 0 || failed {
        left := 0;
        break;
      }
      var _, ok := RunTerms(m, ctx, sub, t0, if want.Some? then Some(want.value.body) else None);
      if want.Some? { ListOk(want.value.body, st2, ctx.Now(), ok); }
      if want.Some? { TurnEnds(want.value, st, st1, st2, ctx.Now(), Upto(t, stop), sub, left); }
      if ctx.returned {
        left := 0;
        break;
      }
      if ctx.broke {
        ctx.broke := false;
        left := 0;
        break;
      }
      ctx.continued := false;
      left := left - 1;
    }
    t := t.(p := stop);
    if want.Some? { WhileFinished(want.value, st, ctx.Now(), s, t, Upto(t.(p := body), stop)); }
  }

  /* ---- one term ---- */

  /** Some result, and a target for it. */
  method Finish(m: Loader, ctx: Context, s: Stream, failed: bool, ghost t0: Tree)
    returns (t: Stream, v: Value, failed': bool)
    requires Ready(m, ctx, s, t0)
    modifies m`bodies, m`cuts, m`fields, m`wild, m`strayed, m.ns, ctx
    ensures m.Since(t0) && Moved(s, t) && (failed ==> failed')
    ensures old(m.wild) ==> m.wild
    decreases Calls(ctx.depth), Left(s), 1
  {
    var ok, target;
    t, ok, target := ParseTarget(m, ctx, s, t0, None);
    if !ok {
      return t, Nothing, true;
    }
    v := *;
    StoreTo(m, ctx, target, v, t0);
    failed' := failed;
  }

  predicate Declares(op: Byte) { op in {0x01, 0x02, 0x80, 0x81, 0x82, 0x83, 0x84, 0x85, 0x86, 0x87} }

  /** Mutexes and events: the target, and a timeout. */
  method EvalMutex(m: Loader, ctx: Context, s: Stream, op: Byte, ghost t0: Tree)
    returns (t: Stream, v: Value, failed: bool)
    requires Ready(m, ctx, s, t0)
    modifies m`bodies, m`cuts, m`fields, m`wild, m`strayed, m.ns, ctx
    ensures m.Since(t0) && Moved(s, t)
    ensures old(m.wild) ==> m.wild
    decreases Calls(ctx.depth), Left(s), 6
  {
    hide AmlNamespace.Valid, Evolves, ExprHere, ExprDone, AllExprsHere, AllExprsDone, Has, PlaceOk, TargetOk,
      Loader.Valid;
    var ok, target;
    t, ok, target := ParseTarget(m, ctx, s, t0, None);
    v, failed := Nothing, false;
    if op == 0x23 {                                       // Acquire, and its timeout
      t := Next(Next(t));
      v := Int(0);
    } else if op == 0x25 {                                // Wait
      var vals;
      t, vals, failed := EvalOperands(m, ctx, t, false, 1, t0, None);
      v := Int(0);
    }                                                     // Signal, Reset, Release
  }

  /** A two-byte opcode, after its prefix. */
  method EvalExtended(m: Loader, ctx: Context, s: Stream, ghost t0: Tree) returns (t: Stream, v: Value, failed: bool)
    requires Ready(m, ctx, s, t0) && 0 < s.p
    modifies m`bodies, m`cuts, m`fields, m`wild, m`strayed, m.ns, ctx
    ensures m.Since(t0) && Moved(s, t)
    ensures old(m.wild) ==> m.wild
    decreases Calls(ctx.depth), Left(s), 7
  {
    hide AmlNamespace.Valid, Evolves, Prefix, Segments, SegStart, FullName, Lookup, ExprHere, ExprDone, AllExprsHere,
      AllExprsDone, Has, PlaceOk, TargetOk, Loader.Valid;
    var op := Peek(s);
    t, v, failed := Next(s), Nothing, false;
    var vals;
    if Declares(op) {
      var back := t.(p := t.p - 2);
      t := ParseDeclarations(m, ctx, back, t0);
      return;
    }
    match op {
      case 0x30 | 0x31 | 0x33 => v := *;                  // Revision, Debug, Timer
      case 0x12 =>                                        // CondRefOf
        var ok, name;
        t, ok, name := NameString(t);
        if !ok {
          return t, Nothing, true;
        }
        t, v, failed := Finish(m, ctx, t, false, t0);
      case 0x23 | 0x24 | 0x25 | 0x26 | 0x27 => t, v, failed := EvalMutex(m, ctx, t, op, t0);
      case 0x21 | 0x22 =>                                 // Stall, Sleep
        t, vals, failed := EvalOperands(m, ctx, t, false, 1, t0, None);
      case 0x28 | 0x29 =>                                 // FromBCD, ToBCD
        t, vals, failed := EvalOperands(m, ctx, t, false, 1, t0, None);
        t, v, failed := Finish(m, ctx, t, failed, t0);
      case 0x32 =>                                        // Fatal
        t := Next(Next(Next(Next(Next(t)))));
        t, vals, failed := EvalOperands(m, ctx, t, false, 1, t0, None);
      case 0x13 =>                                        // CreateField
        t, vals, failed := EvalOperands(m, ctx, t, false, 3, t0, None);
        t := NameWindow(m, ctx, t, t0);
      case _ => failed := true;
    }
  }

  /** The name of a buffer window.  A malformed name leaves whatever was in the buffer. */
  method NameWindow(m: Loader, ctx: Context, s: Stream, ghost t0: Tree) returns (t: Stream)
    requires Ready(m, ctx, s, t0)
    modifies m`bodies, m`cuts, m`fields, m.ns
    ensures m.Since(t0) && Moved(s, t)
  {
    hide AmlNamespace.Valid, Evolves, Prefix, Segments, SegStart, FullName, Lookup, Loader.Valid;
    var ok, name;
    t, ok, name := NameString(s);
    if !ok { name := *; }
    var _ := CreateName(m, ctx, name, t0);
  }

  /** A local or an argument; one never stored to is zero. */
  method EvalSlot(ctx: Context, op: Byte) returns (v: Value)
    requires 0x60 <= op < 0x6F
    ensures forall p: Place :: PlaceOk(p) && p != Nowhere && op == PlaceByte(p) && Numbers(ctx.Now()) ==>
      v == Int(Fetch(ctx.Now(), p))
  {
    v := if op < 0x68 then ctx.locals[op - 0x60] else ctx.args[op - 0x68];
    if v.Nothing? { v := Int(0); }
    forall p: Place | PlaceOk(p) && p != Nowhere && op == PlaceByte(p) && Numbers(ctx.Now())
      ensures v == Int(Fetch(ctx.Now(), p)) {
      match p
      case InLocal(k) => assert ctx.locals[k] in ctx.locals;
      case InArg(k) => assert ctx.args[k] in ctx.args;
    }
  }

  /** Evaluate one term.  Whatever the bytes, the position stays in bounds, and a term that
      does not fail is left past its opcode.  The encoding of an expression or a statement is
      taken exactly and does what it means. */
  method EvalTerm(m: Loader, ctx: Context, s: Stream, failed: bool, ghost t0: Tree, ghost want: Want)
    returns (t: Stream, v: Value, failed': bool)
    requires Ready(m, ctx, s, t0) && (want != Any ==> !failed && Here(want, ctx.Now(), s))
    modifies m`bodies, m`cuts, m`fields, m`wild, m`strayed, m.ns, ctx
    ensures m.Since(t0) && Moved(s, t) && (failed ==> failed' && t == s)
    ensures if want.Any? then old(m.wild) ==> m.wild else m.wild == old(m.wild)
    ensures !failed && s.p < s.end ==> failed' || s.p < t.p
    ensures want != Any ==> Done(want, old(ctx.Now()), ctx.Now(), s, t, v, failed')
    decreases Calls(ctx.depth), Left(s), 3
  {
    hide AmlNamespace.Valid, Evolves, BranchOf, ShapeOf, Here, Done, Loader.Valid;
    ghost var st := ctx.Now();
    if want != Any { WantBranch(want, st, s); }
    if failed || s.p == s.end {
      return s, Nothing, failed;
    }
    var op := Peek(s);
    BranchFacts(op);
    t, v, failed' := Next(s), Nothing, false;
    match BranchOf(op) {
      case Data =>
        t, v := ParseData(s);
        if want != Any { DataDone(want, st, s, t, v); }
      case Buffer =>
        t, failed' := RunBuffer(m, ctx, t, t0);
        v := *;
      case Pack(variable) =>
        t, failed' := RunPackage(m, ctx, t, variable, t0);
        v := *;
      case Slot =>
        v := EvalSlot(ctx, op);
        if want != Any { SlotDone(want, st, s, t, v); }
      case Extended => t, v, failed' := EvalExtended(m, ctx, t, t0);
      case Operation =>
        t, v, failed' := EvalOperator(m, ctx, t, op, t0, ExprOf(want));
        if want != Any { OperationDone(want, st, ctx.Now(), s, t, v, failed'); }
      case Increment =>
        t, v, failed' := EvalIncrement(m, ctx, t, op == 0x75, t0, ExprOf(want));
        if want != Any { IncrementDone(want, st, ctx.Now(), s, t, v, failed'); }
      case Declaration => t := ParseDeclarations(m, ctx, s, t0);
      case Control =>
        t, v, failed' := EvalControl(m, ctx, t, op, t0, StmtOf(want));
        if want != Any { ControlDone(want, st, ctx.Now(), s, t, v, failed'); }
      case Name => t, v, failed' := EvalName(m, ctx, s, t0);
    }
  }

  /** Control flow, and the operators with a shape of their own. */
  method EvalControl(m: Loader, ctx: Context, s: Stream, op: Byte, ghost t0: Tree, ghost want: Option<Stmt>)
    returns (t: Stream, v: Value, failed: bool)
    requires Ready(m, ctx, s, t0) && BranchOf(op) == Control
    requires want.Some? ==> !want.value.Do? && Opcode(want.value) == op && RestHere(want.value, ctx.Now(), s)
    modifies m`bodies, m`cuts, m`fields, m`wild, m`strayed, m.ns, ctx
    ensures m.Since(t0) && Moved(s, t)
    ensures if want.Some? then m.wild == old(m.wild) else old(m.wild) ==> m.wild
    ensures want.Some? ==> RestDone(want.value, old(ctx.Now()), ctx.Now(), s, t, failed)
    decreases Calls(ctx.depth), Left(s), 7
  {
    hide AmlNamespace.Valid, Evolves, PkgTotal, PkgHeader, BranchOf, RestHere, RestDone, ExprHere, ExprDone,
      AllExprsHere, AllExprsDone, Has, PlaceOk, TargetOk, Loader.Valid;
    t, v, failed := s, Nothing, false;
    ghost var st := ctx.Now();
    if want.Some? { OpcodeIs(want.value, st, s); }
    var vals;
    match op {
      case 0x86 =>                                        // Notify
        var ok, target;
        t, ok, target := ParseTarget(m, ctx, t, t0, None);
        t, vals, failed := EvalOperands(m, ctx, t, false, 1, t0, None);
      case 0x89 =>                                        // Match
        t, vals, failed := EvalOperands(m, ctx, t, false, 1, t0, None);
        t, vals, failed := EvalOperands(m, ctx, Next(t), failed, 1, t0, None);
        t, vals, failed := EvalOperands(m, ctx, Next(t), failed, 2, t0, None);
        v := Int(ONES);
      case 0x8A | 0x8B | 0x8C | 0x8D | 0x8F =>            // CreateDWordField and the like
        t, vals, failed := EvalOperands(m, ctx, t, false, 2, t0, None);
        t := NameWindow(m, ctx, t, t0);
      case 0xA0 => t, failed := RunIf(m, ctx, t, t0, want);
      case 0xA1 =>                                        // an Else with no If before it
        var len;
        t, len := PkgLength(t);
        t := t.(p := Stop(t, len));
      case 0xA2 => t, failed := RunWhile(m, ctx, t, t0, want);
      case 0xA4 =>
        if want.Some? { ReturnHere(want.value, st, s); }
        t, v, failed := EvalOperand(m, ctx, t, false, t0, if want.Some? then Some(want.value.e) else None);
        ghost var st1 := ctx.Now();
        ctx.result := v;
        ctx.returned := true;
        if want.Some? { ReturnDone(want.value, st, st1, ctx.Now(), s, t, v, failed); }
        v := Nothing;
      case 0xA5 =>
        ctx.broke := true;
        if want.Some? { FlagDone(want.value, st, ctx.Now(), s); }
      case 0x9F =>
        ctx.continued := true;
        if want.Some? { FlagDone(want.value, st, ctx.Now(), s); }
      case _ =>                                           // Noop, BreakPoint
        if want.Some? { FlagDone(want.value, st, ctx.Now(), s); }
    }
  }

  /** Run a list of terms until it ends, returns, or fails.  A term that did not fail has
      moved on, so the list cannot be stuck. */
  method RunTerms(m: Loader, ctx: Context, s: Stream, ghost t0: Tree, ghost want: Option<seq<Stmt>>)
    returns (t: Stream, ok: bool)
    requires Ready(m, ctx, s, t0) && (want.Some? ==> ListHere(want.value, ctx.Now(), s))
    modifies m`bodies, m`cuts, m`fields, m`wild, m`strayed, m.ns, ctx
    ensures m.Since(t0) && Moved(s, t)
    ensures if want.Some? then m.wild == old(m.wild) else old(m.wild) ==> m.wild
    ensures ok ==> t.p == s.end || ctx.returned || ctx.broke || ctx.continued
    ensures want.Some? ==> ListDone(want.value, old(ctx.Now()), ctx.Now(), ok)
    decreases Calls(ctx.depth), Left(s), 4
  {
    hide AmlNamespace.Valid, Evolves, ListHere, ListDone, Running, Here, Done, Loader.Valid;
    t := s;
    var failed := false;
    ghost var st, k := ctx.Now(), 0;
    ghost var ss := if want.Some? then want.value else [];
    if want.Some? { RunningStart(ss, st, s); }
    while t.p < t.end && !ctx.returned && !ctx.broke && !ctx.continued
      invariant m.Since(t0) && Moved(s, t)
      invariant if want.Some? then m.wild == old(m.wild) else old(m.wild) ==> m.wild
      invariant want.Some? ==> Running(ss, k, st, ctx.Now(), t)
      decreases Left(t)
    {
      var before := t.p;
      ghost var st1, at := ctx.Now(), t;
      if want.Some? { NextStatement(ss, k, st, st1, t); }
      var v;
      t, v, failed := EvalTerm(m, ctx, t, false, t0, if want.Some? then Statement(ss[k]) else Any);
      if want.Some? { RunningOn(ss, k, st, st1, ctx.Now(), at, t, v, failed); }
      if failed {
        return t, false;
      }
      if t.p == before {
        assert false;
      }
      k := k + 1;
    }
    ok := true;
    if want.Some? { RunningEnd(ss, k, st, ctx.Now(), t); }
  }

  /* ---- calls ---- */

  /** The code of method `node` is the encoding of a program. */
  ghost predicate Encodes(nodes: Tree, bodies: map<nat, Body>, node: nat, prog: seq<Stmt>)
  {
    && node < |nodes| && nodes[node].kind == Method && node in bodies
    && (forall x <- prog :: StmtOk(x)) && TextAll(prog).Some?
    && var s := bodies[node].stream; Has(s, TextAll(prog).value) && s.end == s.p + |TextAll(prog).value|
  }

  /** A call: the program is run with its arguments and no locals, and what it returns, or
      zero, is the value.  Calling a method that was cut short makes the machine wild. */
  method CallMethod(m: Loader, node: nat, args: seq<Value>, depth: nat, ghost t0: Tree, ghost want: Option<seq<Stmt>>)
    returns (v: Value)
    requires m.Since(t0) && node < |t0| && |args| <= ARGS
    requires want.Some? ==>
      depth <= MAX_DEPTH && Encodes(m.ns.nodes, m.bodies, node, want.value) && forall a <- args :: IsNumber(a)
    modifies m`bodies, m`cuts, m`fields, m`wild, m`strayed, m.ns
    ensures m.Since(t0)
    ensures if want.Some? then m.wild == old(m.wild) else old(m.wild) ==> m.wild
    ensures old(m.ns.nodes[node].kind) == Method && node !in old(m.bodies) && depth <= MAX_DEPTH ==> m.wild
    ensures old(m.ns.nodes[node].kind) != Method || depth > MAX_DEPTH ==> m.wild == old(m.wild)
    ensures want.Some? ==> (forall x <- want.value :: StmtOk(x)) && v == Int(Meaning(want.value, args))
    decreases Calls(depth)
  {
    hide AmlNamespace.Valid, Evolves, ListHere, ListDone, Run, TextAll, Torn, Coded;
    if m.ns.nodes[node].kind != Method || depth > MAX_DEPTH {
      return Nothing;
    }
    if node !in m.bodies {
      CutShort(m.ns.nodes, m.bodies, m.cuts, node);
      m.strayed := Some(Stray(node, m.cuts));
      m.wild := true;               // whatever is in memory after the table is run
      return Nothing;
    }
    var ctx := new Context(node, depth, args);
    ghost var st := ctx.Now();
    if want.Some? { CallStarts(want.value, args, m.bodies[node].stream); }
    var t, ok := RunTerms(m, ctx, m.bodies[node].stream, t0, want);
    if want.Some? { CallEnds(want.value, args, ctx.Now(), ok); }
    if !ok && !ctx.returned {
      return Nothing;
    }
    v := if ctx.result.Nothing? then Int(0) else ctx.result;
  }

  /** What a call of `path` runs, if that is a program over numbers. */
  ghost predicate Runs(nodes: Tree, bodies: map<nat, Body>, path: Path, args: seq<Value>, prog: seq<Stmt>)
  {
    && (forall a <- args :: IsNumber(a)) && AmlNamespace.Valid(nodes) && Lookup(nodes, Some(ROOT), path).Some?
    && Encodes(nodes, bodies, Lookup(nodes, Some(ROOT), path).value, prog)
  }

  ghost predicate Strayed(stray: Option<Stray>) { stray.Some? && stray.value.node in stray.value.cuts }

  /** A path to a method. */
  ghost predicate CallsMethod(nodes: Tree, path: Path)
  {
    && AmlNamespace.Valid(nodes) && Lookup(nodes, Some(ROOT), path).Some?
    && var n := Lookup(nodes, Some(ROOT), path).value; n < |nodes| && nodes[n].kind == Method
  }

  /** To one that was cut short. */
  ghost predicate CallsCut(nodes: Tree, bodies: map<nat, Body>, path: Path)
  {
    CallsMethod(nodes, path) && Lookup(nodes, Some(ROOT), path).value !in bodies
  }

  /** Evaluate a path from the root: a call if it names a method.  Only a torn table makes the
      machine wild, and of a wild machine nothing is known. */
  method Evaluate(m: Loader, path: Path, args: seq<Value>, ghost want: Option<seq<Stmt>>) returns (v: Value)
    requires m.Valid() && |args| <= ARGS
    requires want.Some? ==> Runs(m.ns.nodes, m.bodies, path, args, want.value)
    modifies m`bodies, m`cuts, m`fields, m`wild, m`strayed, m.ns
    ensures if want.Some? then m.wild == old(m.wild) else old(m.wild) ==> m.wild
    ensures m.wild ==> Torn(m.tables) && Strayed(m.strayed)
    ensures !m.wild && old(!m.wild) ==> !CallsCut(old(m.ns.nodes), old(m.bodies), path)
    ensures m.wild && old(!m.wild) ==> CallsMethod(old(m.ns.nodes), path)
    ensures !m.wild ==> m.Since(old(m.ns.nodes))
    ensures !m.wild && want.Some? ==> (forall x <- want.value :: StmtOk(x)) && v == Int(Meaning(want.value, args))
  {
    hide AmlNamespace.Valid, Evolves, Lookup, Meaning, TextAll, Torn, Coded;
    RootThere(m.ns.nodes);
    var n := m.Find(ROOT, path);
    ghost var t0 := m.ns.nodes;
    EvolvesRefl(t0);
    if n.None? {
      return Nothing;
    }
    if m.ns.nodes[n.value].kind == Method {
      v := CallMethod(m, n.value, args, 0, t0, want);
    } else {
      v := *;
    }
  }

  /** Load a table: any bytes at all.  Declaring a method cut short is harmless. */
  method LoadBlock(m: Loader, table: seq<Byte>, ghost want: Option<seq<D.Decl>>) returns (ok: bool)
    requires m.Valid() && |table| < 0x1_0000_0000
    requires want.Some? ==> Spells(table, want.value) && |D.After(m.Seen(), [], want.value).paths| <= m.Limit()
    modifies m`bodies, m`cuts, m`fields, m`tables, m.ns
    ensures m.Since(old(m.ns.nodes)) && m.tables == old(m.tables) + {table}
    ensures var s := Stream(table, 0, |table|);
      OneMethod(s) ==> ok && m.Declared(Next(s), ROOT, old(m.ns.nodes), old(m.ns.room))
    ensures want.Some? ==> m.Seen() == D.After(old(m.Seen()), [], want.value) && (ok <==> table != [])
  {
    hide AmlNamespace.Valid, Evolves, MethodEnd, MethodOf, NameOf, Needs, Coded, Whole, D.After, ViewOf, PathTo, Spells,
      D.ListHere;
    RootPath(m.ns.nodes);
    EvolvesRefl(m.ns.nodes);
    m.tables := m.tables + {table};
    if want.Some? { SpeltHere(table, want.value, m.Seen()); }
    if |table| == 0 {
      return false;
    }
    var end;
    end, ok := m.ParseTerms(Stream(table, 0, |table|), ROOT, want);
  }

  /** The table is the encoding of a list of declarations. */
  ghost predicate Spells(table: seq<Byte>, ds: seq<D.Decl>)
  {
    (forall d <- ds :: D.DeclOk(d)) && D.BytesAll(ds) == Some(table)
  }

  lemma SpeltHere(table: seq<Byte>, ds: seq<D.Decl>, v: D.View)
    requires Spells(table, ds) && |table| < 0x1_0000_0000
    ensures D.ListHere(Stream(table, 0, |table|), ds) && (table == [] ==> D.After(v, [], ds) == v)
  {
    hide D.DeclOk, D.BytesAll;
    assert table[0..|table|] == table;
    D.ListNext(Stream(table, 0, |table|), ds);
  }

  /* ---- every run ---- */

  datatype Request = Load(table: seq<Byte>) | Call(path: Path, args: seq<Value>)

  datatype Response = Loaded(ok: bool) | Answered(v: Value)

  predicate RequestOk(r: Request)
  {
    match r case Load(table) => |table| < 0x1_0000_0000 case Call(_, args) => |args| <= ARGS
  }

  /** What a request may be taken to be: a table the encoding of declarations, a call that of a program. */
  datatype Hint = NoHint | Declarations(ds: seq<D.Decl>) | Program(prog: seq<Stmt>)

  /** A machine at some moment. */
  datatype Machine = Machine(nodes: Tree, room: nat, bodies: map<nat, Body>, tables: set<seq<Byte>>)

  ghost function Now(m: Loader): Machine
    reads m, m.ns
  {
    Machine(m.ns.nodes, m.ns.room, m.bodies, m.tables)
  }

  /** There is room for all that the declarations add. */
  ghost predicate Holds(a: Machine, ds: seq<D.Decl>)
  {
    AmlNamespace.Valid(a.nodes) && InTree(a.nodes, a.bodies)
      && |D.After(ViewOf(a.nodes, a.bodies), [], ds).paths| <= |a.nodes| + a.room
  }

  /** The names and methods of `b` are those of `a` and what the declarations add. */
  ghost predicate Added(a: Machine, b: Machine, ds: seq<D.Decl>)
    requires Holds(a, ds)
  {
    AmlNamespace.Valid(b.nodes) && InTree(b.nodes, b.bodies)
      && ViewOf(b.nodes, b.bodies) == D.After(ViewOf(a.nodes, a.bodies), [], ds)
  }

  /** What a request has done: a table of declarations, which `hint` may be, adds what they do, any that
      is one method has it declared, a call of a program over numbers, which `hint` may be, answers
      what the program means, and no name is lost. */
  ghost predicate Happened(a: Machine, b: Machine, r: Request, answer: Response, hint: Hint)
    requires RequestOk(r)
  {
    && Evolves(a.nodes, b.nodes)
    && match r
       case Load(table) =>
         && answer.Loaded? && b.tables == a.tables + {table}
         && (hint.Declarations? && Spells(table, hint.ds) && Holds(a, hint.ds) ==> Added(a, b, hint.ds))
         && var s := Stream(table, 0, |table|);
         OneMethod(s) ==> answer.ok && AmlParse.Declares(b.nodes, b.bodies, Next(s), ROOT, a.nodes, a.room)
       case Call(path, args) =>
         && answer.Answered? && b.tables == a.tables && !CallsCut(a.nodes, a.bodies, path)
         && (hint.Program? && Runs(a.nodes, a.bodies, path, args, hint.prog) ==>
               (forall x <- hint.prog :: StmtOk(x)) && answer.v == Int(Meaning(hint.prog, args)))
  }

  /** `states` and `answers` record the first of `steps`; `hints` are any at all. */
  ghost predicate Recorded(states: seq<Machine>, steps: seq<Request>, answers: seq<Response>,
    hints: seq<Hint>)
  {
    && |states| == |answers| + 1 && |answers| <= |steps| == |hints|
    && (forall k :: 0 <= k < |steps| ==> RequestOk(steps[k]))
    && (forall k :: 0 <= k < |states| ==> AmlNamespace.Valid(states[k].nodes))
    && forall k :: 0 <= k < |answers| ==> Happened(states[k], states[k + 1], steps[k], answers[k], hints[k])
  }

  lemma RecordedMore(states: seq<Machine>, steps: seq<Request>, answers: seq<Response>, hints: seq<Hint>,
    b: Machine, answer: Response)
    requires Recorded(states, steps, answers, hints) && |answers| < |steps| && AmlNamespace.Valid(b.nodes)
    requires Happened(states[|answers|], b, steps[|answers|], answer, hints[|answers|])
    ensures Recorded(states + [b], steps, answers + [answer], hints)
  {
    hide Happened, AmlNamespace.Valid;
  }

  /** No name is ever lost. */
  lemma {:induction false} NamesStay(states: seq<Machine>, steps: seq<Request>, answers: seq<Response>,
    hints: seq<Hint>, j: nat, k: nat)
    requires Recorded(states, steps, answers, hints) && j <= k < |states|
    ensures Evolves(states[j].nodes, states[k].nodes)
    decreases k
  {
    hide Evolves, AmlNamespace.Valid;
    if j == k {
      EvolvesRefl(states[j].nodes);
    } else {
      NamesStay(states, steps, answers, hints, j, k - 1);
      assert Happened(states[k - 1], states[k - 1 + 1], steps[k - 1], answers[k - 1], hints[k - 1]);
      EvolvesTrans(states[j].nodes, states[k - 1].nodes, states[k].nodes);
    }
  }

  /** The tables a machine has are those it began with and those loaded since. */
  lemma {:induction false} TablesCome(states: seq<Machine>, steps: seq<Request>, answers: seq<Response>,
    hints: seq<Hint>, k: nat)
    requires Recorded(states, steps, answers, hints) && k < |states|
    ensures forall t <- states[k].tables :: t in states[0].tables || exists j :: 0 <= j < |steps| && steps[j] == Load(t)
    decreases k
  {
    hide Evolves, AmlNamespace.Valid, OneMethod, AmlParse.Declares;
    if k > 0 {
      TablesCome(states, steps, answers, hints, k - 1);
      assert Happened(states[k - 1], states[k - 1 + 1], steps[k - 1], answers[k - 1], hints[k - 1]);
    }
  }

  method DoLoad(m: Loader, table: seq<Byte>, ghost hint: Hint) returns (answer: Response)
    requires m.Valid() && |table| < 0x1_0000_0000
    modifies m`bodies, m`cuts, m`fields, m`tables, m.ns
    ensures m.Valid() && Happened(old(Now(m)), Now(m), Load(table), answer, hint)
  {
    hide AmlNamespace.Valid, Evolves, Torn, Coded, OneMethod, MethodEnd, AmlParse.Declares, Spells, D.After, ViewOf;
    ghost var want := if hint.Declarations? && Spells(table, hint.ds) && Holds(Now(m), hint.ds) then Some(hint.ds)
      else None;
    var ok := LoadBlock(m, table, want);
    answer := Loaded(ok);
  }

  method DoCall(m: Loader, path: Path, args: seq<Value>, ghost hint: Hint) returns (answer: Response)
    requires m.Valid() && |args| <= ARGS && !m.wild
    modifies m`bodies, m`cuts, m`fields, m`wild, m`strayed, m.ns
    ensures m.wild ==> Torn(old(m.tables)) && Strayed(m.strayed) && CallsMethod(old(m.ns.nodes), path)
    ensures !m.wild ==> m.Valid() && Happened(old(Now(m)), Now(m), Call(path, args), answer, hint)
  {
    hide AmlNamespace.Valid, Evolves, Torn, Coded, Runs, Meaning;
    ghost var want := if hint.Program? && Runs(m.ns.nodes, m.bodies, path, args, hint.prog) then Some(hint.prog)
      else None;
    var v := Evaluate(m, path, args, want);
    answer := Answered(v);
  }

  lemma RecordedNone(a: Machine, steps: seq<Request>, hints: seq<Hint>)
    requires AmlNamespace.Valid(a.nodes) && |hints| == |steps| && forall k :: 0 <= k < |steps| ==> RequestOk(steps[k])
    ensures Recorded([a], steps, [], hints)
  {
    hide AmlNamespace.Valid;
  }

  /** No torn table to begin with and none to be loaded. */
  ghost predicate NothingTorn(tables: set<seq<Byte>>, steps: seq<Request>)
  {
    (forall t <- tables :: Whole(t)) && forall j :: 0 <= j < |steps| && steps[j].Load? ==> Whole(steps[j].table)
  }

  /** Then there is none at any time. */
  lemma NoneTorn(states: seq<Machine>, steps: seq<Request>, answers: seq<Response>, hints: seq<Hint>,
    k: nat)
    requires Recorded(states, steps, answers, hints) && k < |states| && Torn(states[k].tables)
    ensures !NothingTorn(states[0].tables, steps)
  {
    hide Recorded, Whole;
    TablesCome(states, steps, answers, hints, k);
    var t :| t in states[k].tables && !Whole(t);
  }

  /** Any tables loaded and any methods run, in any order: each request ends and does what it
      should, the namespace is a tree with distinct sibling names throughout, and the run stops
      early only at a call of a method, once one cut short was called, which only a torn table
      among those loaded can bring about. */
  method Session(m: Loader, steps: seq<Request>, ghost hints: seq<Hint>)
    returns (answers: seq<Response>, ghost states: seq<Machine>)
    requires m.Valid() && !m.wild && |hints| == |steps| && forall k :: 0 <= k < |steps| ==> RequestOk(steps[k])
    modifies m, m.ns
    ensures Recorded(states, steps, answers, hints) && states[0] == old(Now(m))
    ensures |answers| < |steps| <==> m.wild
    ensures |answers| < |steps| ==> steps[|answers|].Call? && Torn(states[|answers|].tables)
    ensures |answers| < |steps| ==> CallsMethod(states[|answers|].nodes, steps[|answers|].path) && Strayed(m.strayed)
    ensures !m.wild ==> m.Valid() && states[|answers|] == Now(m)
    ensures NothingTorn(old(m.tables), steps) ==> |answers| == |steps|
  {
    hide AmlNamespace.Valid, Evolves, Torn, Coded, Recorded, Happened, Runs, Whole, NothingTorn;
    answers, states := [], [Now(m)];
    RecordedNone(Now(m), steps, hints);
    ghost var mark := Now(m);
    while |answers| < |steps|
      invariant |answers| <= |steps| && |states| == |answers| + 1 && m.Valid() && !m.wild
      invariant Recorded(states, steps, answers, hints) && states[0] == mark && states[|answers|] == Now(m)
      decreases |steps| - |answers|
    {
      ghost var k := |answers|;
      var answer;
      match steps[|answers|] {
        case Load(table) => answer := DoLoad(m, table, hints[k]);
        case Call(path, args) => answer := DoCall(m, path, args, hints[k]);
      }
      if m.wild {
        NoneTorn(states, steps, answers, hints, k);
        return;
      }
      RecordedMore(states, steps, answers, hints, Now(m), answer);
      answers, states := answers + [answer], states + [Now(m)];
    }
  }

  /* ---- from bytes to an answer ---- */

  /** A name segment (section 20.2.2 of the ACPI Specification). */
  predicate SegmentOk(seg: seq<Byte>)
  {
    |seg| == 4 && NameLead(seg[0]) && forall b <- seg :: NameLead(b) || '0' as int <= b <= '9' as int
  }

  predicate NameLead(b: Byte) { 'A' as int <= b <= 'Z' as int || b == '_' as int }

  function SegPath(seg: seq<Byte>): Path
    requires |seg| == 4
  {
    [seg[0] as char, seg[1] as char, seg[2] as char, seg[3] as char]
  }

  /** A table that declares one method. */
  function MethodTable(seg: seq<Byte>, argc: Byte, code: seq<Byte>): seq<Byte>
    requires Fits(|seg + [argc] + code|)
  {
    [0x14] + Package(seg + [argc] + code)
  }

  /** A single segment decodes to itself. */
  lemma SegmentReads(seg: seq<Byte>, s: Stream)
    requires SegmentOk(seg) && Has(s, seg)
    ensures Prefix(s) == [] && Segments(s) == 1 && SegStart(s) == s.p && s.p + 4 <= s.end
    ensures CStr(Cut(FullName(s))) == SegPath(seg)
  {
    forall k: nat | k < 4 ensures s.code[s.p + k] == seg[k] { assert s.code[s.p..s.p + 4][k] == seg[k]; }
    assert seg[0] in seg && seg[1] in seg && seg[2] in seg && seg[3] in seg;
    assert Carets(s) == 0;
    assert s.(p := s.p + |Prefix(s)|) == s;
    assert FullName(s) == [] + SegText(s.code, s.p, 1) == SegAt(s.code, s.p) == SegPath(seg);
    NoTerminator(SegPath(seg));
  }

  lemma {:induction false} NoTerminator(text: Path)
    requires '\0' !in text
    ensures CStr(text) == text
  {
    if text != [] { NoTerminator(text[1..]); }
  }

  lemma SegmentIsPlain(seg: seq<Byte>)
    requires SegmentOk(seg)
    ensures Plain(SegPath(seg)) && SegPath(seg) != []
  {
    assert seg[0] in seg && seg[3] in seg;
  }

  /** A method's package reads as its name and, for its code, all of `code`. */
  lemma MethodReads(seg: seq<Byte>, argc: Byte, code: seq<Byte>, s: Stream)
    requires SegmentOk(seg) && Fits(|seg + [argc] + code|) && Has(s, Package(seg + [argc] + code))
    requires s.end == s.p + |Package(seg + [argc] + code)|
    ensures MethodEnd(s) == s.end && MethodOf(s).Some? && MethodOf(s).value.name == SegPath(seg)
    ensures var c := MethodOf(s).value.body.stream; Has(c, code) && c.end == c.p + |code|
  {
    hide PkgHeader, PkgTotal, Prefix, Segments, SegStart, FullName, CStr, Cut, SegPath, Has, Package;
    var body := seg + [argc] + code;
    PackageLen(body);
    PackageReads(s, body);
    var t := Skip(s, HeaderSize(|body|));
    assert body == seg + ([argc] + code);
    HasParts(t, seg, [argc] + code);
    SegmentReads(seg, t);
    HasByte(Skip(t, 4), argc, code);
    HasUpto(Skip(t, 5), code);
  }

  lemma TableReads(seg: seq<Byte>, argc: Byte, code: seq<Byte>)
    requires SegmentOk(seg) && Fits(|seg + [argc] + code|)
    ensures var table := MethodTable(seg, argc, code); var s := Stream(table, 0, |table|);
      && |table| < 0x1_0000_0000 && OneMethod(s) && Ok(Next(s)) && MethodOf(Next(s)).Some?
      && var d := MethodOf(Next(s)).value;
      && d.name == SegPath(seg) && Has(d.body.stream, code) && d.body.stream.end == d.body.stream.p + |code|
  {
    hide MethodOf, MethodEnd, SegPath, Package;
    var body := seg + [argc] + code;
    var table := MethodTable(seg, argc, code);
    PackageLen(body);
    var s := Stream(table, 0, |table|);
    assert s.code[0..|table|] == table;
    HasByte(s, 0x14, Package(body));
    MethodReads(seg, argc, code, Next(s));
  }

  lemma NameOfMethod(s: Stream)
    requires Ok(s) && MethodOf(s).Some?
    ensures NameOf(s) == Some(MethodOf(s).value.name) && !MethodCutShort(s)
  {
    hide PkgHeader, PkgTotal, Prefix, Segments, SegStart, FullName, CStr, Cut;
  }

  /** The name is one the root has. */
  predicate Known(t: Tree, seg: seq<Byte>)
    requires |seg| == 4
  {
    Child(t, ROOT, SegPath(seg)).Some?
  }

  /** One node at most is missing for a single segment. */
  lemma SegmentNeeds(t: Tree, seg: seq<Byte>)
    requires SegmentOk(seg)
    ensures Needs(t, Some(ROOT), SegPath(seg)) == if Known(t, seg) then 0 else 1
  {
    hide Child;
    var p := SegPath(seg);
    assert seg[0] in seg && seg[1] in seg && seg[2] in seg && seg[3] in seg;
    assert SegLen(p) == 4 by {
      assert p[1..][0] == p[1] && p[1..][1..][0] == p[2] && p[1..][1..][1..][0] == p[3] && p[1..][1..][1..][1..] == [];
    }
    assert p[..4] == p && Pad(p) == p;
  }

  /** Any program over numbers, put in a table as a method, loaded and called, answers what it
      means, wherever the name is already known or there is memory for one more node. */
  method LoadAndCall(m: Loader, seg: seq<Byte>, argc: Byte, code: seq<Byte>, args: seq<Value>, ghost prog: seq<Stmt>)
    returns (v: Value)
    requires m.Valid() && !m.wild && SegmentOk(seg) && Fits(|seg + [argc] + code|)
    requires |args| <= ARGS && forall a <- args :: IsNumber(a)
    requires (forall x <- prog :: StmtOk(x)) && TextAll(prog) == Some(code)
    modifies m, m.ns
    ensures !m.wild ==> m.Valid()
    ensures old(m.ns.room) > 0 || Known(old(m.ns.nodes), seg) ==>
      m.Valid() && !m.wild && v == Int(Meaning(prog, args))
  {
    hide AmlNamespace.Valid, Evolves, Lookup, Meaning, TextAll, MethodOf, NameOf, Created, Has, Plain, SegPath, Needs,
      Known, MethodCutShort, Torn, Coded;
    var table := MethodTable(seg, argc, code);
    TableReads(seg, argc, code);
    SegmentNeeds(m.ns.nodes, seg);
    NameOfMethod(Next(Stream(table, 0, |table|)));
    ghost var enough := m.ns.room > 0 || Known(m.ns.nodes, seg);
    var _ := LoadBlock(m, table, None);
    if enough {
      SegmentIsPlain(seg);
      RootThere(m.ns.nodes);
      LookupFindsCreated(m.ns.nodes, Some(ROOT), SegPath(seg));
    }
    v := Evaluate(m, SegPath(seg), args, if enough then Some(prog) else None);
  }

  /** The same for a table of any declarations: a method anywhere in it, called by its absolute path. */
  method LoadAndCallAt(m: Loader, table: seq<Byte>, path: Abs, args: seq<Value>, ghost ds: seq<D.Decl>,
    ghost prog: seq<Stmt>) returns (v: Value)
    requires m.Valid() && !m.wild && |table| < 0x1_0000_0000 && |args| <= ARGS && forall a <- args :: IsNumber(a)
    requires Spells(table, ds) && |D.After(m.Seen(), [], ds).paths| <= m.Limit() && path != [] && SegsOk(path)
    requires (forall x <- prog :: StmtOk(x)) && TextAll(prog).Some?
    requires var ms := D.After(m.Seen(), [], ds).methods; path in ms && ms[path].bytes == TextAll(prog).value
    modifies m, m.ns
    ensures m.Valid() && !m.wild && v == Int(Meaning(prog, args))
  {
    hide AmlNamespace.Valid, Evolves, Lookup, Meaning, TextAll, Torn, Coded, Spells, D.After, Dotted, PathTo, Paths,
      Methods, SegsOk;
    var _ := LoadBlock(m, table, Some(ds));
    MethodFound(m.ns.nodes, m.bodies, path);
    ghost var n := Lookup(m.ns.nodes, Some(ROOT), ['\\'] + Dotted(path)).value;
    CodeEncodes(m.ns.nodes, m.bodies, n, prog);
    v := Evaluate(m, ['\\'] + Dotted(path), args, Some(prog));
  }

  lemma CodeEncodes(nodes: Tree, bodies: map<nat, Body>, n: nat, prog: seq<Stmt>)
    requires n < |nodes| && nodes[n].kind == Method && n in bodies && Ok(bodies[n].stream)
    requires (forall x <- prog :: StmtOk(x)) && TextAll(prog).Some? && CodeOf(bodies[n]).bytes == TextAll(prog).value
    ensures Encodes(nodes, bodies, n, prog)
  {
    hide TextAll;
  }
}
