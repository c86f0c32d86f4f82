/** Reading back what `AmlMeaning` encodes: numerals, which branch of the
    evaluator a term takes, and what each part of the evaluator has to have done. */
module AmlReading {
  import opened AmlNamespace
  import opened AmlStream
  import opened AmlBytes
  import opened AmlParse
  import opened AmlMeaning

  /* ---- reading what was encoded ---- */

  lemma {:induction false} LowBytesRead(s: Stream, n: nat, count: nat)
    requires Has(s, LowBytes(n, count)) && n < Pow256(count)
    ensures LittleEndian(s, count) == n
  {
    LowBytesSum(s, n, count);
  }

  lemma {:induction false} LowBytesAt(n: nat, count: nat, k: nat)
    requires k < count
    ensures Pow256(k) > 0 && LowBytes(n, count)[k] == n / Pow256(k) % 256
    decreases k
  {
    if k > 0 {
      LowBytesAt(n / 256, count - 1, k - 1);
      DivDiv(n, Pow256(k - 1));
    }
  }

  lemma DivDiv(n: nat, m: nat)
    requires m > 0
    ensures n / 256 / m == n / (256 * m)
  {
    var q := n / 256 / m;
    var r := n / 256 - q * m;
    var b := n % 256;
    assert n == 256 * (q * m + r) + b;
    assert n == (256 * m) * q + (256 * r + b) by { assert 256 * (q * m + r) == 256 * m * q + 256 * r; }
    assert 0 <= r < m;
    assert 256 * r + b < 256 * m;
    QuotientIs(n, 256 * m, q, 256 * r + b);
  }

  lemma QuotientIs(n: nat, d: nat, q: nat, r: nat)
    requires d > 0 && r < d && n == d * q + r
    ensures n / d == q && n % d == r
  {
    var q', r' := n / d, n % d;
    assert d * q' + r' == d * q + r;
    assert d * (q' - q) == r - r';
    assert q' - q >= 1 ==> d * (q' - q) >= d;
    assert q - q' >= 1 ==> d * (q - q') >= d;
  }

  /** The first `k` bytes make the number modulo 256^k. */
  lemma {:induction false} LowBytesSum(s: Stream, n: nat, count: nat)
    requires Has(s, LowBytes(n, count)) && n < Pow256(count)
    ensures LittleEndian(s, count) == n
  {
    LowPart(s, n, count, count);
    Small(n, Pow256(count));
  }

  lemma Small(n: nat, m: nat)
    requires n < m
    ensures n % m == n
  {
  }

  lemma {:induction false} LowPart(s: Stream, n: nat, count: nat, k: nat)
    requires Has(s, LowBytes(n, count)) && k <= count
    ensures Pow256(k) > 0 && LittleEndian(s, k) == n % Pow256(k)
    decreases k
  {
    if k > 0 {
      LowPart(s, n, count, k - 1);
      LowBytesAt(n, count, k - 1);
      assert ByteAfter(s, k - 1) == s.code[s.p..s.p + count][k - 1];
      OneMoreByte(n, Pow256(k - 1));
    }
  }

  lemma OneMoreByte(n: nat, m: nat)
    requires m > 0
    ensures n % (256 * m) == n % m + n / m % 256 * m
  {
    var d: nat, r: nat := n / m, n % m;
    var q: nat, b: nat := d / 256, d % 256;
    assert n == m * d + r && d == 256 * q + b;
    Regroup(m, q, b, r);
    QuotientIs(n, 256 * m, q, b * m + r);
  }

  lemma Regroup(m: nat, q: nat, b: nat, r: nat)
    requires b < 256 && r < m
    ensures m * (256 * q + b) + r == 256 * m * q + (b * m + r) && b * m + r < 256 * m
  {
    assert b * m <= 255 * m;
  }

  /** A numeral reads back as its number. */
  lemma ConstReads(s: Stream, op: Byte, n: nat)
    requires ConstOk(op, n) && Has(s, [op] + LowBytes(n, Width(op)))
    ensures IsNumeral(Peek(s)) && Width(Peek(s)) == Width(op) && s.p + 1 + Width(op) <= s.end && Numeral(s) == n
  {
    HasByte(s, op, LowBytes(n, Width(op)));
    if Width(op) > 0 { LowBytesRead(Next(s), n, Width(op)); }
  }

  /* ---- numbers stay numbers of 64 bits ---- */

  lemma {:induction false} BitLenBound(a: nat, k: nat)
    requires a < Pow2(k)
    ensures BitLen(a) <= k
  {
    if a != 0 { BitLenBound(a / 2, k - 1); }
  }

  lemma {:induction false} BitLenIs(a: nat, k: nat)
    requires Pow2(k) <= a < Pow2(k + 1)
    ensures BitLen(a) == k + 1
    decreases k
  {
    if k > 0 {
      BitLenIs(a / 2, k - 1);
    } else {
      assert Pow2(1) == 2 * Pow2(0) == 2;
    }
  }

  lemma {:induction false} LowBitBound(a: nat)
    ensures LowBit(a) <= BitLen(a)
  {
    if a != 0 { LowBitBound(a / 2); }
  }

  lemma UnarySmall(op: Byte, a: nat)
    requires a < LIMIT
    ensures Unary(op, a) < LIMIT
  {
    LimitIs();
    BitLenBound(a, 64);
    LowBitBound(a);
    hide BitLen, LowBit, Pow2;
  }

  lemma QuotientSmall(a: nat, b: nat)
    ensures Quotient(a, b) <= a
  {
    if b != 0 { assert a / b * b <= a; assert b >= 1 ==> a / b <= a / b * b; }
  }

  lemma RemainderSmall(a: nat, b: nat)
    ensures Remainder(a, b) <= a
  {
    if b != 0 {
      assert a == a / b * b + a % b;
      assert a / b * b >= 0;
    }
  }

  lemma BinarySmall(op: Byte, a: nat, b: nat)
    requires a < LIMIT && b < LIMIT
    ensures Binary(op, a, b) < LIMIT
  {
    AndLess(a, b);
    AndLess(Or(a, b), Complement(And(a, b)));
    QuotientSmall(a, b);
    QuotientSmall(a, Pow2(b));
    RemainderSmall(a, b);
    hide And, Pow2, Quotient, Remainder;
  }

  lemma ResultSmall(op: Byte, vals: seq<nat>)
    requires Numeric(op) && |vals| == ShapeOf(op).operands && forall n <- vals :: n < LIMIT
    ensures Result(op, vals) < LIMIT && forall n <- Stored(op, vals) :: n < LIMIT
  {
    hide Binary, Unary, Remainder;
    assert |vals| == 1 || |vals| == 2;
    assert vals[0] in vals;
    if |vals| == 2 {
      assert vals[1] in vals;
      BinarySmall(op, vals[0], vals[1]);
      RemainderSmall(vals[0], vals[1]);
    } else {
      UnarySmall(op, vals[0]);
    }
  }

  lemma AssignNumbers(st: State, p: Place, n: nat)
    requires Numbers(st) && PlaceOk(p) && n < LIMIT
    ensures Numbers(Assign(st, p, n))
  {
  }

  lemma {:induction false} AssignAllNumbers(st: State, ps: seq<Place>, ns: seq<nat>)
    requires Numbers(st) && |ps| == |ns| && (forall p <- ps :: PlaceOk(p)) && forall n <- ns :: n < LIMIT
    ensures Numbers(AssignAll(st, ps, ns))
    decreases |ps|
  {
    hide Assign, Numbers;
    if ps != [] {
      assert ns[0] in ns && ps[0] in ps && (forall n :: n in ns[1..] ==> n in ns) && forall p :: p in ps[1..] ==>
        p in ps;
      AssignNumbers(st, ps[0], ns[0]);
      AssignAllNumbers(Assign(st, ps[0], ns[0]), ps[1..], ns[1..]);
    }
  }

  lemma FetchSmall(st: State, p: Place)
    requires Numbers(st) && PlaceOk(p)
    ensures Fetch(st, p) < LIMIT
  {
    match p
    case Nowhere =>
    case InLocal(k) => assert st.locals[k] in st.locals;
    case InArg(k) => assert st.args[k] in st.args;
  }

  lemma ConstSmall(op: Byte, n: nat)
    requires ConstOk(op, n)
    ensures n < LIMIT
  {
    assert Pow256(2) == 256 * Pow256(1) == 0x1_0000;
    assert Pow256(4) == 256 * Pow256(3) == 0x1_0000_0000;
    assert Pow256(6) == 256 * Pow256(5);
    assert Pow256(8) == 256 * Pow256(7) == LIMIT;
  }

  lemma {:induction false} EvalNumbers(e: Expr, st: State)
    requires ExprOk(e) && Numbers(st)
    ensures Numbers(Eval(e, st).st) && Eval(e, st).n < LIMIT
    decreases e
  {
    hide Numbers, Assign, Fetch, Result, Stored, AssignAll;
    match e
    case Const(op, n) => ConstSmall(op, n);
    case Read(p) => FetchSmall(st, p);
    case Apply(op, es, ps) =>
      EvalAllNumbers(es, st);
      var a := EvalAll(es, st);
      ResultSmall(op, a.ns);
      AssignAllNumbers(a.st, ps, Stored(op, a.ns));
    case Bump(up, p) => AssignNumbers(st, p, (Fetch(st, p) + if up then 1 else ONES) % LIMIT);
  }

  lemma {:induction false} EvalAllNumbers(es: seq<Expr>, st: State)
    requires Numbers(st) && forall e <- es :: ExprOk(e)
    ensures Numbers(EvalAll(es, st).st) && forall n <- EvalAll(es, st).ns :: n < LIMIT
    decreases es
  {
    hide Numbers;
    if es != [] {
      EvalNumbers(es[0], st);
      EvalAllNumbers(es[1..], Eval(es[0], st).st);
    }
  }

  lemma FlagsNumbers(st: State, v: Value, returned: bool, broke: bool, continued: bool)
    requires Numbers(st) && IsNumber(v)
    ensures Numbers(State(st.locals, st.args, v, returned, broke, continued)) && IsNumber(st.result)
  {
  }

  lemma {:induction false} RunNumbers(ss: seq<Stmt>, st: State)
    requires Numbers(st) && forall s <- ss :: StmtOk(s)
    ensures Numbers(Run(ss, st))
    decreases ss, 0
  {
    hide Numbers;
    if ss != [] && !Leaving(st) {
      RunOneNumbers(ss[0], st);
      RunNumbers(ss[1..], RunOne(ss[0], st));
    }
  }

  lemma {:induction false} RunOneNumbers(s: Stmt, st: State)
    requires Numbers(st) && StmtOk(s)
    ensures Numbers(RunOne(s, st))
    decreases s, 0
  {
    hide Numbers;
    FlagsNumbers(st, Nothing, false, false, false);
    match s
    case Do(e) => EvalNumbers(e, st);
    case If(c, yes, _, no) =>
      EvalNumbers(c, st);
      RunNumbers(if Eval(c, st).n != 0 then yes else no, Eval(c, st).st);
    case While(c, body) => LoopNumbers(c, body, st, MAX_TURNS);
    case Return(e) =>
      EvalNumbers(e, st);
      var a := Eval(e, st);
      FlagsNumbers(a.st, Int(a.n), true, a.st.broke, a.st.continued);
    case Break => FlagsNumbers(st, st.result, st.returned, true, st.continued);
    case Continue => FlagsNumbers(st, st.result, st.returned, st.broke, true);
    case Noop(_) =>
  }

  lemma {:induction false} LoopNumbers(c: Expr, body: seq<Stmt>, st: State, turns: nat)
    requires Numbers(st) && ExprOk(c) && forall s <- body :: StmtOk(s)
    ensures Numbers(Loop(c, body, st, turns))
    decreases body, 1, turns
  {
    hide Numbers;
    if turns > 0 {
      EvalNumbers(c, st);
      var a := Eval(c, st);
      RunNumbers(body, a.st);
      var b := Run(body, a.st);
      FlagsNumbers(b, Nothing, false, false, false);
      FlagsNumbers(b, b.result, b.returned, false, b.continued);
      FlagsNumbers(b, b.result, b.returned, b.broke, false);
      if a.n != 0 && !b.returned && !b.broke { LoopNumbers(c, body, b.(continued := false), turns - 1); }
    }
  }

  /* ---- what to expect of an evaluator ---- */

  /** What a term is known to be: anything, or the encoding of an expression or a statement. */
  datatype Want = Any | Expression(e: Expr) | Statement(x: Stmt)

  ghost predicate NoElse(s: Stream) { Ok(s) && (s.p < s.end ==> s.code[s.p] != 0xA1) }

  ghost predicate ExprHere(e: Expr, st: State, s: Stream) { ExprOk(e) && Has(s, Code(e)) && Numbers(st) }

  ghost predicate StmtHere(x: Stmt, st: State, s: Stream)
  {
    StmtOk(x) && Text(x).Some? && Has(s, Text(x).value) && Numbers(st) && NoElse(Skip(s, |Text(x).value|))
  }

  ghost predicate Here(w: Want, st: State, s: Stream)
  {
    match w
    case Any => true
    case Expression(e) => ExprHere(e, st, s)
    case Statement(x) => StmtHere(x, st, s)
  }

  /** The evaluator has taken exactly the bytes of the expression, come to its value, and left
      what it leaves. */
  ghost predicate ExprDone(e: Expr, st: State, st': State, s: Stream, t: Stream, v: Value, failed: bool)
  {
    ExprOk(e) && !failed && t == Skip(s, |Code(e)|) && v == Int(Eval(e, st).n) && st' == Eval(e, st).st
  }

  ghost predicate StmtDone(x: Stmt, st: State, st': State, s: Stream, t: Stream, failed: bool)
  {
    StmtOk(x) && Text(x).Some? && !failed && t == Skip(s, |Text(x).value|) && st' == RunOne(x, st)
  }

  ghost predicate Done(w: Want, st: State, st': State, s: Stream, t: Stream, v: Value, failed: bool)
  {
    match w
    case Any => true
    case Expression(e) => ExprDone(e, st, st', s, t, v, failed)
    case Statement(x) => StmtDone(x, st, st', s, t, failed)
  }

  /** A statement that is only an expression. */
  ghost function Plainly(w: Want): Want { if w.Statement? && w.x.Do? then Expression(w.x.e) else w }

  lemma PlainlyHere(w: Want, st: State, s: Stream)
    requires Here(w, st, s)
    ensures Here(Plainly(w), st, s)
  {
  }

  lemma PlainlyDone(w: Want, st: State, st': State, s: Stream, t: Stream, v: Value, failed: bool)
    requires Here(w, st, s) && Done(Plainly(w), st, st', s, t, v, failed)
    ensures Done(w, st, st', s, t, v, failed)
  {
  }

  /* ---- which branch a term takes ---- */

  datatype Branch =
    | Data | Buffer | Pack(variable: bool) | Slot | Extended | Operation | Increment | Declaration | Control | Name

  function BranchOf(op: Byte): Branch
  {
    if op in {0x00, 0x01, 0xFF, 0x0A, 0x0B, 0x0C, 0x0D, 0x0E} then Data
    else if op == 0x11 then Buffer
    else if op == 0x12 || op == 0x13 then Pack(op == 0x13)
    else if 0x60 <= op < 0x6F then Slot
    else if op == 0x5B then Extended
    else if ShapeOf(op).Operator? then Operation
    else if op == 0x75 || op == 0x76 then Increment
    else if op in {0x08, 0x10, 0x14, 0x06, 0x15} then Declaration
    else if op in {0x86, 0x89, 0x8A, 0x8B, 0x8C, 0x8D, 0x8F, 0x9F, 0xA0, 0xA1, 0xA2, 0xA3, 0xA4, 0xA5, 0xCC}
      then Control
    else Name
  }

  lemma ExprBranch(e: Expr, st: State, s: Stream)
    requires ExprHere(e, st, s)
    ensures s.p < s.end
    ensures match e
      case Const(_, _) => BranchOf(Peek(s)) == Data
      case Read(p) => BranchOf(Peek(s)) == Slot && Peek(s) == PlaceByte(p)
      case Apply(op, es, ps) => BranchOf(Peek(s)) == Operation && Peek(s) == op
        && Has(Next(s), CodeAll(es) + PlaceBytes(ps))
      case Bump(up, p) =>
        BranchOf(Peek(s)) == Increment && Peek(s) == (if up then 0x75 else 0x76) && Has(Next(s), [PlaceByte(p)])
  {
    hide CodeAll, PlaceBytes, LowBytes;
    match e
    case Const(op, n) => HasByte(s, op, LowBytes(n, Width(op)));
    case Read(p) =>
      assert [PlaceByte(p)] == [PlaceByte(p)] + [];
      HasByte(s, PlaceByte(p), []);
    case Apply(op, es, ps) =>
      assert [op] + CodeAll(es) + PlaceBytes(ps) == [op] + (CodeAll(es) + PlaceBytes(ps));
      HasByte(s, op, CodeAll(es) + PlaceBytes(ps));
    case Bump(up, p) =>
      var b: Byte := if up then 0x75 else 0x76;
      assert [b, PlaceByte(p)] == [b] + [PlaceByte(p)];
      HasByte(s, b, [PlaceByte(p)]);
  }

  /** What follows the opcode of a statement. */
  ghost function Rest(x: Stmt): seq<Byte>
    requires StmtOk(x) && Text(x).Some? && !x.Do?
  {
    Text(x).value[1..]
  }

  function Opcode(x: Stmt): Byte
  {
    match x
    case If(_, _, _, _) => 0xA0
    case While(_, _) => 0xA2
    case Return(_) => 0xA4
    case Break => 0xA5
    case Continue => 0x9F
    case Noop(op) => op
    case Do(_) => 0x00
  }

  lemma StmtBranch(x: Stmt, st: State, s: Stream)
    requires StmtHere(x, st, s) && !x.Do?
    ensures s.p < s.end && Peek(s) == Opcode(x) && BranchOf(Peek(s)) == Control
    ensures Next(s) == Skip(s, 1) && Has(Next(s), Rest(x)) && |Text(x).value| == 1 + |Rest(x)|
      && NoElse(Skip(Next(s), |Rest(x)|))
  {
    hide Text, Rest, Opcode, BranchOf, Has, Numbers, StmtOk;
    StmtText(x);
    OpcodeBranch(x);
    HasByte(s, Opcode(x), Rest(x));
  }

  lemma OpcodeBranch(x: Stmt)
    requires StmtOk(x) && !x.Do?
    ensures BranchOf(Opcode(x)) == Control
  {
  }

  lemma StmtText(x: Stmt)
    requires StmtOk(x) && Text(x).Some? && !x.Do?
    ensures Text(x).value == [Opcode(x)] + Rest(x)
  {
    hide Code, TextAll, Package;
  }

  /** No statement starts with the opcode of an Else. */
  lemma NoStatementIsElse(x: Stmt, st: State, s: Stream)
    requires StmtOk(x) && Text(x).Some? && Has(s, Text(x).value)
    ensures NoElse(s) && Text(x).value != []
  {
    if x.Do? {
      ExprStarts(x.e);
      assert s.code[s.p..s.p + |Code(x.e)|][0] == s.code[s.p];
    } else {
      StmtText(x);
      assert s.code[s.p..s.p + |Text(x).value|][0] == s.code[s.p];
    }
  }

  lemma ExprStarts(e: Expr)
    requires ExprOk(e)
    ensures Code(e)[0] != 0xA1
  {
    hide CodeAll, PlaceBytes, LowBytes;
  }

  /* ---- operands, one after the other ---- */

  function Numerals(vals: seq<Value>): (ns: seq<nat>)
    ensures |ns| == |vals| && forall k :: 0 <= k < |vals| ==> ns[k] == Number(vals[k])
  {
    seq(|vals|, k requires 0 <= k < |vals| => Number(vals[k]))
  }

  function Ints(ns: seq<nat>): (vals: seq<Value>)
    ensures |vals| == |ns| && forall k :: 0 <= k < |ns| ==> vals[k] == Int(ns[k])
  {
    seq(|ns|, k requires 0 <= k < |ns| => Int(ns[k]))
  }

  lemma NumeralsOfInts(ns: seq<nat>)
    ensures Numerals(Ints(ns)) == ns
  {
  }

  ghost predicate AllExprsHere(es: seq<Expr>, st: State, s: Stream)
  {
    (forall e <- es :: ExprOk(e)) && Has(s, CodeAll(es)) && Numbers(st)
  }

  ghost predicate AllExprsDone(es: seq<Expr>, st: State, st': State, s: Stream, t: Stream, vals: seq<Value>,
    failed: bool)
  {
    && (forall e <- es :: ExprOk(e)) && !failed && t == Skip(s, |CodeAll(es)|)
    && vals == Ints(EvalAll(es, st).ns) && st' == EvalAll(es, st).st
  }

  /** The first `i` operands are done. */
  ghost predicate Operating(es: seq<Expr>, i: nat, st: State, cur: State, s: Stream, t: Stream, vals: seq<Value>)
  {
    && (forall e <- es :: ExprOk(e)) && i <= |es| && |vals| == i && vals == Ints(Numerals(vals))
    && AllExprsHere(es[i..], cur, t) && Skip(t, |CodeAll(es[i..])|) == Skip(s, |CodeAll(es)|)
    && EvalAll(es, st).st == EvalAll(es[i..], cur).st && EvalAll(es, st).ns == Numerals(vals) + EvalAll(es[i..], cur).ns
  }

  lemma OperatingStart(es: seq<Expr>, st: State, s: Stream)
    requires AllExprsHere(es, st, s)
    ensures Operating(es, 0, st, st, s, s, [])
  {
    hide CodeAll, EvalAll, Numbers;
    assert es[0..] == es;
    assert Numerals([]) + EvalAll(es, st).ns == EvalAll(es, st).ns;
  }

  lemma OperandHere(es: seq<Expr>, i: nat, st: State, cur: State, s: Stream, t: Stream, vals: seq<Value>)
    requires Operating(es, i, st, cur, s, t, vals) && i < |es|
    ensures ExprHere(es[i], cur, t)
  {
    hide EvalAll, Numbers, Code;
    assert es[i] in es && es[i..][0] == es[i] && es[i..][1..] == es[i + 1..];
    HasParts(t, Code(es[i]), CodeAll(es[i + 1..]));
  }

  lemma OperatingOn(es: seq<Expr>, i: nat, st: State, cur: State, cur': State, s: Stream, t: Stream, t': Stream,
    vals: seq<Value>, v: Value, failed: bool)
    requires Operating(es, i, st, cur, s, t, vals) && i < |es| && ExprDone(es[i], cur, cur', t, t', v, failed)
    ensures !failed && Operating(es, i + 1, st, cur', s, t', vals + [v])
  {
    hide Numbers, Code, Eval;
    assert es[i] in es && es[i..][0] == es[i] && es[i..][1..] == es[i + 1..];
    HasParts(t, Code(es[i]), CodeAll(es[i + 1..]));
    EvalNumbers(es[i], cur);
    assert Numerals(vals + [v]) == Numerals(vals) + [v.n];
    assert vals + [v] == Ints(Numerals(vals + [v]));
    assert Numerals(vals) + ([v.n] + EvalAll(es[i + 1..], cur').ns) == Numerals(vals) + [v.n] + EvalAll(es[i + 1..],
      cur').ns;
  }

  lemma OperatingEnd(es: seq<Expr>, st: State, cur: State, s: Stream, t: Stream, vals: seq<Value>)
    requires Operating(es, |es|, st, cur, s, t, vals)
    ensures AllExprsDone(es, st, cur, s, t, vals, false)
  {
    assert es[|es|..] == [];
    assert CodeAll([]) == [] && EvalAll([], cur) == Outcomes(cur, []);
    hide CodeAll, EvalAll;
    assert Numerals(vals) + [] == Numerals(vals);
  }

  /* ---- targets ---- */

  ghost predicate AllPlaces(ps: seq<Place>) { forall p <- ps :: PlaceOk(p) }

  lemma PlaceHere(p: Place, s: Stream)
    requires PlaceOk(p) && Has(s, [PlaceByte(p)])
    ensures Peek(s) == PlaceByte(p) && Next(s) == Skip(s, 1) && s.p < s.end
  {
    assert [PlaceByte(p)] == [PlaceByte(p)] + [];
    HasByte(s, PlaceByte(p), []);
  }

  lemma PlacesAt(ps: seq<Place>, s: Stream, i: nat)
    requires AllPlaces(ps) && Has(s, PlaceBytes(ps)) && i < |ps|
    ensures PlaceOk(ps[i]) && Has(Skip(s, i), [PlaceByte(ps[i])])
  {
    assert ps[i] in ps;
    var bs := PlaceBytes(ps);
    assert s.code[s.p + i] == s.code[s.p..s.p + |bs|][i] == bs[i];
    assert s.code[s.p + i..s.p + i + 1] == [bs[i]];
  }

  lemma AssignAllStart(st: State, ps: seq<Place>, ns: seq<nat>)
    requires |ps| == |ns| && AllPlaces(ps)
    ensures AssignAll(st, ps, ns) == AssignAll(st, ps[0..], ns[0..])
  {
    assert ps[0..] == ps && ns[0..] == ns;
  }

  lemma AssignAllNext(st: State, ps: seq<Place>, ns: seq<nat>, k: nat)
    requires |ps| == |ns| && AllPlaces(ps) && k < |ps|
    ensures AllPlaces(ps[k..]) && AllPlaces(ps[k + 1..]) && PlaceOk(ps[k])
    ensures AssignAll(st, ps[k..], ns[k..]) == AssignAll(Assign(st, ps[k], ns[k]), ps[k + 1..], ns[k + 1..])
  {
    assert ps[k] in ps && (forall p :: p in ps[k..] ==> p in ps) && forall p :: p in ps[k + 1..] ==> p in ps;
    assert ps[k..][1..] == ps[k + 1..] && ns[k..][1..] == ns[k + 1..];
  }

  lemma AssignAllEnd(st: State, ps: seq<Place>, ns: seq<nat>)
    requires ps == [] && ns == []
    ensures AssignAll(st, ps, ns) == st
  {
  }

  /* ---- an operator ---- */

  ghost predicate ApplyHere(e: Expr, op: Byte, st: State, s: Stream)
  {
    ExprOk(e) && e.Apply? && e.op == op && Has(s, CodeAll(e.operands) + PlaceBytes(e.targets)) && Numbers(st)
  }

  ghost predicate ApplyDone(e: Expr, st: State, st': State, s: Stream, t: Stream, v: Value, failed: bool)
  {
    && ExprOk(e) && e.Apply? && !failed && t == Skip(s, |CodeAll(e.operands)| + |e.targets|)
    && v == Int(Eval(e, st).n) && st' == Eval(e, st).st
  }

  lemma ApplyOperands(e: Expr, op: Byte, st: State, s: Stream)
    requires ApplyHere(e, op, st, s)
    ensures e.Apply? && Numeric(op) && |e.operands| == ShapeOf(op).operands && |e.targets| == ShapeOf(op).targets
      && AllPlaces(e.targets)
    ensures AllExprsHere(e.operands, st, s)
  {
    hide CodeAll, PlaceBytes, ShapeOf, Numbers;
    HasParts(s, CodeAll(e.operands), PlaceBytes(e.targets));
  }

  lemma ApplyTargets(e: Expr, op: Byte, st: State, st1: State, s: Stream, t: Stream, vals: seq<Value>, failed: bool)
    requires ApplyHere(e, op, st, s) && e.Apply? && AllExprsDone(e.operands, st, st1, s, t, vals, failed)
    ensures !failed && Has(t, PlaceBytes(e.targets)) && AllNumbers(vals) && t == Skip(s, |CodeAll(e.operands)|)
  {
    hide CodeAll, PlaceBytes, ShapeOf, Numbers, EvalAll;
    HasParts(s, CodeAll(e.operands), PlaceBytes(e.targets));
    EvalAllNumbers(e.operands, st);
    var ns := EvalAll(e.operands, st).ns;
    forall v | v in vals ensures v.Int? && v.n < LIMIT {
      var k :| 0 <= k < |vals| && vals[k] == v;
      assert ns[k] in ns;
    }
  }

  predicate AllNumbers(vals: seq<Value>) { forall v <- vals :: v.Int? && v.n < LIMIT }

  lemma ApplyFinished(e: Expr, op: Byte, st: State, st1: State, st2: State, s: Stream, at: Stream, t: Stream,
    vals: seq<Value>, v: Value, stores: seq<Value>, failed: bool)
    requires ApplyHere(e, op, st, s) && e.Apply? && AllPlaces(e.targets)
      && AllExprsDone(e.operands, st, st1, s, at, vals, failed)
    requires t == Skip(at, |e.targets|) && Numeric(op) && |vals| == ShapeOf(op).operands
    requires v == Int(Result(op, Numerals(vals))) && stores == Ints(Stored(op, Numerals(vals)))
    requires |stores| == |e.targets| && st2 == AssignAll(st1, e.targets, Numerals(stores))
    ensures ApplyDone(e, st, st2, s, t, v, failed)
  {
    hide CodeAll, PlaceBytes, ShapeOf, Numbers, EvalAll, Result, Stored, AssignAll;
    NumeralsOfInts(EvalAll(e.operands, st).ns);
    NumeralsOfInts(Stored(op, Numerals(vals)));
  }

  lemma OperationIs(e: Expr, st: State, st': State, s: Stream, t: Stream, v: Value, failed: bool)
    requires ExprHere(e, st, s) && e.Apply? && s.p < s.end && ApplyDone(e, st, st', Next(s), t, v, failed)
    ensures ExprDone(e, st, st', s, t, v, failed)
  {
    hide CodeAll, PlaceBytes, ShapeOf, Numbers, Eval;
    PlaceBytesLen(e.targets);
  }

  lemma PlaceBytesLen(ps: seq<Place>)
    requires forall p <- ps :: PlaceOk(p)
    ensures |PlaceBytes(ps)| == |ps|
  {
  }

  /* ---- increment and decrement ---- */

  ghost predicate BumpHere(e: Expr, up: bool, st: State, s: Stream)
  {
    ExprOk(e) && e.Bump? && e.up == up && Has(s, [PlaceByte(e.place)]) && Numbers(st)
  }

  ghost predicate BumpDone(e: Expr, st: State, st': State, s: Stream, t: Stream, v: Value, failed: bool)
  {
    ExprOk(e) && e.Bump? && !failed && t == Skip(s, 1) && v == Int(Eval(e, st).n) && st' == Eval(e, st).st
  }

  /** What the byte of a target is when read as an operand. */
  function Reread(p: Place): Expr { if p == Nowhere then Const(0x00, 0) else Read(p) }

  lemma BumpTarget(e: Expr, up: bool, st: State, s: Stream)
    requires BumpHere(e, up, st, s)
    ensures e.Bump? && PlaceOk(e.place) && Has(s, [PlaceByte(e.place)])
      && ExprHere(Reread(e.place), st, Upto(s, s.p + 1))
  {
    hide Numbers;
    assert Code(Reread(e.place)) == [PlaceByte(e.place)];
    HasUpto(s, [PlaceByte(e.place)]);
  }

  lemma BumpRead(e: Expr, st: State, st1: State, s: Stream, t: Stream, v: Value, failed: bool)
    requires e.Bump? && PlaceOk(e.place) && ExprDone(Reread(e.place), st, st1, s, t, v, failed)
    ensures !failed && st1 == st && v == Int(Fetch(st, e.place))
  {
  }

  lemma BumpFinished(e: Expr, up: bool, st: State, st': State, s: Stream, t: Stream, v: Value, failed: bool)
    requires BumpHere(e, up, st, s) && e.Bump? && PlaceOk(e.place) && !failed && t == Skip(s, 1)
    requires v == Int((Fetch(st, e.place) + if up then 1 else ONES) % LIMIT) && st' == Assign(st, e.place, v.n)
    ensures BumpDone(e, st, st', s, t, v, failed)
  {
    hide Numbers;
  }

  lemma IncrementIs(e: Expr, st: State, st': State, s: Stream, t: Stream, v: Value, failed: bool)
    requires ExprHere(e, st, s) && e.Bump? && s.p < s.end && BumpDone(e, st, st', Next(s), t, v, failed)
    ensures ExprDone(e, st, st', s, t, v, failed)
  {
    hide Numbers, Eval;
  }

  /* ---- after the opcode of a statement ---- */

  ghost predicate RestHere(x: Stmt, st: State, s: Stream)
  {
    StmtOk(x) && !x.Do? && Text(x).Some? && Has(s, Rest(x)) && Numbers(st) && NoElse(Skip(s, |Rest(x)|))
  }

  ghost predicate RestDone(x: Stmt, st: State, st': State, s: Stream, t: Stream, failed: bool)
  {
    StmtOk(x) && !x.Do? && Text(x).Some? && !failed && t == Skip(s, |Rest(x)|) && st' == RunOne(x, st)
  }

  ghost predicate ListHere(ss: seq<Stmt>, st: State, s: Stream)
  {
    && (forall x <- ss :: StmtOk(x)) && TextAll(ss).Some? && Has(s, TextAll(ss).value)
    && s.end == s.p + |TextAll(ss).value| && Numbers(st)
  }

  ghost predicate ListDone(ss: seq<Stmt>, st: State, st': State, ok: bool)
  {
    (forall x <- ss :: StmtOk(x)) && ok && st' == Run(ss, st)
  }

  lemma ListOk(ss: seq<Stmt>, st: State, st': State, ok: bool)
    requires ListDone(ss, st, st', ok)
    ensures ListDone(ss, st, st', true)
  {
  }

  lemma OpcodeIs(x: Stmt, st: State, s: Stream)
    requires !x.Do?
    ensures Opcode(x) == 0xA0 <==> x.If? || (x.Noop? && x.op == 0xA0)
    ensures RestHere(x, st, s) ==>
      && (Opcode(x) == 0xA0 <==> x.If?) && (Opcode(x) == 0xA2 <==> x.While?) && (Opcode(x) == 0xA4 <==> x.Return?)
      && (Opcode(x) == 0xA5 <==> x.Break?) && (Opcode(x) == 0x9F <==> x.Continue?)
        && (x.Noop? ==> x.op == 0xA3 || x.op == 0xCC)
  {
    hide Text, Rest, Numbers, Has;
  }

  lemma ReturnHere(x: Stmt, st: State, s: Stream)
    requires RestHere(x, st, s) && x.Return?
    ensures ExprHere(x.e, st, s) && Rest(x) == Code(x.e)
  {
    hide Code, Numbers;
    assert ([0xA4] + Code(x.e))[1..] == Code(x.e);
  }

  lemma ReturnDone(x: Stmt, st: State, st1: State, st': State, s: Stream, t: Stream, v: Value, failed: bool)
    requires RestHere(x, st, s) && x.Return? && ExprDone(x.e, st, st1, s, t, v, failed)
    requires st' == st1.(result := v, returned := true)
    ensures RestDone(x, st, st', s, t, failed)
  {
    ReturnHere(x, st, s);
    hide Code, Numbers, Eval, Rest, Has;
  }

  lemma FlagDone(x: Stmt, st: State, st': State, s: Stream)
    requires RestHere(x, st, s) && (x.Break? || x.Continue? || x.Noop?)
    requires st' == if x.Break? then st.(broke := true) else if x.Continue? then st.(continued := true) else st
    ensures RestDone(x, st, st', s, s, false)
  {
    hide Numbers, Has;
  }

  /* ---- If ---- */

  ghost function IfYes(x: Stmt): seq<Byte>
    requires StmtOk(x) && x.If? && Text(x).Some?
  {
    Code(x.c) + TextAll(x.yes).value
  }

  ghost function IfNo(x: Stmt): seq<Byte>
    requires StmtOk(x) && x.If? && Text(x).Some?
  {
    TextAll(x.no).value
  }

  lemma IfText(x: Stmt)
    requires StmtOk(x) && x.If? && Text(x).Some?
    ensures TextAll(x.yes).Some? && TextAll(x.no).Some? && Fits(|IfYes(x)|) && Fits(|IfNo(x)|)
    ensures Rest(x) == Package(IfYes(x)) + if x.hasElse then [0xA1] + Package(IfNo(x)) else []
  {
    hide Code, TextAll, Package;
    var bs := Package(IfYes(x)) + if x.hasElse then [0xA1] + Package(IfNo(x)) else [];
    assert Text(x).value == [0xA0] + bs;
  }

  /** The condition and the body of an If are where its package says. */
  lemma IfStarts(x: Stmt, st: State, s: Stream)
    requires RestHere(x, st, s) && x.If?
    ensures var n := |IfYes(x)|; var t := Skip(s, HeaderSize(n));
      && PkgHeader(s) == HeaderSize(n) && PkgTotal(s) == n + HeaderSize(n) && Stop(t, n) == t.p + n && t.p + n <= s.end
      && ExprHere(x.c, st, Upto(t, t.p + n))
  {
    hide Code, TextAll, Package, Numbers, PkgHeader, PkgTotal;
    IfText(x);
    HasParts(s, Package(IfYes(x)), if x.hasElse then [0xA1] + Package(IfNo(x)) else []);
    PackageReads(s, IfYes(x));
    var n := |IfYes(x)|;
    var t := Skip(s, HeaderSize(n));
    HasParts(Upto(t, t.p + n), Code(x.c), TextAll(x.yes).value);
  }

  /** After the condition comes exactly the body. */
  lemma IfDecided(x: Stmt, st: State, st1: State, s: Stream, sub: Stream, c: Value, failed: bool)
    requires RestHere(x, st, s) && x.If?
    requires var n := |IfYes(x)|; var t := Skip(s, HeaderSize(n)); ExprDone(x.c, st, st1, Upto(t, t.p + n), sub, c,
      failed)
    ensures !failed && c == Int(Eval(x.c, st).n) && st1 == Eval(x.c, st).st && ListHere(x.yes, st1, sub)
  {
    hide Code, TextAll, Package, Numbers, Eval, Text, Rest, NoElse, Has;
    IfText(x);
    HasParts(s, Package(IfYes(x)), if x.hasElse then [0xA1] + Package(IfNo(x)) else []);
    PackageReads(s, IfYes(x));
    var n := |IfYes(x)|;
    var t := Skip(s, HeaderSize(n));
    HasParts(Upto(t, t.p + n), Code(x.c), TextAll(x.yes).value);
    EvalNumbers(x.c, st);
  }

  /** An Else, if there is one, and no Else otherwise. */
  ghost predicate ElseHere(x: Stmt, cond: nat, st: State, t: Stream)
  {
    && StmtOk(x) && x.If? && Text(x).Some? && Ok(t) && (Peek(t) == 0xA1 <==> x.hasElse)
    && (x.hasElse ==>
          var n := |IfNo(x)|; var u := Next(t); var w := Skip(u, HeaderSize(n));
          && u == Skip(t, 1) && Ok(u) && PkgHeader(u) == HeaderSize(n) && PkgTotal(u) == n + HeaderSize(n)
          && Ok(w) && Stop(w, n) == w.p + n && w.p + n <= t.end && (cond == 0 ==> ListHere(x.no, st, Upto(w, w.p + n))))
  }

  ghost predicate ElseDone(x: Stmt, cond: nat, st: State, st': State, s: Stream, t: Stream)
  {
    && StmtOk(x) && x.If? && Text(x).Some?
    && (if cond == 0 && x.hasElse then ListDone(x.no, st, st', true) else st' == st)
    && t == Skip(s, if x.hasElse then 1 + HeaderSize(|IfNo(x)|) + |IfNo(x)| else 0)
  }

  /** After the package comes the Else, if there is one, and no Else otherwise. */
  lemma IfElse(x: Stmt, st: State, st1: State, st2: State, s: Stream, t: Stream, cond: nat)
    requires RestHere(x, st, s) && x.If? && t == Skip(s, HeaderSize(|IfYes(x)|) + |IfYes(x)|) && Ok(t)
    requires cond == Eval(x.c, st).n && st1 == Eval(x.c, st).st
    requires if cond != 0 then ListDone(x.yes, st1, st2, true) else st2 == st1
    ensures ElseHere(x, cond, st2, t)
  {
    hide Code, TextAll, Package, Numbers, Eval, PkgHeader, PkgTotal, Run, Text, Has;
    IfText(x);
    var more := if x.hasElse then [0xA1] + Package(IfNo(x)) else [];
    HasParts(s, Package(IfYes(x)), more);
    PackageLen(IfYes(x));
    EvalNumbers(x.c, st);
    if x.hasElse {
      HasByte(t, 0xA1, Package(IfNo(x)));
      PackageReads(Next(t), IfNo(x));
    } else {
      assert Rest(x) == Package(IfYes(x));
    }
  }

  lemma IfFinished(x: Stmt, st: State, st1: State, st2: State, st': State, s: Stream, t: Stream, cond: nat,
    failed: bool)
    requires RestHere(x, st, s) && x.If? && !failed && cond == Eval(x.c, st).n && st1 == Eval(x.c, st).st
    requires if cond != 0 then ListDone(x.yes, st1, st2, true) else st2 == st1
    requires ElseDone(x, cond, st2, st', Skip(s, HeaderSize(|IfYes(x)|) + |IfYes(x)|), t)
    ensures RestDone(x, st, st', s, t, failed)
  {
    hide Code, TextAll, Package, Numbers, Eval, Has;
    IfText(x);
    PackageLen(IfYes(x));
    PackageLen(IfNo(x));
    hide Rest, Text;
    RunNothing(st2);
  }

  lemma RunNothing(st: State)
    ensures Run([], st) == st
  {
  }

  /* ---- While ---- */

  ghost function LoopBody(x: Stmt): seq<Byte>
    requires StmtOk(x) && x.While? && Text(x).Some?
  {
    Code(x.c) + TextAll(x.body).value
  }

  lemma WhileText(x: Stmt)
    requires StmtOk(x) && x.While? && Text(x).Some?
    ensures TextAll(x.body).Some? && Fits(|LoopBody(x)|) && Rest(x) == Package(LoopBody(x))
  {
    hide Code, TextAll, Package;
    assert Text(x).value == [0xA2] + Package(LoopBody(x));
  }

  /** So far the loop has come to `cur`, with `left` turns to go; `sub` is its condition and body. */
  ghost predicate Turning(x: Stmt, st: State, cur: State, sub: Stream, left: nat)
  {
    && StmtOk(x) && x.While? && Text(x).Some? && Numbers(cur) && Has(sub, LoopBody(x))
      && sub.end == sub.p + |LoopBody(x)|
    && Loop(x.c, x.body, st, MAX_TURNS) == Loop(x.c, x.body, cur, left)
  }

  lemma WhileStarts(x: Stmt, st: State, s: Stream)
    requires RestHere(x, st, s) && x.While?
    ensures var n := |LoopBody(x)|; var t := Skip(s, HeaderSize(n));
      && PkgHeader(s) == HeaderSize(n) && PkgTotal(s) == n + HeaderSize(n) && Stop(t, n) == t.p + n && t.p + n <= s.end
      && Turning(x, st, st, Upto(t, t.p + n), MAX_TURNS)
  {
    hide Code, TextAll, Package, Numbers, PkgHeader, PkgTotal, Loop;
    WhileText(x);
    PackageReads(s, LoopBody(x));
  }

  lemma TurnStarts(x: Stmt, st: State, cur: State, sub: Stream, left: nat)
    requires Turning(x, st, cur, sub, left)
    ensures ExprHere(x.c, cur, sub)
  {
    hide Code, TextAll, Numbers, Loop;
    WhileText(x);
    HasParts(sub, Code(x.c), TextAll(x.body).value);
  }

  lemma TurnDecided(x: Stmt, st: State, cur: State, cur1: State, sub: Stream, t: Stream, c: Value, failed: bool,
    left: nat)
    requires Turning(x, st, cur, sub, left) && left > 0 && ExprDone(x.c, cur, cur1, sub, t, c, failed)
    ensures !failed && c == Int(Eval(x.c, cur).n) && cur1 == Eval(x.c, cur).st && ListHere(x.body, cur1, t)
    ensures c.n == 0 ==> Turning(x, st, cur1, sub, 0)
  {
    hide Code, TextAll, Numbers, Eval;
    WhileText(x);
    HasParts(sub, Code(x.c), TextAll(x.body).value);
    EvalNumbers(x.c, cur);
  }

  lemma TurnEnds(x: Stmt, st: State, cur: State, cur1: State, cur2: State, sub: Stream, t: Stream, left: nat)
    requires Turning(x, st, cur, sub, left) && left > 0 && Eval(x.c, cur).n != 0 && cur1 == Eval(x.c, cur).st
    requires ListDone(x.body, cur1, cur2, true)
    ensures cur2.returned ==> Turning(x, st, cur2, sub, 0)
    ensures !cur2.returned && cur2.broke ==> Turning(x, st, cur2.(broke := false), sub, 0)
    ensures !cur2.returned && !cur2.broke ==> Turning(x, st, cur2.(continued := false), sub, left - 1)
  {
    hide Code, TextAll, Numbers, Eval, Run;
    WhileText(x);
    EvalNumbers(x.c, cur);
    RunNumbers(x.body, cur1);
    FlagsNumbers(cur2, Nothing, false, false, false);
    FlagsNumbers(cur2, cur2.result, cur2.returned, false, cur2.continued);
    FlagsNumbers(cur2, cur2.result, cur2.returned, cur2.broke, false);
  }

  lemma WhileFinished(x: Stmt, st: State, st': State, s: Stream, t: Stream, sub: Stream)
    requires RestHere(x, st, s) && x.While? && Turning(x, st, st', sub, 0)
      && t == Skip(s, HeaderSize(|LoopBody(x)|) + |LoopBody(x)|)
    ensures RestDone(x, st, st', s, t, false)
  {
    WhileText(x);
    PackageLen(LoopBody(x));
    hide Code, TextAll, Numbers, Text, Rest, Has;
  }

  /* ---- a list of statements ---- */

  /** The first `k` statements are done. */
  ghost predicate Running(ss: seq<Stmt>, k: nat, st: State, cur: State, t: Stream)
  {
    k <= |ss| && (forall x <- ss :: StmtOk(x)) && ListHere(ss[k..], cur, t) && Run(ss, st) == Run(ss[k..], cur)
  }

  lemma RunningStart(ss: seq<Stmt>, st: State, s: Stream)
    requires ListHere(ss, st, s)
    ensures Running(ss, 0, st, st, s)
  {
    assert ss[0..] == ss;
  }

  lemma TextAllSplit(ss: seq<Stmt>)
    requires (forall x <- ss :: StmtOk(x)) && TextAll(ss).Some? && ss != []
    ensures StmtOk(ss[0]) && Text(ss[0]).Some? && (forall x <- ss[1..] :: StmtOk(x)) && TextAll(ss[1..]).Some?
    ensures TextAll(ss).value == Text(ss[0]).value + TextAll(ss[1..]).value
  {
    hide Text;
    assert ss[0] in ss;
  }

  lemma NoText(ss: seq<Stmt>)
    requires forall x <- ss :: StmtOk(x)
    ensures ss == [] ==> TextAll(ss) == Some([])
  {
  }

  lemma NextStatement(ss: seq<Stmt>, k: nat, st: State, cur: State, t: Stream)
    requires Running(ss, k, st, cur, t) && t.p < t.end
    ensures k < |ss| && Here(Statement(ss[k]), cur, t)
  {
    hide Text, Numbers, Run;
    var rest := ss[k..];
    NoText(rest);
    TextAllSplit(rest);
    assert rest[0] == ss[k];
    hide TextAll;
    HasParts(t, Text(ss[k]).value, TextAll(rest[1..]).value);
    NoElseAfter(rest[1..], cur, Skip(t, |Text(ss[k]).value|));
  }

  /** A list of statements does not start like an Else. */
  lemma NoElseAfter(ss: seq<Stmt>, st: State, s: Stream)
    requires (forall x <- ss :: StmtOk(x)) && TextAll(ss).Some? && Has(s, TextAll(ss).value)
      && s.end == s.p + |TextAll(ss).value|
    ensures NoElse(s)
  {
    hide Text;
    if ss != [] {
      TextAllSplit(ss);
      HasParts(s, Text(ss[0]).value, TextAll(ss[1..]).value);
      NoStatementIsElse(ss[0], st, s);
    }
  }

  lemma RunningOn(ss: seq<Stmt>, k: nat, st: State, cur: State, cur': State, at: Stream, t: Stream, v: Value,
    failed: bool)
    requires Running(ss, k, st, cur, at) && at.p < at.end && !Leaving(cur) && k < |ss|
      && Done(Statement(ss[k]), cur, cur', at, t, v, failed)
    ensures !failed && Running(ss, k + 1, st, cur', t)
  {
    hide Text, Numbers, TextAll;
    var rest := ss[k..];
    TextAllSplit(rest);
    assert rest[0] == ss[k] && rest[1..] == ss[k + 1..];
    HasParts(at, Text(ss[k]).value, TextAll(rest[1..]).value);
    RunOneNumbers(ss[k], cur);
    hide RunOne;
  }

  lemma RunningEnd(ss: seq<Stmt>, k: nat, st: State, cur: State, t: Stream)
    requires Running(ss, k, st, cur, t) && (t.p >= t.end || Leaving(cur))
    ensures ListDone(ss, st, cur, true)
  {
    hide Text, Numbers;
    var rest := ss[k..];
    if !Leaving(cur) && rest != [] {
      TextAllSplit(rest);
      NoStatementIsElse(rest[0], cur, t);
    }
  }

  /* ---- a term ---- */

  ghost function ExprOf(w: Want): Option<Expr>
  {
    match Plainly(w) case Expression(e) => Some(e) case _ => None
  }

  ghost function StmtOf(w: Want): Option<Stmt>
  {
    match Plainly(w) case Statement(x) => Some(x) case _ => None
  }

  lemma BranchFacts(op: Byte)
    ensures BranchOf(op) == Slot ==> 0x60 <= op < 0x6F
    ensures BranchOf(op) == Operation ==> ShapeOf(op).Operator?
    ensures BranchOf(op) == Data ==> IsData(op)
  {
  }

  /** A term that is expected takes the branch of its kind, and what that branch needs is there. */
  lemma WantBranch(w: Want, st: State, s: Stream)
    requires w != Any && Here(w, st, s)
    ensures s.p < s.end
    ensures match Plainly(w)
      case Any => false
      case Expression(Const(_, _)) => BranchOf(Peek(s)) == Data
      case Expression(Read(p)) => BranchOf(Peek(s)) == Slot && Peek(s) == PlaceByte(p) && PlaceOk(p) && p != Nowhere
        && Numbers(st)
      case Expression(Apply(op, es, ps)) => BranchOf(Peek(s)) == Operation
        && ApplyHere(Plainly(w).e, Peek(s), st, Next(s))
      case Expression(Bump(up, p)) => BranchOf(Peek(s)) == Increment
        && BumpHere(Plainly(w).e, Peek(s) == 0x75, st, Next(s))
      case Statement(x) => BranchOf(Peek(s)) == Control && !x.Do? && Opcode(x) == Peek(s) && RestHere(x, st, Next(s))
  {
    hide BranchOf, Text, Rest, CodeAll, PlaceBytes, Numbers, ShapeOf, Has;
    PlainlyHere(w, st, s);
    match Plainly(w)
    case Any =>
    case Expression(e) => ExprBranch(e, st, s);
    case Statement(x) => StmtBranch(x, st, s);
  }

  lemma DataDone(w: Want, st: State, s: Stream, t: Stream, v: Value)
    requires w != Any && Here(w, st, s) && BranchOf(Peek(s)) == Data
    requires IsNumeral(Peek(s)) && s.p + 1 + Width(Peek(s)) <= s.end ==>
      v == Int(Numeral(s)) && t.p == s.p + 1 + Width(Peek(s))
    requires Moved(s, t)
    ensures Done(w, st, st, s, t, v, false)
  {
    WantBranch(w, st, s);
    PlainlyHere(w, st, s);
    var e := Plainly(w).e;
    hide BranchOf, Text, Numbers, ShapeOf;
    ConstReads(s, e.op, e.n);
    PlainlyDone(w, st, st, s, t, v, false);
  }

  lemma SlotDone(w: Want, st: State, s: Stream, t: Stream, v: Value)
    requires w != Any && Here(w, st, s) && BranchOf(Peek(s)) == Slot && t == Next(s)
    requires forall p: Place :: PlaceOk(p) && p != Nowhere && Peek(s) == PlaceByte(p) && Numbers(st) ==>
      v == Int(Fetch(st, p))
    ensures Done(w, st, st, s, t, v, false)
  {
    WantBranch(w, st, s);
    PlainlyHere(w, st, s);
    hide BranchOf, Text, Numbers, ShapeOf;
    PlainlyDone(w, st, st, s, t, v, false);
  }

  lemma OperationDone(w: Want, st: State, st': State, s: Stream, t: Stream, v: Value, failed: bool)
    requires w != Any && Here(w, st, s) && BranchOf(Peek(s)) == Operation && ExprOf(w).Some? && s.p < s.end
    requires ApplyDone(ExprOf(w).value, st, st', Next(s), t, v, failed)
    ensures Done(w, st, st', s, t, v, failed)
  {
    hide BranchOf, Text, Numbers, ShapeOf, Eval, Code, CodeAll;
    PlainlyHere(w, st, s);
    OperationIs(ExprOf(w).value, st, st', s, t, v, failed);
    PlainlyDone(w, st, st', s, t, v, failed);
  }

  lemma IncrementDone(w: Want, st: State, st': State, s: Stream, t: Stream, v: Value, failed: bool)
    requires w != Any && Here(w, st, s) && BranchOf(Peek(s)) == Increment && ExprOf(w).Some? && s.p < s.end
    requires BumpDone(ExprOf(w).value, st, st', Next(s), t, v, failed)
    ensures Done(w, st, st', s, t, v, failed)
  {
    hide BranchOf, Text, Numbers, ShapeOf, Eval, Code;
    PlainlyHere(w, st, s);
    IncrementIs(ExprOf(w).value, st, st', s, t, v, failed);
    PlainlyDone(w, st, st', s, t, v, failed);
  }

  lemma ControlDone(w: Want, st: State, st': State, s: Stream, t: Stream, v: Value, failed: bool)
    requires w != Any && Here(w, st, s) && StmtOf(w).Some? && s.p < s.end
    requires RestDone(StmtOf(w).value, st, st', Next(s), t, failed)
    ensures Done(w, st, st', s, t, v, failed)
  {
    hide BranchOf, Text, Rest, Numbers, RunOne;
    PlainlyHere(w, st, s);
    StmtBranch(StmtOf(w).value, st, s);
    PlainlyDone(w, st, st', s, t, v, failed);
  }

  /* ---- a call ---- */

  function Started(args: seq<Value>): State
    requires |args| <= ARGS
  {
    State(seq(LOCALS, k => Nothing), args + seq(ARGS - |args|, k => Nothing), Nothing, false, false, false)
  }

  /** What a program answers: what it returns, or zero. */
  ghost function Meaning(prog: seq<Stmt>, args: seq<Value>): nat
    requires |args| <= ARGS && forall x <- prog :: StmtOk(x)
  {
    Number(Run(prog, Started(args)).result)
  }

  lemma CallStarts(prog: seq<Stmt>, args: seq<Value>, s: Stream)
    requires |args| <= ARGS && (forall x <- prog :: StmtOk(x)) && TextAll(prog).Some?
      && (forall a <- args :: IsNumber(a))
    requires Has(s, TextAll(prog).value) && s.end == s.p + |TextAll(prog).value|
    ensures ListHere(prog, Started(args), s)
  {
    hide TextAll, Has;
  }

  lemma CallEnds(prog: seq<Stmt>, args: seq<Value>, st: State, ok: bool)
    requires |args| <= ARGS && (forall a <- args :: IsNumber(a)) && ListDone(prog, Started(args), st, ok)
    ensures ok && IsNumber(st.result) && Number(st.result) == Meaning(prog, args)
  {
    hide Run;
    StartedNumbers(args);
    RunNumbers(prog, Started(args));
  }

  lemma StartedNumbers(args: seq<Value>)
    requires |args| <= ARGS && forall a <- args :: IsNumber(a)
    ensures Numbers(Started(args))
  {
  }
}
