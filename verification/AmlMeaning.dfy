/** Programs over numbers in the ACPI machine language: what they mean, and the bytes they are
    encoded as (section 20.2.5 of the ACPI Specification).  Loading, names and hardware are
    elsewhere; here are constants, locals, arguments, operators with their targets, and control
    flow. */
module AmlMeaning {
  import opened AmlNamespace
  import opened AmlStream
  import opened AmlBytes
  import opened AmlParse

  const LIMIT: nat := 0x1_0000_0000_0000_0000
  const ONES: nat := 0xFFFF_FFFF_FFFF_FFFF
  const LOCALS: nat := 8
  const ARGS: nat := 7
  const MAX_TURNS: nat := 100000

  /* ---- numbers ---- */

  function Pow2(k: nat): (r: nat)
    ensures r > 0
  {
    if k == 0 then 1 else 2 * Pow2(k - 1)
  }

  function And(a: nat, b: nat): nat
    decreases a
  {
    if a == 0 || b == 0 then 0 else 2 * And(a / 2, b / 2) + (a % 2) * (b % 2)
  }

  function Complement(a: nat): nat { if a <= ONES then ONES - a else 0 }

  function Or(a: nat, b: nat): nat { Complement(And(Complement(a), Complement(b))) }

  function Xor(a: nat, b: nat): nat { And(Or(a, b), Complement(And(a, b))) }

  /* ---- the bit operations, bit by bit ---- */

  function Bit(a: nat, k: nat): (b: nat)
    ensures b < 2
  {
    if k == 0 then a % 2 else Bit(a / 2, k - 1)
  }

  lemma {:induction false} AndBit(a: nat, b: nat, k: nat)
    ensures Bit(And(a, b), k) == Bit(a, k) * Bit(b, k)
    decreases a
  {
    if a == 0 || b == 0 {
      ZeroBit(k);
    } else if k > 0 {
      assert And(a, b) / 2 == And(a / 2, b / 2);
      AndBit(a / 2, b / 2, k - 1);
    }
  }

  lemma {:induction false} ZeroBit(k: nat)
    ensures Bit(0, k) == 0
  {
    if k > 0 { ZeroBit(k - 1); }
  }

  lemma {:induction false} AndLess(a: nat, b: nat)
    ensures And(a, b) <= a
    decreases a
  {
    if a != 0 && b != 0 { AndLess(a / 2, b / 2); }
  }

  lemma {:induction false} ComplementBits(w: nat, a: nat, k: nat)
    requires a < Pow2(w) && k < w
    ensures Bit(Pow2(w) - 1 - a, k) == 1 - Bit(a, k)
    decreases w
  {
    if k > 0 {
      assert (Pow2(w) - 1 - a) / 2 == Pow2(w - 1) - 1 - a / 2;
      ComplementBits(w - 1, a / 2, k - 1);
    }
  }

  lemma LimitIs()
    ensures Pow2(64) == LIMIT
  {
    assert Pow2(8) == 0x100 && Pow2(16) == 0x1_0000;
    assert Pow2(24) == 0x100_0000 && Pow2(32) == 0x1_0000_0000;
    assert Pow2(40) == 0x100_0000_0000 && Pow2(48) == 0x1_0000_0000_0000;
    assert Pow2(56) == 0x100_0000_0000_0000;
  }

  lemma ComplementBit(a: nat, k: nat)
    requires a < LIMIT && k < 64
    ensures Complement(a) < LIMIT && Bit(Complement(a), k) == 1 - Bit(a, k)
  {
    LimitIs();
    ComplementBits(64, a, k);
  }

  /** Each bit of the other operators' results is that operator of the two bits. */
  lemma OrBit(a: nat, b: nat, k: nat)
    requires a < LIMIT && b < LIMIT && k < 64
    ensures Or(a, b) < LIMIT && Bit(Or(a, b), k) == if Bit(a, k) == 1 || Bit(b, k) == 1 then 1 else 0
  {
    hide And, Bit, Complement;
    var c, d := Complement(a), Complement(b);
    ComplementBit(a, k);
    ComplementBit(b, k);
    AndBit(c, d, k);
    AndLess(c, d);
    ComplementBit(And(c, d), k);
  }

  lemma XorBit(a: nat, b: nat, k: nat)
    requires a < LIMIT && b < LIMIT && k < 64
    ensures Bit(Xor(a, b), k) == if Bit(a, k) != Bit(b, k) then 1 else 0
  {
    hide And, Bit, Complement;
    OrBit(a, b, k);
    AndBit(a, b, k);
    AndLess(a, b);
    ComplementBit(And(a, b), k);
    AndBit(Or(a, b), Complement(And(a, b)), k);
  }

  /** The place of the highest bit set, counting from one; zero for none. */
  function BitLen(a: nat): nat { if a == 0 then 0 else 1 + BitLen(a / 2) }

  /** The place of the lowest. */
  function LowBit(a: nat): nat
  {
    if a == 0 then 0 else if a % 2 == 1 then 1 else 1 + LowBit(a / 2)
  }

  function Product(a: nat, b: nat): nat { a * b % LIMIT }

  function Quotient(a: nat, b: nat): nat { if b != 0 then a / b else 0 }

  function Remainder(a: nat, b: nat): nat { if b != 0 then a % b else 0 }

  function Truth(b: bool): nat { if b then ONES else 0 }

  /* ---- operators ---- */

  /** `strict` operators stop at operands that failed; the others read their target even so. */
  datatype Shape = NotOperator | Operator(operands: nat, strict: bool, targets: nat)

  function ShapeOf(op: Byte): Shape
  {
    match op
    case 0x70 | 0x9D => Operator(1, true, 1)                                   // Store, CopyObject
    case 0x72 | 0x74 | 0x77 | 0x79 | 0x7A | 0x7B | 0x7C | 0x7D | 0x7E | 0x7F | 0x85 => Operator(2, true, 1)
    case 0x78 => Operator(2, true, 2)                                          // Divide
    case 0x88 => Operator(2, true, 1)                                          // Index
    case 0x80 | 0x81 | 0x82 | 0x96 | 0x97 | 0x98 | 0x99 => Operator(1, false, 1)
    case 0x73 | 0x9C => Operator(2, false, 1)                                  // Concat, ToString
    case 0x9E => Operator(3, false, 1)                                         // Mid
    case 0x90 | 0x91 | 0x93 | 0x94 | 0x95 => Operator(2, false, 0)
    case 0x71 | 0x83 | 0x87 | 0x8E | 0x92 => Operator(1, false, 0)
    case _ => NotOperator
  }

  /** Operators from numbers to numbers. */
  predicate Numeric(op: Byte) { ShapeOf(op).Operator? && op !in {0x88, 0x96, 0x97, 0x98, 0x73, 0x9C, 0x9E} }

  function Binary(op: Byte, a: nat, b: nat): nat
  {
    match op
    case 0x72 => (a + b) % LIMIT
    case 0x74 => (a - b) % LIMIT
    case 0x77 => Product(a, b)
    case 0x78 => Quotient(a, b)
    case 0x79 => if b < 64 then Product(a, Pow2(b)) else 0
    case 0x7A => if b < 64 then Quotient(a, Pow2(b)) else 0
    case 0x7B => And(a, b)
    case 0x7C => Complement(And(a, b))
    case 0x7D => Or(a, b)
    case 0x7E => Complement(Or(a, b))
    case 0x7F => Xor(a, b)
    case 0x85 => Remainder(a, b)
    case 0x90 => Truth(a != 0 && b != 0)
    case 0x91 => Truth(a != 0 || b != 0)
    case 0x93 => Truth(a == b)
    case 0x94 => Truth(a > b)
    case _ => Truth(a < b)
  }

  function Unary(op: Byte, a: nat): nat
  {
    match op
    case 0x80 => Complement(a)
    case 0x81 => BitLen(a)
    case 0x82 => LowBit(a)
    case 0x87 => 0                                                             // SizeOf a number
    case 0x8E => 1                                                             // ObjectType of one
    case 0x92 => Truth(a == 0)
    case _ => a                                                                // Store, RefOf and the like
  }

  /** The value of an operator. */
  function Result(op: Byte, vals: seq<nat>): nat
    requires Numeric(op) && |vals| == ShapeOf(op).operands
  {
    if |vals| == 2 then Binary(op, vals[0], vals[1]) else Unary(op, vals[0])
  }

  /** What goes into each of its targets: its value, and before that, for Divide, the remainder. */
  function Stored(op: Byte, vals: seq<nat>): seq<nat>
    requires Numeric(op) && |vals| == ShapeOf(op).operands
    ensures |Stored(op, vals)| == ShapeOf(op).targets
  {
    if op == 0x78 then [Remainder(vals[0], vals[1]), Result(op, vals)]
    else if ShapeOf(op).targets == 1 then [Result(op, vals)]
    else []
  }

  /* ---- programs ---- */

  datatype Place = Nowhere | InLocal(k: nat) | InArg(k: nat)

  datatype Expr =
    | Const(op: Byte, n: nat)
    | Read(place: Place)
    | Apply(op: Byte, operands: seq<Expr>, targets: seq<Place>)
    | Bump(up: bool, place: Place)

  datatype Stmt =
    | Do(e: Expr)
    | If(c: Expr, yes: seq<Stmt>, hasElse: bool, no: seq<Stmt>)
    | While(c: Expr, body: seq<Stmt>)
    | Return(e: Expr)
    | Break
    | Continue
    | Noop(op: Byte)

  /* ---- meaning ---- */

  type Eight = s: seq<Value> | |s| == 8 witness seq(8, k => Nothing)
  type Seven = s: seq<Value> | |s| == 7 witness seq(7, k => Nothing)

  /** One activation: what it holds, what it will answer, and whether it is on its way out. */
  datatype State = State(locals: Eight, args: Seven, result: Value, returned: bool, broke: bool, continued: bool)

  predicate IsNumber(v: Value) { v.Nothing? || (v.Int? && v.n < LIMIT) }

  /** Only numbers anywhere. */
  ghost predicate Numbers(st: State)
  {
    && IsNumber(st.result)
    && (forall v <- st.locals :: IsNumber(v)) && (forall v <- st.args :: IsNumber(v))
  }

  predicate PlaceOk(p: Place)
  {
    match p case Nowhere => true case InLocal(k) => k < LOCALS case InArg(k) => k < ARGS
  }

  /** What is never stored to reads as zero. */
  function Number(v: Value): nat { if v.Int? then v.n else 0 }

  function Fetch(st: State, p: Place): nat
    requires PlaceOk(p)
  {
    match p
    case Nowhere => 0
    case InLocal(k) => Number(st.locals[k])
    case InArg(k) => Number(st.args[k])
  }

  function Assign(st: State, p: Place, n: nat): State
    requires PlaceOk(p)
  {
    match p
    case Nowhere => st
    case InLocal(k) => st.(locals := st.locals[k := Int(n)])
    case InArg(k) => st.(args := st.args[k := Int(n)])
  }

  function AssignAll(st: State, ps: seq<Place>, ns: seq<nat>): (r: State)
    requires |ps| == |ns| && forall p <- ps :: PlaceOk(p)
    decreases |ps|
  {
    if ps == [] then st else AssignAll(Assign(st, ps[0], ns[0]), ps[1..], ns[1..])
  }

  /** Constants of each encoding, operators with the operands and targets they take. */
  predicate ExprOk(e: Expr)
  {
    match e
    case Const(op, n) => ConstOk(op, n)
    case Read(p) => p != Nowhere && PlaceOk(p)
    case Apply(op, es, ps) =>
      && Numeric(op) && |es| == ShapeOf(op).operands && |ps| == ShapeOf(op).targets
      && (forall p <- ps :: PlaceOk(p)) && (forall d <- es :: ExprOk(d))
    case Bump(_, p) => PlaceOk(p)
  }

  predicate ConstOk(op: Byte, n: nat)
  {
    match op
    case 0x00 => n == 0
    case 0x01 => n == 1
    case 0xFF => n == ONES
    case _ => Width(op) > 0 && n < Pow256(Width(op))
  }

  ghost predicate StmtOk(s: Stmt)
  {
    match s
    case Do(e) => ExprOk(e)
    case If(c, yes, hasElse, no) =>
      ExprOk(c) && (forall d <- yes :: StmtOk(d)) && (forall d <- no :: StmtOk(d)) && (!hasElse ==> no == [])
    case While(c, body) => ExprOk(c) && forall d <- body :: StmtOk(d)
    case Return(e) => ExprOk(e)
    case Noop(op) => op == 0xA3 || op == 0xCC
    case _ => true
  }

  datatype Outcome = Outcome(st: State, n: nat)
  datatype Outcomes = Outcomes(st: State, ns: seq<nat>)

  /** The value of an expression and what it leaves behind: operands in order, then targets. */
  function Eval(e: Expr, st: State): (r: Outcome)
    requires ExprOk(e)
    decreases e
  {
    match e
    case Const(_, n) => Outcome(st, n)
    case Read(p) => Outcome(st, Fetch(st, p))
    case Apply(op, es, ps) =>
      var a := EvalAll(es, st);
      Outcome(AssignAll(a.st, ps, Stored(op, a.ns)), Result(op, a.ns))
    case Bump(up, p) =>
      var n := (Fetch(st, p) + if up then 1 else ONES) % LIMIT;
      Outcome(Assign(st, p, n), n)
  }

  function EvalAll(es: seq<Expr>, st: State): (r: Outcomes)
    requires forall e <- es :: ExprOk(e)
    ensures |r.ns| == |es|
    decreases es
  {
    if es == [] then Outcomes(st, [])
    else
      var a := Eval(es[0], st);
      var b := EvalAll(es[1..], a.st);
      Outcomes(b.st, [a.n] + b.ns)
  }

  predicate Leaving(st: State) { st.returned || st.broke || st.continued }

  /** A list of statements, as far as it is run. */
  ghost function Run(ss: seq<Stmt>, st: State): (r: State)
    requires forall s <- ss :: StmtOk(s)
    decreases ss, 0
  {
    if ss == [] || Leaving(st) then st else Run(ss[1..], RunOne(ss[0], st))
  }

  ghost function RunOne(s: Stmt, st: State): (r: State)
    requires StmtOk(s)
    decreases s, 0
  {
    match s
    case Do(e) => Eval(e, st).st
    case If(c, yes, _, no) =>
      var a := Eval(c, st);
      if a.n != 0 then Run(yes, a.st) else Run(no, a.st)
    case While(c, body) => Loop(c, body, st, MAX_TURNS)
    case Return(e) =>
      var a := Eval(e, st);
      a.st.(result := Int(a.n), returned := true)
    case Break => st.(broke := true)
    case Continue => st.(continued := true)
    case Noop(_) => st
  }

  /** At most `turns` turns of a loop; running out of them is like the condition failing. */
  ghost function Loop(c: Expr, body: seq<Stmt>, st: State, turns: nat): (r: State)
    requires ExprOk(c) && forall s <- body :: StmtOk(s)
    decreases body, 1, turns
  {
    if turns == 0 then st
    else
      var a := Eval(c, st);
      if a.n == 0 then a.st
      else
        var b := Run(body, a.st);
        if b.returned then b
        else if b.broke then b.(broke := false)
        else Loop(c, body, b.(continued := false), turns - 1)
  }

  /* ---- encoding ---- */

  function LowBytes(n: nat, count: nat): (bs: seq<Byte>)
    ensures |bs| == count
  {
    if count == 0 then [] else [n % 256] + LowBytes(n / 256, count - 1)
  }

  function PlaceByte(p: Place): Byte
    requires PlaceOk(p)
  {
    match p case Nowhere => 0x00 case InLocal(k) => 0x60 + k case InArg(k) => 0x68 + k
  }

  function PlaceBytes(ps: seq<Place>): (bs: seq<Byte>)
    requires forall p <- ps :: PlaceOk(p)
    ensures |bs| == |ps|
  {
    seq(|ps|, k requires 0 <= k < |ps| => PlaceByte(ps[k]))
  }

  function Code(e: Expr): (bs: seq<Byte>)
    requires ExprOk(e)
    ensures bs != []
    decreases e
  {
    match e
    case Const(op, n) => [op] + LowBytes(n, Width(op))
    case Read(p) => [PlaceByte(p)]
    case Apply(op, es, ps) => [op] + CodeAll(es) + PlaceBytes(ps)
    case Bump(up, p) => [if up then 0x75 else 0x76, PlaceByte(p)]
  }

  function CodeAll(es: seq<Expr>): seq<Byte>
    requires forall e <- es :: ExprOk(e)
    decreases es
  {
    if es == [] then [] else Code(es[0]) + CodeAll(es[1..])
  }

  /** The bytes of a statement, if its packages are not too long to have a length. */
  ghost function Text(s: Stmt): Option<seq<Byte>>
    requires StmtOk(s)
    decreases s, 0
  {
    match s
    case Do(e) => Some(Code(e))
    case If(c, yes, hasElse, no) =>
      var a, b := TextAll(yes), TextAll(no);
      if a.None? || b.None? || !Fits(|Code(c) + a.value|) || !Fits(|b.value|) then None
      else Some([0xA0] + Package(Code(c) + a.value) + if hasElse then [0xA1] + Package(b.value) else [])
    case While(c, body) =>
      var a := TextAll(body);
      if a.None? || !Fits(|Code(c) + a.value|) then None else Some([0xA2] + Package(Code(c) + a.value))
    case Return(e) => Some([0xA4] + Code(e))
    case Break => Some([0xA5])
    case Continue => Some([0x9F])
    case Noop(op) => Some([op])
  }

  ghost function TextAll(ss: seq<Stmt>): Option<seq<Byte>>
    requires forall s <- ss :: StmtOk(s)
    decreases ss, 0
  {
    if ss == [] then Some([])
    else
      var a, b := Text(ss[0]), TextAll(ss[1..]);
      if a.None? || b.None? then None else Some(a.value + b.value)
  }
}
