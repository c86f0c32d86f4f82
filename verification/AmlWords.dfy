/** Operators of the ACPI machine language on numbers (section 19.6 of the ACPI Specification): what
    each comes to, opcode by opcode, and the 64-bit words a processor does it on. */
module AmlWords {
  import opened AmlNamespace
  import opened AmlStream
  import opened AmlBytes
  import opened AmlParse
  import opened AmlMeaning
  import opened AmlReading

  /* ---- words ---- */

  /** The number with those of its low `w` bits set that `f` says. */
  function FromBits(f: nat -> bool, w: nat): nat
    decreases w
  {
    if w == 0 then 0 else (if f(0) then 1 else 0) + 2 * FromBits((k: nat) => f(k + 1), w - 1)
  }

  function IsSet(a: nat, k: nat): bool { Bit(a, k) == 1 }

  function WordAnd(a: nat, b: nat): nat { FromBits((k: nat) => IsSet(a, k) && IsSet(b, k), 64) }

  function WordOr(a: nat, b: nat): nat { FromBits((k: nat) => IsSet(a, k) || IsSet(b, k), 64) }

  function WordXor(a: nat, b: nat): nat { FromBits((k: nat) => IsSet(a, k) != IsSet(b, k), 64) }

  function WordNot(a: nat): nat { FromBits((k: nat) => !IsSet(a, k), 64) }

  function ShiftLeft(a: nat, n: nat): nat { FromBits((k: nat) => k >= n && IsSet(a, k - n), 64) }

  function ShiftRight(a: nat, n: nat): nat { FromBits((k: nat) => IsSet(a, k + n), 64) }

  lemma {:induction false} FromBitsIs(f: nat -> bool, w: nat, k: nat)
    requires k < w
    ensures Bit(FromBits(f, w), k) == if f(k) then 1 else 0
    decreases w
  {
    if k > 0 {
      var g := (j: nat) => f(j + 1);
      assert FromBits(f, w) / 2 == FromBits(g, w - 1);
      FromBitsIs(g, w - 1, k - 1);
    }
  }

  lemma {:induction false} FromBitsLess(f: nat -> bool, w: nat)
    ensures FromBits(f, w) < Pow2(w)
    decreases w
  {
    if w > 0 { FromBitsLess((k: nat) => f(k + 1), w - 1); }
  }

  /** Numbers are their bits. */
  lemma {:induction false} SameBits(a: nat, b: nat, w: nat)
    requires a < Pow2(w) && b < Pow2(w) && forall k: nat :: k < w ==> Bit(a, k) == Bit(b, k)
    ensures a == b
    decreases w
  {
    if w > 0 {
      assert Bit(a, 0) == Bit(b, 0);
      forall k: nat | k < w - 1 ensures Bit(a / 2, k) == Bit(b / 2, k) { assert Bit(a, k + 1) == Bit(b, k + 1); }
      SameBits(a / 2, b / 2, w - 1);
    }
  }

  /** A word is what its bits say. */
  lemma IsWord(r: nat, f: nat -> bool)
    requires r < LIMIT && forall k: nat :: k < 64 ==> Bit(r, k) == if f(k) then 1 else 0
    ensures r == FromBits(f, 64)
  {
    hide Bit, FromBits;
    LimitIs();
    FromBitsLess(f, 64);
    forall k: nat | k < 64 ensures Bit(r, k) == Bit(FromBits(f, 64), k) { FromBitsIs(f, 64, k); }
    SameBits(r, FromBits(f, 64), 64);
  }

  /* ---- sums ---- */

  lemma Adds(a: nat, b: nat)
    requires a < LIMIT && b < LIMIT
    ensures var r := Result(0x72, [a, b]); r < LIMIT && (r == a + b || r + LIMIT == a + b)
  {
    assert a + b < LIMIT || (a + b - LIMIT < LIMIT && (a + b) % LIMIT == (a + b - LIMIT) % LIMIT);
  }

  /** Adding what was taken away gives the number back. */
  lemma Subtracts(a: nat, b: nat)
    requires a < LIMIT && b < LIMIT
    ensures var r := Result(0x74, [a, b]); r < LIMIT && Result(0x72, [r, b]) == a && (b <= a ==> r == a - b)
  {
  }

  /** No times nothing is nothing, and once more is that and the number. */
  lemma Multiplies(a: nat, b: nat)
    requires a < LIMIT && b < LIMIT
    ensures Result(0x77, [a, b]) == if b == 0 then 0 else Result(0x72, [Result(0x77, [a, b - 1]), a])
  {
    if b > 0 {
      assert a * b == a * (b - 1) + a;
      SumMod(a * (b - 1), a);
    }
  }

  lemma SumMod(x: nat, a: nat)
    ensures (x + a) % LIMIT == (x % LIMIT + a) % LIMIT
  {
  }

  /** Quotient and remainder; of nothing both are zero; and the remainder is the first to be stored. */
  lemma Divides(a: nat, b: nat)
    requires a < LIMIT && b < LIMIT
    ensures var q, m := Result(0x78, [a, b]), Result(0x85, [a, b]);
      && (if b == 0 then q == 0 && m == 0 else q * b + m == a && m < b)
      && Stored(0x78, [a, b]) == [m, q]
  {
    if b > 0 { assert a == b * (a / b) + a % b; }
  }

  /* ---- bits ---- */

  lemma {:induction false} HalvedBit(a: nat, n: nat, k: nat)
    ensures Bit(Quotient(a, Pow2(n)), k) == Bit(a, k + n)
    decreases n
  {
    if n > 0 {
      HalvedBit(a / 2, n - 1, k);
      HalfAgain(a, Pow2(n - 1));
    }
  }

  lemma HalfAgain(a: nat, m: nat)
    requires m > 0
    ensures a / 2 / m == a / (2 * m)
  {
    var q, r := a / 2 / m, a / 2 % m;
    assert a / 2 == q * m + r;
    assert a == 2 * (a / 2) + a % 2;
    assert a == 2 * m * q + (2 * r + a % 2) by { assert 2 * (q * m) == 2 * m * q; }
    QuotientIs(a, 2 * m, q, 2 * r + a % 2);
  }

  /** Bits of a number doubled. */
  lemma {:induction false} DoubledBit(a: nat, n: nat, k: nat)
    ensures Bit(a * Pow2(n), k) == if k < n then 0 else Bit(a, k - n)
    decreases n
  {
    if n > 0 {
      var b := a * Pow2(n - 1);
      assert a * Pow2(n) == 2 * b;
      if k > 0 { DoubledBit(a, n - 1, k - 1); }
    }
  }

  /** Cutting a number off at `w` bits leaves those. */
  lemma {:induction false} CutBit(a: nat, w: nat, k: nat)
    requires k < w
    ensures Bit(a % Pow2(w), k) == Bit(a, k)
    decreases w
  {
    var m := Pow2(w - 1);
    HalfOfCut(a, m);
    if k > 0 { CutBit(a / 2, w - 1, k - 1); }
  }

  lemma HalfOfCut(a: nat, m: nat)
    requires m > 0
    ensures a % (2 * m) / 2 == a / 2 % m && a % (2 * m) % 2 == a % 2
  {
    HalfAgain(a, m);
    var q := a / (2 * m);
    assert a == 2 * m * q + a % (2 * m);
    assert a / 2 == m * q + a / 2 % m;
    assert 2 * m * q == 2 * (m * q);
  }

  /** Bits move up, zeroes following. */
  lemma ShiftsLeft(a: nat, b: nat, k: nat)
    requires a < LIMIT && b < LIMIT && k < 64
    ensures var r := Result(0x79, [a, b]); r < LIMIT && Bit(r, k) == if k < b then 0 else Bit(a, k - b)
  {
    hide Bit, Pow2;
    LimitIs();
    if b < 64 {
      CutBit(a * Pow2(b), 64, k);
      DoubledBit(a, b, k);
    } else {
      ZeroBit(k);
    }
  }

  /** Bits move down; above the highest there are none. */
  lemma ShiftsRight(a: nat, b: nat, k: nat)
    requires a < LIMIT && b < LIMIT && k < 64
    ensures var r := Result(0x7A, [a, b]); r < LIMIT && Bit(r, k) == if k + b < 64 then Bit(a, k + b) else 0
  {
    hide Bit, Pow2;
    LimitIs();
    if b < 64 {
      HalvedBit(a, b, k);
      QuotientSmall(a, Pow2(b));
      if k + b >= 64 { NoneAbove(a, 64, k + b); }
    } else {
      ZeroBit(k);
    }
  }

  lemma {:induction false} NoneAbove(a: nat, w: nat, k: nat)
    requires a < Pow2(w) && w <= k
    ensures Bit(a, k) == 0
    decreases w
  {
    if w == 0 { ZeroBit(k); } else { NoneAbove(a / 2, w - 1, k - 1); }
  }

  /** The operators that work bit by bit. */
  lemma BitByBit(a: nat, b: nat, k: nat)
    requires a < LIMIT && b < LIMIT && k < 64
    ensures var x, y := IsSet(a, k), IsSet(b, k);
      && IsSet(Result(0x7B, [a, b]), k) == (x && y) && IsSet(Result(0x7C, [a, b]), k) == !(x && y)
      && IsSet(Result(0x7D, [a, b]), k) == (x || y) && IsSet(Result(0x7E, [a, b]), k) == !(x || y)
      && IsSet(Result(0x7F, [a, b]), k) == (x != y) && IsSet(Result(0x80, [a]), k) == !x
  {
    hide And, Or, Xor, Complement, Bit;
    AndBit(a, b, k);
    AndLess(a, b);
    OrBit(a, b, k);
    XorBit(a, b, k);
    ComplementBit(And(a, b), k);
    ComplementBit(Or(a, b), k);
    ComplementBit(a, k);
  }

  lemma BitsAreWords(a: nat, b: nat)
    requires a < LIMIT && b < LIMIT
    ensures Result(0x7B, [a, b]) < LIMIT && Result(0x7C, [a, b]) < LIMIT && Result(0x7D, [a, b]) < LIMIT
    ensures Result(0x7E, [a, b]) < LIMIT && Result(0x7F, [a, b]) < LIMIT && Result(0x80, [a]) < LIMIT
  {
    hide And, Or, Bit;
    AndLess(a, b);
    OrBit(a, b, 0);
    AndLess(Or(a, b), Complement(And(a, b)));
  }

  /** The place of the highest bit set and of the lowest, counting from one; zero for none. */
  lemma {:induction false} FindsLeft(a: nat)
    ensures var r := Result(0x81, [a]);
      if a == 0 then r == 0 else r > 0 && IsSet(a, r - 1) && forall k: nat :: k >= r ==> !IsSet(a, k)
    decreases a
  {
    if a != 0 {
      FindsLeft(a / 2);
      var r := Result(0x81, [a]);
      forall k: nat | k >= r ensures !IsSet(a, k) {
        if a == 1 { ZeroBit(k - 1); } else { assert !IsSet(a / 2, k - 1); }
      }
    }
  }

  lemma {:induction false} FindsRight(a: nat)
    ensures var r := Result(0x82, [a]);
      if a == 0 then r == 0 else r > 0 && IsSet(a, r - 1) && forall k: nat :: k < r - 1 ==> !IsSet(a, k)
    decreases a
  {
    if a != 0 && a % 2 == 0 {
      FindsRight(a / 2);
      var r := Result(0x82, [a]);
      forall k: nat | k < r - 1 ensures !IsSet(a, k) { if k > 0 { assert !IsSet(a / 2, k - 1); } }
    }
  }

  /* ---- truth ---- */

  /** Comparisons answer all ones or zero. */
  lemma Compares(a: nat, b: nat)
    ensures Result(0x93, [a, b]) == Truth(a == b) && Result(0x94, [a, b]) == Truth(a > b)
    ensures Result(0x95, [a, b]) == Truth(a < b) && Result(0x92, [a]) == Truth(a == 0)
    ensures Result(0x90, [a, b]) == Truth(a != 0 && b != 0) && Result(0x91, [a, b]) == Truth(a != 0 || b != 0)
    ensures Truth(true) == LIMIT - 1 && Truth(false) == 0
  {
  }

  /** Those that hand a number on, and what SizeOf and ObjectType say of one. */
  lemma HandsOn(a: nat)
    ensures forall op <- {0x70, 0x71, 0x83, 0x99, 0x9D} ::
      Numeric(op) && ShapeOf(op).operands == 1 && Result(op, [a]) == a
    ensures Result(0x87, [a]) == 0 && Result(0x8E, [a]) == 1
  {
  }

  /* ---- bytes ---- */

  /** How many bytes a numeral has is in its first. */
  lemma NumeralBytes(n: nat)
    ensures n < 0x100 ==> ConstOk(0x0A, n) && Code(Const(0x0A, n)) == [0x0A, n]
    ensures n < 0x1_0000 ==> ConstOk(0x0B, n) && Code(Const(0x0B, n)) == [0x0B, n % 256, n / 256]
    ensures n < 0x1_0000_0000 ==> ConstOk(0x0C, n) && |Code(Const(0x0C, n))| == 5
    ensures n < LIMIT ==> ConstOk(0x0E, n) && |Code(Const(0x0E, n))| == 9
    ensures Code(Const(0x00, 0)) == [0x00] && Code(Const(0x01, 1)) == [0x01] && Code(Const(0xFF, LIMIT - 1)) == [0xFF]
  {
    assert Pow256(1) == 0x100 && Pow256(2) == 0x1_0000 && Pow256(4) == 0x1_0000_0000;
    assert Pow256(6) == 0x1_0000_0000_0000 && Pow256(8) == LIMIT;
    if n < 0x1_0000 {
      assert LowBytes(n / 256 / 256, 0) == [];
      assert LowBytes(n / 256, 1) == [n / 256];
    }
  }

  /** How many operands and targets each has. */
  lemma Shapes(op: Byte)
    ensures op in {0x72, 0x74, 0x77, 0x79, 0x7A, 0x7B, 0x7C, 0x7D, 0x7E, 0x7F, 0x85} ==> Takes(op, 2, 1)
    ensures op == 0x78 ==> Takes(op, 2, 2)
    ensures op in {0x90, 0x91, 0x93, 0x94, 0x95} ==> Takes(op, 2, 0)
    ensures op in {0x70, 0x80, 0x81, 0x82, 0x99, 0x9D} ==> Takes(op, 1, 1)
    ensures op in {0x71, 0x83, 0x87, 0x8E, 0x92} ==> Takes(op, 1, 0)
  {
  }

  predicate Takes(op: Byte, operands: nat, targets: nat)
  {
    Numeric(op) && ShapeOf(op).operands == operands && ShapeOf(op).targets == targets
  }

  /** An operator is its opcode, its operands and its targets, in that order. */
  lemma SpeltOut(op: Byte, es: seq<Expr>, ps: seq<Place>)
    requires Takes(op, |es|, |ps|) && (forall e <- es :: ExprOk(e)) && forall p <- ps :: PlaceOk(p)
    ensures var e := Apply(op, es, ps);
      && ExprOk(e)
      && (|es| == 1 ==> Code(e) == [op] + Code(es[0]) + PlaceBytes(ps))
      && (|es| == 2 ==> Code(e) == [op] + Code(es[0]) + Code(es[1]) + PlaceBytes(ps))
  {
    hide ShapeOf, PlaceBytes, CodeAll;
    OperandsCoded(es);
    ApplyCoded(op, es, ps);
    hide Code;
    var a, b := CodeAll(es), PlaceBytes(ps);
    if |es| == 2 { assert [op] + (Code(es[0]) + Code(es[1])) + b == [op] + Code(es[0]) + Code(es[1]) + b; }
  }

  lemma ApplyCoded(op: Byte, es: seq<Expr>, ps: seq<Place>)
    requires ExprOk(Apply(op, es, ps))
    ensures (forall p <- ps :: PlaceOk(p)) && (forall e <- es :: ExprOk(e))
    ensures Code(Apply(op, es, ps)) == [op] + CodeAll(es) + PlaceBytes(ps)
  {
    hide ShapeOf, PlaceBytes, CodeAll;
  }

  lemma OperandsCoded(es: seq<Expr>)
    requires forall e <- es :: ExprOk(e)
    ensures |es| == 1 ==> CodeAll(es) == Code(es[0])
    ensures |es| == 2 ==> CodeAll(es) == Code(es[0]) + Code(es[1])
  {
    hide Code, ExprOk;
    if |es| == 1 {
      assert CodeAll(es[1..]) == [];
    } else if |es| == 2 {
      assert CodeAll(es[1..][1..]) == [];
      assert CodeAll(es[1..]) == Code(es[1]) + [];
    }
  }

  /** What goes into the only target is the value. */
  lemma StoresIt(op: Byte, vals: seq<nat>)
    requires Numeric(op) && |vals| == ShapeOf(op).operands && ShapeOf(op).targets == 1 && op != 0x78
    ensures Stored(op, vals) == [Result(op, vals)]
  {
    hide ShapeOf, Result;
  }

  /** One more and one less are adding one and taking one away. */
  lemma Bumps(p: Place, st: State)
    requires PlaceOk(p) && Numbers(st)
    ensures Eval(Bump(true, p), st).n == Result(0x72, [Fetch(st, p), 1]) && Code(Bump(true, p)) == [0x75, PlaceByte(p)]
    ensures Eval(Bump(false, p), st).n == Result(0x74, [Fetch(st, p), 1])
      && Code(Bump(false, p)) == [0x76, PlaceByte(p)]
  {
    var n := Fetch(st, p);
    assert (n + ONES) % LIMIT == (n - 1 + LIMIT) % LIMIT;
  }

  /** A whole program: the difference of two bytes. */
  lemma DifferenceOf(a: Byte, b: Byte, args: seq<Value>)
    requires |args| <= ARGS
    ensures var e := Apply(0x74, [Const(0x0A, a), Const(0x0A, b)], [Nowhere]);
      && ExprOk(e) && TextAll([Return(e)]) == Some([0xA4, 0x74, 0x0A, a, 0x0A, b, 0x00])
      && Meaning([Return(e)], args) == if b <= a then a - b else LIMIT + a - b
  {
    hide Result, ShapeOf, Code, TextAll, Run;
    var x, y := Const(0x0A, a), Const(0x0A, b);
    var e := Apply(0x74, [x, y], [Nowhere]);
    NumeralBytes(a);
    NumeralBytes(b);
    Shapes(0x74);
    SpeltOut(0x74, [x, y], [Nowhere]);
    assert PlaceBytes([Nowhere]) == [0x00];
    assert [0xA4] + Code(e) == [0xA4, 0x74, 0x0A, a, 0x0A, b, 0x00];
    OnlyReturn(e, Started(args));
    TwoNumbers(x, y, Started(args));
    Subtracts(a, b);
    Adds(Result(0x74, [a, b]), b);
  }

  lemma OnlyReturn(e: Expr, st: State)
    requires ExprOk(e) && !Leaving(st)
    ensures TextAll([Return(e)]) == Some([0xA4] + Code(e)) && Run([Return(e)], st).result == Int(Eval(e, st).n)
  {
    hide Code, Eval;
    var bs := [0xA4] + Code(e);
    assert [Return(e)][1..] == [] && TextAll([]) == Some([]);
    assert Text(Return(e)) == Some(bs) && bs + [] == bs;
    var st' := RunOne(Return(e), st);
    assert Run([], st') == st' && Run([Return(e)], st) == Run([Return(e)][1..], st');
  }

  lemma TwoNumbers(x: Expr, y: Expr, st: State)
    requires ExprOk(x) && ExprOk(y) && x.Const? && y.Const?
    ensures EvalAll([x, y], st).ns == [x.n, y.n]
  {
    assert [x, y][1..] == [y] && [y][1..] == [];
    assert EvalAll([y], st).ns == [y.n] + EvalAll([], st).ns;
  }

  /* ---- the same on words ---- */

  lemma AndIsWord(a: nat, b: nat)
    requires a < LIMIT && b < LIMIT
    ensures Result(0x7B, [a, b]) == WordAnd(a, b) && Result(0x7C, [a, b]) == WordNot(WordAnd(a, b))
  {
    hide Result, FromBits, Bit;
    BitsAreWords(a, b);
    forall k: nat | k < 64 { BitByBit(a, b, k); }
    IsWord(Result(0x7B, [a, b]), (k: nat) => IsSet(a, k) && IsSet(b, k));
    IsWord(Result(0x7C, [a, b]), (k: nat) => !IsSet(WordAnd(a, b), k));
  }

  lemma OrIsWord(a: nat, b: nat)
    requires a < LIMIT && b < LIMIT
    ensures Result(0x7D, [a, b]) == WordOr(a, b) && Result(0x7E, [a, b]) == WordNot(WordOr(a, b))
  {
    hide Result, FromBits, Bit;
    BitsAreWords(a, b);
    forall k: nat | k < 64 { BitByBit(a, b, k); }
    IsWord(Result(0x7D, [a, b]), (k: nat) => IsSet(a, k) || IsSet(b, k));
    IsWord(Result(0x7E, [a, b]), (k: nat) => !IsSet(WordOr(a, b), k));
  }

  lemma XorIsWord(a: nat, b: nat)
    requires a < LIMIT && b < LIMIT
    ensures Result(0x7F, [a, b]) == WordXor(a, b) && Result(0x80, [a]) == WordNot(a)
  {
    hide Result, FromBits, Bit;
    BitsAreWords(a, b);
    forall k: nat | k < 64 { BitByBit(a, b, k); }
    IsWord(Result(0x7F, [a, b]), (k: nat) => IsSet(a, k) != IsSet(b, k));
    IsWord(Result(0x80, [a]), (k: nat) => !IsSet(a, k));
  }

  lemma LeftIsWord(a: nat, b: nat)
    requires a < LIMIT && b < 64
    ensures Result(0x79, [a, b]) == ShiftLeft(a, b)
  {
    hide Result, FromBits, Bit;
    var r := Result(0x79, [a, b]);
    ShiftsLeft(a, b, 0);
    forall k: nat | k < 64 ensures Bit(r, k) == if k >= b && IsSet(a, k - b) then 1 else 0 { ShiftsLeft(a, b, k); }
    IsWord(r, (k: nat) => k >= b && IsSet(a, k - b));
  }

  lemma RightIsWord(a: nat, b: nat)
    requires a < LIMIT && b < 64
    ensures Result(0x7A, [a, b]) == ShiftRight(a, b)
  {
    hide Result, FromBits, Bit;
    LimitIs();
    var r := Result(0x7A, [a, b]);
    ShiftsRight(a, b, 0);
    forall k: nat | k < 64 ensures Bit(r, k) == if IsSet(a, k + b) then 1 else 0 {
      ShiftsRight(a, b, k);
      if k + b >= 64 { NoneAbove(a, 64, k + b); }
    }
    IsWord(r, (k: nat) => IsSet(a, k + b));
  }
}
