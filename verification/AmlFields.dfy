/** Bit-granular fields over an operation region (kernel/acpi/aml_region.c): reading a
    field gathers whole access units, writing one merges into them. */
module AmlFields {

  /** A uint64_t as its bits, least significant first. */
  type Word = w: seq<bool> | |w| == 64 witness seq(64, k => false)

  datatype Option<T> = None | Some(value: T)

  /* ---- C's operators on uint64_t; shifting by 64 or more is undefined ---- */

  function Zero(): (r: Word)
    ensures forall k :: 0 <= k < 64 ==> !r[k]
  {
    seq(64, k => false)
  }

  function Shl(a: Word, n: nat): (r: Word)
    requires n < 64
    ensures forall k :: 0 <= k < 64 ==> r[k] == (k >= n && a[k - n])
  {
    seq(64, k requires 0 <= k < 64 => k >= n && a[k - n])
  }

  function Shr(a: Word, n: nat): (r: Word)
    requires n < 64
    ensures forall k :: 0 <= k < 64 ==> r[k] == (k + n < 64 && a[k + n])
  {
    seq(64, k requires 0 <= k < 64 => k + n < 64 && a[k + n])
  }

  function And(a: Word, b: Word): (r: Word)
    ensures forall k :: 0 <= k < 64 ==> r[k] == (a[k] && b[k])
  {
    seq(64, k requires 0 <= k < 64 => a[k] && b[k])
  }

  function Or(a: Word, b: Word): (r: Word)
    ensures forall k :: 0 <= k < 64 ==> r[k] == (a[k] || b[k])
  {
    seq(64, k requires 0 <= k < 64 => a[k] || b[k])
  }

  function Not(a: Word): (r: Word)
    ensures forall k :: 0 <= k < 64 ==> r[k] == !a[k]
  {
    seq(64, k requires 0 <= k < 64 => !a[k])
  }

  /** (1 << n) - 1, and all ones for n = 64. */
  function Ones(n: nat): (r: Word)
    ensures forall k :: 0 <= k < 64 ==> r[k] == (k < n)
  {
    seq(64, k => k < n)
  }

  /* ---- what the bits mean as numbers ---- */

  function Pow2(n: nat): nat { if n == 0 then 1 else 2 * Pow2(n - 1) }

  function Num(s: seq<bool>): nat
  {
    if s == [] then 0 else (if s[0] then 1 else 0) + 2 * Num(s[1..])
  }

  /** Masking with `Ones(n)` is reducing modulo 2^n. */
  lemma {:induction false} MaskIsMod(s: seq<bool>, m: seq<bool>, n: nat)
    requires |m| == |s| && forall k :: 0 <= k < |s| ==> m[k] == (k < n && s[k])
    ensures Pow2(n) > 0 && Num(m) == Num(s) % Pow2(n)
  {
    MaskSplit(s, m, n);
    ModIs(Num(s), Pow2(n), High(s, n), Num(m));
  }

  function High(s: seq<bool>, n: nat): nat { if n >= |s| then 0 else Num(s[n..]) }

  lemma {:induction false} MaskSplit(s: seq<bool>, m: seq<bool>, n: nat)
    requires |m| == |s| && forall k :: 0 <= k < |s| ==> m[k] == (k < n && s[k])
    ensures Num(s) == Pow2(n) * High(s, n) + Num(m) && Num(m) < Pow2(n)
  {
    hide Num, High, Pow2;
    if n == 0 {
      AllZero(m);
      HighZero(s);
    } else if s == [] {
      HighEmpty(n);
      assert m == s && Pow2(n) * 0 == 0;
    } else {
      MaskSplit(s[1..], m[1..], n - 1);
      NumStep(s);
      NumStep(m);
      HighStep(s, n);
      var p, h := Pow2(n - 1), High(s[1..], n - 1);
      assert 2 * (p * h) == (2 * p) * h;
    }
  }

  lemma NumStep(s: seq<bool>)
    requires s != []
    ensures Num(s) == (if s[0] then 1 else 0) + 2 * Num(s[1..])
  {
  }

  lemma HighZero(s: seq<bool>)
    ensures High(s, 0) == Num(s) && Pow2(0) == 1
  {
    assert s[0..] == s;
  }

  lemma HighEmpty(n: nat)
    ensures High([], n) == 0 == Num([]) && Pow2(n) > 0
  {
    Pow2Positive(n);
  }

  lemma HighStep(s: seq<bool>, n: nat)
    requires s != [] && n > 0
    ensures High(s, n) == High(s[1..], n - 1) && Pow2(n) == 2 * Pow2(n - 1)
  {
    hide Num;
    assert n < |s| ==> s[1..][n - 1..] == s[n..];
  }

  lemma Pow2Positive(n: nat)
    ensures Pow2(n) > 0
  {
  }

  lemma ModIs(x: nat, m: nat, q: nat, r: nat)
    requires m > 0 && r < m && x == m * q + r
    ensures x % m == r
  {
    var d := x / m - q;
    assert m * d == r - x % m;
    assert d > 0 ==> m * d >= m;
    assert d < 0 ==> m * d <= 0 - m;
  }

  lemma {:induction false} AllZero(s: seq<bool>)
    requires forall k :: 0 <= k < |s| ==> !s[k]
    ensures Num(s) == 0
  {
    if s != [] { AllZero(s[1..]); }
  }

  lemma {:induction false} OnesIsPow2(n: nat)
    requires n <= 64
    ensures Num(Ones(n)) == Pow2(n) - 1
  {
    OnesFrom(Ones(n), n);
  }

  lemma {:induction false} OnesFrom(s: seq<bool>, n: nat)
    requires n <= |s| && forall k :: 0 <= k < |s| ==> s[k] == (k < n)
    ensures Num(s) == Pow2(n) - 1
  {
    if n == 0 { AllZero(s); } else { OnesFrom(s[1..], n - 1); }
  }

  /* ---- fields ---- */

  /** `access` is the unit in bytes; zero is taken as one. */
  datatype Field = Field(bitOffset: nat, bitLen: nat, access: nat)

  predicate AccessWidth(n: nat) { n == 1 || n == 2 || n == 4 || n == 8 }

  function Width(f: Field): nat { if f.access == 0 then 1 else f.access }

  function UnitBits(f: Field): nat { 8 * Width(f) }

  predicate FieldOk(f: Field) { AccessWidth(Width(f)) }

  function FirstUnit(f: Field): nat
    requires FieldOk(f)
  {
    f.bitOffset / UnitBits(f)
  }

  function Shift(f: Field): nat
    requires FieldOk(f)
  {
    f.bitOffset % UnitBits(f)
  }

  function Units(f: Field): nat
    requires FieldOk(f)
  {
    (Shift(f) + f.bitLen + UnitBits(f) - 1) / UnitBits(f)
  }

  /** Where unit `i` of the field starts, in bits. */
  function UnitStart(f: Field, i: nat): nat
    requires FieldOk(f)
  {
    (FirstUnit(f) + i) * UnitBits(f)
  }

  lemma UnitSteps(f: Field, i: nat)
    requires FieldOk(f)
    ensures UnitStart(f, i) == 8 * ((FirstUnit(f) + i) * Width(f)) == f.bitOffset - Shift(f) + i * UnitBits(f)
    ensures UnitStart(f, i + 1) == UnitStart(f, i) + UnitBits(f)
    ensures i + 1 < Units(f) ==> i * UnitBits(f) + UnitBits(f) < Shift(f) + f.bitLen
    ensures i < Units(f) ==> UnitStart(f, i + 1) <= UnitStart(f, Units(f))
    ensures UnitBits(f) == 8 * Width(f) && Shift(f) < UnitBits(f) <= 64 && Shift(f) <= f.bitOffset
    ensures Shift(f) + f.bitLen <= Units(f) * UnitBits(f) && (0 < f.bitLen ==> 0 < Units(f))
    ensures 0 < f.bitLen ==> UnitStart(f, Units(f)) >= f.bitOffset + f.bitLen
  {
    UnitArithmetic(f, i);
    UnitArithmetic(f, i + 1);
    UnitArithmetic(f, Units(f));
    Times(i, Units(f), UnitBits(f));
    hide FirstUnit, Shift, Units, UnitStart, Width;
  }

  lemma Times(i: nat, n: nat, u: nat)
    ensures (i + 1) * u == i * u + u && (i < n ==> (i + 1) * u <= n * u)
  {
    if i < n { Monotone(i + 1, n, u); }
  }

  lemma Monotone(a: nat, b: nat, u: nat)
    requires a <= b
    ensures a * u <= b * u
  {
  }

  lemma InUnits(offset: nat, len: nat, u: nat, i: nat)
    requires u > 0
    ensures (offset / u + i) * u == offset - offset % u + i * u
    ensures i < (offset % u + len + u - 1) / u <==> i * u < offset % u + len
  {
    assert (offset / u + i) * u == offset / u * u + i * u;
    var n := offset % u + len;
    var q := (n + u - 1) / u;
    assert q * u <= n + u - 1 < q * u + u;
    if i < q {
      assert i * u + u <= q * u by { Times(i, q, u); }
    } else {
      assert q * u <= i * u by { Times(q, i, u); Times(i, i, u); }
    }
  }

  lemma UnitArithmetic(f: Field, i: nat)
    requires FieldOk(f)
    ensures UnitStart(f, i) == 8 * ((FirstUnit(f) + i) * Width(f)) == f.bitOffset - Shift(f) + i * UnitBits(f)
    ensures i < Units(f) <==> i * UnitBits(f) < Shift(f) + f.bitLen
    ensures Shift(f) < UnitBits(f) <= 64 && Shift(f) <= f.bitOffset
  {
    InUnits(f.bitOffset, f.bitLen, UnitBits(f), i);
    EightTimes(FirstUnit(f) + i, Width(f));
  }

  lemma EightTimes(a: nat, w: nat)
    ensures a * (8 * w) == 8 * (a * w)
  {
  }

  /** What reading the field gives: its bits, but none from beyond the first 64 bits of
      the units it lies in. */
  ghost predicate ReadsAs(mem: seq<bool>, f: Field, v: Word)
    requires FieldOk(f) && f.bitOffset + f.bitLen <= |mem|
  {
    forall k :: 0 <= k < 64 ==> v[k] == (k < f.bitLen && Shift(f) + k < 64 && mem[f.bitOffset + k])
  }

  /** `mem'` is `mem` with the low bits of `value` in the field. */
  ghost predicate FieldSet(mem: seq<bool>, mem': seq<bool>, f: Field, value: Word)
  {
    && |mem'| == |mem|
    && forall b :: 0 <= b < |mem| ==>
         mem'[b] == if f.bitOffset <= b < f.bitOffset + f.bitLen && b - f.bitOffset < 64 then value[b - f.bitOffset]
           else mem[b]
  }

  /** One byte of the region, widened. */
  function ByteAt(mem: seq<bool>, j: nat): (r: Word)
    requires 8 * j + 8 <= |mem|
    ensures forall k :: 0 <= k < 64 ==> r[k] == (k < 8 && mem[8 * j + k])
  {
    seq(64, k requires 0 <= k < 64 => k < 8 && mem[8 * j + k])
  }

  /** An operation region: its bits in little-endian order from its first byte up to the
      end of the memory it may touch, and the widths it can be accessed in. */
  class Region {
    const widths: set<nat>
    var mem: seq<bool>

    predicate Reachable(offset: nat, width: nat)
      reads this
    {
      8 * (offset + width) <= |mem| && width in widths
    }

    method Fetch(offset: nat, width: nat) returns (r: Option<Word>)
      requires AccessWidth(width)
      ensures r.Some? <==> Reachable(offset, width)
      ensures r.Some? ==> forall k :: 0 <= k < 64 ==> r.value[k] == (k < 8 * width && mem[8 * offset + k])
    {
      if !Reachable(offset, width) {
        return None;
      }
      var v := Zero();
      for i := 0 to width
        invariant forall k :: 0 <= k < 64 ==> v[k] == (k < 8 * i && mem[8 * offset + k])
      {
        v := Or(v, Shl(ByteAt(mem, offset + i), i * 8));
      }
      return Some(v);
    }

    function Bit(k: nat): bool
      reads this
    {
      k < |mem| && mem[k]
    }

    method Store(offset: nat, width: nat, value: Word) returns (ok: bool)
      requires AccessWidth(width)
      modifies this
      ensures ok <==> Reachable(offset, width)
      ensures |mem| == |old(mem)| && (!ok ==> mem == old(mem))
      ensures ok ==> forall b :: 0 <= b < |mem| ==>
        mem[b] == if 8 * offset <= b < 8 * offset + 8 * width then value[b - 8 * offset] else old(mem)[b]
    {
      if !Reachable(offset, width) {
        return false;
      }
      for i := 0 to width
        invariant |mem| == |old(mem)|
        invariant forall b :: 0 <= b < |mem| ==>
          mem[b] == if 8 * offset <= b < 8 * offset + 8 * i then value[b - 8 * offset] else old(mem)[b]
      {
        var at := 8 * (offset + i);
        var v := Shr(value, i * 8);
        mem := mem[..at] + v[..8] + mem[at + 8..];
      }
      return true;
    }

    method FieldRead(f: Field) returns (r: Option<Word>)
      requires FieldOk(f)
      ensures r.Some? <==> 0 < f.bitLen <= 64 && UnitStart(f, Units(f)) <= |mem| && Width(f) in widths
      ensures r.Some? ==> f.bitOffset + f.bitLen <= |mem| && ReadsAs(mem, f, r.value)
    {
      hide UnitStart, UnitBits, Units, FirstUnit, Shift, Gathered, ReadsAs;
      var bits, width := f.bitLen, Width(f);
      if bits == 0 || bits > 64 {
        return None;
      }
      var unitBits, firstUnit, shift, units := UnitBits(f), FirstUnit(f), Shift(f), Units(f);
      UnitSteps(f, 0);
      var value: Word := Zero();
      GatherStart(f, value);
      for i := 0 to units
        invariant i > 0 ==> UnitStart(f, i) <= |mem| && width in widths
        invariant Gathered(f, value, i)
      {
        UnitSteps(f, i);
        var chunk := Fetch((firstUnit + i) * width, width);
        if chunk.None? {
          return None;
        }
        GatherStep(f, value, i, chunk.value);
        value := if i * unitBits < 64 then Or(value, Shl(chunk.value, i * unitBits)) else value;
      }
      var v := Shr(value, shift);
      if bits < 64 {
        v := And(v, Ones(bits));
      }
      Extracted(f, units, value, v);
      return Some(v);
    }

    lemma GatherStart(f: Field, value: Word)
      requires FieldOk(f) && forall k :: 0 <= k < 64 ==> !value[k]
      ensures Gathered(f, value, 0)
    {
    }

    lemma GatherStep(f: Field, value: Word, i: nat, chunk: Word)
      requires FieldOk(f) && Gathered(f, value, i) && UnitStart(f, i + 1) <= |mem|
      requires forall k :: 0 <= k < 64 ==> chunk[k] == (k < UnitBits(f) && Bit(UnitStart(f, i) + k))
      ensures Gathered(f, if i * UnitBits(f) < 64 then Or(value, Shl(chunk, i * UnitBits(f))) else value, i + 1)
    {
      UnitSteps(f, i);
      UnitSteps(f, 0);
      var u, n := UnitBits(f), i * UnitBits(f);
      assert (i + 1) * u == n + u;
      assert UnitStart(f, i) == UnitStart(f, 0) + n;
      hide UnitStart, UnitBits;
      if n < 64 {
        var r := Or(value, Shl(chunk, n));
        forall k | 0 <= k < 64 ensures r[k] == (k < n + u && Bit(UnitStart(f, 0) + k)) {
          assert k >= n ==> chunk[k - n] == (k - n < u && Bit(UnitStart(f, i) + (k - n)));
        }
      }
    }

    /** The first `i` units have been gathered, as far as they fit. */
    ghost predicate Gathered(f: Field, value: Word, i: nat)
      requires FieldOk(f)
      reads this
    {
      forall k :: 0 <= k < 64 ==> value[k] == (k < i * UnitBits(f) && Bit(UnitStart(f, 0) + k))
    }

    lemma Extracted(f: Field, units: nat, value: Word, v: Word)
      requires FieldOk(f) && 0 < f.bitLen <= 64 && Gathered(f, value, units) && f.bitOffset + f.bitLen <= |mem|
      requires UnitStart(f, 0) == f.bitOffset - Shift(f) && Shift(f) + f.bitLen <= units * UnitBits(f) && Shift(f) < 64
      requires forall k :: 0 <= k < 64 ==> v[k] == (k < f.bitLen && k + Shift(f) < 64 && value[k + Shift(f)])
      ensures ReadsAs(mem, f, v)
    {
      hide UnitStart, Shift, UnitBits;
    }

    /** Write a field.  Succeeding or failing, no bit outside the field changes. */
    method FieldWrite(f: Field, value: Word) returns (ok: bool)
      requires FieldOk(f)
      modifies this
      ensures ok <==> 0 < f.bitLen <= 64 && UnitStart(f, Units(f)) <= |old(mem)| && Width(f) in widths
      ensures |mem| == |old(mem)|
      ensures forall b :: 0 <= b < |mem| && !(f.bitOffset <= b < f.bitOffset + f.bitLen) ==> mem[b] == old(mem)[b]
      ensures ok ==> FieldSet(old(mem), mem, f, value)
    {
      hide UnitStart, UnitBits, Units, FirstUnit, Shift;
      var bits, width := f.bitLen, Width(f);
      if bits == 0 || bits > 64 {
        return false;
      }
      var unitBits, firstUnit, shift, units := UnitBits(f), FirstUnit(f), Shift(f), Units(f);
      var mask := if bits < 64 then Ones(bits) else Not(Zero());
      UnitSteps(f, 0);
      for i := 0 to units
        invariant |mem| == |old(mem)| && (i > 0 ==> UnitStart(f, i) <= |mem| && width in widths)
        invariant forall b :: 0 <= b < |mem| ==>
          mem[b] == if f.bitOffset <= b < f.bitOffset + bits && b < UnitStart(f, i) then value[b - f.bitOffset]
            else old(mem)[b]
      {
        ok := WriteUnit(f, value, mask, i);
        UnitSteps(f, i);
        if !ok {
          return;
        }
      }
      return true;
    }

    /** Merge the field's bits into unit `i`. */
    method WriteUnit(f: Field, value: Word, mask: Word, i: nat) returns (ok: bool)
      requires FieldOk(f) && 0 < f.bitLen <= 64 && i < Units(f)
      requires forall k :: 0 <= k < 64 ==> mask[k] == (k < f.bitLen)
      modifies this
      ensures ok <==> UnitStart(f, i + 1) <= |old(mem)| && Width(f) in widths
      ensures |mem| == |old(mem)| && (!ok ==> mem == old(mem))
      ensures ok ==> forall b :: 0 <= b < |mem| ==>
        mem[b] == if f.bitOffset <= b < f.bitOffset + f.bitLen && UnitStart(f, i) <= b < UnitStart(f, i + 1)
                  then value[b - f.bitOffset] else old(mem)[b]
    {
      hide UnitStart, UnitBits, Units, FirstUnit, Shift;
      var bits, width := f.bitLen, Width(f);
      var unitBits, firstUnit, shift, units := UnitBits(f), FirstUnit(f), Shift(f), Units(f);
      var offset := (firstUnit + i) * width;
      UnitSteps(f, i);
      if i > 0 { UnitSteps(f, i - 1); }
      var chunk := Zero();
      var partial := units > 1 || shift != 0 || bits != unitBits;
      if partial {
        var c := Fetch(offset, width);
        if c.None? {
          return false;
        }
        chunk := c.value;
      }
      var unitMask, unitValue := UnitMerge(f, value, mask, i);
      chunk := Or(And(chunk, Not(unitMask)), And(unitValue, unitMask));
      ok := Store(offset, width, chunk);
    }

    /** Mask and value moved up by `up` or down by `down`. */
    static method Moved(value: Word, mask: Word, up: nat, down: nat, ghost len: nat)
      returns (m: Word, v: Word)
      requires (up == 0 || down == 0) && up < 64 && down < 64 && len <= 64 && forall k :: 0 <= k < 64 ==>
        mask[k] == (k < len)
      ensures forall k :: 0 <= k < 64 ==> m[k] == (0 <= k + down - up < len)
      ensures forall k :: 0 <= k < 64 && m[k] ==> v[k] == value[k + down - up]
    {
      if down == 0 {
        m, v := Shl(mask, up), Shl(And(value, mask), up);
      } else {
        m, v := Shr(mask, down), Shr(And(value, mask), down);
      }
    }

    /** Which bits of unit `i` the field has, and what they are to be. */
    method UnitMerge(f: Field, value: Word, mask: Word, i: nat) returns (unitMask: Word, unitValue: Word)
      requires FieldOk(f) && 0 < f.bitLen <= 64 && i < Units(f)
      requires forall k :: 0 <= k < 64 ==> mask[k] == (k < f.bitLen)
      ensures forall k :: 0 <= k < 64 ==>
        unitMask[k] == (k < UnitBits(f) && f.bitOffset <= UnitStart(f, i) + k < f.bitOffset + f.bitLen)
      ensures forall k :: 0 <= k < 64 && unitMask[k] ==> unitValue[k] == value[UnitStart(f, i) + k - f.bitOffset]
    {
      hide UnitStart, UnitBits, Units, FirstUnit, Shift;
      var unitBits, shift := UnitBits(f), Shift(f);
      UnitSteps(f, i);
      if i == 0 {
        unitMask, unitValue := Moved(value, mask, shift, 0, f.bitLen);
      } else {
        UnitSteps(f, i - 1);
        var done := unitBits - shift + (i - 1) * unitBits;
        unitMask, unitValue := Moved(value, mask, 0, done, f.bitLen);
      }
      assert UnitStart(f, i) - f.bitOffset == if i == 0 then -shift else unitBits - shift + (i - 1) * unitBits;
      if unitBits < 64 {
        var keep := Ones(unitBits);
        unitMask, unitValue := And(unitMask, keep), And(unitValue, keep);
      }
    }
  }

  /* ---- what the two promise together ---- */

  /** A read after a write gives the value modulo 2^length, if the field's units fit in 64 bits. */
  lemma ReadAfterWrite(mem: seq<bool>, mem': seq<bool>, f: Field, value: Word, v: Word)
    requires FieldOk(f) && 0 < f.bitLen <= 64 && f.bitOffset + f.bitLen <= |mem|
    requires FieldSet(mem, mem', f, value) && ReadsAs(mem', f, v) && Shift(f) + f.bitLen <= 64
    ensures v == And(value, Ones(f.bitLen)) && Pow2(f.bitLen) > 0 && Num(v) == Num(value) % Pow2(f.bitLen)
  {
    MaskIsMod(value, v, f.bitLen);
  }

  /** Two fields that do not overlap do not disturb each other. */
  lemma WriteElsewhere(mem: seq<bool>, mem': seq<bool>, f: Field, value: Word, g: Field, v: Word)
    requires FieldOk(g) && g.bitOffset + g.bitLen <= |mem| && FieldSet(mem, mem', f, value)
    requires f.bitOffset + f.bitLen <= g.bitOffset || g.bitOffset + g.bitLen <= f.bitOffset
    ensures ReadsAs(mem', g, v) <==> ReadsAs(mem, g, v)
  {
  }

  /** Reading returns every bit of the field, whatever the region holds, exactly when the
      units it lies in span no more than 64 bits up to its end. */
  ghost predicate ReadsWhole(f: Field)
    requires FieldOk(f) && 0 < f.bitLen <= 64
  {
    forall mem: seq<bool>, v: Word :: f.bitOffset + f.bitLen <= |mem| && ReadsAs(mem, f, v) ==> WholeField(mem, f, v)
  }

  ghost predicate WholeField(mem: seq<bool>, f: Field, v: Word)
    requires f.bitOffset + f.bitLen <= |mem|
  {
    forall k :: 0 <= k < 64 ==> v[k] == (k < f.bitLen && mem[f.bitOffset + k])
  }

  lemma ReadsWholeIff(f: Field)
    requires FieldOk(f) && 0 < f.bitLen <= 64
    ensures ReadsWhole(f) <==> Shift(f) + f.bitLen <= 64
  {
    if Shift(f) + f.bitLen > 64 {
      var mem := seq(f.bitOffset + f.bitLen, b => true);
      var v: Word := seq(64, k => k < f.bitLen && Shift(f) + k < 64);
      assert ReadsAs(mem, f, v);
      assert !v[f.bitLen - 1] && mem[f.bitOffset + (f.bitLen - 1)];
      assert !WholeField(mem, f, v);
    }
  }
}
