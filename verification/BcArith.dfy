/** The arithmetic of number.c as the machine calls it: every operation of the
    interpreter yields the number that the instance ACTUAL names. */
module BcArith {
  import opened Wrappers
  import opened Digits
  import opened Numbers
  import opened AddSub
  import opened Karatsuba
  import opened Division
  import opened Remainder
  import opened Power
  import opened Raising
  import opened Newton
  import opened SquareRoot
  import opened BaseConversion
  import opened BcSyntax
  import opened BcStore

  // ---------------------------------------------------------------------
  // The canonical number of a value and a scale.
  // ---------------------------------------------------------------------

  /** The last k decimal digits of m. */
  function Fixed(m: nat, k: nat): (s: seq<Digit>)
    ensures |s| == k
  {
    if k == 0 then [] else Fixed(m / 10, k - 1) + [m % 10]
  }

  /** All digits of m, at least one. */
  function Whole(m: nat): (s: seq<Digit>)
    ensures |s| >= 1
  {
    if m < 10 then [m] else Whole(m / 10) + [m % 10]
  }

  lemma LastDigit(s: seq<Digit>, d: Digit)
    ensures Val(s + [d]) == 10 * Val(s) + d
  {
    assert (s + [d])[..|s|] == s;
  }

  lemma {:induction false} FixedValue(m: nat, k: nat)
    requires m < Pow10(k)
    ensures Val(Fixed(m, k)) == m
    decreases k
  {
    if k > 0 {
      FixedValue(m / 10, k - 1);
      LastDigit(Fixed(m / 10, k - 1), m % 10);
    }
  }

  lemma {:induction false} WholeValue(m: nat)
    ensures Val(Whole(m)) == m && (m > 0 ==> Whole(m)[0] != 0) && (|Whole(m)| > 1 ==> m > 0)
    decreases m
  {
    if m < 10 {
      ValOne(m);
    } else {
      WholeValue(m / 10);
      LastDigit(Whole(m / 10), m % 10);
    }
  }

  lemma DivisionFacts(m: nat, p: nat)
    requires p > 0
    ensures m / p >= 0 && 0 <= m % p < p && (m / p) * p + m % p == m
  {
  }

  /** m in units of 10^-scale, without a sign. */
  function Digitized(m: nat, scale: nat): Num {
    DivisionFacts(m, Pow10(scale));
    Num(false, Whole(m / Pow10(scale)), Fixed(m % Pow10(scale), scale))
  }

  lemma DigitizedIs(m: nat, scale: nat)
    ensures Is(Digitized(m, scale), m, scale)
  {
    var p, n := Pow10(scale), Digitized(m, scale);
    DivisionFacts(m, p);
    WholeValue(m / p);
    FixedValue(m % p, scale);
    MagSplit(n);
  }

  /** v / 10^scale with exactly `scale` fraction digits. */
  function Canon(v: int, scale: nat): (n: Num)
    ensures Is(n, v, scale)
  {
    DigitizedIs(if v < 0 then -v else v, scale);
    if v < 0 then Digitized(-v, scale).(neg := true) else Digitized(v, scale)
  }

  lemma IsCanon(n: Num, v: int, scale: nat)
    requires Is(n, v, scale)
    ensures n == Canon(v, scale)
  {
    IsUnique(n, Canon(v, scale), v, scale);
  }

  /** Trimmed numbers of one scale with values that differ at most in sign. */
  lemma SameMag(m: Num, n: Num, scale: nat)
    requires m.Trimmed() && m.Len() >= 1 && m.Scale() == scale && Is(n, n.Value(), scale) && m.Value() == n.Value()
    ensures m == n.(neg := m.neg)
  {
    var a, b := m.(neg := false), n.(neg := false);
    assert a.Digits() == m.Digits() && b.Digits() == n.Digits();
    IsUnique(a, b, a.Mag(), scale);
  }

  /** The same with a sign of its own, which matters only for zero. */
  function WithSign(v: int, scale: nat, neg: bool): Num { Canon(v, scale).(neg := neg) }

  lemma IsSigned(n: Num, v: int, scale: nat)
    requires n.Proper() && n.Scale() == scale && n.Value() == v
    ensures n == WithSign(v, scale, n.neg)
  {
    SameMag(n, Canon(v, scale), scale);
  }

  // ---------------------------------------------------------------------
  // The operations, on all numbers: a negative zero, which a power can leave,
  // keeps its sign in sums of its kind, in remainders and as a first power,
  // and is less than a zero.
  // ---------------------------------------------------------------------

  function AddOf(x: Num, y: Num): Num {
    var s := Max(x.Scale(), y.Scale());
    var v := AlignValue(x, s) + AlignValue(y, s);
    WithSign(v, s, if x.neg == y.neg then x.neg else v < 0)
  }

  function SubOf(x: Num, y: Num): Num {
    var s := Max(x.Scale(), y.Scale());
    var v := AlignValue(x, s) - AlignValue(y, s);
    WithSign(v, s, if x.neg != y.neg then x.neg else v < 0)
  }

  function MulOf(x: Num, y: Num, scale: nat): Num {
    var full, ps := x.Scale() + y.Scale(), ProductScale(x.Scale(), y.Scale(), scale);
    Canon(Quo(x.Value() * y.Value(), Pow10(full - ps)), ps)
  }

  function ModOf(x: Num, y: Num, scale: nat): Num
    requires y.Mag() != 0
  {
    var rs := RemScale(x, y, scale);
    var v := AlignValue(x, rs) - (Quotient(x, y, scale) * y.Value()) * Pow10(rs - (y.Scale() + scale));
    WithSign(v, rs, v < 0 || x.NegativeZero())
  }

  /** A power is cut without looking at its sign. */
  function CutPower(x: Num, e: nat, scale: nat): Num {
    var rs := PowerScale(x.Scale(), e, scale);
    var v := Quo(Pow(x.Value(), e), Pow10(Times(x.Scale(), e) - rs));
    WithSign(v, rs, PowerSign(x, e))
  }

  predicate TooLarge(y: Num) { ToLong(y) == 0 && (y.Len() > 1 || (y.Len() == 1 && y.whole[0] != 0)) }

  /** '^': an exponent that is too large and a negative power of zero are errors. */
  function PowOf(x: Num, y: Num, scale: nat): Option<Num> {
    var e := ToLong(y);
    if TooLarge(y) || (x.Mag() == 0 && y.neg) then None
    else if e == 0 then Some(ONE)
    else if e > 0 then Some(CutPower(x, e, scale))
    else if Pow(x.Value(), -e) == 0 then None
    else Some(Canon(Reciprocal(Pow(x.Value(), -e), Times(x.Scale(), -e), scale), scale))
  }

  function BinaryOf(op: char, x: Num, y: Num, scale: nat): Option<Num> {
    match op
    case '+' => Some(AddOf(x, y))
    case '-' => Some(SubOf(x, y))
    case '*' => Some(MulOf(x, y, scale))
    case '/' => if y.Mag() == 0 then None else Some(Canon(Quotient(x, y, scale), scale))
    case '%' => if y.Mag() == 0 then None else Some(ModOf(x, y, scale))
    case _ => PowOf(x, y, scale)
  }

  function NegateOf(x: Num): Num { Canon(-x.Value(), x.Scale()) }

  /** The integer square root. */
  function Isqrt(n: nat): (r: nat)
    ensures r * r <= n < (r + 1) * (r + 1)
  {
    if n == 0 then 0
    else
      var r := Isqrt(n - 1);
      if (r + 1) * (r + 1) <= n then r + 1 else r
  }

  function SqrtNum(x: Num, scale: nat): Option<Num> {
    if x.neg then None
    else if x.Mag() == 0 then Some(ZERO)
    else if x.Mag() == Pow10(x.Scale()) then Some(ONE)
    else
      var rs := Max(scale, x.Scale());
      ProductNonNegative(x.Mag(), Pow10(rs + rs));
      QuotientNonNegative(x.Mag() * Pow10(rs + rs), Pow10(x.Scale()));
      Some(Canon(Isqrt(x.Mag() * Pow10(rs + rs) / Pow10(x.Scale())), rs))
  }

  /** The bytes of a constant as the readers take them. */
  function Codes(s: seq<int>): seq<nat> { seq(|s|, i requires 0 <= i < |s| => if s[i] < 0 then 0 else s[i]) }

  /** The fast reader in base ten, the general one otherwise. */
  function ConstantOf(s: seq<int>, base: nat): Num {
    var c := Codes(s);
    if base == 10 then Canon(FastValue(c), |AfterPoint(c)|)
    else if base >= 2 then Canon(ConstantValue(c, base), |FracOf(c, base)|)
    else ZERO
  }

  /** The arithmetic of number.c and the constant readers of execute.c. */
  const ACTUAL: Arith := Arith(BinaryOf, Order, NegateOf, SqrtNum, ConstantOf, i => Canon(i, 0))

  // ---------------------------------------------------------------------
  // The routines compute these operations.
  // ---------------------------------------------------------------------

  lemma RaisedIs(r: Num, x: Num, e: nat, scale: nat)
    requires Raised(r, x, e, scale)
    ensures r == CutPower(x, e, scale)
  {
    var rs := PowerScale(x.Scale(), e, scale);
    var v := Quo(Pow(x.Value(), e), Pow10(Times(x.Scale(), e) - rs));
    var c := Canon(v, rs);
    SameMag(r, c, rs);
  }

  /** The interpreter's arithmetic instructions, on proper numbers. */
  method Arithmetic(op: char, x: Num, y: Num, scale: nat) returns (r: Option<Num>)
    requires ArithOp(op) && x.Proper() && y.Proper()
    ensures r == ACTUAL.binary(op, x, y, scale)
  {
    if op == '+' {
      var n := Add(x, y, 0);
      IsSigned(n, n.Value(), n.Scale());
      r := Some(n);
    } else if op == '-' {
      var n := Sub(x, y, 0);
      IsSigned(n, n.Value(), n.Scale());
      r := Some(n);
    } else if op == '*' {
      var n := Multiply(x, y, scale);
      IsCanon(n, n.Value(), n.Scale());
      r := Some(n);
    } else if op == '/' {
      r := Divide(x, y, scale);
      if r.Some? {
        IsCanon(r.value, Quotient(x, y, scale), scale);
      }
    } else if op == '%' {
      r := RemainderStep(x, y, scale);
    } else {
      r := PowerStep(x, y, scale);
    }
  }

  method RemainderStep(x: Num, y: Num, scale: nat) returns (r: Option<Num>)
    requires x.Proper() && y.Proper()
    ensures r == if y.Mag() == 0 then None else Some(ModOf(x, y, scale))
  {
    r := Modulo(x, y, scale);
    if r.Some? {
      ghost var q :| Is(q, Quotient(x, y, scale), scale) && Divides(x, y, scale, q, r.value);
      IsSigned(r.value, r.value.Value(), RemScale(x, y, scale));
    }
  }

  lemma {:induction false} PowZero(n: nat)
    requires n > 0
    ensures Pow(0, n) == 0
  {
  }

  /** '^', with the interpreter's own test for a negative power of zero. */
  method PowerStep(x: Num, y: Num, scale: nat) returns (r: Option<Num>)
    requires x.Proper() && y.Proper()
    ensures r == PowOf(x, y, scale)
  {
    var p, tooLarge := Raise(x, y, scale);
    var zero := IsZero(x);
    if tooLarge || (zero && y.neg) {
      return None;
    }
    r := p;
    ghost var e := ToLong(y);
    if e > 0 {
      RaisedIs(p.value, x, e, scale);
    } else if e < 0 && p.Some? {
      IsCanon(p.value, p.value.Value(), scale);
    }
  }

  /** The comparison behind the relational instructions. */
  method Ordering(x: Num, y: Num) returns (r: int)
    requires x.Proper() && y.Proper()
    ensures r == ACTUAL.order(x, y)
  {
    r := AddSub.Compare(x, y);
  }

  /** 'n': zero minus the number. */
  method Negation(x: Num) returns (r: Num)
    requires x.Proper()
    ensures r == ACTUAL.negate(x)
  {
    ConstantValues();
    r := Sub(ZERO, x, 0);
    assert AlignValue(x, x.Scale()) == x.Value() * Pow10(0) == x.Value();
    assert AlignValue(ZERO, x.Scale()) == 0;
    IsCanon(r, -x.Value(), x.Scale());
  }

  lemma RootQuotient(n: nat, p: nat, r: nat, q: nat)
    requires p > 0 && q == n / p && r * r <= q < (r + 1) * (r + 1)
    ensures (r * r) * p <= n < ((r + 1) * (r + 1)) * p
  {
    DivFacts(n, p);
    MulLe(r * r, q, p);
    MulLe(q + 1, (r + 1) * (r + 1), p);
  }

  lemma SquareUp(a: int, b: int)
    requires 0 <= a <= b
    ensures Square(a) <= Square(b)
  {
    MulLe(a, b, a);
    MulLe(a, b, b);
  }

  lemma RootUnique(a: int, b: int, m: nat, s: nat, rs: nat)
    requires SqrtOf(a, m, s, rs) && SqrtOf(b, m, s, rs) && 0 <= a && 0 <= b
    ensures a == b
  {
    if a < b {
      SquareUp(a + 1, b);
      MulLe(Square(a + 1), Square(b), Pow10(s));
    } else if b < a {
      SquareUp(b + 1, a);
      MulLe(Square(b + 1), Square(a), Pow10(s));
    }
  }

  lemma RootSign(a: int, m: nat, s: nat, rs: nat)
    requires SqrtOf(a, m, s, rs)
    ensures a >= 0
  {
    if a < 0 {
      assert Square(a + 1) <= Square(a) by {
        assert Square(a + 1) == Square(a) + 2 * a + 1;
      }
      MulLe(Square(a + 1), Square(a), Pow10(s));
    }
  }

  /** "cR". */
  method Root(x: Num, scale: nat) returns (r: Option<Num>)
    requires x.Proper()
    ensures r == ACTUAL.sqrt(x, scale)
  {
    r := Sqrt(x, scale);
    if r.Some? && x.Mag() != 0 && x.Mag() != Pow10(x.Scale()) {
      RootIs(r.value, x, Max(scale, x.Scale()));
    }
  }

  lemma RootIs(r: Num, x: Num, rs: nat)
    requires r.Canonical() && r.Scale() == rs && SqrtOf(r.Value(), x.Mag(), x.Scale(), rs)
    ensures x.Mag() * Pow10(rs + rs) >= 0 && x.Mag() * Pow10(rs + rs) / Pow10(x.Scale()) >= 0
    ensures r == Canon(Isqrt(x.Mag() * Pow10(rs + rs) / Pow10(x.Scale())), rs)
  {
    ProductNonNegative(x.Mag(), Pow10(rs + rs));
    var n, p := x.Mag() * Pow10(rs + rs), Pow10(x.Scale());
    QuotientNonNegative(n, p);
    var i := Isqrt(n / p);
    RootQuotient(n, p, i, n / p);
    RootSign(r.Value(), x.Mag(), x.Scale(), rs);
    RootUnique(r.Value(), i, x.Mag(), x.Scale(), rs);
    IsCanon(r, i, rs);
  }

  /** A constant as the scanner passes it on: no leading zero, no sign. */
  predicate Scanned(s: seq<nat>) { Constant(s) && Start(s) == 0 && (|WholeDigits(s)| <= 1 || WholeDigits(s)[0] != 0) }

  /** 'K': the fast reader in base ten, the general reader otherwise. */
  method ReadConstant(s: seq<nat>, base: nat) returns (n: Num)
    requires Scanned(s) && 2 <= base <= 16
    ensures n == ACTUAL.constant(s, base)
  {
    assert Codes(s) == s;
    if base == 10 {
      n := PushB10(s);
      IsCanon(n, FastValue(s), |AfterPoint(s)|);
    } else {
      n := PushConstant(s, base);
      IsCanon(n, ConstantValue(s, base), |FracOf(s, base)|);
    }
  }
}
