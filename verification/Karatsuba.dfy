/** Divide-and-conquer multiplication: _bc_rec_mul and bc_multiply. */
module Karatsuba {
  import opened Digits
  import opened Numbers
  import opened AddSub
  import opened SchoolMul
  import opened ShiftAdd

  const MUL_BASE_DIGITS := 80
  const MUL_SMALL_DIGITS := MUL_BASE_DIGITS / 4

  /** Digits of a product of one more digit than needed start with a zero. */
  predicate Slack(m: seq<Digit>) { |m| >= 1 && m[0] == 0 }

  lemma SlackFromBound(m: seq<Digit>)
    requires |m| >= 1 && Val(m) < Pow10(|m| - 1)
    ensures Slack(m)
  {
    if m[0] != 0 {
      ValLead(m);
    }
  }

  /** The sum of the four added terms, in units of the split base b. */
  function Positive(m1: int, m3: int, b: int): int { m1 * (b * b) + m1 * b + m3 * b + m3 }

  lemma KaratsubaIdentity(u1: int, u0: int, v1: int, v0: int, b: int)
    ensures (u1 * b + u0) * (v1 * b + v0)
         == (u1 * v1) * (b * b) + (u1 * v1) * b + (u0 * v0) * b + u0 * v0 + ((u1 - u0) * (v0 - v1)) * b
  {
  }

  /** The halves of u at n digits from the right. */
  ghost predicate Halves(u: seq<Digit>, n: nat, hi: Num, lo: Num) {
    && Operand(hi) && Operand(lo) && !hi.neg && !lo.neg && hi.frac == [] == lo.frac
    && Val(hi.whole) * Pow10(n) + Val(lo.whole) == Val(u)
    && 1 <= lo.Len() <= Min(n, |u|)
    && (if |u| < n then hi == ZERO else hi.Len() <= |u| - n)
    && Val(lo.whole) < Pow10(Min(n, |u|))
  }

  /** Split a string at n digits from the right; both halves lose leading zeros. */
  method Split(u: seq<Digit>, n: nat) returns (hi: Num, lo: Num)
    requires |u| >= 1 && n >= 1
    ensures Halves(u, n, hi, lo)
  {
    if |u| < n {
      var l := TrimWhole(u);
      hi, lo := ZERO, Num(false, l, []);
      SplitShort(u, n, l);
    } else {
      var h := TrimWhole(u[..|u| - n]);
      var l := TrimWhole(u[|u| - n..]);
      hi, lo := Num(false, h, []), Num(false, l, []);
      SplitLong(u, n, h, l);
    }
  }

  lemma SplitShort(u: seq<Digit>, n: nat, l: seq<Digit>)
    requires 1 <= |l| <= |u| < n && (|l| > 1 ==> l[0] != 0) && Val(l) == Val(u)
    ensures Halves(u, n, ZERO, Num(false, l, []))
  {
    ValOne(0);
    ValBound(u);
    MulEq(Val(ZERO.whole), 0, Pow10(n));
  }

  lemma SplitLong(u: seq<Digit>, n: nat, h: seq<Digit>, l: seq<Digit>)
    requires 1 <= n <= |u| && Val(h) == Val(u[..|u| - n]) && Val(l) == Val(u[|u| - n..])
    requires |h| <= |u| - n && 1 <= |l| <= n && (|h| > 1 ==> h[0] != 0) && (|l| > 1 ==> l[0] != 0)
    ensures Halves(u, n, Num(false, h, []), Num(false, l, []))
  {
    SplitValues(u, n, Val(h), Val(l));
    HalvesIntro(u, n, Num(false, h, []), Num(false, l, []));
  }

  lemma SplitValues(u: seq<Digit>, n: nat, h: nat, l: nat)
    requires n <= |u| && h == Val(u[..|u| - n]) && l == Val(u[|u| - n..])
    ensures h * Pow10(n) + l == Val(u) && l < Pow10(n)
  {
    ValSplit(u, |u| - n);
    ValBound(u[|u| - n..]);
  }

  lemma HalvesIntro(u: seq<Digit>, n: nat, hi: Num, lo: Num)
    requires 1 <= n <= |u| && !hi.neg && !lo.neg && hi.frac == [] == lo.frac && hi.Trimmed() && lo.Trimmed()
    requires hi.Len() <= |u| - n && 1 <= lo.Len() <= n
    requires Val(hi.whole) * Pow10(n) + Val(lo.whole) == Val(u) && Val(lo.whole) < Pow10(n)
    ensures Halves(u, n, hi, lo)
  {
  }

  lemma {:induction false} DifferenceValue(d: Num, a: Num, b: Num)
    requires d.frac == [] && a.frac == [] && b.frac == [] && !a.neg && !b.neg
    requires d.Value() == AlignValue(a, 0) - AlignValue(b, 0)
    ensures d.Digits() == d.whole
    ensures Val(d.whole) == d.Mag()
    ensures (if d.neg then -1 else 1) * Val(d.whole) == Val(a.whole) - Val(b.whole)
  {
    assert d.Digits() == d.whole && a.Digits() == a.whole && b.Digits() == b.whole;
  }

  /** The value the four additions reach fits the accumulator, even when the
      middle term is to be subtracted afterwards. */
  lemma PositiveFits(u1: nat, u0: nat, v1: nat, v0: nat, n: nat, ul: nat, vl: nat)
    requires n == (Max(ul, vl) + 1) / 2 && ul >= 2 && vl >= 2
    requires u0 < Pow10(Min(n, ul)) && v0 < Pow10(Min(n, vl))
    requires if ul < n then u1 == 0 else u1 < Pow10(ul - n)
    requires if vl < n then v1 == 0 else v1 < Pow10(vl - n)
    ensures Positive(u1 * v1, u0 * v0, Pow10(n)) < Pow10(ul + vl + 1)
  {
    var b := Pow10(n);
    if u1 * v1 == 0 {
      PositiveFitsLow(u0, v0, n, ul, vl);
    } else {
      PositiveFitsHigh(u1, u0, v1, v0, n, ul, vl);
    }
  }

  lemma PositiveFitsLow(u0: nat, v0: nat, n: nat, ul: nat, vl: nat)
    requires n == (Max(ul, vl) + 1) / 2 && ul >= 2 && vl >= 2
    requires u0 < Pow10(Min(n, ul)) && v0 < Pow10(Min(n, vl))
    ensures Positive(0, u0 * v0, Pow10(n)) < Pow10(ul + vl + 1)
  {
    if ul >= n {
      ThreePowers(n, n, Min(n, vl));
      LowAlgebra(u0, v0, Pow10(n), Pow10(Min(n, vl)), Pow10(n + n + Min(n, vl)));
      Pow10Monotone(n + n + Min(n, vl), ul + vl + 1);
    } else {
      ThreePowers(n, n, Min(n, ul));
      LowAlgebra(v0, u0, Pow10(n), Pow10(Min(n, ul)), Pow10(n + n + Min(n, ul)));
      Pow10Monotone(n + n + Min(n, ul), ul + vl + 1);
    }
  }

  /** (b - 1)(b + 1) stays below b^2. */
  lemma LowAlgebra(x: nat, y: nat, b: nat, c: nat, t: nat)
    requires x < b && y < c && (b * b) * c == t
    ensures (x * y) * b + x * y < t
  {
    var w := x * (b + 1);
    assert w <= b * b - 1 by {
      MulLe(x, b - 1, b + 1);
      assert (b - 1) * (b + 1) == b * b - 1;
    }
    assert (x * y) * b + x * y == w * y;
    ProductLess(w, y, b * b, c);
  }

  lemma ThreePowers(a: nat, b: nat, c: nat)
    ensures (Pow10(a) * Pow10(b)) * Pow10(c) == Pow10(a + b + c)
  {
    Pow10Add(a, b);
    Pow10Add(a + b, c);
    Substitute(Pow10(a), Pow10(b), Pow10(c), Pow10(a + b), Pow10(a + b + c));
  }

  lemma Substitute(x: int, y: int, z: int, xy: int, xyz: int)
    requires xy == x * y && xyz == xy * z
    ensures (x * y) * z == xyz
  {
  }

  lemma PowProductLess(a: nat, b: nat, i: nat, j: nat)
    requires a < Pow10(i) && b < Pow10(j)
    ensures a * b < Pow10(i + j)
  {
    Pow10Add(i, j);
    ProductLess(a, b, Pow10(i), Pow10(j));
  }

  lemma PositiveFitsHigh(u1: nat, u0: nat, v1: nat, v0: nat, n: nat, ul: nat, vl: nat)
    requires n == (Max(ul, vl) + 1) / 2 && ul >= 2 && vl >= 2
    requires u0 < Pow10(n) && v0 < Pow10(n)
    requires ul >= n && vl >= n && 0 < u1 < Pow10(ul - n) && 0 < v1 < Pow10(vl - n)
    ensures Positive(u1 * v1, u0 * v0, Pow10(n)) < Pow10(ul + vl + 1)
  {
    PowProductLess(u1, v1, ul - n, vl - n);
    ThreePowers(n, n, n);
    ThreePowers(ul - n + (vl - n), n, n);
    Pow10Monotone(n + n + n, ul + vl);
    HighBound(u1 * v1, u0, v0, Pow10(n), Pow10(ul - n + (vl - n)), Pow10(n + n + n), Pow10(ul + vl));
  }

  lemma HighBound(m1: int, u0: nat, v0: nat, b: nat, c: nat, cube: nat, t: nat)
    requires 0 <= m1 < c && u0 < b && v0 < b
    requires (c * b) * b == t && (b * b) * b == cube <= t
    ensures Positive(m1, u0 * v0, b) < 10 * t
  {
    ProductLess(u0, v0, b, b);
    ProductNonNegative(u0, v0);
    HighAlgebra(m1, u0 * v0, b, c, cube, t);
  }

  lemma HighAlgebra(m1: nat, m3: nat, b: nat, c: nat, cube: nat, t: nat)
    requires m1 < c && m3 < b * b && b >= 1
    requires (c * b) * b == t && (b * b) * b == cube <= t
    ensures m1 * (b * b) + m1 * b + m3 * b + m3 < 10 * t
  {
    MulLe(m1, c, b * b);
    MulAssoc(c, b, b);
    MulLe(b, b * b, m1);
    MulLe(m3, b * b, b);
    MulLe(1, b, m3);
    assert m1 * (b * b) <= t && m1 * b <= t && m3 * b <= t && m3 <= t;
    assert t >= 1;
  }

  /** A product string: its leading digit is zero unless it is the plain zero. */
  predicate Fits(m: seq<Digit>, shift: nat, width: nat) { Slack(m) && |m| - 1 + shift <= width }

  /** What the five calls of _bc_shift_addsub need and compute. */
  ghost predicate Combinable(m1: seq<Digit>, m2: seq<Digit>, m3: seq<Digit>, n: nat, width: nat, skip: bool, negate: bool) {
    var b := Pow10(n);
    && Positive(Val(m1), Val(m3), b) < Pow10(width)
    && Fits(m2, n, width) && Fits(m3, n, width)
    && (skip ==> Val(m1) == 0) && (!skip ==> Fits(m1, n + n, width))
    && (negate ==> Val(m2) * b <= Positive(Val(m1), Val(m3), b))
    && (!negate ==> Positive(Val(m1), Val(m3), b) + Val(m2) * b < Pow10(width))
  }

  lemma PositiveSteps(m1: nat, m3: nat, n: nat)
    ensures Pow10(n + n) == Pow10(n) * Pow10(n)
    ensures 0 <= m1 * Pow10(n + n)
    ensures 0 <= m1 * Pow10(n)
    ensures 0 <= m3 * Pow10(n)
    ensures m1 * Pow10(n + n) + m1 * Pow10(n) + m3 * Pow10(n) + m3 == Positive(m1, m3, Pow10(n))
  {
    Pow10Add(n, n);
  }

  method AddHigh(prod: array<Digit>, m1: seq<Digit>, n: nat)
    requires Fits(m1, n + n, prod.Length) && Val(prod[..]) == 0
    requires 0 <= Val(m1) * Pow10(n) && Val(m1) * Pow10(n + n) + Val(m1) * Pow10(n) < Pow10(prod.Length)
    modifies prod
    ensures Val(prod[..]) == Val(m1) * Pow10(n + n) + Val(m1) * Pow10(n)
  {
    ShiftAddSub(prod, m1, n + n, false);
    ShiftAddSub(prod, m1, n, false);
  }

  method AddLow(prod: array<Digit>, m3: seq<Digit>, n: nat)
    requires Fits(m3, n, prod.Length)
    requires 0 <= Val(m3) * Pow10(n) && Val(prod[..]) + Val(m3) * Pow10(n) + Val(m3) < Pow10(prod.Length)
    modifies prod
    ensures Val(prod[..]) == old(Val(prod[..])) + Val(m3) * Pow10(n) + Val(m3)
  {
    ShiftAddSub(prod, m3, n, false);
    assert Pow10(0) == 1;
    ShiftAddSub(prod, m3, 0, false);
  }

  method Combine(m1: seq<Digit>, m2: seq<Digit>, m3: seq<Digit>, n: nat, width: nat, skip: bool, negate: bool)
    returns (prod: array<Digit>)
    requires Combinable(m1, m2, m3, n, width, skip, negate)
    ensures fresh(prod) && prod.Length == width
    ensures Val(prod[..])
         == Positive(Val(m1), Val(m3), Pow10(n)) + (if negate then -1 else 1) * (Val(m2) * Pow10(n))
  {
    prod := new Digit[width](_ => 0);
    ValZeros(prod[..]);
    PositiveSteps(Val(m1), Val(m3), n);
    if !skip {
      AddHigh(prod, m1, n);
    }
    AddLow(prod, m3, n);
    ShiftAddSub(prod, m2, n, negate);
  }

  lemma HalvesBound(u: seq<Digit>, n: nat, hi: Num, lo: Num)
    requires Halves(u, n, hi, lo)
    ensures if |u| < n then Val(hi.whole) == 0 else Val(hi.whole) < Pow10(|u| - n)
  {
    if |u| < n {
      ValOne(0);
    } else {
      ValBound(hi.whole);
      Pow10Monotone(hi.Len(), |u| - n);
    }
  }

  lemma SignedProduct(neg1: bool, m1: nat, x: int, neg2: bool, m2: nat, y: int)
    requires (if neg1 then -1 else 1) * m1 == x && (if neg2 then -1 else 1) * m2 == y
    ensures (if neg1 != neg2 then -1 else 1) * (m1 * m2) == x * y
  {
  }

  lemma HalvesFit(u: seq<Digit>, v: seq<Digit>, n: nat, u1: Num, u0: Num, v1: Num, v0: Num)
    requires n == (Max(|u|, |v|) + 1) / 2 && |u| >= 2 && |v| >= 2
    requires Halves(u, n, u1, u0) && Halves(v, n, v1, v0)
    ensures Positive(Val(u1.whole) * Val(v1.whole), Val(u0.whole) * Val(v0.whole), Pow10(n)) < Pow10(|u| + |v| + 1)
  {
    HalvesBound(u, n, u1, u0);
    HalvesBound(v, n, v1, v0);
    PositiveFits(Val(u1.whole), Val(u0.whole), Val(v1.whole), Val(v0.whole), n, |u|, |v|);
  }

  /** The five shifted additions are in range and give u * v. */
  lemma Combined(u: seq<Digit>, v: seq<Digit>, n: nat, u1: Num, u0: Num, v1: Num, v0: Num,
                 m1: seq<Digit>, m2: seq<Digit>, m3: seq<Digit>, negate: bool)
    requires n == (Max(|u|, |v|) + 1) / 2 && |u| >= 2 && |v| >= 2
    requires Halves(u, n, u1, u0) && Halves(v, n, v1, v0)
    requires Val(m1) == Val(u1.whole) * Val(v1.whole)
    requires Val(m3) == Val(u0.whole) * Val(v0.whole)
    requires (if negate then -1 else 1) * Val(m2)
          == (Val(u1.whole) - Val(u0.whole)) * (Val(v0.whole) - Val(v1.whole))
    ensures var p := Positive(Val(m1), Val(m3), Pow10(n));
      && p < Pow10(|u| + |v| + 1)
      && p + (if negate then -1 else 1) * (Val(m2) * Pow10(n)) == Val(u) * Val(v)
  {
    var sign := if negate then -1 else 1;
    HalvesFit(u, v, n, u1, u0, v1, v0);
    CombinedAlgebra(Val(u1.whole), Val(u0.whole), Val(v1.whole), Val(v0.whole), Pow10(n),
                    Val(m1), Val(m2), Val(m3), sign, Val(u), Val(v));
  }

  lemma CombinedAlgebra(u1: int, u0: int, v1: int, v0: int, b: int,
                        m1: int, m2: int, m3: int, sign: int, u: int, v: int)
    requires u == u1 * b + u0 && v == v1 * b + v0
    requires m1 == u1 * v1 && m3 == u0 * v0 && sign * m2 == (u1 - u0) * (v0 - v1)
    ensures Positive(m1, m3, b) + sign * (m2 * b) == u * v
  {
    KaratsubaIdentity(u1, u0, v1, v0, b);
    MulAssoc(sign, m2, b);
    MulEq(sign * m2, (u1 - u0) * (v0 - v1), b);
  }

  lemma {:induction false} ShortProduct(m: seq<Digit>, u: seq<Digit>, v: seq<Digit>)
    requires |m| == |u| + |v| + 1 && Val(m) == Val(u) * Val(v)
    ensures Slack(m)
  {
    ProductBound(u, v);
    SlackFromBound(m);
  }

  /** One sub-product of the recursion; zero operands are not multiplied. */
  method SubProduct(x: Num, y: Num) returns (m: seq<Digit>, zero: bool)
    requires x.frac == [] == y.frac
    ensures Val(m) == Val(x.whole) * Val(y.whole)
    ensures zero ==> Val(m) == 0 && m == [0]
    ensures !zero ==> |m| == x.Len() + y.Len() + 1 && Val(x.whole) != 0 && Val(y.whole) != 0
    ensures Slack(m)
    decreases x.Len() + y.Len(), 1
  {
    assert x.Digits() == x.whole && y.Digits() == y.whole;
    var xz := IsZero(x);
    var yz := IsZero(y);
    zero := xz || yz;
    if zero {
      m := ZERO.whole;
      ValOne(0);
    } else {
      var prod := RecMul(x.whole, y.whole);
      m := prod[..];
    }
  }

  /** _bc_rec_mul: the exact product in |u| + |v| + 1 digits. */
  method RecMul(u: seq<Digit>, v: seq<Digit>) returns (prod: array<Digit>)
    ensures fresh(prod) && prod.Length == |u| + |v| + 1
    ensures Val(prod[..]) == Val(u) * Val(v) && Slack(prod[..])
    decreases |u| + |v|, 0
  {
    if |u| + |v| < MUL_BASE_DIGITS || |u| < MUL_SMALL_DIGITS || |v| < MUL_SMALL_DIGITS {
      prod := SimpMul(u, v);
      return;
    }
    var n := (Max(|u|, |v|) + 1) / 2;
    var u1, u0 := Split(u, n);
    var v1, v0 := Split(v, n);
    HalvesShrink(u, v, n, u1, u0, v1, v0);
    var m1, m1zero := SubProduct(u1, v1);
    var m2, negate := MiddleProduct(u1, u0, v1, v0);
    var m3, m3zero := SubProduct(u0, v0);
    Combined(u, v, n, u1, u0, v1, v0, m1, m2, m3, negate);
    ReadyToCombine(u, v, n, m1, m2, m3, m1zero, negate);
    prod := Combine(m1, m2, m3, n, |u| + |v| + 1, m1zero, negate);
    ShortProduct(prod[..], u, v);
  }

  /** The middle term |u1 - u0| * |v0 - v1| and whether it is negative. */
  method MiddleProduct(u1: Num, u0: Num, v1: Num, v0: Num) returns (m2: seq<Digit>, negate: bool)
    requires Whole(u1) && Whole(u0) && Whole(v1) && Whole(v0)
    requires u0.Len() >= 1 && v0.Len() >= 1
    ensures (if negate then -1 else 1) * Val(m2)
         == (Val(u1.whole) - Val(u0.whole)) * (Val(v0.whole) - Val(v1.whole))
    ensures Slack(m2) && |m2| <= Max(u1.Len(), u0.Len()) + Max(v1.Len(), v0.Len()) + 1
    decreases Max(u1.Len(), u0.Len()) + Max(v1.Len(), v0.Len()), 2
  {
    var d1 := Difference(u1, u0);
    var d2 := Difference(v0, v1);
    var m2zero;
    m2, m2zero := SubProduct(d1, d2);
    negate := d1.neg != d2.neg;
    SignedProduct(d1.neg, Val(d1.whole), Val(u1.whole) - Val(u0.whole),
                  d2.neg, Val(d2.whole), Val(v0.whole) - Val(v1.whole));
  }

  /** A non-negative integer operand. */
  predicate Whole(n: Num) { Operand(n) && !n.neg && n.frac == [] }

  method Difference(a: Num, b: Num) returns (d: Num)
    requires Whole(a) && Whole(b) && (a.Len() >= 1 || b.Len() >= 1)
    ensures d.frac == [] && 1 <= d.Len() <= Max(a.Len(), b.Len())
    ensures (if d.neg then -1 else 1) * Val(d.whole) == Val(a.whole) - Val(b.whole)
  {
    d := Sub(a, b, 0);
    DifferenceValue(d, a, b);
  }

  /** The recursion works on fewer digits, and its products fit the accumulator. */
  lemma HalvesShrink(u: seq<Digit>, v: seq<Digit>, n: nat, u1: Num, u0: Num, v1: Num, v0: Num)
    requires n == (Max(|u|, |v|) + 1) / 2 && |u| + |v| >= MUL_BASE_DIGITS
    requires |u| >= MUL_SMALL_DIGITS && |v| >= MUL_SMALL_DIGITS
    requires Halves(u, n, u1, u0) && Halves(v, n, v1, v0)
    ensures Whole(u1) && Whole(u0) && Whole(v1) && Whole(v0) && u0.Len() >= 1 && v0.Len() >= 1
    ensures u1.Len() + v1.Len() < |u| + |v|
    ensures u0.Len() + v0.Len() < |u| + |v|
    ensures Max(u1.Len(), u0.Len()) + Max(v1.Len(), v0.Len()) < |u| + |v|
    ensures u0.Len() + v0.Len() + n <= |u| + |v| + 1
    ensures Max(u1.Len(), u0.Len()) + Max(v1.Len(), v0.Len()) + n <= |u| + |v| + 1
    ensures Val(u1.whole) == 0 || Val(v1.whole) == 0 || u1.Len() + v1.Len() + n + n <= |u| + |v| + 1
  {
    HalvesBound(u, n, u1, u0);
    HalvesBound(v, n, v1, v0);
  }

  lemma ReadyToCombine(u: seq<Digit>, v: seq<Digit>, n: nat, m1: seq<Digit>, m2: seq<Digit>, m3: seq<Digit>,
                       skip: bool, negate: bool)
    requires Fits(m2, n, |u| + |v| + 1) && Fits(m3, n, |u| + |v| + 1)
    requires (skip ==> Val(m1) == 0) && (!skip ==> Fits(m1, n + n, |u| + |v| + 1))
    requires var p := Positive(Val(m1), Val(m3), Pow10(n));
      && p < Pow10(|u| + |v| + 1)
      && p + (if negate then -1 else 1) * (Val(m2) * Pow10(n)) == Val(u) * Val(v)
    ensures Combinable(m1, m2, m3, n, |u| + |v| + 1, skip, negate)
  {
    ProductBound(u, v);
    ProductNonNegative(Val(u), Val(v));
  }

  /** The scale rule of bc_multiply. */
  function ProductScale(s1: nat, s2: nat, scale: nat): nat { Min(s1 + s2, Max(scale, Max(s1, s2))) }

  lemma SignedMagnitudes(a: Num, b: Num)
    ensures a.Value() * b.Value()
         == (if a.neg != b.neg then -((a.Mag() * b.Mag()) as int) else a.Mag() * b.Mag())
    ensures a.Mag() * b.Mag() >= 0
  {
    SignedProduct(a.neg, a.Mag(), a.Value(), b.neg, b.Mag(), b.Value());
    ProductNonNegative(a.Mag(), b.Mag());
  }

  /** bc_multiply: the exact product, truncated toward zero to ProductScale digits. */
  method Multiply(n1: Num, n2: Num, scale: nat) returns (r: Num)
    requires n1.Len() >= 1 && n2.Len() >= 1
    ensures var full, ps := n1.Scale() + n2.Scale(), ProductScale(n1.Scale(), n2.Scale(), scale);
      Is(r, Quo(n1.Value() * n2.Value(), Pow10(full - ps)), ps)
  {
    var fullScale := n1.Scale() + n2.Scale();
    var prodScale := ProductScale(n1.Scale(), n2.Scale(), scale);
    var prod := RecMul(n1.Digits(), n2.Digits());
    var neg := n1.neg != n2.neg;
    r := Finish(neg, prod[..], prod.Length - fullScale, prodScale);
    SignedMagnitudes(n1, n2);
    QuoSigned(neg, n1.Mag() * n2.Mag(), Pow10(fullScale - prodScale));
    ValPrefix(prod[..], prod.Length - fullScale + prodScale);
  }
}
