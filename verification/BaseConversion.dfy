/** Printing integers in any base up to 16 (bc_out_num) and reading numbers
    in any such base (push_constant), with the fast reader for base ten
    (push_b10_const). */
module BaseConversion {
  import opened Digits
  import opened Numbers
  import opened AddSub
  import opened Division
  import opened Remainder
  import opened LongValue
  import opened SquareRoot
  import opened ModularPower

  // ---------------------------------------------------------------------
  // What a sequence of input characters denotes.
  // ---------------------------------------------------------------------

  /** A digit that is too large for the base counts as the largest digit. */
  function Clamp(d: nat, base: nat): (r: nat)
    requires base >= 2
    ensures r < base && (d < base ==> r == d)
  {
    if d >= base then base - 1 else d
  }

  function Horner(ds: seq<nat>, base: nat): nat
    requires base >= 2
    decreases |ds|
  {
    if ds == [] then 0 else Next(Horner(ds[..|ds| - 1], base), base, Clamp(ds[|ds| - 1], base))
  }

  /** One more digit. */
  function Next(n: nat, base: nat, d: nat): (r: nat) {
    ProductNonNegative(n, base);
    n * base + d
  }

  /** A single digit is taken as it is, whatever the base. */
  function WholePart(ds: seq<nat>, base: nat): nat
    requires base >= 2
  {
    if |ds| == 1 then ds[0] else Horner(ds, base)
  }

  /** The fraction digits that are read: a point with nothing behind it is
      followed by one digit of the largest value. */
  function FracDigits(dot: bool, ds: seq<nat>, base: nat): seq<nat>
    requires base >= 2
  {
    if dot && ds == [] then [base - 1] else ds
  }

  /** The character at i; behind the end there is only the terminator. */
  function InCh(s: seq<nat>, i: nat): nat { if i < |s| then s[i] else 58 }

  const POINT: nat := 46
  const PLUS: nat := 43
  const MINUS: nat := 45

  /** Where the digits that start at i end. */
  function End(s: seq<nat>, i: nat): (j: nat)
    requires i <= |s|
    ensures i <= j <= |s| && (forall k :: i <= k < j ==> s[k] < 16) && InCh(s, j) >= 16
    decreases |s| - i
  {
    if i < |s| && s[i] < 16 then End(s, i + 1) else i
  }

  /** Where the digits start: behind a sign. */
  function Start(s: seq<nat>): (i: nat)
    ensures i <= |s|
  {
    if InCh(s, 0) == PLUS || InCh(s, 0) == MINUS then 1 else 0
  }

  predicate Negative(s: seq<nat>) { InCh(s, 0) == MINUS }

  /** The digits in front of the point, and those behind it. */
  function WholeDigits(s: seq<nat>): seq<nat> { s[Start(s)..End(s, Start(s))] }

  predicate HasPoint(s: seq<nat>) { InCh(s, End(s, Start(s))) == POINT }

  function AfterPoint(s: seq<nat>): seq<nat> { if HasPoint(s) then s[End(s, Start(s)) + 1..] else [] }

  /** A sign, digits, a point and digits, of which only digits are required. */
  predicate Constant(s: seq<nat>) {
    if HasPoint(s) then forall k :: 0 <= k < |AfterPoint(s)| ==> AfterPoint(s)[k] < 16
    else End(s, Start(s)) == |s|
  }

  /** base^k. */
  function Base(base: nat, k: nat): (r: nat)
    requires base >= 2
    ensures r > 0
  {
    if k == 0 then 1
    else
      PositiveProduct(Base(base, k - 1), base);
      Base(base, k - 1) * base
  }

  /** The fraction that k digits with the value f stand for, cut to k decimal places. */
  function FracValue(f: nat, base: nat, k: nat): (r: nat)
    requires base >= 2
  {
    ProductNonNegative(f, Pow10(k));
    QuotientNonNegative(f * Pow10(k), Base(base, k));
    f * Pow10(k) / Base(base, k)
  }

  function FracOf(s: seq<nat>, base: nat): seq<nat>
    requires base >= 2
  {
    FracDigits(HasPoint(s), AfterPoint(s), base)
  }

  function Magnitude(s: seq<nat>, base: nat): (r: nat)
    requires base >= 2
  {
    var f := FracOf(s, base);
    ProductNonNegative(WholePart(WholeDigits(s), base), Pow10(|f|));
    WholePart(WholeDigits(s), base) * Pow10(|f|) + FracValue(Horner(f, base), base, |f|)
  }

  /** The number that a constant denotes, in units of its last place. */
  function ConstantValue(s: seq<nat>, base: nat): int
    requires base >= 2
  {
    var m: int := Magnitude(s, base);
    if Negative(s) then -m else m
  }

  // ---------------------------------------------------------------------
  // The general reader.
  // ---------------------------------------------------------------------

  /** build * mult + d. */
  method AppendDigit(build: Num, mult: Num, d: nat) returns (r: Num)
    requires Integer(build) && Integer(mult)
    ensures Is(r, build.Value() * mult.Value() + d, 0)
  {
    var product := ExactProduct(build, mult, 0);
    var temp := Int2Num(d);
    r := Add(product, temp, 0);
    assert Pow10(0) == 1;
  }

  lemma HornerSnoc(s: seq<nat>, i: nat, j: nat, base: nat)
    requires i <= j < |s| && base >= 2
    ensures Horner(s[i..j + 1], base) == Next(Horner(s[i..j], base), base, Clamp(s[j], base))
  {
    var t := s[i..j + 1];
    assert t[..|t| - 1] == s[i..j] && t[|t| - 1] == s[j];
  }

  lemma HornerOne(d: nat, base: nat)
    requires base >= 2
    ensures Horner([d], base) == Clamp(d, base)
  {
    assert [d][..0] == [];
    assert Horner([], base) == 0;
  }

  /** The integer part: a single digit is not clamped. */
  method ReadWhole(s: seq<nat>, i: nat, base: nat) returns (build: Num, j: nat)
    requires i <= |s| && 2 <= base <= 16
    ensures j == End(s, i) && Is(build, WholePart(s[i..j], base), 0)
  {
    ConstantValues();
    var mult := Int2Num(base);
    build, j := ZERO, i;
    if InCh(s, j) < 16 {
      var first := s[j];
      j := j + 1;
      if InCh(s, j) < 16 && first >= base {
        first := base - 1;
      }
      HornerOne(s[i], base);
      assert s[i..j] == [s[i]];
      build := Int2Num(first);
    }
    while InCh(s, j) < 16
      invariant i <= j <= |s| && End(s, j) == End(s, i) && (j == i ==> InCh(s, j) >= 16)
      invariant Is(build, if InCh(s, j) < 16 then Horner(s[i..j], base) else WholePart(s[i..j], base), 0)
      decreases |s| - j
    {
      HornerSnoc(s, i, j, base);
      LongWhole(s[i..j + 1], base);
      build := AppendDigit(build, mult, Clamp(s[j], base));
      j := j + 1;
    }
  }

  lemma LongWhole(ds: seq<nat>, base: nat)
    requires base >= 2 && |ds| >= 2
    ensures WholePart(ds, base) == Horner(ds, base)
  {
  }

  /** The digits behind the point, as a number over a power of the base.  The
      first character is clamped even if it is no digit. */
  method ReadFracDigits(s: seq<nat>, i: nat, base: nat) returns (result: Num, divisor: Num, digits: nat)
    requires i <= |s| && 2 <= base <= 16 && forall k :: i <= k < |s| ==> s[k] < 16
    ensures var f := FracDigits(true, s[i..], base);
      digits == |f| && Is(result, Horner(f, base), 0) && Is(divisor, Base(base, |f|), 0)
  {
    ConstantValues();
    var mult := Int2Num(base);
    ghost var f := FracDigits(true, s[i..], base);
    var j := i;
    var ch := Clamp(InCh(s, j), base);
    result, divisor, digits := ZERO, ONE, 0;
    while ch < 16
      invariant digits == j - i <= |f| && (ch < 16 <==> digits < |f|) && (ch < 16 ==> ch == Clamp(f[digits], base))
      invariant Is(result, Horner(f[..digits], base), 0) && Is(divisor, Base(base, digits), 0)
      decreases |f| - digits
    {
      HornerSnoc(f, 0, digits, base);
      assert f[0..digits + 1] == f[..digits + 1] && f[0..digits] == f[..digits];
      result := AppendDigit(result, mult, ch);
      divisor := ExactProduct(divisor, mult, 0);
      digits, j := digits + 1, j + 1;
      ch := InCh(s, j);
      if ch < 16 {
        ch := Clamp(ch, base);
      }
    }
    assert f[..digits] == f;
  }

  /** The fraction as a number. */
  method ReadFrac(s: seq<nat>, i: nat, base: nat) returns (r: Num, digits: nat)
    requires i <= |s| && 2 <= base <= 16 && forall k :: i <= k < |s| ==> s[k] < 16
    ensures var f := FracDigits(true, s[i..], base);
      digits == |f| && Is(r, FracValue(Horner(f, base), base, digits), digits)
  {
    var result, divisor;
    result, divisor, digits := ReadFracDigits(s, i, base);
    ghost var f := FracDigits(true, s[i..], base);
    var q := Divide(result, divisor, digits);
    r := q.value;
    IntegerQuotient(result, divisor, digits);
  }

  lemma IntegerQuotient(a: Num, b: Num, k: nat)
    requires Integer(a) && Integer(b) && !a.neg && !b.neg && b.Value() > 0
    ensures Quotient(a, b, k) == a.Value() * Pow10(k) / b.Value()
  {
    assert Pow10(0) == 1;
    assert b.Scale() + k == k;
  }

  /** Adding a fraction to an integer part. */
  method Together(build: Num, frac: Num, ghost w: nat, ghost f: nat, k: nat) returns (n: Num)
    requires Is(build, w, 0) && Is(frac, f, k)
    ensures Is(n, w * Pow10(k) + f, k)
  {
    n := Add(build, frac, 0);
    assert Pow10(0) == 1;
  }

  /** push_constant without the sign. */
  method PushUnsigned(s: seq<nat>, base: nat) returns (n: Num)
    requires Constant(s) && 2 <= base <= 16
    ensures Is(n, Magnitude(s, base), |FracOf(s, base)|)
  {
    var build, j := ReadWhole(s, Start(s), base);
    if InCh(s, j) == POINT {
      assert s[j + 1..] == AfterPoint(s);
      assert forall k :: j + 1 <= k < |s| ==> AfterPoint(s)[k - (j + 1)] == s[k];
      var frac, digits := ReadFrac(s, j + 1, base);
      n := Together(build, frac, WholePart(WholeDigits(s), base), FracValue(Horner(FracOf(s, base), base), base, digits), digits);
    } else {
      n := build;
      NoFraction(s, base);
    }
  }

  lemma NoFraction(s: seq<nat>, base: nat)
    requires base >= 2 && !HasPoint(s)
    ensures FracOf(s, base) == [] && Magnitude(s, base) == WholePart(WholeDigits(s), base)
  {
    assert Pow10(0) == 1 && Horner([], base) == 0 && FracValue(0, base, 0) == 0;
  }

  /** push_constant. */
  method PushConstant(s: seq<nat>, base: nat) returns (n: Num)
    requires Constant(s) && 2 <= base <= 16
    ensures Is(n, ConstantValue(s, base), |FracOf(s, base)|)
  {
    n := PushUnsigned(s, base);
    if Negative(s) {
      ConstantValues();
      assert Pow10(0) == 1;
      n := Sub(ZERO, n, 0);
    }
  }

  // ---------------------------------------------------------------------
  // The fast reader for base ten.
  // ---------------------------------------------------------------------

  function Clamped(ds: seq<nat>): (r: seq<Digit>)
    ensures |r| == |ds| && forall i :: 0 <= i < |ds| ==> r[i] == Clamp(ds[i], 10)
  {
    seq(|ds|, i requires 0 <= i < |ds| => Clamp(ds[i], 10) as Digit)
  }

  lemma {:induction false} ClampedValue(ds: seq<nat>)
    ensures Val(Clamped(ds)) == Horner(ds, 10)
    decreases |ds|
  {
    if ds != [] {
      var k := |ds| - 1;
      ClampedValue(ds[..k]);
      assert Clamped(ds)[..k] == Clamped(ds[..k]);
    }
  }

  lemma {:induction false} BaseTen(k: nat)
    ensures Base(10, k) == Pow10(k)
    decreases k
  {
    if k > 0 {
      BaseTen(k - 1);
    }
  }

  /** The integer part as the fast reader takes it: a digit above nine
      stands for itself only if it is the whole constant. */
  function FastWhole(s: seq<nat>): nat {
    if |WholeDigits(s)| == 1 && AfterPoint(s) == [] then WholeDigits(s)[0] else Horner(WholeDigits(s), 10)
  }

  function FastValue(s: seq<nat>): (r: nat) {
    ProductNonNegative(FastWhole(s), Pow10(|AfterPoint(s)|));
    FastWhole(s) * Pow10(|AfterPoint(s)|) + Horner(AfterPoint(s), 10)
  }

  /** push_b10_const: count the digits, then copy them. */
  method PushB10(s: seq<nat>) returns (n: Num)
    requires Constant(s) && Start(s) == 0
    ensures !n.neg && n.Value() == FastValue(s) && n.Scale() == |AfterPoint(s)|
    ensures n.Canonical() <==> |WholeDigits(s)| <= 1 || WholeDigits(s)[0] != 0
  {
    var kdigits := 0;
    while kdigits < |s| && s[kdigits] < 16
      invariant 0 <= kdigits <= |s| && End(s, kdigits) == End(s, 0)
    {
      kdigits := kdigits + 1;
    }
    var whole := s[..kdigits];
    var frac := if kdigits < |s| then s[kdigits + 1..] else [];
    assert whole == WholeDigits(s) && frac == AfterPoint(s);
    if kdigits == 1 && frac == [] {
      n := Int2Num(s[0]);
      assert Pow10(0) == 1 && Horner([], 10) == 0;
    } else {
      n := Num(false, if kdigits == 0 then [0] else Clamped(whole), Clamped(frac));
      CopiedValue(s, n);
    }
  }

  lemma CopiedValue(s: seq<nat>, n: Num)
    requires !(|WholeDigits(s)| == 1 && AfterPoint(s) == [])
    requires n == Num(false, if WholeDigits(s) == [] then [0] else Clamped(WholeDigits(s)), Clamped(AfterPoint(s)))
    ensures n.Value() == FastValue(s)
    ensures n.Canonical() <==> |WholeDigits(s)| <= 1 || WholeDigits(s)[0] != 0
  {
    MagSplit(n);
    ClampedValue(WholeDigits(s));
    ClampedValue(AfterPoint(s));
    if WholeDigits(s) == [] {
      ValOne(0);
    }
  }

  /** The two readers agree in base ten exactly if the constant does not end
      in a point, and is not a single digit above nine with a fraction. */
  lemma ReadersAgree(s: seq<nat>)
    requires Constant(s) && Start(s) == 0
    ensures (ConstantValue(s, 10) == FastValue(s) && |FracOf(s, 10)| == |AfterPoint(s)|)
       <==> !(HasPoint(s) && AfterPoint(s) == []) && !(|WholeDigits(s)| == 1 && WholeDigits(s)[0] > 9 && AfterPoint(s) != [])
  {
    var w, f := WholeDigits(s), AfterPoint(s);
    if !(HasPoint(s) && f == []) {
      BaseTen(|f|);
      TenthsExact(Horner(f, 10), |f|);
      if |w| == 1 {
        HornerOne(w[0], 10);
        assert w == [w[0]];
        if f != [] && w[0] > 9 {
          MulLess(9, w[0], Pow10(|f|));
        }
      }
    }
  }

  /** A.5 is 10.5 to the general reader and 9.5 to the fast one. */
  lemma LargeDigitDiffers()
    ensures Constant([10, POINT, 5]) && Start([10, POINT, 5]) == 0
    ensures ConstantValue([10, POINT, 5], 10) == 105 && FastValue([10, POINT, 5]) == 95
    ensures FracOf([10, POINT, 5], 10) == AfterPoint([10, POINT, 5]) == [5]
  {
    var s: seq<nat> := [10, POINT, 5];
    assert End(s, 0) == 1 && WholeDigits(s) == [10] && AfterPoint(s) == [5];
    HornerOne(10, 10);
    HornerOne(5, 10);
    TenthsExact(5, 1);
    assert Pow10(1) == 10 * Pow10(0);
  }

  /** 5. is 5.9 to the general reader and 5 to the fast one. */
  lemma TrailingPointDiffers()
    ensures Constant([5, POINT]) && Start([5, POINT]) == 0
    ensures ConstantValue([5, POINT], 10) == 59 && FracOf([5, POINT], 10) == [9]
    ensures FastValue([5, POINT]) == 5 && AfterPoint([5, POINT]) == []
  {
    var s: seq<nat> := [5, POINT];
    assert End(s, 0) == 1 && WholeDigits(s) == [5] && AfterPoint(s) == [];
    HornerOne(9, 10);
    TenthsExact(9, 1);
    assert Pow10(1) == 10 * Pow10(0) && Horner([], 10) == 0;
  }

  lemma MulLess(a: nat, b: nat, c: nat)
    requires a < b && c > 0
    ensures a * c < b * c
  {
    MulLe(a + 1, b, c);
  }

  lemma TenthsExact(f: nat, k: nat)
    ensures FracValue(f, 10, k) == f
  {
    BaseTen(k);
    DivModUnique(f * Pow10(k), Pow10(k), f, 0);
  }

  // ---------------------------------------------------------------------
  // The printer.
  // ---------------------------------------------------------------------

  /** The digits of n, the highest first; none for zero. */
  function DigitsOf(n: nat, base: nat): (ds: seq<nat>)
    requires base >= 2
    ensures forall i :: 0 <= i < |ds| ==> ds[i] < base
    ensures n > 0 ==> ds != []
  {
    if n == 0 then [] else
      QuotientSmaller(n, base);
      DigitsOf(n / base, base) + [n % base]
  }

  lemma QuotientSmaller(n: nat, base: nat)
    requires base >= 2 && n > 0
    ensures 0 <= n / base < n
  {
    var q := n / base;
    assert n == q * base + n % base;
    if q >= n {
      MulLe(n, q, base);
      assert n * base >= 2 * n by { MulLe(2, base, n); }
      assert false;
    }
  }

  /** The characters of bc_out_num as the reader sees them: the sign and the
      values of the digits. */
  method OutInt(num: Num, base: nat) returns (out: seq<nat>)
    requires Integer(num) && 2 <= base <= 16
    ensures out == (if num.neg then [MINUS] else []) + (if num.Mag() == 0 then [0] else DigitsOf(num.Mag(), base))
  {
    out := if num.neg then [MINUS] else [];
    var zero := IsZero(num);
    if zero {
      out := out + [0];
    } else if base == 10 {
      assert num.Digits() == num.whole;
      if num.Len() == 1 {
        assert num.whole == [num.whole[0]];
        ValOne(num.whole[0]);
      }
      WholeDigitsOf(num.whole);
      out := out + Naturals(num.whole);
    } else {
      var ds := BaseDigits(num, base);
      out := out + ds;
    }
  }

  function Naturals(ds: seq<Digit>): seq<nat> { seq(|ds|, i requires 0 <= i < |ds| => ds[i] as nat) }

  /** Decimal digits without leading zeros are the digits in base ten. */
  lemma {:induction false} WholeDigitsOf(ds: seq<Digit>)
    requires ds != [] && ds[0] != 0
    ensures Val(ds) > 0 && DigitsOf(Val(ds), 10) == Naturals(ds)
    decreases |ds|
  {
    var k := |ds| - 1;
    var rest := ds[..k];
    if k == 0 {
      assert rest == [] && Val(rest) == 0;
      assert DigitsOf(ds[0], 10) == DigitsOf(0, 10) + [ds[0]];
    } else {
      WholeDigitsOf(rest);
      DivModUnique(Val(ds), 10, Val(rest), ds[k]);
      assert Naturals(ds) == Naturals(rest) + [ds[k]];
    }
  }

  /** Divide by the base until nothing is left; the digits come out lowest first. */
  method BaseDigits(num: Num, base: nat) returns (ds: seq<nat>)
    requires Integer(num) && 2 <= base <= 16
    ensures ds == DigitsOf(num.Mag(), base)
  {
    ConstantValues();
    var b := Int2Num(base);
    var q := Divide(num, ONE, 0);
    var part := q.value.(neg := false);
    WholeItself(num);
    ds := [];
    var done := IsZero(part);
    while !done
      invariant Integer(part) && !part.neg && (done <==> part.Mag() == 0)
      invariant DigitsOf(num.Mag(), base) == DigitsOf(part.Mag(), base) + ds
      decreases part.Mag()
    {
      var m, d := OneDigit(part, b, base);
      ghost var v := part.Mag();
      QuotientSmaller(v, base);
      assert DigitsOf(v / base, base) + [v % base] + ds == DigitsOf(v / base, base) + ([v % base] + ds);
      ds := [d] + ds;
      part := m;
      done := IsZero(part);
    }
    assert [] + ds == ds;
  }

  lemma WholeItself(n: Num)
    requires Integer(n)
    ensures ONE.Mag() == 1 && Quotient(n, ONE, 0) == n.Value()
  {
    ConstantValues();
    assert Pow10(0) == 1;
  }

  /** The last digit and the rest. */
  method OneDigit(part: Num, b: Num, base: nat) returns (rest: Num, d: nat)
    requires Integer(part) && !part.neg && 2 <= base <= 16 && Is(b, base, 0)
    ensures Integer(rest) && !rest.neg && rest.Mag() == part.Mag() / base && d == part.Mag() % base
  {
    var m := DivMod(part, b, 0);
    var q, r := m.value.0, m.value.1;
    assert Pow10(0) == 1;
    IntegerQuotient(part, b, 0);
    assert !q.neg;
    assert part.Value() == q.Value() * base + r.Value();
    DivModUnique(part.Mag(), base, q.Mag(), r.Mag());
    rest := q;
    assert r.Digits() == r.whole;
    ScanExact(r.whole);
    d := Num2Long(r);
  }

  // ---------------------------------------------------------------------
  // Reading undoes printing.
  // ---------------------------------------------------------------------

  lemma HornerAppend(ds: seq<nat>, d: nat, base: nat)
    requires base >= 2 && d < base
    ensures Horner(ds + [d], base) == Next(Horner(ds, base), base, d)
  {
    assert (ds + [d])[..|ds|] == ds;
  }

  lemma DivModBack(n: nat, base: nat)
    requires base >= 2
    ensures n / base >= 0 && 0 <= n % base < base && Next(n / base, base, n % base) == n
  {
    QuotientNonNegative(n, base);
  }

  lemma {:induction false} HornerDigits(n: nat, base: nat)
    requires base >= 2
    ensures Horner(DigitsOf(n, base), base) == n
    decreases n
  {
    if n > 0 {
      QuotientSmaller(n, base);
      DivModBack(n, base);
      var q: nat, r: nat := n / base, n % base;
      HornerDigits(q, base);
      HornerAppend(DigitsOf(q, base), r, base);
    }
  }

  /** The digits printed for a magnitude. */
  function Printed(m: nat, base: nat): (ds: seq<nat>)
    requires 2 <= base <= 16
    ensures ds != [] && forall i :: 0 <= i < |ds| ==> ds[i] < base
  {
    if m == 0 then [0] else DigitsOf(m, base)
  }

  lemma PrintedValue(m: nat, base: nat)
    requires 2 <= base <= 16
    ensures WholePart(Printed(m, base), base) == m
  {
    var ds := Printed(m, base);
    if m > 0 {
      HornerDigits(m, base);
    }
    if |ds| == 1 {
      HornerOne(ds[0], base);
      assert ds == [ds[0]];
    }
  }

  lemma {:induction false} EndOfDigits(s: seq<nat>, i: nat)
    requires i <= |s| && forall k :: i <= k < |s| ==> s[k] < 16
    ensures End(s, i) == |s|
    decreases |s| - i
  {
    if i < |s| {
      EndOfDigits(s, i + 1);
    }
  }

  /** What is printed for an integer reads back as that integer. */
  lemma PrintedReads(neg: bool, m: nat, base: nat, s: seq<nat>)
    requires 2 <= base <= 16 && s == (if neg then [MINUS] else []) + Printed(m, base)
    ensures Constant(s) && FracOf(s, base) == [] && ConstantValue(s, base) == if neg then -(m as int) else m
  {
    var ds := Printed(m, base);
    var i := if neg then 1 else 0;
    assert s[i..] == ds && Start(s) == i;
    EndOfDigits(s, i);
    assert WholeDigits(s) == ds;
    PrintedValue(m, base);
    assert Pow10(0) == 1 && Horner([], base) == 0 && FracValue(0, base, 0) == 0;
  }

  /** Printing an integer and reading the characters back in the same base
      gives the same integer. */
  method PrintAndRead(num: Num, base: nat) returns (r: Num)
    requires Integer(num) && 2 <= base <= 16
    ensures r == num
  {
    var out := OutInt(num, base);
    PrintedReads(num.neg, num.Mag(), base, out);
    r := PushConstant(out, base);
    IsUnique(r, num, num.Value(), 0);
  }
}
