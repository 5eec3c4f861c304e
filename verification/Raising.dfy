/** bc_raise: integer powers, truncated, and their reciprocals. */
module Raising {
  import opened Wrappers
  import opened Digits
  import opened Numbers
  import opened Division
  import opened Remainder
  import opened Power
  import opened LongValue

  function Times(a: nat, b: nat): nat { a * b }

  lemma TimesHalf(s: nat, e: nat)
    requires e % 2 == 0
    ensures Times(2 * s, e / 2) == Times(s, e)
  {
    assert e == 2 * (e / 2);
  }

  lemma TimesOdd(s: nat, e: nat)
    requires e % 2 == 1
    ensures Times(s, e) == s + Times(2 * s, e / 2)
  {
    assert e == 1 + 2 * (e / 2);
  }

  /** power and exponent still to be combined give v^n at scale total. */
  ghost predicate Pending(power: Num, e: nat, target: int, total: nat) {
    && power.Proper()
    && Pow(power.Value(), e) == target && Times(power.Scale(), e) == total
  }

  /** temp times power^2e gives v^n at scale total. */
  ghost predicate Accumulated(temp: Num, power: Num, e: nat, target: int, total: nat) {
    && temp.Proper() && power.Proper()
    && temp.Value() * Pow(power.Value() * power.Value(), e) == target
    && temp.Scale() + Times(2 * power.Scale(), e) == total
  }

  lemma PendingEven(power: Num, square: Num, e: nat, target: int, total: nat)
    requires Pending(power, e, target, total) && e % 2 == 0
    requires Is(square, power.Value() * power.Value(), 2 * power.Scale())
    ensures Pending(square, e / 2, target, total)
  {
    PowStep(power.Value(), e);
    TimesHalf(power.Scale(), e);
  }

  lemma PendingOdd(power: Num, e: nat, target: int, total: nat)
    requires Pending(power, e, target, total) && e % 2 == 1
    ensures Accumulated(power, power, e / 2, target, total)
  {
    PowStep(power.Value(), e);
    TimesOdd(power.Scale(), e);
  }

  lemma AccumulatedEven(temp: Num, power: Num, square: Num, e: nat, target: int, total: nat)
    requires Accumulated(temp, power, e, target, total) && e % 2 == 0
    requires Is(square, power.Value() * power.Value(), 2 * power.Scale())
    ensures Accumulated(temp, square, e / 2, target, total)
  {
    PowStep(square.Value(), e);
    TimesHalf(square.Scale(), e);
  }

  lemma AccumulatedOdd(temp: Num, power: Num, square: Num, temp': Num, e: nat, target: int, total: nat)
    requires Accumulated(temp, power, e, target, total) && e % 2 == 1
    requires Is(square, power.Value() * power.Value(), 2 * power.Scale())
    requires Is(temp', temp.Value() * square.Value(), temp.Scale() + square.Scale())
    ensures Accumulated(temp', square, e / 2, target, total)
  {
    PowStep(square.Value(), e);
    TimesOdd(square.Scale(), e);
    MulAssoc(temp.Value(), square.Value(), Pow(square.Value() * square.Value(), e / 2));
  }

  lemma AccumulatedDone(temp: Num, power: Num, target: int, total: nat)
    requires Accumulated(temp, power, 0, target, total)
    ensures temp.Proper() && temp.Value() == target && temp.Scale() == total
  {
  }

  /** First loop of bc_raise: square while the exponent is even. */
  method SquareOut(base: Num, n: nat, ghost target: int, ghost total: nat) returns (power: Num, exponent: nat)
    requires n > 0 && Pending(base, n, target, total)
    ensures exponent % 2 == 1 && Pending(power, exponent, target, total)
    ensures if n % 2 == 1 then power == base && exponent == n else power.Canonical()
  {
    power, exponent := base, n;
    var pwrscale := base.Scale();
    while exponent % 2 == 0
      invariant exponent > 0 && pwrscale == power.Scale()
      invariant Pending(power, exponent, target, total)
      invariant (power == base && exponent == n) || (n % 2 == 0 && power.Canonical())
      decreases exponent
    {
      pwrscale := 2 * pwrscale;
      var square := ExactProduct(power, power, pwrscale);
      PendingEven(power, square, exponent, target, total);
      power := square;
      exponent := exponent / 2;
    }
  }

  /** Second loop of bc_raise: square and multiply by the exponent's bits. */
  method SquareAndMultiply(start: Num, n: nat, ghost target: int, ghost total: nat) returns (temp: Num)
    requires Accumulated(start, start, n, target, total)
    ensures temp.Proper() && temp.Value() == target && temp.Scale() == total
    ensures if n == 0 then temp == start else temp.Canonical()
  {
    temp := start;
    var power, pwrscale, calcscale, exponent := start, start.Scale(), start.Scale(), n;
    while exponent > 0
      invariant exponent >= 0 && pwrscale == power.Scale() && calcscale == temp.Scale()
      invariant Accumulated(temp, power, exponent, target, total)
      invariant exponent == 0 ==> if n == 0 then temp == start else temp.Canonical()
      invariant exponent > 0 ==> n > 0
    {
      pwrscale := 2 * pwrscale;
      var square := ExactProduct(power, power, pwrscale);
      if exponent % 2 == 1 {
        calcscale := pwrscale + calcscale;
        var t := ExactProduct(temp, square, calcscale);
        AccumulatedOdd(temp, power, square, t, exponent, target, total);
        temp := t;
      } else {
        AccumulatedEven(temp, power, square, exponent, target, total);
      }
      power := square;
      exponent := exponent / 2;
    }
    AccumulatedDone(temp, power, target, total);
  }

  /** The sign of a power: that of its value, but the first power is the number
      itself, even if that is a negative zero. */
  predicate PowerSign(base: Num, n: nat) { if n == 1 then base.neg else Pow(base.Value(), n) < 0 }

  /** The power loops of bc_raise together: an exact power. */
  method ExactPower(base: Num, n: nat) returns (temp: Num)
    requires base.Proper() && n > 0
    ensures temp.Proper() && temp.Value() == Pow(base.Value(), n) && temp.Scale() == Times(base.Scale(), n)
    ensures temp.neg == PowerSign(base, n)
  {
    ghost var target, total := Pow(base.Value(), n), Times(base.Scale(), n);
    var power, exponent := SquareOut(base, n, target, total);
    PendingOdd(power, exponent, target, total);
    temp := SquareAndMultiply(power, exponent / 2, target, total);
  }

  /** The scale rule for positive exponents. */
  function PowerScale(s: nat, e: nat, scale: nat): nat { Min(Times(s, e), Max(scale, s)) }

  /** r is base^e cut to PowerScale digits.  Its sign is that of the exact
      power, so a negative power cut to nothing is a negative zero. */
  predicate Raised(r: Num, base: Num, e: nat, scale: nat) {
    var rs := PowerScale(base.Scale(), e, scale);
    && r.Trimmed() && r.Len() >= 1 && r.Scale() == rs
    && r.Value() == Quo(Pow(base.Value(), e), Pow10(Times(base.Scale(), e) - rs))
    && r.neg == PowerSign(base, e)
  }

  /** 1 / v^n in units of 10^-scale, truncated toward zero, for v^n at scale s. */
  function Reciprocal(v: int, s: nat, scale: nat): int
    requires v != 0
  {
    if v > 0 then Pow10(s + scale) / v else -(Pow10(s + scale) / -v)
  }

  /** Cutting fraction digits by lowering n_scale truncates the value. */
  method CutScale(n: Num, scale: nat) returns (r: Num)
    requires n.Proper()
    ensures r.Trimmed() && r.Len() >= 1 && r.neg == n.neg
    ensures r.Scale() == Min(scale, n.Scale())
    ensures r.Value() == Quo(n.Value(), Pow10(n.Scale() - r.Scale()))
  {
    r := if n.Scale() > scale then n.(frac := n.frac[..scale]) else n;
    assert r.Digits() == n.Digits()[..n.Len() + r.Scale()];
    ValPrefix(n.Digits(), n.Len() + r.Scale());
    QuoSigned(n.neg, n.Mag(), Pow10(n.Scale() - r.Scale()));
  }

  lemma ReciprocalQuotient(temp: Num, scale: nat)
    requires temp.Mag() != 0
    ensures Quotient(ONE, temp, scale) == Reciprocal(temp.Value(), temp.Scale(), scale)
  {
    ConstantValues();
    assert Pow10(0) == 1;
    assert ONE.Mag() * Pow10(temp.Scale() + scale) == Pow10(temp.Scale() + scale);
    assert temp.Mag() * Pow10(ONE.Scale()) == temp.Mag();
  }

  /** bc_raise.  tooLarge stands for the run-time error "exponent too large". */
  method Raise(num1: Num, num2: Num, scale: nat) returns (r: Option<Num>, tooLarge: bool)
    requires num1.Proper() && num2.Proper()
    ensures var e := if num2.neg then -Scan(num2.whole, 0) else Scan(num2.whole, 0);
      && (tooLarge <==> e == 0 && (num2.Len() > 1 || num2.whole[0] != 0))
      && (e == 0 ==> r == Some(ONE))
      && (e > 0 ==> r.Some? && Raised(r.value, num1, e, scale))
      && (e < 0 ==> (r.None? <==> Pow(num1.Value(), -e) == 0))
      && (e < 0 && r.Some? ==>
            Is(r.value, Reciprocal(Pow(num1.Value(), -e), Times(num1.Scale(), -e), scale), scale))
  {
    var exponent := Num2Long(num2);
    tooLarge := exponent == 0 && (num2.Len() > 1 || num2.whole[0] != 0);
    if exponent == 0 {
      return Some(ONE), tooLarge;
    }
    if exponent < 0 {
      var temp := ExactPower(num1, -exponent);
      if temp.Value() != 0 {
        ReciprocalQuotient(temp, scale);
      }
      r := Divide(ONE, temp, scale);
    } else {
      var rscale := PowerScale(num1.Scale(), exponent, scale);
      var temp := ExactPower(num1, exponent);
      var cut := CutScale(temp, rscale);
      r := Some(cut);
    }
  }

  /** The result is canonical unless a negative power, or a negative zero, is
      cut to zero. */
  lemma RaisedCanonical(r: Num, base: Num, e: nat, scale: nat)
    requires Raised(r, base, e, scale)
    ensures r.Canonical()
       <==> !(PowerSign(base, e)
              && -Pow(base.Value(), e) < Pow10(Times(base.Scale(), e) - PowerScale(base.Scale(), e, scale)))
  {
    var p, d := Pow(base.Value(), e), Pow10(Times(base.Scale(), e) - r.Scale());
    SignedPower(base, e);
    CutToZero(p, d);
  }

  /** Truncation toward zero cuts exactly the small numbers to zero. */
  lemma CutToZero(p: int, d: int)
    requires d > 0
    ensures p <= 0 ==> (Quo(p, d) == 0 <==> -p < d)
    ensures p >= 0 ==> Quo(p, d) >= 0
  {
    if p <= 0 {
      QuotientZero(-p, d);
    }
  }

  lemma SignedPower(base: Num, e: nat)
    ensures PowerSign(base, e) <==> Pow(base.Value(), e) < 0 || (e == 1 && base.NegativeZero())
    ensures e == 1 ==> Pow(base.Value(), e) == base.Value()
  {
    if e == 1 {
      assert Pow(base.Value(), 1) == base.Value() * Pow(base.Value(), 0) == base.Value();
    }
  }

  /** (-0.1)^3 with scale 0 is such a negative zero. */
  lemma NegativeZeroPower()
    ensures var base, r := Num(true, [0], [1]), Num(true, [0], [0]);
      base.Canonical() && Raised(r, base, 3, 0) && !r.Canonical()
  {
    var base, r := Num(true, [0], [1]), Num(true, [0], [0]);
    assert base.Digits() == [0] + [1] && r.Digits() == [0] + [0];
    ValCons(0, [1]);
    ValCons(0, [0]);
    ValOne(1);
    ValOne(0);
    assert Pow(-1, 3) == -1 && Times(1, 3) == 3 && PowerScale(1, 3, 0) == 1 && Pow10(2) == 100;
  }
}
