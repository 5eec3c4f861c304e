/** bc_raisemod: modular powers of integers. */
module ModularPower {
  import opened Wrappers
  import opened Digits
  import opened Numbers
  import opened Karatsuba
  import opened Division
  import opened Remainder
  import opened Power

  /** x and y differ by a multiple of m. */
  ghost predicate Congruent(x: int, y: int, m: int) { exists k :: x - y == Mult(k, m) }

  function Mult(k: int, m: int): int { k * m }

  lemma CongruentBy(x: int, y: int, m: int, k: int)
    requires x - y == k * m
    ensures Congruent(x, y, m)
  {
    assert x - y == Mult(k, m);
  }

  lemma CongruentTimes(x: int, y: int, z: int, m: int)
    requires Congruent(x, y, m)
    ensures Congruent(x * z, y * z, m)
  {
    var k :| x - y == Mult(k, m);
    assert x * z - y * z == (k * z) * m by {
      assert (x - y) * z == (k * m) * z;
    }
    CongruentBy(x * z, y * z, m, k * z);
  }

  lemma CongruentTrans(x: int, y: int, z: int, m: int)
    requires Congruent(x, y, m) && Congruent(y, z, m)
    ensures Congruent(x, z, m)
  {
    var k :| x - y == Mult(k, m);
    var l :| y - z == Mult(l, m);
    CongruentBy(x, z, m, k + l);
  }

  lemma {:induction false} CongruentPow(x: int, y: int, n: nat, m: int)
    requires Congruent(x, y, m)
    ensures Congruent(Pow(x, n), Pow(y, n), m)
  {
    if n == 0 {
      CongruentBy(1, 1, m, 0);
    } else {
      CongruentPow(x, y, n - 1, m);
      CongruentTimes(Pow(x, n - 1), Pow(y, n - 1), x, m);
      CongruentTimes(x, y, Pow(y, n - 1), m);
      CongruentTrans(Pow(x, n), Pow(y, n - 1) * x, Pow(y, n), m);
    }
  }

  /** n is an integer. */
  predicate Integer(n: Num) { n.Canonical() && n.Scale() == 0 }

  /** All numbers are integers and nothing is asked behind the point. */
  predicate Whole(base: Num, mod: Num, scale: nat) { Integer(base) && Integer(mod) && scale == 0 }

  /** r is smaller than mod in units of the last place asked for. */
  predicate Small(r: Num, mod: Num, scale: nat) {
    r.Scale() >= mod.Scale() + scale && r.Mag() < mod.Mag() * Pow10(r.Scale() - (mod.Scale() + scale))
  }

  /** A product and its remainder; exact for integers. */
  method MulMod(a: Num, b: Num, mod: Num, rscale: nat, scale: nat) returns (r: Num)
    requires a.Canonical() && b.Canonical() && mod.Canonical() && mod.Mag() != 0
    ensures r.Canonical() && Small(r, mod, scale)
    ensures Integer(a) && Whole(b, mod, scale) ==>
      Integer(r) && Congruent(r.Value(), a.Value() * b.Value(), mod.Value()) && r.Mag() < mod.Mag()
  {
    var product := Multiply(a, b, rscale);
    var d := DivMod(product, mod, scale);
    r := d.value.1;
    if Integer(a) && Whole(b, mod, scale) {
      assert Pow10(0) == 1;
      QuoOne(a.Value() * b.Value());
      IntegerRemainder(product, mod, d.value.0, r);
    }
  }

  lemma IntegerRemainder(n: Num, mod: Num, q: Num, r: Num)
    requires Integer(n) && Integer(mod) && Divides(n, mod, 0, q, r)
    ensures Integer(r) && Congruent(r.Value(), n.Value(), mod.Value()) && r.Mag() < mod.Mag()
  {
    assert Pow10(0) == 1;
    MultiplicandSign(q.Value(), mod.Value());
    CongruentBy(r.Value(), n.Value(), mod.Value(), -q.Value());
  }

  lemma MultiplicandSign(a: int, b: int)
    ensures (-a) * b == -(a * b)
  {
  }

  /** Halving the exponent: quotient and parity. */
  method Halve(e: Num) returns (half: Num, odd: Num)
    requires Integer(e) && !e.neg
    ensures Integer(half) && !half.neg && half.Value() == e.Value() / 2
    ensures Integer(odd) && odd.Value() == e.Value() % 2
  {
    ConstantValues();
    var d := DivMod(e, TWO, 0);
    half, odd := d.value.0, d.value.1;
    assert Pow10(0) == 1;
    assert e.Value() == half.Value() * 2 + odd.Value();
  }

  /** temp * power^e is congruent to the wanted power. */
  ghost predicate Pending(temp: Num, power: Num, e: nat, target: int, m: int) {
    Congruent(temp.Value() * Pow(power.Value(), e), target, m)
  }

  lemma OneBit(temp: int, power: int, e: nat, temp': int, m: int)
    requires if e % 2 == 1 then Congruent(temp', temp * power, m) else temp' == temp
    ensures Congruent(temp' * Pow(power * power, e / 2), temp * Pow(power, e), m)
  {
    PowStep(power, e);
    var g := Pow(power * power, e / 2);
    if e % 2 == 1 {
      CongruentTimes(temp', temp * power, g, m);
      MulAssoc(temp, power, g);
    } else {
      CongruentBy(temp' * g, temp * Pow(power, e), m, 0);
    }
  }

  lemma PendingStep(temp: int, power: int, e: nat, temp': int, power': int, target: int, m: int)
    requires Congruent(temp * Pow(power, e), target, m)
    requires Congruent(power', power * power, m)
    requires if e % 2 == 1 then Congruent(temp', temp * power, m) else temp' == temp
    ensures Congruent(temp' * Pow(power', e / 2), target, m)
  {
    var f, g := Pow(power', e / 2), Pow(power * power, e / 2);
    CongruentPow(power', power * power, e / 2, m);
    CongruentTimes(f, g, temp', m);
    OneBit(temp, power, e, temp', m);
    CongruentTrans(temp' * f, temp' * g, temp * Pow(power, e), m);
    CongruentTrans(temp' * f, temp * Pow(power, e), target, m);
  }

  /** bc_raisemod; a fraction in the exponent is cut off.  The result is always
      smaller than the modulus at the scale asked for, and on integers at scale
      zero it is congruent to the power. */
  method RaiseMod(base: Num, expo: Num, mod: Num, scale: nat) returns (r: Option<Num>)
    requires base.Canonical() && mod.Canonical() && expo.Canonical()
    ensures r.None? <==> mod.Mag() == 0 || expo.neg
    ensures r.Some? ==>
      var e := expo.Mag() / Pow10(expo.Scale());
      && r.value.Canonical() && (e > 0 ==> Small(r.value, mod, scale)) && (e == 0 ==> r.value == ONE)
      && (Whole(base, mod, scale) ==> Integer(r.value) && Congruent(r.value.Value(), Pow(base.Value(), e), mod.Value()))
      && (Whole(base, mod, scale) && e > 0 ==> r.value.Mag() < mod.Mag())
  {
    var zero := IsZero(mod);
    if zero || expo.neg {
      return None;
    }
    ConstantValues();
    var power, temp, rscale := base, ONE, Max(scale, base.Scale());
    var exponent := Truncate(expo);
    ghost var target, m, whole := Pow(base.Value(), exponent.Value()), mod.Value(), Whole(base, mod, scale);
    ghost var e0 := exponent.Value();
    CongruentBy(1 * target, target, m, 0);
    var done := IsZero(exponent);
    while !done
      invariant Integer(exponent) && !exponent.neg && power.Canonical() && temp.Canonical()
      invariant done <==> exponent.Value() == 0
      invariant whole ==> Whole(power, mod, scale) && Integer(temp) && Pending(temp, power, exponent.Value(), target, m)
      invariant exponent.Value() <= e0 && (exponent.Value() == e0 ==> temp == ONE)
      invariant exponent.Value() < e0 && exponent.Value() == 0 ==> Small(temp, mod, scale) && (whole ==> temp.Mag() < mod.Mag())
      decreases exponent.Value()
    {
      var half, odd := Halve(exponent);
      var even := IsZero(odd);
      ghost var t0 := temp;
      if !even {
        temp := MulMod(temp, power, mod, rscale, scale);
      }
      var square := MulMod(power, power, mod, rscale, scale);
      if whole {
        PendingStep(t0.Value(), power.Value(), exponent.Value(), temp.Value(), square.Value(), target, m);
      }
      power, exponent := square, half;
      done := IsZero(exponent);
    }
    r := Some(temp);
  }

  /** bc_divide(expo, 1, 0) when the exponent has a fraction. */
  method Truncate(expo: Num) returns (e: Num)
    requires expo.Canonical() && !expo.neg
    ensures Integer(e) && !e.neg && e.Value() == expo.Mag() / Pow10(expo.Scale())
  {
    assert Pow10(0) == 1;
    if expo.Scale() != 0 {
      ConstantValues();
      var q := Divide(expo, ONE, 0);
      e := q.value;
    } else {
      e := expo;
    }
  }
}
