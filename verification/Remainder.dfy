/** bc_divmod and bc_modulo: a truncated quotient and its exact remainder. */
module Remainder {
  import opened Wrappers
  import opened Digits
  import opened Numbers
  import opened AddSub
  import opened Karatsuba
  import opened Division

  /** The scale of a remainder. */
  function RemScale(n1: Num, n2: Num, scale: nat): nat { Max(n1.Scale(), n2.Scale() + scale) }

  /** quot and rem divide n1 by n2: n1 = quot * n2 + rem with nothing lost,
      rem below one unit of the last quotient place, and rem signed like n1; only
      a negative zero leaves a negative zero. */
  predicate Divides(n1: Num, n2: Num, scale: nat, quot: Num, rem: Num) {
    var rs := RemScale(n1, n2, scale);
    var unit := Pow10(rs - (n2.Scale() + scale));
    && quot.Scale() == scale && rem.Scale() == rs
    && quot.Canonical() && rem.Proper() && (rem.NegativeZero() <==> n1.NegativeZero())
    && AlignValue(n1, rs) == (quot.Value() * n2.Value()) * unit + rem.Value()
    && rem.Mag() < n2.Mag() * unit
    && (rem.Value() == 0 || rem.neg == n1.neg)
  }

  /** The heart of the matter on magnitudes: q * b never exceeds a, and falls
      short by less than b. */
  lemma RemainderMagnitude(a: nat, b: nat, q: nat, s1: nat, s2: nat, rs: nat)
    requires b > 0 && s1 <= rs && s2 <= rs && b * Pow10(s1) > 0
    requires q == (a * Pow10(s2)) / (b * Pow10(s1))
    ensures 0 <= a * Pow10(rs - s1) - (q * b) * Pow10(rs - s2) < b * Pow10(rs - s2)
  {
    Pow10Add(s1, rs - s1);
    Pow10Add(s2, rs - s2);
    RemainderFrom(a, b, q, Pow10(s1), Pow10(s2), Pow10(rs - s1), Pow10(rs - s2), Pow10(rs));
  }

  lemma RemainderFrom(a: nat, b: nat, q: nat, p1: nat, p2: nat, k1: nat, k2: nat, p: nat)
    requires p1 > 0 && k2 > 0 && p1 * k1 == p && p2 * k2 == p && b * p1 > 0
    requires q == (a * p2) / (b * p1)
    ensures 0 <= a * k1 - (q * b) * k2 < b * k2
  {
    DivModFacts(a * p2, b * p1);
    RemainderAlgebra(a, b, q, (a * p2) % (b * p1), p1, p2, k1, k2, p);
  }

  lemma DivModFacts(x: int, d: int)
    requires d > 0
    ensures x == (x / d) * d + x % d && 0 <= x % d < d
  {
  }

  lemma RemainderAlgebra(a: nat, b: nat, q: nat, r: nat, p1: nat, p2: nat, k1: nat, k2: nat, p: nat)
    requires p1 > 0 && k2 > 0 && p1 * k1 == p && p2 * k2 == p
    requires a * p2 == q * (b * p1) + r && r < b * p1
    ensures 0 <= a * k1 - (q * b) * k2 < b * k2
  {
    var e := a * k1 - (q * b) * k2;
    calc {
      e * p1;
      a * (p1 * k1) - (q * (b * p1)) * k2;
      (a * p2) * k2 - (q * (b * p1)) * k2;
      r * k2;
    }
    MulLe(r + 1, b * p1, k2);
    assert (b * p1) * k2 == (b * k2) * p1;
    if e < 0 {
      MulLe(e, -1, p1);
    }
    if e >= b * k2 {
      MulLe(b * k2, e, p1);
    }
  }

  /** Truncation toward zero: the remainder is the remainder of the magnitudes, signed like n1. */
  lemma SignedDivision(neg1: bool, neg2: bool, a: nat, b: nat, q: nat, k1: nat, k2: nat,
                       v1: int, v2: int, vq: int, d: int)
    requires v1 == (if neg1 then -(a as int) else a) && v2 == (if neg2 then -(b as int) else b)
    requires vq == (if neg1 != neg2 then -(q as int) else q)
    requires d == a * k1 - (q * b) * k2
    ensures v1 * k1 - (vq * v2) * k2 == if neg1 then -d else d
  {
    assert vq * v2 == if neg1 then -(q * b) else q * b;
  }

  lemma RemainderValue(n1: Num, n2: Num, scale: nat, rs: nat) returns (d: nat)
    requires n2.Mag() != 0 && rs == RemScale(n1, n2, scale)
    ensures d < n2.Mag() * Pow10(rs - (n2.Scale() + scale))
    ensures n1.Value() * Pow10(rs - n1.Scale())
          - (Quotient(n1, n2, scale) * n2.Value()) * Pow10(rs - (n2.Scale() + scale))
         == if n1.neg then -(d as int) else d
  {
    var k1, k2 := Pow10(rs - n1.Scale()), Pow10(rs - (n2.Scale() + scale));
    var q := QuotientMagnitude(n1, n2, scale);
    PositiveProduct(n2.Mag(), Pow10(n1.Scale()));
    RemainderMagnitude(n1.Mag(), n2.Mag(), q, n1.Scale(), n2.Scale() + scale, rs);
    d := n1.Mag() * k1 - (q * n2.Mag()) * k2;
    SignedDivision(n1.neg, n2.neg, n1.Mag(), n2.Mag(), q, k1, k2, n1.Value(), n2.Value(),
                   Quotient(n1, n2, scale), d);
  }

  lemma DividesIntro(n1: Num, n2: Num, scale: nat, quot: Num, rem: Num)
    requires n2.Mag() != 0
    requires Is(quot, Quotient(n1, n2, scale), scale)
    requires var rs := RemScale(n1, n2, scale);
      && rem.Proper() && (rem.NegativeZero() <==> n1.NegativeZero()) && rem.Scale() == rs
      && rem.Value() == AlignValue(n1, rs) - (quot.Value() * n2.Value()) * Pow10(rs - (n2.Scale() + scale))
    ensures Divides(n1, n2, scale, quot, rem)
  {
    var d := RemainderValue(n1, n2, scale, RemScale(n1, n2, scale));
  }

  lemma SignAlgebra(t: int, p: int)
    requires p > 0
    ensures t == 0 ==> t * p == 0
    ensures t < 0 ==> t * p < 0
    ensures t > 0 ==> t * p > 0
  {
  }

  /** The sign that the subtraction gives a remainder. */
  lemma RemainderSign(n1: Num, n2: Num, scale: nat, quot: Num, rem: Num, minus: bool)
    requires n2.Mag() != 0 && Is(quot, Quotient(n1, n2, scale), scale)
    requires rem.Value() == AlignValue(n1, RemScale(n1, n2, scale))
      - (quot.Value() * n2.Value()) * Pow10(RemScale(n1, n2, scale) - (n2.Scale() + scale))
    requires minus <==> quot.Value() * n2.Value() < 0
    requires rem.neg == if n1.neg != minus then n1.neg else rem.Value() < 0
    ensures rem.NegativeZero() <==> n1.NegativeZero()
  {
    var rs := RemScale(n1, n2, scale);
    var d := RemainderValue(n1, n2, scale, rs);
    AlignSigned(n1, rs);
    AlignZero(n1, rs);
    SignAlgebra(quot.Value() * n2.Value(), Pow10(rs - (n2.Scale() + scale)));
  }

  /** bc_divmod. */
  method DivMod(n1: Num, n2: Num, scale: nat) returns (r: Option<(Num, Num)>)
    requires n1.Proper() && n2.Proper()
    ensures r.None? <==> n2.Mag() == 0
    ensures r.Some? ==> Is(r.value.0, Quotient(n1, n2, scale), scale) && Divides(n1, n2, scale, r.value.0, r.value.1)
  {
    var zero := IsZero(n2);
    if zero {
      return None;
    }
    var rs := RemScale(n1, n2, scale);
    var q := Divide(n1, n2, scale);
    var quot := q.value;
    var temp := ExactProduct(quot, n2, rs);
    var rem := Sub(n1, temp, rs);
    RemainderSign(n1, n2, scale, quot, rem, temp.neg);
    DividesIntro(n1, n2, scale, quot, rem);
    r := Some((quot, rem));
  }

  /** A product asked for at full scale loses no digits. */
  method ExactProduct(a: Num, b: Num, scale: nat) returns (p: Num)
    requires a.Len() >= 1 && b.Len() >= 1 && scale >= a.Scale() + b.Scale()
    ensures Is(p, a.Value() * b.Value(), a.Scale() + b.Scale())
  {
    p := Multiply(a, b, scale);
    assert Pow10(0) == 1;
    QuoOne(a.Value() * b.Value());
  }

  lemma QuoOne(x: int)
    ensures Quo(x, 1) == x
  {
  }

  /** bc_modulo. */
  method Modulo(n1: Num, n2: Num, scale: nat) returns (r: Option<Num>)
    requires n1.Proper() && n2.Proper()
    ensures r.None? <==> n2.Mag() == 0
    ensures r.Some? ==> exists quot :: Is(quot, Quotient(n1, n2, scale), scale) && Divides(n1, n2, scale, quot, r.value)
  {
    var d := DivMod(n1, n2, scale);
    r := if d.None? then None else Some(d.value.1);
  }
}
