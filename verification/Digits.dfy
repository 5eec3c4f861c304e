/** Decimal digit strings, most significant digit first, and the natural
    number each one denotes.  Every buffer of number.c is read this way. */
module Digits {

  const BASE := 10

  type Digit = d: int | 0 <= d < 10

  function Max(a: int, b: int): int { if a > b then a else b }

  function Min(a: int, b: int): int { if a > b then b else a }

  function Pow10(n: nat): (p: nat)
    ensures p >= 1
  {
    if n == 0 then 1 else 10 * Pow10(n - 1)
  }

  function Val(s: seq<Digit>): nat {
    if |s| == 0 then 0 else 10 * Val(s[..|s| - 1]) + s[|s| - 1]
  }

  function Zeros(n: nat): (z: seq<Digit>)
    ensures |z| == n && forall i :: 0 <= i < n ==> z[i] == 0
  {
    seq(n, _ => 0)
  }

  /** s shifted left by `right` decimal places inside a wider field. */
  function Pad(left: nat, s: seq<Digit>, right: nat): (p: seq<Digit>)
    ensures |p| == left + |s| + right
    ensures forall i :: 0 <= i < left ==> p[i] == 0
    ensures forall i :: left <= i < left + |s| ==> p[i] == s[i - left]
    ensures forall i :: left + |s| <= i < |p| ==> p[i] == 0
  {
    Zeros(left) + s + Zeros(right)
  }

  lemma {:induction false} Pow10Add(a: nat, b: nat)
    ensures Pow10(a + b) == Pow10(a) * Pow10(b)
  {
    if a == 0 {
    } else {
      Pow10Add(a - 1, b);
      MulAssoc(10, Pow10(a - 1), Pow10(b));
    }
  }

  lemma {:induction false} Pow10Monotone(a: nat, b: nat)
    requires a <= b
    ensures Pow10(a) <= Pow10(b)
  {
    if a == b {
    } else {
      Pow10Monotone(a, b - 1);
    }
  }

  lemma MulAssoc(a: int, b: int, c: int)
    ensures (a * b) * c == a * (b * c)
  {
  }

  lemma MulAdd(a: int, b: int, c: int)
    ensures (a + b) * c == a * c + b * c
  {
  }

  lemma MulEq(a: int, b: int, k: int)
    requires a == b
    ensures a * k == b * k
  {
  }

  lemma MulLe(a: int, b: int, k: int)
    requires a <= b && 0 <= k
    ensures a * k <= b * k
  {
  }

  lemma ProductNonNegative(a: nat, b: nat)
    ensures a * b >= 0
  {
  }

  lemma PositiveProduct(a: nat, b: nat)
    requires a > 0 && b > 0
    ensures a * b > 0
  {
    MulLe(1, a, b);
  }

  lemma NothingLeft(v: nat, sum: nat, p: nat, total: nat)
    requires v + sum * p == total < p
    ensures sum == 0 && v == total
  {
    if sum > 0 {
      MulLe(1, sum, p);
    }
  }

  lemma ProductLess(a: nat, b: nat, p: nat, q: nat)
    requires a < p && b < q
    ensures a * b < p * q
  {
    MulLe(a, p, b);
    MulLe(b + 1, q, p);
  }

  lemma AppendAlgebra(v: nat, p: nat, w: nat, d: nat)
    ensures 10 * (v * p + w) + d == v * (10 * p) + (10 * w + d)
  {
  }

  lemma {:induction false} ValAppend(s: seq<Digit>, t: seq<Digit>)
    ensures Val(s + t) == Val(s) * Pow10(|t|) + Val(t)
  {
    if |t| == 0 {
      assert s + t == s;
    } else {
      var t' := t[..|t| - 1];
      assert (s + t)[..|s + t| - 1] == s + t';
      ValAppend(s, t');
      AppendAlgebra(Val(s), Pow10(|t'|), Val(t'), t[|t| - 1]);
    }
  }

  lemma ValOne(d: Digit)
    ensures Val([d]) == d
  {
    assert [d][..0] == [];
  }

  lemma ValCons(d: Digit, s: seq<Digit>)
    ensures Val([d] + s) == d * Pow10(|s|) + Val(s)
  {
    ValAppend([d], s);
    ValOne(d);
  }

  /** Splitting off the digit at position i of a suffix. */
  lemma ValFrom(s: seq<Digit>, i: nat)
    requires i < |s|
    ensures Val(s[i..]) == s[i] * Pow10(|s| - i - 1) + Val(s[i + 1..])
  {
    assert s[i..] == [s[i]] + s[i + 1..];
    ValCons(s[i], s[i + 1..]);
  }

  /** Splitting off the last digit of a prefix. */
  lemma ValTo(s: seq<Digit>, i: nat)
    requires i < |s|
    ensures Val(s[..i + 1]) == 10 * Val(s[..i]) + s[i]
  {
    assert s[..i + 1][..i] == s[..i];
  }

  lemma ValSplit(s: seq<Digit>, i: nat)
    requires i <= |s|
    ensures Val(s) == Val(s[..i]) * Pow10(|s| - i) + Val(s[i..])
  {
    assert s == s[..i] + s[i..];
    ValAppend(s[..i], s[i..]);
  }

  lemma {:induction false} ValBound(s: seq<Digit>)
    ensures Val(s) < Pow10(|s|)
  {
    if |s| == 0 {
    } else {
      ValBound(s[..|s| - 1]);
    }
  }

  lemma {:induction false} ValZeros(s: seq<Digit>)
    requires forall i :: 0 <= i < |s| ==> s[i] == 0
    ensures Val(s) == 0
  {
    if |s| == 0 {
    } else {
      ValZeros(s[..|s| - 1]);
    }
  }

  lemma {:induction false} ValPositive(s: seq<Digit>, i: nat)
    requires i < |s| && s[i] != 0
    ensures Val(s) > 0
  {
    if i < |s| - 1 {
      ValPositive(s[..|s| - 1], i);
    }
  }

  /** A string whose first digit is non-zero uses its full width. */
  lemma ValLead(s: seq<Digit>)
    requires |s| > 0 && s[0] != 0
    ensures Val(s) >= Pow10(|s| - 1)
  {
    ValFrom(s, 0);
    assert s[0..] == s;
    MulLe(1, s[0], Pow10(|s| - 1));
  }

  lemma PadValue(left: nat, s: seq<Digit>, right: nat)
    ensures Val(Pad(left, s, right)) == Val(s) * Pow10(right)
  {
    ValAppend(Zeros(left) + s, Zeros(right));
    ValAppend(Zeros(left), s);
    ValZeros(Zeros(left));
    ValZeros(Zeros(right));
  }

  /** Equal-width strings are ordered by their first difference. */
  lemma LexLess(x: seq<Digit>, y: seq<Digit>, k: nat)
    requires |x| == |y| && k < |x|
    requires x[..k] == y[..k] && x[k] < y[k]
    ensures Val(x) < Val(y)
  {
    ValSplit(x, k + 1);
    ValSplit(y, k + 1);
    ValTo(x, k);
    ValTo(y, k);
    ValBound(x[k + 1..]);
    LexAlgebra(Val(x[..k + 1]), Val(y[..k + 1]), Val(x[k + 1..]), Val(y[k + 1..]), Pow10(|x| - k - 1));
  }

  lemma LexAlgebra(hx: nat, hy: nat, lx: nat, ly: nat, p: nat)
    requires hx < hy && lx < p
    ensures hx * p + lx < hy * p + ly
  {
    MulLe(hx + 1, hy, p);
  }

  /** Equal-width strings with the same value are the same string. */
  lemma {:induction false} ValInjective(x: seq<Digit>, y: seq<Digit>)
    requires |x| == |y| && Val(x) == Val(y)
    ensures x == y
  {
    if |x| == 0 {
    } else {
      var n := |x| - 1;
      ValInjective(x[..n], y[..n]);
      assert x == x[..n] + [x[n]];
      assert y == y[..n] + [y[n]];
    }
  }
}
