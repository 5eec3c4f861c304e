/** The numbers of number.c as values: a sign, the digits before the decimal
    point and the digits after it.  Value() is the number scaled up to an
    integer, so the number itself is Value() / 10^Scale(). */
module Numbers {
  import opened Digits

  datatype Num = Num(neg: bool, whole: seq<Digit>, frac: seq<Digit>) {

    function Len(): nat { |whole| }

    function Scale(): nat { |frac| }

    function Digits(): seq<Digit> { whole + frac }

    function Mag(): nat { Val(Digits()) }

    function Value(): int {
      var m: int := Mag();
      if neg then -m else m
    }

    /** No superfluous leading zero; what _bc_rm_leading_zeros establishes.
        The integer part may be empty, as for a Karatsuba half. */
    predicate Trimmed() { |whole| > 1 ==> whole[0] != 0 }

    /** The form every user-visible number has; a zero may still be negative. */
    predicate Proper() { Trimmed() && |whole| >= 1 }

    predicate NegativeZero() { neg && Mag() == 0 }

    /** The form of a number that is not a negative zero. */
    predicate Canonical() {
      && Trimmed()
      && |whole| >= 1
      && (Mag() == 0 ==> !neg)
    }
  }

  const ZERO := Num(false, [0], [])
  const ONE := Num(false, [1], [])
  const TWO := Num(false, [2], [])

  /** n is the canonical number v / 10^scale with exactly `scale` fraction digits. */
  predicate Is(n: Num, v: int, scale: nat) {
    n.Canonical() && n.Scale() == scale && n.Value() == v
  }

  /** Quotient truncated toward zero. */
  function Quo(x: int, d: int): (q: int)
    requires d > 0
  {
    if x >= 0 then x / d else -((-x) / d)
  }

  /** The number whose digits are the first len + scale cells of a buffer. */
  function FromBuffer(neg: bool, buf: seq<Digit>, len: nat, scale: nat): (n: Num)
    requires len + scale <= |buf|
  {
    Num(neg, buf[..len], buf[len..len + scale])
  }

  lemma ConstantValues()
    ensures Is(ZERO, 0, 0) && Is(ONE, 1, 0) && Is(TWO, 2, 0)
  {
    ValOne(0);
    ValOne(1);
    ValOne(2);
    assert ZERO.Digits() == [0] && ONE.Digits() == [1] && TWO.Digits() == [2];
  }

  lemma MagSplit(n: Num)
    ensures n.Mag() == Val(n.whole) * Pow10(n.Scale()) + Val(n.frac)
    ensures Val(n.frac) < Pow10(n.Scale())
  {
    ValAppend(n.whole, n.frac);
    ValBound(n.frac);
  }

  /** A longer integer part means a larger magnitude, for trimmed parts. */
  lemma LongerIsLarger(x: seq<Digit>, y: seq<Digit>)
    requires |x| < |y| && |y| > 1 && y[0] != 0
    ensures Val(x) < Val(y)
  {
    ValBound(x);
    ValLead(y);
    Pow10Monotone(|x|, |y| - 1);
  }

  lemma TrimmedUnique(x: seq<Digit>, y: seq<Digit>)
    requires |x| >= 1 && (|x| > 1 ==> x[0] != 0)
    requires |y| >= 1 && (|y| > 1 ==> y[0] != 0)
    requires Val(x) == Val(y)
    ensures x == y
  {
    if |x| < |y| {
      LongerIsLarger(x, y);
    } else if |y| < |x| {
      LongerIsLarger(y, x);
    } else {
      ValInjective(x, y);
    }
  }

  lemma DivModUnique(a: nat, b: nat, q: nat, r: nat)
    requires b > 0 && a == q * b + r && r < b
    ensures a / b == q && a % b == r
  {
    var q', r' := a / b, a % b;
    assert a == q' * b + r' && 0 <= r' < b;
    if q' < q {
      MulLe(q' + 1, q, b);
    } else if q < q' {
      MulLe(q + 1, q', b);
    }
  }

  /** A canonical number is determined by its value and its scale. */
  lemma IsUnique(m: Num, n: Num, v: int, scale: nat)
    requires Is(m, v, scale) && Is(n, v, scale)
    ensures m == n
  {
    MagSplit(m);
    MagSplit(n);
    DivModUnique(m.Mag(), Pow10(scale), Val(m.whole), Val(m.frac));
    DivModUnique(n.Mag(), Pow10(scale), Val(n.whole), Val(n.frac));
    TrimmedUnique(m.whole, n.whole);
    ValInjective(m.frac, n.frac);
  }

  /** _bc_rm_leading_zeros on the integer digits: advance past leading zeros,
      keeping one digit. */
  method TrimWhole(s: seq<Digit>) returns (t: seq<Digit>)
    ensures |t| <= |s| && (|s| > 0 ==> |t| > 0)
    ensures |t| > 1 ==> t[0] != 0
    ensures s == Zeros(|s| - |t|) + t
    ensures Val(t) == Val(s)
  {
    var start, len := 0, |s|;
    while len > 1 && s[start] == 0
      invariant start + len == |s| && 0 <= start && 0 <= len
      invariant |s| > 0 ==> len > 0
      invariant forall i :: 0 <= i < start ==> s[i] == 0
    {
      start := start + 1;
      len := len - 1;
    }
    t := s[start..];
    TrimValue(s, start);
  }

  lemma TrimValue(s: seq<Digit>, start: nat)
    requires start <= |s| && forall i :: 0 <= i < start ==> s[i] == 0
    ensures s == Zeros(start) + s[start..] && Val(s[start..]) == Val(s)
  {
    assert s == Zeros(start) + s[start..];
    ValSplit(s, start);
    ValZeros(s[..start]);
    MulEq(Val(s[..start]), 0, Pow10(|s| - start));
  }

  /** _bc_rm_leading_zeros. */
  method RmLeadingZeros(n: Num) returns (r: Num)
    ensures r.Trimmed() && r.neg == n.neg && r.frac == n.frac
    ensures r.Value() == n.Value() && r.Mag() == n.Mag()
    ensures r.Len() <= n.Len() && (n.Len() > 0 ==> r.Len() > 0)
  {
    var w := TrimWhole(n.whole);
    r := n.(whole := w);
    MagSplit(n);
    MagSplit(r);
  }

  /** bc_is_zero. */
  method IsZero(n: Num) returns (zero: bool)
    ensures zero <==> n.Mag() == 0
  {
    var d := n.Digits();
    var i := 0;
    while i < |d| && d[i] == 0
      invariant i <= |d|
      invariant forall j :: 0 <= j < i ==> d[j] == 0
    {
      i := i + 1;
    }
    zero := i == |d|;
    if zero {
      ValZeros(d);
    } else {
      ValPositive(d, i);
    }
  }

  /** bc_is_near_zero: all digits up to `scale` fraction digits are zero,
      except that the last of them may be one. */
  method IsNearZero(n: Num, scale: nat) returns (near: bool)
    requires n.Len() >= 1
    ensures near <==> n.Mag() / Pow10(n.Scale() - Min(scale, n.Scale())) <= 1
  {
    var sc := Min(scale, n.Scale());
    var d := n.Digits();
    var total := n.Len() + sc;
    var i := 0;
    while i < total && d[i] == 0
      invariant i <= total
      invariant forall j :: 0 <= j < i ==> d[j] == 0
    {
      i := i + 1;
    }
    near := i == total || (i == total - 1 && d[i] == 1);
    ghost var head := d[..total];
    ghost var rest := n.Scale() - sc;
    ValSplit(d, total);
    ValBound(d[total..]);
    DivModUnique(n.Mag(), Pow10(rest), Val(head), Val(d[total..]));
    if i == total {
      ValZeros(head);
    } else {
      NearZeroHead(head, i);
    }
  }

  lemma NearZeroHead(s: seq<Digit>, i: nat)
    requires i < |s| && s[i] != 0
    requires forall j :: 0 <= j < i ==> s[j] == 0
    ensures Val(s) <= 1 <==> i == |s| - 1 && s[i] == 1
  {
    ValSplit(s, i);
    ValZeros(s[..i]);
    ValLead(s[i..]);
    if i == |s| - 1 {
      assert s[i..] == [s[i]];
      ValOne(s[i]);
    } else {
      Pow10Monotone(1, |s| - i - 1);
      assert Pow10(1) == 10;
    }
  }

  /** Dropping digits on the right divides by a power of ten, rounding down. */
  lemma ValPrefix(s: seq<Digit>, keep: nat)
    requires keep <= |s|
    ensures Val(s[..keep]) == Val(s) / Pow10(|s| - keep)
  {
    ValSplit(s, keep);
    ValBound(s[keep..]);
    DivModUnique(Val(s), Pow10(|s| - keep), Val(s[..keep]), Val(s[keep..]));
  }

  /** Give a digit string its final form: leading zeros dropped, zero made positive. */
  method Finish(neg: bool, buf: seq<Digit>, len: nat, scale: nat) returns (r: Num)
    requires 1 <= len && len + scale <= |buf|
    ensures r.Canonical() && r.Scale() == scale
    ensures r.Mag() == Val(buf[..len + scale])
    ensures r.neg == (neg && r.Mag() != 0)
  {
    r := FromBuffer(neg, buf, len, scale);
    assert r.Digits() == buf[..len + scale];
    r := RmLeadingZeros(r);
    var zero := IsZero(r);
    if zero {
      r := r.(neg := false);
    }
  }

  /** Truncated division of signed numbers works on magnitudes. */
  lemma QuoSigned(neg: bool, m: nat, d: nat)
    requires d > 0
    ensures Quo(if neg then -(m as int) else m, d) == (if neg then -((m / d) as int) else m / d)
  {
    if neg && m == 0 {
      DivModUnique(0, d, 0, 0);
    }
  }
}
