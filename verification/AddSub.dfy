/** Comparison, addition and subtraction of number.c. */
module AddSub {
  import opened Wrappers
  import opened Digits
  import opened Numbers

  /** The magnitude of n counted in units of 10^-s. */
  function Align(n: Num, s: nat): nat
    requires n.Scale() <= s
  {
    n.Mag() * Pow10(s - n.Scale())
  }

  /** The signed value of n counted in units of 10^-s. */
  function AlignValue(n: Num, s: nat): int
    requires n.Scale() <= s
  {
    n.Value() * Pow10(s - n.Scale())
  }

  function Sign(x: int): int { if x > 0 then 1 else if x < 0 then -1 else 0 }

  lemma AlignParts(n: Num, s: nat)
    requires n.Scale() <= s
    ensures Val(n.whole) * Pow10(s) <= Align(n, s) < (Val(n.whole) + 1) * Pow10(s)
  {
    MagSplit(n);
    Pow10Add(n.Scale(), s - n.Scale());
    ScaleParts(Val(n.whole), Val(n.frac), Pow10(n.Scale()), Pow10(s - n.Scale()));
  }

  lemma ScaleParts(w: nat, f: nat, p: nat, k: nat)
    requires f < p && k > 0
    ensures w * (p * k) <= (w * p + f) * k < (w + 1) * (p * k)
  {
    calc {
      (w * p + f) * k;
      (w * p) * k + f * k;
      { MulAssoc(w, p, k); }
      w * (p * k) + f * k;
    }
    MulLe(f + 1, p, k);
    assert (w + 1) * (p * k) == w * (p * k) + p * k;
  }

  lemma LongerAligned(m: Num, n: Num, s: nat)
    requires m.Trimmed() && n.Trimmed() && m.Len() < n.Len()
    requires m.Scale() <= s && n.Scale() <= s
    ensures n.Len() > 1 ==> Align(m, s) < Align(n, s)
    ensures m.Len() == 0 && m.Scale() == 0 ==> Align(m, s) == 0
  {
    AlignParts(m, s);
    AlignParts(n, s);
    if n.Len() > 1 {
      LongerIsLarger(m.whole, n.whole);
      MulLe(Val(m.whole) + 1, Val(n.whole), Pow10(s));
    }
  }

  lemma AlignPad(n: Num, s: nat)
    requires n.Scale() <= s
    ensures Val(Pad(0, n.Digits(), s - n.Scale())) == Align(n, s)
  {
    PadValue(0, n.Digits(), s - n.Scale());
  }

  /** _bc_do_compare on magnitudes.  Numbers without an integer digit only
      occur as Karatsuba halves, and those have no fraction either. */
  method CompareMagnitudes(n1: Num, n2: Num) returns (r: int)
    requires n1.Trimmed() && n2.Trimmed()
    requires n1.Len() == 0 ==> n1.Scale() == 0
    requires n2.Len() == 0 ==> n2.Scale() == 0
    ensures var s := Max(n1.Scale(), n2.Scale());
      && -1 <= r <= 1
      && (r == 0 ==> Align(n1, s) == Align(n2, s))
      && (r == 1 ==> Align(n1, s) >= Align(n2, s) && n1.Len() >= n2.Len())
      && (r == -1 ==> Align(n1, s) <= Align(n2, s) && n1.Len() <= n2.Len())
      && (n1.Len() >= 1 && n2.Len() >= 1 ==> r == Sign(Align(n1, s) - Align(n2, s)))
  {
    ghost var s := Max(n1.Scale(), n2.Scale());
    if n1.Len() != n2.Len() {
      if n1.Len() > n2.Len() {
        LongerAligned(n2, n1, s);
        return 1;
      } else {
        LongerAligned(n1, n2, s);
        return -1;
      }
    }
    r := CompareDigits(n1, n2);
  }

  /** The digit-by-digit part of _bc_do_compare, for equal integer lengths. */
  method CompareDigits(n1: Num, n2: Num) returns (r: int)
    requires n1.Len() == n2.Len()
    ensures var s := Max(n1.Scale(), n2.Scale()); r == Sign(Align(n1, s) - Align(n2, s))
  {
    ghost var s := Max(n1.Scale(), n2.Scale());
    AlignPad(n1, s);
    AlignPad(n2, s);
    r := CompareStrings(n1.Digits(), n2.Digits(), s - n1.Scale(), s - n2.Scale());
  }

  /** z1 and z2 are the numbers of zeros that would make the lengths equal. */
  method CompareStrings(d1: seq<Digit>, d2: seq<Digit>, ghost z1: nat, ghost z2: nat) returns (r: int)
    requires |d1| + z1 == |d2| + z2
    ensures r == Sign(Val(Pad(0, d1, z1)) - Val(Pad(0, d2, z2)))
  {
    var i := CommonPrefix(d1, d2, Min(|d1|, |d2|));
    if i < |d1| && i < |d2| {
      FirstDifference(d1, d2, z1, z2, i);
      return if d1[i] > d2[i] then 1 else -1;
    }
    if |d1| > |d2| {
      i := SkipZeros(d1, i);
    } else {
      i := SkipZeros(d2, i);
    }
    if i < |d1| {
      FirstDifference(d1, d2, z1, z2, i);
      return 1;
    } else if i < |d2| {
      FirstDifference(d1, d2, z1, z2, i);
      return -1;
    } else {
      SamePadded(d1, d2, z1, z2);
      return 0;
    }
  }

  /** Digit i of s continued with zeros. */
  function At(s: seq<Digit>, i: nat): Digit { if i < |s| then s[i] else 0 }

  method CommonPrefix(d1: seq<Digit>, d2: seq<Digit>, count: nat) returns (i: nat)
    requires count <= |d1| && count <= |d2|
    ensures i <= count && (i < count ==> d1[i] != d2[i])
    ensures forall j :: 0 <= j < i ==> d1[j] == d2[j]
  {
    i := 0;
    while i < count && d1[i] == d2[i]
      invariant i <= count
      invariant forall j :: 0 <= j < i ==> d1[j] == d2[j]
    {
      i := i + 1;
    }
  }

  method SkipZeros(d: seq<Digit>, start: nat) returns (i: nat)
    requires start <= |d|
    ensures start <= i <= |d| && (i < |d| ==> d[i] != 0)
    ensures forall j :: start <= j < i ==> d[j] == 0
  {
    i := start;
    while i < |d| && d[i] == 0
      invariant start <= i <= |d|
      invariant forall j :: start <= j < i ==> d[j] == 0
    {
      i := i + 1;
    }
  }

  lemma FirstDifference(d1: seq<Digit>, d2: seq<Digit>, z1: nat, z2: nat, i: nat)
    requires |d1| + z1 == |d2| + z2 && i < |d1| + z1
    requires forall j :: 0 <= j < i ==> At(d1, j) == At(d2, j)
    requires At(d1, i) != At(d2, i)
    ensures At(d1, i) < At(d2, i) <==> Val(Pad(0, d1, z1)) < Val(Pad(0, d2, z2))
    ensures Val(Pad(0, d1, z1)) != Val(Pad(0, d2, z2))
  {
    var x, y := Pad(0, d1, z1), Pad(0, d2, z2);
    assert forall j :: 0 <= j < |x| ==> x[j] == At(d1, j);
    assert forall j :: 0 <= j < |x| ==> y[j] == At(d2, j);
    assert x[..i] == y[..i];
    if x[i] < y[i] {
      LexLess(x, y, i);
    } else {
      LexLess(y, x, i);
    }
  }

  lemma SamePadded(d1: seq<Digit>, d2: seq<Digit>, z1: nat, z2: nat)
    requires |d1| + z1 == |d2| + z2
    requires forall j :: 0 <= j < |d1| + z1 ==> At(d1, j) == At(d2, j)
    ensures Val(Pad(0, d1, z1)) == Val(Pad(0, d2, z2))
  {
    var x, y := Pad(0, d1, z1), Pad(0, d2, z2);
    assert forall j :: 0 <= j < |x| ==> x[j] == At(d1, j);
    assert forall j :: 0 <= j < |x| ==> y[j] == At(d2, j);
    assert x == y;
  }

  lemma AlignSigned(n: Num, s: nat)
    requires n.Scale() <= s
    ensures AlignValue(n, s) == if n.neg then -(Align(n, s) as int) else Align(n, s)
  {
  }

  lemma AlignZero(n: Num, s: nat)
    requires n.Scale() <= s
    ensures Align(n, s) == 0 <==> n.Mag() == 0
  {
    if n.Mag() > 0 {
      MulLe(1, n.Mag(), Pow10(s - n.Scale()));
    }
  }

  /** The order of two numbers, where a negative zero is less than a zero. */
  function Order(n1: Num, n2: Num): int {
    var s := Max(n1.Scale(), n2.Scale());
    if n1.neg != n2.neg && n1.Mag() == 0 == n2.Mag() then (if n1.neg then -1 else 1)
    else Sign(AlignValue(n1, s) - AlignValue(n2, s))
  }

  /** bc_compare: the numeric order, except that a negative zero is less than a zero. */
  method Compare(n1: Num, n2: Num) returns (r: int)
    requires n1.Proper() && n2.Proper()
    ensures r == Order(n1, n2)
    ensures n1.Canonical() && n2.Canonical() ==>
      var s := Max(n1.Scale(), n2.Scale()); r == Sign(AlignValue(n1, s) - AlignValue(n2, s))
  {
    ghost var s := Max(n1.Scale(), n2.Scale());
    AlignSigned(n1, s);
    AlignSigned(n2, s);
    AlignZero(n1, s);
    AlignZero(n2, s);
    if n1.neg != n2.neg {
      return if !n1.neg then 1 else -1;
    }
    var c := CompareMagnitudes(n1, n2);
    r := if n1.neg then -c else c;
  }

  // ---------------------------------------------------------------------
  // Column arithmetic.  Both operands are widened to a common field; columns
  // k.. of the field hold the sum (or difference) of the operands' columns.
  // ---------------------------------------------------------------------

  /** Columns k.. of sum, plus a carry out of them, add up x and y. */
  ghost predicate SumFrom(sum: seq<Digit>, x: seq<Digit>, y: seq<Digit>, k: nat, carry: nat) {
    && |sum| == |x| == |y| && k <= |sum|
    && forall i: nat {:trigger Exactly(i, k)} :: Exactly(i, k) ==>
         Val(sum[i..]) + carry * Pow10(|sum| - i) == Val(x[i..]) + Val(y[i..])
  }

  /** Extending the field by column k - 1, where only that column may have
      been rewritten.  carry' is the carry out of the new column. */
  lemma SumColumn(s: seq<Digit>, x: seq<Digit>, y: seq<Digit>,
                  s': seq<Digit>, x': seq<Digit>, y': seq<Digit>, k: nat, carry: nat, carry': nat)
    requires SumFrom(s, x, y, k, carry) && 0 < k
    requires |s'| == |x'| == |y'| == |s|
    requires s'[k..] == s[k..] && x'[k..] == x[k..] && y'[k..] == y[k..]
    requires s'[k - 1] + 10 * carry' == x'[k - 1] + y'[k - 1] + carry
    ensures SumFrom(s', x', y', k - 1, carry')
  {
    assert Exactly(k, k);
    ValFrom(s', k - 1);
    ValFrom(x', k - 1);
    ValFrom(y', k - 1);
    var p := Pow10(|s| - k);
    assert Pow10(|s| - (k - 1)) == 10 * p;
    SumAlgebra(s'[k - 1], x'[k - 1], y'[k - 1], carry, carry', p);
  }

  lemma SumAlgebra(d: int, x: int, y: int, c: int, c': int, p: int)
    requires d + 10 * c' == x + y + c
    ensures d * p + c' * (10 * p) == x * p + y * p + c * p
  {
    calc {
      d * p + c' * (10 * p);
      (d + 10 * c') * p;
      (x + y + c) * p;
      x * p + y * p + c * p;
    }
  }

  /** The field x holds the string d from column `at` on and zeros elsewhere. */
  ghost predicate Holds(x: seq<Digit>, d: seq<Digit>, at: nat) {
    && at + |d| <= |x|
    && forall i :: 0 <= i < |x| ==> x[i] == if at <= i < at + |d| then d[i - at] else 0
  }

  /** One column of an addition: digit and carry of a + b + carry. */
  method AddDigit(a: Digit, b: Digit, carry: nat) returns (v: Digit, carry': nat)
    requires carry <= 1
    ensures carry' <= 1 && v + 10 * carry' == a + b + carry
  {
    var val: int := a;
    val := val + b + carry;
    if val > BASE - 1 {
      carry' := 1;
      val := val - BASE;
    } else {
      carry' := 0;
    }
    v := val;
  }

  /** First loop of _bc_do_add: copy the part of the longer fraction (d, in
      columns low..) that the other operand (y) does not reach. */
  method CopyFraction(sum: array<Digit>, d: seq<Digit>, at: nat, low: nat,
                      ghost x: seq<Digit>, ghost y: seq<Digit>, ghost dy: seq<Digit>, ghost aty: nat)
    requires at <= low <= sum.Length == at + |d|
    requires |x| == |y| == sum.Length
    requires Holds(x, d, at) && Holds(y, dy, aty) && aty + |dy| <= low
    modifies sum
    ensures SumFrom(sum[..], x, y, low, 0)
  {
    var k := sum.Length;
    while k > low
      invariant low <= k <= sum.Length
      invariant SumFrom(sum[..], x, y, k, 0)
    {
      ghost var before := sum[..];
      k := k - 1;
      sum[k] := d[k - at];
      SumColumn(before, x, y, sum[..], x, y, k + 1, 0, 0);
    }
  }

  /** Second loop of _bc_do_add: columns low..high, which both operands have. */
  method AddCommon(sum: array<Digit>, d1: seq<Digit>, at1: nat, d2: seq<Digit>, at2: nat, low: nat, high: nat,
                   ghost x: seq<Digit>, ghost y: seq<Digit>) returns (carry: nat)
    requires at1 <= low && at2 <= low && low <= high <= sum.Length
    requires high <= at1 + |d1| && high <= at2 + |d2|
    requires Holds(x, d1, at1) && Holds(y, d2, at2)
    requires SumFrom(sum[..], x, y, high, 0)
    modifies sum
    ensures carry <= 1 && SumFrom(sum[..], x, y, low, carry)
  {
    var k := high;
    carry := 0;
    while k > low
      invariant low <= k <= high && carry <= 1
      invariant SumFrom(sum[..], x, y, k, carry)
    {
      ghost var before, c := sum[..], carry;
      k := k - 1;
      var v;
      v, carry := AddDigit(d1[k - at1], d2[k - at2], carry);
      sum[k] := v;
      SumColumn(before, x, y, sum[..], x, y, k + 1, c, carry);
    }
  }

  /** Third loop of _bc_do_add: carry through the longer integer part d. */
  method AddRest(sum: array<Digit>, d: seq<Digit>, at: nat, high: nat, carry0: nat,
                 ghost x: seq<Digit>, ghost y: seq<Digit>, ghost dy: seq<Digit>, ghost aty: nat)
    returns (carry: nat)
    requires at <= high <= at + |d| && high <= aty && carry0 <= 1
    requires Holds(x, d, at) && Holds(y, dy, aty)
    requires SumFrom(sum[..], x, y, high, carry0)
    modifies sum
    ensures carry <= 1 && SumFrom(sum[..], x, y, at, carry)
  {
    var k := high;
    carry := carry0;
    while k > at
      invariant at <= k <= high && carry <= 1
      invariant SumFrom(sum[..], x, y, k, carry)
    {
      ghost var before, c := sum[..], carry;
      k := k - 1;
      var v;
      v, carry := AddDigit(d[k - at], 0, carry);
      sum[k] := v;
      SumColumn(before, x, y, sum[..], x, y, k + 1, c, carry);
    }
  }

  /** The body of _bc_do_add on digit strings.  short1 and short2 count the
      fraction columns an operand lacks. */
  method AddColumns(d1: seq<Digit>, d2: seq<Digit>, short1: nat, short2: nat) returns (sum: array<Digit>)
    requires short1 == 0 || short2 == 0
    requires short1 <= |d2| && short2 <= |d1|
    ensures fresh(sum) && sum.Length == Max(|d1| + short1, |d2| + short2) + 1
    ensures Val(sum[..]) == Val(d1) * Pow10(short1) + Val(d2) * Pow10(short2)
  {
    var width := Max(|d1| + short1, |d2| + short2) + 1;
    sum := new Digit[width];
    var at1, at2 := width - |d1| - short1, width - |d2| - short2;
    ghost var x, y := Pad(at1, d1, short1), Pad(at2, d2, short2);
    PadValue(at1, d1, short1);
    PadValue(at2, d2, short2);
    PadHolds(at1, d1, short1);
    PadHolds(at2, d2, short2);
    var carry := AddField(sum, d1, at1, d2, at2, x, y);
    ghost var before := sum[..];
    sum[0] := carry;
    SumColumn(before, x, y, sum[..], x, y, 1, carry, 0);
    SumAll(sum[..], x, y);
  }

  method AddField(sum: array<Digit>, d1: seq<Digit>, at1: nat, d2: seq<Digit>, at2: nat,
                  ghost x: seq<Digit>, ghost y: seq<Digit>) returns (carry: nat)
    requires |x| == |y| == sum.Length == Max(at1 + |d1|, at2 + |d2|)
    requires Holds(x, d1, at1) && Holds(y, d2, at2)
    requires at1 <= at2 + |d2| && at2 <= at1 + |d1| && Min(at1, at2) == 1
    modifies sum
    ensures carry <= 1 && SumFrom(sum[..], x, y, 1, carry)
  {
    var high := Min(at1 + |d1|, at2 + |d2|);
    if at1 + |d1| > at2 + |d2| {
      CopyFraction(sum, d1, at1, high, x, y, d2, at2);
    } else {
      CopyFraction(sum, d2, at2, high, y, x, d1, at1);
    }
    var low := Max(at1, at2);
    carry := AddCommon(sum, d1, at1, d2, at2, low, high, x, y);
    if at1 < at2 {
      carry := AddRest(sum, d1, at1, low, carry, x, y, d2, at2);
    } else {
      carry := AddRest(sum, d2, at2, low, carry, y, x, d1, at1);
    }
  }

  lemma PadHolds(left: nat, d: seq<Digit>, right: nat)
    ensures Holds(Pad(left, d, right), d, left)
  {
  }

  lemma SumAll(s: seq<Digit>, x: seq<Digit>, y: seq<Digit>)
    requires SumFrom(s, x, y, 0, 0)
    ensures Val(s) == Val(x) + Val(y)
  {
    assert Exactly(0, 0) && s[0..] == s && x[0..] == x && y[0..] == y;
  }

  /** _bc_do_add: |n1| + |n2| with at least scaleMin fraction digits. */
  method DoAdd(n1: Num, n2: Num, scaleMin: nat) returns (r: Num)
    requires n1.Len() >= 1 && n2.Len() >= 1
    ensures var s := Max(Max(n1.Scale(), n2.Scale()), scaleMin);
      && r.Trimmed() && !r.neg && r.Len() >= 1
      && r.Scale() == s
      && r.Mag() == Align(n1, s) + Align(n2, s)
  {
    var sumScale := Max(n1.Scale(), n2.Scale());
    var sumDigits := Max(n1.Len(), n2.Len()) + 1;
    var sum := AddColumns(n1.Digits(), n2.Digits(), sumScale - n1.Scale(), sumScale - n2.Scale());
    r := FinishField(sum[..], sumDigits, sumScale, Max(sumScale, scaleMin));
    AlignSum(n1, n2, sumScale, r.Scale());
  }

  /** Append the zeros that scale_min asks for and drop leading zeros. */
  method FinishField(field: seq<Digit>, len: nat, scale: nat, full: nat) returns (r: Num)
    requires |field| == len + scale && scale <= full && len >= 1
    ensures r.Trimmed() && !r.neg && 1 <= r.Len() <= len && r.Scale() == full
    ensures r.Mag() == Val(field) * Pow10(full - scale)
  {
    var buf := field + Zeros(full - scale);
    r := FromBuffer(false, buf, len, full);
    assert r.Digits() == buf;
    ValAppend(field, Zeros(full - scale));
    ValZeros(Zeros(full - scale));
    r := RmLeadingZeros(r);
  }

  lemma AlignMore(n: Num, s: nat, t: nat)
    requires n.Scale() <= s <= t
    ensures Align(n, t) == Align(n, s) * Pow10(t - s)
  {
    Pow10Add(s - n.Scale(), t - s);
    MulAssoc(n.Mag(), Pow10(s - n.Scale()), Pow10(t - s));
  }

  lemma AlignSum(m: Num, n: Num, s: nat, t: nat)
    requires m.Scale() <= s <= t && n.Scale() <= s
    ensures (Align(m, s) + Align(n, s)) * Pow10(t - s) == Align(m, t) + Align(n, t)
  {
    AlignMore(m, s, t);
    AlignMore(n, s, t);
    MulAdd(Align(m, s), Align(n, s), Pow10(t - s));
  }

  lemma AlignDifference(m: Num, n: Num, s: nat, t: nat)
    requires m.Scale() <= s <= t && n.Scale() <= s
    ensures (Align(m, s) - Align(n, s)) * Pow10(t - s) == Align(m, t) - Align(n, t)
  {
    AlignMore(m, s, t);
    AlignMore(n, s, t);
    MulAdd(Align(m, s) - Align(n, s), Align(n, s), Pow10(t - s));
  }

  /** One column of a subtraction: digit and borrow of a - b - borrow. */
  method SubDigit(a: Digit, b: Digit, borrow: nat) returns (v: Digit, borrow': nat)
    requires borrow <= 1
    ensures borrow' <= 1 && a + 10 * borrow' == v + b + borrow
  {
    var val := a - b - borrow;
    if val < 0 {
      val := val + BASE;
      borrow' := 1;
    } else {
      borrow' := 0;
    }
    v := val;
  }

  /** First loop of _bc_do_sub when n1 has the longer fraction: copy it. */
  method SubCopy(diff: array<Digit>, d1: seq<Digit>, at1: nat, low: nat,
                 ghost x: seq<Digit>, ghost y: seq<Digit>, ghost d2: seq<Digit>, ghost at2: nat)
    requires at1 <= low <= diff.Length == at1 + |d1|
    requires |x| == |y| == diff.Length
    requires Holds(x, d1, at1) && Holds(y, d2, at2) && at2 + |d2| <= low
    modifies diff
    ensures SumFrom(x, diff[..], y, low, 0)
  {
    var k := diff.Length;
    while k > low
      invariant low <= k <= diff.Length
      invariant SumFrom(x, diff[..], y, k, 0)
    {
      ghost var before := diff[..];
      k := k - 1;
      diff[k] := d1[k - at1];
      SumColumn(x, before, y, x, diff[..], y, k + 1, 0, 0);
    }
  }

  /** First loop of _bc_do_sub when n2 has the longer fraction: subtract it from zero. */
  method SubNegate(diff: array<Digit>, d2: seq<Digit>, at2: nat, low: nat,
                   ghost x: seq<Digit>, ghost y: seq<Digit>, ghost d1: seq<Digit>, ghost at1: nat)
    returns (borrow: nat)
    requires at2 <= low <= diff.Length == at2 + |d2|
    requires |x| == |y| == diff.Length
    requires Holds(x, d1, at1) && Holds(y, d2, at2) && at1 + |d1| <= low
    modifies diff
    ensures borrow <= 1 && SumFrom(x, diff[..], y, low, borrow)
  {
    var k := diff.Length;
    borrow := 0;
    while k > low
      invariant low <= k <= diff.Length && borrow <= 1
      invariant SumFrom(x, diff[..], y, k, borrow)
    {
      ghost var before, b := diff[..], borrow;
      k := k - 1;
      var v;
      v, borrow := SubDigit(0, d2[k - at2], borrow);
      diff[k] := v;
      SumColumn(x, before, y, x, diff[..], y, k + 1, b, borrow);
    }
  }

  /** Second loop of _bc_do_sub: columns low..high, which both operands have. */
  method SubCommon(diff: array<Digit>, d1: seq<Digit>, at1: nat, d2: seq<Digit>, at2: nat, low: nat, high: nat,
                   borrow0: nat, ghost x: seq<Digit>, ghost y: seq<Digit>) returns (borrow: nat)
    requires at1 <= low && at2 <= low && low <= high <= diff.Length && borrow0 <= 1
    requires high <= at1 + |d1| && high <= at2 + |d2|
    requires Holds(x, d1, at1) && Holds(y, d2, at2)
    requires SumFrom(x, diff[..], y, high, borrow0)
    modifies diff
    ensures borrow <= 1 && SumFrom(x, diff[..], y, low, borrow)
  {
    var k := high;
    borrow := borrow0;
    while k > low
      invariant low <= k <= high && borrow <= 1
      invariant SumFrom(x, diff[..], y, k, borrow)
    {
      k := k - 1;
      borrow := SubCommonColumn(diff, d1, at1, d2, at2, k, borrow, x, y);
    }
  }

  method SubCommonColumn(diff: array<Digit>, d1: seq<Digit>, at1: nat, d2: seq<Digit>, at2: nat, k: nat, b: nat,
                         ghost x: seq<Digit>, ghost y: seq<Digit>) returns (borrow: nat)
    requires at1 <= k < at1 + |d1| && at2 <= k < at2 + |d2| && k < diff.Length && b <= 1
    requires Holds(x, d1, at1) && Holds(y, d2, at2) && SumFrom(x, diff[..], y, k + 1, b)
    modifies diff
    ensures borrow <= 1 && SumFrom(x, diff[..], y, k, borrow)
  {
    ghost var before := diff[..];
    var v;
    v, borrow := SubDigit(d1[k - at1], d2[k - at2], b);
    diff[k] := v;
    SumColumn(x, before, y, x, diff[..], y, k + 1, b, borrow);
  }

  /** Third loop of _bc_do_sub: borrow through the longer integer part of n1. */
  method SubRest(diff: array<Digit>, d1: seq<Digit>, at1: nat, high: nat, borrow0: nat,
                 ghost x: seq<Digit>, ghost y: seq<Digit>, ghost d2: seq<Digit>, ghost at2: nat)
    returns (borrow: nat)
    requires at1 <= high <= at1 + |d1| && high <= at2 && borrow0 <= 1
    requires Holds(x, d1, at1) && Holds(y, d2, at2)
    requires SumFrom(x, diff[..], y, high, borrow0)
    modifies diff
    ensures borrow <= 1 && SumFrom(x, diff[..], y, at1, borrow)
  {
    var k := high;
    borrow := borrow0;
    while k > at1
      invariant at1 <= k <= high && borrow <= 1
      invariant SumFrom(x, diff[..], y, k, borrow)
    {
      ghost var before, b := diff[..], borrow;
      k := k - 1;
      var v;
      v, borrow := SubDigit(d1[k - at1], 0, borrow);
      diff[k] := v;
      SumColumn(x, before, y, x, diff[..], y, k + 1, b, borrow);
    }
  }

  method SubField(diff: array<Digit>, d1: seq<Digit>, d2: seq<Digit>, at2: nat,
                  ghost x: seq<Digit>, ghost y: seq<Digit>) returns (borrow: nat)
    requires |x| == |y| == diff.Length == Max(|d1|, at2 + |d2|)
    requires Holds(x, d1, 0) && Holds(y, d2, at2) && at2 <= |d1|
    modifies diff
    ensures borrow <= 1 && SumFrom(x, diff[..], y, 0, borrow)
  {
    var high := Min(|d1|, at2 + |d2|);
    borrow := 0;
    if |d1| > at2 + |d2| {
      SubCopy(diff, d1, 0, high, x, y, d2, at2);
    } else {
      borrow := SubNegate(diff, d2, at2, high, x, y, d1, 0);
    }
    borrow := SubCommon(diff, d1, 0, d2, at2, at2, high, borrow, x, y);
    borrow := SubRest(diff, d1, 0, at2, borrow, x, y, d2, at2);
  }

  /** No borrow leaves the field when the larger operand comes first. */
  lemma NoBorrow(x: seq<Digit>, d: seq<Digit>, y: seq<Digit>, borrow: nat)
    requires SumFrom(x, d, y, 0, borrow) && borrow <= 1 && Val(y) <= Val(x)
    ensures Val(d) == Val(x) - Val(y)
  {
    assert Exactly(0, 0) && d[0..] == d && x[0..] == x && y[0..] == y;
    ValBound(d);
    BorrowAlgebra(Val(x), Val(d), Val(y), borrow, Pow10(|x|));
  }

  lemma BorrowAlgebra(x: nat, d: nat, y: nat, borrow: nat, p: nat)
    requires x + borrow * p == d + y && borrow <= 1 && d < p && y <= x
    ensures d == x - y
  {
  }

  method SubColumns(d1: seq<Digit>, d2: seq<Digit>, short1: nat, short2: nat) returns (diff: array<Digit>)
    requires short1 == 0 || short2 == 0
    requires short2 <= |d1| && |d2| + short2 <= |d1| + short1
    requires short1 <= |d2|
    requires Val(d2) * Pow10(short2) <= Val(d1) * Pow10(short1)
    ensures fresh(diff) && diff.Length == |d1| + short1
    ensures Val(diff[..]) == Val(d1) * Pow10(short1) - Val(d2) * Pow10(short2)
  {
    var width := |d1| + short1;
    diff := new Digit[width];
    var at2 := width - |d2| - short2;
    ghost var x, y := Pad(0, d1, short1), Pad(at2, d2, short2);
    PadValue(0, d1, short1);
    PadValue(at2, d2, short2);
    PadHolds(0, d1, short1);
    PadHolds(at2, d2, short2);
    var borrow := SubField(diff, d1, d2, at2, x, y);
    NoBorrow(x, diff[..], y, borrow);
  }

  /** _bc_do_sub: |n1| - |n2|, where n1 is the larger. */
  method DoSub(n1: Num, n2: Num, scaleMin: nat) returns (r: Num)
    requires n1.Len() >= 1 && n2.Len() <= n1.Len()
    requires var s := Max(n1.Scale(), n2.Scale()); Align(n2, s) <= Align(n1, s)
    ensures var s := Max(Max(n1.Scale(), n2.Scale()), scaleMin);
      && r.Trimmed() && !r.neg && 1 <= r.Len() <= n1.Len()
      && r.Scale() == s
      && r.Mag() == Align(n1, s) - Align(n2, s)
  {
    var diffScale := Max(n1.Scale(), n2.Scale());
    var diff := SubColumns(n1.Digits(), n2.Digits(), diffScale - n1.Scale(), diffScale - n2.Scale());
    r := FinishField(diff[..], n1.Len(), diffScale, Max(diffScale, scaleMin));
    AlignDifference(n1, n2, diffScale, r.Scale());
  }

  /** What bc_add and bc_sub accept: user numbers, and Karatsuba halves. */
  predicate Operand(n: Num) { n.Trimmed() && (n.Len() == 0 ==> n.Scale() == 0) }

  /** bc_sub: the exact difference, at the largest of the three scales. */
  method Sub(n1: Num, n2: Num, scaleMin: nat) returns (r: Num)
    requires Operand(n1) && Operand(n2)
    requires n1.Len() >= 1 || n2.Len() >= 1
    requires n1.neg != n2.neg ==> n1.Len() >= 1 && n2.Len() >= 1
    ensures var s := Max(Max(n1.Scale(), n2.Scale()), scaleMin);
      && r.Scale() == s && r.Value() == AlignValue(n1, s) - AlignValue(n2, s)
      && (n1.Canonical() && n2.Canonical() ==> r.Canonical())
      && (n1.Proper() && n2.Proper() ==> r.neg == if n1.neg != n2.neg then n1.neg else r.Value() < 0)
    ensures r.Trimmed() && r.Len() >= 1
    ensures n1.neg == n2.neg ==> r.Len() <= Max(n1.Len(), n2.Len())
  {
    ghost var s := Max(Max(n1.Scale(), n2.Scale()), scaleMin);
    ghost var t := Max(n1.Scale(), n2.Scale());
    AlignSigned(n1, s);
    AlignSigned(n2, s);
    AlignZero(n1, s);
    AlignZero(n2, s);
    if n1.neg != n2.neg {
      var sum := DoAdd(n1, n2, scaleMin);
      r := sum.(neg := n1.neg);
    } else {
      var c := CompareMagnitudes(n1, n2);
      AlignOrder(n1, n2, t, s);
      if c == -1 {
        var diff := DoSub(n2, n1, scaleMin);
        r := diff.(neg := !n2.neg);
      } else if c == 0 {
        r := Num(false, [0], Zeros(Max(scaleMin, Max(n1.Scale(), n2.Scale()))));
        ZeroMag(r);
      } else {
        var diff := DoSub(n1, n2, scaleMin);
        r := diff.(neg := n1.neg);
      }
    }
  }

  /** bc_add: the exact sum, at the largest of the three scales. */
  method Add(n1: Num, n2: Num, scaleMin: nat) returns (r: Num)
    requires n1.Proper() && n2.Proper()
    ensures var s := Max(Max(n1.Scale(), n2.Scale()), scaleMin);
      && r.Proper() && r.Scale() == s && r.Value() == AlignValue(n1, s) + AlignValue(n2, s)
      && (n1.Canonical() && n2.Canonical() ==> r.Canonical())
      && r.neg == if n1.neg == n2.neg then n1.neg else r.Value() < 0
  {
    ghost var s := Max(Max(n1.Scale(), n2.Scale()), scaleMin);
    ghost var t := Max(n1.Scale(), n2.Scale());
    AlignSigned(n1, s);
    AlignSigned(n2, s);
    AlignZero(n1, s);
    AlignZero(n2, s);
    if n1.neg == n2.neg {
      var sum := DoAdd(n1, n2, scaleMin);
      r := sum.(neg := n1.neg);
    } else {
      var c := CompareMagnitudes(n1, n2);
      AlignOrder(n1, n2, t, s);
      if c == -1 {
        var diff := DoSub(n2, n1, scaleMin);
        r := diff.(neg := n2.neg);
      } else if c == 0 {
        r := Num(false, [0], Zeros(Max(scaleMin, Max(n1.Scale(), n2.Scale()))));
        ZeroMag(r);
      } else {
        var diff := DoSub(n1, n2, scaleMin);
        r := diff.(neg := n1.neg);
      }
    }
  }

  lemma ZeroMag(n: Num)
    requires forall i :: 0 <= i < |n.Digits()| ==> n.Digits()[i] == 0
    ensures n.Mag() == 0
  {
    ValZeros(n.Digits());
  }

  lemma AlignOrder(m: Num, n: Num, s: nat, t: nat)
    requires m.Scale() <= s <= t && n.Scale() <= s
    ensures Align(m, s) < Align(n, s) <==> Align(m, t) < Align(n, t)
    ensures Align(m, s) == Align(n, s) <==> Align(m, t) == Align(n, t)
  {
    AlignMore(m, s, t);
    AlignMore(n, s, t);
    OrderScaled(Align(m, s), Align(n, s), Pow10(t - s));
  }

  lemma OrderScaled(a: int, b: int, p: int)
    requires p > 0
    ensures a < b <==> a * p < b * p
    ensures a == b <==> a * p == b * p
  {
    if a < b {
      MulLe(a + 1, b, p);
    } else if b < a {
      MulLe(b + 1, a, p);
    }
  }
}
