/** Schoolbook multiplication: _bc_simp_mul. */
module SchoolMul {
  import opened Digits

  /** Digit i of s counted from the right, zero outside s. */
  function Dig(s: seq<Digit>, i: int): (d: nat)
    ensures d < 10
  {
    if 0 <= i < |s| then s[|s| - 1 - i] else 0
  }

  /** The number formed by the k rightmost digits of s. */
  function Low(s: seq<Digit>, k: int): nat {
    if k <= 0 then 0 else Low(s, k - 1) + Dig(s, k - 1) * Pow10(k - 1)
  }

  /** Sum of the digit products of column k that use the i rightmost digits of x. */
  function Column(x: seq<Digit>, y: seq<Digit>, k: nat, i: nat): nat {
    if i == 0 then 0 else Column(x, y, k, i - 1) + Dig(x, i - 1) * Dig(y, k - (i - 1))
  }

  /** The same products summed over all columns left of k, row by row. */
  function Rows(x: seq<Digit>, y: seq<Digit>, k: nat, i: nat): int {
    if i == 0 then 0 else Rows(x, y, k, i - 1) + Dig(x, i - 1) * Pow10(i - 1) * Low(y, k - (i - 1))
  }

  lemma {:induction false} LowIsVal(s: seq<Digit>, k: nat)
    requires k <= |s|
    ensures Low(s, k) == Val(s[|s| - k..])
  {
    if k == 0 {
    } else {
      LowIsVal(s, k - 1);
      ValFrom(s, |s| - k);
    }
  }

  lemma {:induction false} LowSaturates(s: seq<Digit>, k: nat)
    requires k >= |s|
    ensures Low(s, k) == Val(s)
  {
    if k == |s| {
      LowIsVal(s, k);
      assert s[0..] == s;
    } else {
      LowSaturates(s, k - 1);
    }
  }

  lemma LowStep(y: seq<Digit>, k: nat, i: nat)
    ensures Pow10(i) * Low(y, k + 1 - i) == Pow10(i) * Low(y, k - i) + Dig(y, k - i) * Pow10(k)
  {
    if i <= k {
      Pow10Add(i, k - i);
      assert Low(y, k - i + 1) == Low(y, k - i) + Dig(y, k - i) * Pow10(k - i);
      LowStepAlgebra(Low(y, k - i), Dig(y, k - i), Pow10(k - i), Pow10(i));
    }
  }

  lemma LowStepAlgebra(low: int, d: int, p: int, q: int)
    ensures q * (low + d * p) == q * low + d * (q * p)
  {
    MulAdd(low, d * p, q);
    MulAssoc(d, p, q);
  }

  /** One more column adds exactly that column's digit products. */
  lemma {:induction false} RowsStep(x: seq<Digit>, y: seq<Digit>, k: nat, i: nat)
    ensures Rows(x, y, k + 1, i) == Rows(x, y, k, i) + Column(x, y, k, i) * Pow10(k)
  {
    if i == 0 {
    } else {
      RowsStep(x, y, k, i - 1);
      LowStep(y, k, i - 1);
      RowsStepAlgebra(Dig(x, i - 1), Pow10(i - 1), Low(y, k + 1 - (i - 1)), Low(y, k - (i - 1)),
                      Dig(y, k - (i - 1)), Pow10(k));
      MulAdd(Column(x, y, k, i - 1), Dig(x, i - 1) * Dig(y, k - (i - 1)), Pow10(k));
    }
  }

  lemma RowsStepAlgebra(d: int, p: int, low': int, low: int, e: int, q: int)
    requires p * low' == p * low + e * q
    ensures d * p * low' == d * p * low + (d * e) * q
  {
    calc {
      d * p * low';
      { MulAssoc(d, p, low'); }
      d * (p * low');
      d * (p * low + e * q);
      d * (p * low) + d * (e * q);
      { MulAssoc(d, p, low); MulAssoc(d, e, q); }
      d * p * low + (d * e) * q;
    }
  }

  lemma {:induction false} RowsTotal(x: seq<Digit>, y: seq<Digit>, k: nat, i: nat)
    requires k >= |y| + i
    ensures Rows(x, y, k, i) == Low(x, i) * Val(y)
  {
    if i == 0 {
    } else {
      RowsTotal(x, y, k, i - 1);
      LowSaturates(y, k - (i - 1));
      MulAdd(Low(x, i - 1), Dig(x, i - 1) * Pow10(i - 1), Val(y));
    }
  }

  lemma {:induction false} RowsZero(x: seq<Digit>, y: seq<Digit>, i: nat)
    ensures Rows(x, y, 0, i) == 0
  {
    if i > 0 {
      RowsZero(x, y, i - 1);
    }
  }

  /** Rows above the top of y contribute nothing to column k. */
  lemma {:induction false} ColumnEmpty(x: seq<Digit>, y: seq<Digit>, k: nat, i: nat)
    requires k + 1 >= |y| + i || i == 0
    ensures Column(x, y, k, i) == 0
  {
    if i > 0 {
      ColumnEmpty(x, y, k, i - 1);
    }
  }

  /** Rows below column k contribute nothing either. */
  lemma {:induction false} ColumnDone(x: seq<Digit>, y: seq<Digit>, k: nat, i: nat, i': nat)
    requires k < i <= i' || |x| <= i <= i'
    ensures Column(x, y, k, i') == Column(x, y, k, i)
  {
    if i < i' {
      ColumnDone(x, y, k, i, i' - 1);
    }
  }

  lemma ColumnTerm(n1: seq<Digit>, n2: seq<Digit>, indx: nat, i1: nat, i2: nat)
    requires i1 < |n1| && i2 < |n2| && |n1| - 1 - i1 + |n2| - 1 - i2 == indx
    ensures var a: int, b: int := n1[i1], n2[i2];
      Column(n1, n2, indx, |n1| - i1) == Column(n1, n2, indx, |n1| - 1 - i1) + a * b
  {
    assert Dig(n1, |n1| - 1 - i1) == n1[i1];
    assert Dig(n2, indx - (|n1| - 1 - i1)) == n2[i2];
  }

  /** The inner loop: one column of digit products added to sum. */
  method ColumnSum(n1: seq<Digit>, n2: seq<Digit>, indx: nat, sum0: nat) returns (sum: nat)
    requires indx < |n1| + |n2|
    ensures sum == sum0 + Column(n1, n2, indx, |n1|)
  {
    sum := sum0;
    var i1 := |n1| - 1 - Max(0, indx - |n2| + 1);
    var i2 := |n2| - 1 - Min(indx, |n2| - 1);
    ColumnEmpty(n1, n2, indx, Max(0, indx - |n2| + 1));
    while i1 >= 0 && i2 <= |n2| - 1
      invariant -1 <= i1 < |n1|
      invariant |n1| - 1 - i1 + |n2| - 1 - i2 == indx
      invariant i2 >= 0
      invariant sum == sum0 + Column(n1, n2, indx, |n1| - 1 - i1)
    {
      var a: int, b: int := n1[i1], n2[i2];
      ColumnTerm(n1, n2, indx, i1, i2);
      sum := sum + a * b;
      i1 := i1 - 1;
      i2 := i2 + 1;
    }
    ColumnDone(n1, n2, indx, |n1| - 1 - i1, |n1|);
  }

  /** The invariant of the outer loop of _bc_simp_mul after k columns. */
  ghost predicate Partial(prod: seq<Digit>, x: seq<Digit>, y: seq<Digit>, k: nat, sum: nat) {
    k <= |prod| && Val(prod[|prod| - k..]) + sum * Pow10(k) == Rows(x, y, k, |x|)
  }

  lemma PartialStep(prod: seq<Digit>, prod': seq<Digit>, x: seq<Digit>, y: seq<Digit>, k: nat, sum: nat, total: nat)
    requires Partial(prod, x, y, k, sum) && k < |prod| == |prod'|
    requires prod'[|prod| - k..] == prod[|prod| - k..]
    requires total == sum + Column(x, y, k, |x|) && prod'[|prod| - k - 1] == total % BASE
    ensures Partial(prod', x, y, k + 1, total / BASE)
  {
    RowsStep(x, y, k, |x|);
    ValFrom(prod', |prod| - k - 1);
    MulAdd(sum, Column(x, y, k, |x|), Pow10(k));
    MulAdd(total % BASE, BASE * (total / BASE), Pow10(k));
    MulAssoc(total / BASE, BASE, Pow10(k));
  }

  /** _bc_simp_mul: the exact product in |n1| + |n2| + 1 digits. */
  method SimpMul(n1: seq<Digit>, n2: seq<Digit>) returns (prod: array<Digit>)
    ensures fresh(prod) && prod.Length == |n1| + |n2| + 1
    ensures Val(prod[..]) == Val(n1) * Val(n2) && prod[0] == 0
  {
    var prodlen := |n1| + |n2| + 1;
    prod := new Digit[prodlen];
    var sum: nat := 0;
    RowsZero(n1, n2, |n1|);
    for indx := 0 to prodlen - 1
      invariant Partial(prod[..], n1, n2, indx, sum)
    {
      ghost var before, s := prod[..], sum;
      sum := ColumnSum(n1, n2, indx, sum);
      prod[prodlen - 1 - indx] := sum % BASE;
      PartialStep(before, prod[..], n1, n2, indx, s, sum);
      sum := sum / BASE;
    }
    TopDigit(prod[..], n1, n2, sum);
    prod[0] := sum;
    ValFrom(prod[..], 0);
    assert prod[..][0..] == prod[..];
  }

  /** What is left over after the last column is zero. */
  lemma TopDigit(prod: seq<Digit>, x: seq<Digit>, y: seq<Digit>, sum: nat)
    requires |prod| == |x| + |y| + 1 && Partial(prod, x, y, |x| + |y|, sum)
    ensures sum == 0 && Val(prod[1..]) == Val(x) * Val(y)
  {
    RowsTotal(x, y, |x| + |y|, |x|);
    LowSaturates(x, |x|);
    ProductBound(x, y);
    NothingLeft(Val(prod[1..]), sum, Pow10(|x| + |y|), Val(x) * Val(y));
  }

  lemma ProductBound(x: seq<Digit>, y: seq<Digit>)
    ensures Val(x) * Val(y) < Pow10(|x| + |y|)
  {
    ValBound(x);
    ValBound(y);
    Pow10Add(|x|, |y|);
    ProductLess(Val(x), Val(y), Pow10(|x|), Pow10(|y|));
  }
}
