/** _bc_shift_addsub: add or subtract a shifted value in place. */
module ShiftAdd {
  import opened Wrappers
  import opened Digits
  import opened AddSub

  /** Columns left of k are untouched and receive nothing. */
  lemma SumAtCarryFree(s: seq<Digit>, x: seq<Digit>, y: seq<Digit>, k: nat)
    requires SumFrom(s, x, y, k, 0)
    requires s[..k] == x[..k] && forall i :: 0 <= i < k ==> y[i] == 0
    ensures Val(s) == Val(x) + Val(y)
  {
    assert Exactly(k, k);
    ValSplit(s, k);
    ValSplit(x, k);
    ValSplit(y, k);
    ValZeros(y[..k]);
  }

  /** A carry out of the whole field would make the sum too wide. */
  lemma CarryStaysInside(s: seq<Digit>, x: seq<Digit>, y: seq<Digit>, k: nat)
    requires SumFrom(s, x, y, k, 1) && Val(x) + Val(y) < Pow10(|x|)
    ensures k > 0
  {
    assert Exactly(0, 0) && s[0..] == s && x[0..] == x && y[0..] == y;
  }

  lemma BorrowStaysInside(x: seq<Digit>, d: seq<Digit>, y: seq<Digit>, k: nat)
    requires SumFrom(x, d, y, k, 1) && Val(y) <= Val(x)
    ensures k > 0
  {
    assert Exactly(0, 0) && d[0..] == d && x[0..] == x && y[0..] == y;
    ValBound(d);
  }

  lemma StartField(x: seq<Digit>, y: seq<Digit>, k: nat)
    requires |x| == |y| && k <= |x|
    requires forall i :: k <= i < |y| ==> y[i] == 0
    ensures SumFrom(x, x, y, k, 0)
  {
    ValZeros(y[k..]);
  }

  lemma SameBelow(a: seq<Digit>, b: seq<Digit>, x: seq<Digit>, k: nat)
    requires |a| == |b| == |x| && 0 < k <= |x| && a[..k] == x[..k]
    requires forall i :: 0 <= i < k - 1 ==> b[i] == a[i]
    ensures b[..k - 1] == x[..k - 1]
  {
    assert forall i :: 0 <= i < k - 1 ==> b[i] == a[..k][i] == x[..k][i];
  }

  lemma PlusStep(x: seq<Digit>, before: seq<Digit>, y: seq<Digit>, k: nat, v: Digit, c: nat, c': nat)
    requires k < |x| == |before| == |y|
    requires SumFrom(before, x, y, k + 1, c) && before[..k + 1] == x[..k + 1]
    requires v + 10 * c' == before[k] + y[k] + c
    ensures SumFrom(before[k := v], x, y, k, c') && before[k := v][..k] == x[..k]
  {
    assert before[k] == before[..k + 1][k] == x[k];
    SumColumn(before, x, y, before[k := v], x, y, k + 1, c, c');
    SameBelow(before, before[k := v], x, k + 1);
  }

  /** The addition half. */
  method ShiftPlus(acc: array<Digit>, val: seq<Digit>, shift: nat)
    requires |val| + shift <= acc.Length
    requires Val(acc[..]) + Val(val) * Pow10(shift) < Pow10(acc.Length)
    modifies acc
    ensures Val(acc[..]) == old(Val(acc[..])) + Val(val) * Pow10(shift)
  {
    ghost var x, at := acc[..], acc.Length - shift - |val|;
    ghost var y := Pad(at, val, shift);
    PadValue(at, val, shift);
    PadHolds(at, val, shift);
    var carry := PlusColumns(acc, val, acc.Length - shift, x, y);
    RipplePlus(acc, acc.Length - shift - |val|, carry, x, y);
  }

  /** The counted loop over the digits of val, which ends left of column high. */
  method PlusColumns(acc: array<Digit>, val: seq<Digit>, high: nat, ghost x: seq<Digit>, ghost y: seq<Digit>)
    returns (carry: nat)
    requires |val| <= high <= acc.Length && x == acc[..]
    requires |x| == |y| && Holds(y, val, high - |val|)
    modifies acc
    ensures carry <= 1 && acc[..high - |val|] == x[..high - |val|]
    ensures SumFrom(acc[..], x, y, high - |val|, carry)
  {
    var k, low := high, high - |val|;
    carry := 0;
    StartField(x, y, k);
    while k > low
      invariant low <= k <= high && carry <= 1
      invariant acc[..k] == x[..k]
      invariant SumFrom(acc[..], x, y, k, carry)
    {
      ghost var before, c := acc[..], carry;
      k := k - 1;
      var v;
      v, carry := AddDigit(acc[k], val[k - low], carry);
      acc[k] := v;
      assert acc[..] == before[k := v];
      PlusStep(x, before, y, k, v, c, carry);
    }
  }

  method RipplePlus(acc: array<Digit>, start: nat, carry0: int, ghost x: seq<Digit>, ghost y: seq<Digit>)
    requires start <= acc.Length == |x| && 0 <= carry0 <= 1
    requires acc[..start] == x[..start]
    requires SumFrom(acc[..], x, y, start, carry0) && Val(x) + Val(y) < Pow10(|x|)
    requires forall i :: 0 <= i < start ==> y[i] == 0
    modifies acc
    ensures Val(acc[..]) == Val(x) + Val(y)
  {
    var k, carry := start, carry0;
    while carry != 0
      invariant 0 <= k <= start && 0 <= carry <= 1
      invariant acc[..k] == x[..k]
      invariant SumFrom(acc[..], x, y, k, carry)
      decreases k, carry
    {
      CarryStaysInside(acc[..], x, y, k);
      ghost var before := acc[..];
      k := k - 1;
      var v;
      v, carry := AddDigit(acc[k], 0, carry);
      acc[k] := v;
      assert acc[..] == before[k := v];
      PlusStep(x, before, y, k, v, 1, carry);
    }
    SumAtCarryFree(acc[..], x, y, k);
  }

  lemma MinusStep(x: seq<Digit>, before: seq<Digit>, y: seq<Digit>, k: nat, v: Digit, c: nat, c': nat)
    requires k < |x| == |before| == |y|
    requires SumFrom(x, before, y, k + 1, c) && before[..k + 1] == x[..k + 1]
    requires before[k] + 10 * c' == v + y[k] + c
    ensures SumFrom(x, before[k := v], y, k, c') && before[k := v][..k] == x[..k]
  {
    assert before[k] == before[..k + 1][k] == x[k];
    SumColumn(x, before, y, x, before[k := v], y, k + 1, c, c');
    SameBelow(before, before[k := v], x, k + 1);
  }

  /** The subtraction half. */
  method ShiftMinus(acc: array<Digit>, val: seq<Digit>, shift: nat)
    requires |val| + shift <= acc.Length
    requires Val(val) * Pow10(shift) <= Val(acc[..])
    modifies acc
    ensures Val(acc[..]) == old(Val(acc[..])) - Val(val) * Pow10(shift)
  {
    ghost var x, at := acc[..], acc.Length - shift - |val|;
    ghost var y := Pad(at, val, shift);
    PadValue(at, val, shift);
    PadHolds(at, val, shift);
    var borrow := MinusColumns(acc, val, acc.Length - shift, x, y);
    RippleMinus(acc, acc.Length - shift - |val|, borrow, x, y);
  }

  /** The counted loop over the digits of val, which ends left of column high. */
  method MinusColumns(acc: array<Digit>, val: seq<Digit>, high: nat, ghost x: seq<Digit>, ghost y: seq<Digit>)
    returns (borrow: nat)
    requires |val| <= high <= acc.Length && x == acc[..]
    requires |x| == |y| && Holds(y, val, high - |val|)
    modifies acc
    ensures borrow <= 1 && acc[..high - |val|] == x[..high - |val|]
    ensures SumFrom(x, acc[..], y, high - |val|, borrow)
  {
    var k, low := high, high - |val|;
    borrow := 0;
    StartField(x, y, k);
    while k > low
      invariant low <= k <= high && borrow <= 1
      invariant acc[..k] == x[..k]
      invariant SumFrom(x, acc[..], y, k, borrow)
    {
      ghost var before, c := acc[..], borrow;
      k := k - 1;
      var v;
      v, borrow := SubDigit(acc[k], val[k - low], borrow);
      acc[k] := v;
      assert acc[..] == before[k := v];
      MinusStep(x, before, y, k, v, c, borrow);
    }
  }

  method RippleMinus(acc: array<Digit>, start: nat, borrow0: int, ghost x: seq<Digit>, ghost y: seq<Digit>)
    requires start <= acc.Length == |x| && 0 <= borrow0 <= 1
    requires acc[..start] == x[..start]
    requires SumFrom(x, acc[..], y, start, borrow0) && Val(y) <= Val(x)
    requires forall i :: 0 <= i < start ==> y[i] == 0
    modifies acc
    ensures Val(acc[..]) == Val(x) - Val(y)
  {
    var k, borrow := start, borrow0;
    while borrow != 0
      invariant 0 <= k <= start && 0 <= borrow <= 1
      invariant acc[..k] == x[..k]
      invariant SumFrom(x, acc[..], y, k, borrow)
      decreases k, borrow
    {
      BorrowStaysInside(x, acc[..], y, k);
      ghost var before := acc[..];
      k := k - 1;
      var v;
      v, borrow := SubDigit(acc[k], 0, borrow);
      acc[k] := v;
      assert acc[..] == before[k := v];
      MinusStep(x, before, y, k, v, 1, borrow);
    }
    SumAtCarryFree(x, acc[..], y, k);
  }

  /** _bc_shift_addsub.  A leading zero of val is not counted, and the cells
      that count covers lie inside the accumulator (the source asserts this). */
  method ShiftAddSub(acc: array<Digit>, val: seq<Digit>, shift: nat, sub: bool)
    requires |val| >= 1
    requires acc.Length >= shift + (if val[0] == 0 then |val| - 1 else |val|)
    requires sub ==> Val(val) * Pow10(shift) <= Val(acc[..])
    requires !sub ==> Val(acc[..]) + Val(val) * Pow10(shift) < Pow10(acc.Length)
    modifies acc
    ensures Val(acc[..]) == old(Val(acc[..])) + (if sub then -1 else 1) * (Val(val) * Pow10(shift))
  {
    var v := if val[0] == 0 then val[1..] else val;
    assert Val(v) == Val(val) by {
      ValFrom(val, 0);
      assert val[0..] == val;
    }
    if sub {
      ShiftMinus(acc, v, shift);
    } else {
      ShiftPlus(acc, v, shift);
    }
  }
}
