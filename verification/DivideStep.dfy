/** The buffer routines of bc_divide: _one_mult, multiply-and-subtract,
    add-back, and one round of the divide loop. */
module DivideStep {
  import opened Wrappers
  import opened Digits
  import opened AddSub
  import opened QuotientDigit

  /** res, plus a carry out of it, is digit times the tail of src from i. */
  ghost predicate Multiple(res: seq<Digit>, src: seq<Digit>, i: nat, digit: nat, carry: nat) {
    i <= |src| && |res| == |src| - i && forall k: nat {:trigger Exactly(k, |res|)} ::
      Exactly(k, |res|) ==> Val(res) + carry * Pow10(k) == digit * Val(src[i..])
  }

  lemma MultipleStep(res: seq<Digit>, src: seq<Digit>, i: nat, digit: nat, carry: nat, d: Digit, carry': nat)
    requires 0 < i && Multiple(res, src, i, digit, carry)
    requires d + 10 * carry' == src[i - 1] * digit + carry
    ensures Multiple([d] + res, src, i - 1, digit, carry')
  {
    assert Exactly(|res|, |res|);
    ValFrom(src, i - 1);
    ValCons(d, res);
    MultipleAlgebra(src[i - 1], digit, carry, d, carry', Pow10(|res|), Val(res), Val(src[i..]));
  }

  lemma MultipleAlgebra(e: nat, digit: nat, carry: nat, d: nat, carry': nat, p: nat, r: nat, s: nat)
    requires d + 10 * carry' == e * digit + carry && r + carry * p == digit * s
    ensures d * p + r + carry' * (10 * p) == digit * (e * p + s)
  {
    calc {
      d * p + carry' * (10 * p);
      (d + 10 * carry') * p;
      (e * digit + carry) * p;
      e * digit * p + carry * p;
    }
    assert digit * (e * p + s) == e * digit * p + digit * s;
  }

  /** One column of a multiplication by a digit. */
  method MulDigit(e: Digit, digit: nat, carry: nat) returns (d: Digit, carry': nat)
    requires digit < 10 && carry < 10
    ensures carry' < 10 && d + 10 * carry' == e * digit + carry
  {
    SmallProduct(e, digit, carry);
    var value := e * digit + carry;
    d, carry' := value % BASE, value / BASE;
  }

  /** Everything outside a[at..at + w] is as it was. */
  ghost predicate Outside(a: seq<Digit>, b: seq<Digit>, at: nat, w: nat) {
    |a| == |b| && forall i :: 0 <= i < |a| && (i < at || at + w <= i) ==> a[i] == b[i]
  }

  /** Columns of the window a[at..at + w] left of k are still those of x. */
  ghost predicate Untouched(a: seq<Digit>, at: nat, k: nat, x: seq<Digit>) {
    at + |x| <= |a| && k <= |x| && forall j :: 0 <= j < k ==> a[at + j] == x[j]
  }

  lemma WindowPrepend(a: seq<Digit>, at: nat, w: nat, k: nat, v: Digit)
    requires at + w <= |a| && k < w
    ensures a[at + k := v][at + k..at + w] == [v] + a[at + k + 1..at + w]
    ensures Outside(a[at + k := v], a, at, w)
  {
  }

  lemma StillUntouched(a: seq<Digit>, at: nat, k: nat, x: seq<Digit>, v: Digit)
    requires k < |x| && Untouched(a, at, k + 1, x)
    ensures a[at + k] == x[k] && Untouched(a, at, k, x) && Untouched(a[at + k := v], at, k, x)
  {
  }

  lemma OutsideTrans(a: seq<Digit>, b: seq<Digit>, c: seq<Digit>, at: nat, w: nat)
    requires Outside(a, b, at, w) && Outside(b, c, at, w)
    ensures Outside(a, c, at, w)
  {
  }

  /** The digit loop of _one_mult.  num and result may be the same buffer. */
  method OneMultLoop(num: array<Digit>, no: nat, size: nat, digit: nat, result: array<Digit>, ro: nat)
    returns (carry: nat)
    requires no + size <= num.Length && ro + size <= result.Length && digit < 10
    requires num == result ==> no == ro
    modifies result
    ensures carry < 10
    ensures Multiple(result[ro..ro + size], old(num[no..no + size]), 0, digit, carry)
    ensures Outside(result[..], old(result[..]), ro, size)
  {
    ghost var src, res0 := num[no..no + size], result[..];
    var i := size;
    carry := 0;
    while i > 0
      invariant 0 <= i <= size && carry < 10
      invariant Untouched(num[..], no, i, src)
      invariant Multiple(result[ro + i..ro + size], src, i, digit, carry)
      invariant Outside(result[..], res0, ro, size)
    {
      ghost var all, done, c := result[..], result[ro + i..ro + size], carry;
      i := i - 1;
      var d;
      d, carry := MulDigit(num[no + i], digit, carry);
      StillUntouched(num[..], no, i, src, d);
      WindowPrepend(all, ro, size, i, d);
      result[ro + i] := d;
      assert result[..] == all[ro + i := d];
      assert result[ro + i..ro + size] == result[..][ro + i..ro + size];
      MultipleStep(done, src, i + 1, digit, c, d, carry);
      OutsideTrans(result[..], all, res0, ro, size);
    }
    assert src[0..] == src;
  }

  lemma SmallProduct(d: nat, digit: nat, carry: nat)
    requires d < 10 && digit < 10 && carry < 10
    ensures d * digit + carry < 100
  {
    MulLe(d, 9, digit);
  }

  lemma MultipleOfZero(res: seq<Digit>, src: seq<Digit>)
    requires |res| == |src| && forall i :: 0 <= i < |res| ==> res[i] == 0
    ensures Multiple(res, src, 0, 0, 0)
  {
    ValZeros(res);
  }

  lemma MultipleOfOne(src: seq<Digit>)
    ensures Multiple(src, src, 0, 1, 0)
  {
    assert src[0..] == src;
  }

  lemma NoCarry(res: seq<Digit>, src: seq<Digit>, digit: nat, carry: nat)
    requires Multiple(res, src, 0, digit, carry) && digit * Val(src) < Pow10(|src|)
    ensures carry == 0 && Val(res) == digit * Val(src)
  {
    assert Exactly(|res|, |res|) && src[0..] == src;
    NothingLeft(Val(res), carry, Pow10(|res|), digit * Val(src));
  }

  /** _one_mult: digit * num, with a carry digit stored left of the result.
      A result at the very start of its buffer must not need that cell. */
  method OneMult(num: array<Digit>, no: nat, size: nat, digit: nat, result: array<Digit>, ro: nat)
    returns (ghost carry: nat)
    requires no + size <= num.Length && ro + size <= result.Length && digit < 10
    requires num == result ==> no == ro
    requires ro == 0 ==> digit * Val(num[no..no + size]) < Pow10(size)
    modifies result
    ensures carry < 10 && (ro == 0 ==> carry == 0)
    ensures Multiple(result[ro..ro + size], old(num[no..no + size]), 0, digit, carry)
    ensures ro > 0 ==> result[ro - 1] == if carry != 0 then carry else old(result[ro - 1])
    ensures forall i :: 0 <= i < ro - 1 || ro + size <= i < result.Length ==> result[i] == old(result[i])
  {
    ghost var src := num[no..no + size];
    carry := 0;
    if digit == 0 {
      forall i | 0 <= i < size { result[ro + i] := 0; }
      MultipleOfZero(result[ro..ro + size], src);
    } else if digit == 1 {
      forall i | 0 <= i < size { result[ro + i] := num[no + i]; }
      assert result[ro..ro + size] == src;
      MultipleOfOne(src);
    } else {
      var c := OneMultLoop(num, no, size, digit, result, ro);
      carry := c;
      if ro == 0 {
        NoCarry(result[ro..ro + size], src, digit, c);
      }
      ghost var res := result[ro..ro + size];
      if c != 0 {
        result[ro - 1] := c;
      }
      assert result[ro..ro + size] == res;
    }
  }

  /** Normalisation: multiply the first size cells of a buffer in place. */
  method ScaleInPlace(a: array<Digit>, size: nat, digit: nat)
    requires size <= a.Length && digit < 10 && digit * Val(a[..size]) < Pow10(size)
    modifies a
    ensures Val(a[..size]) == digit * old(Val(a[..size]))
    ensures forall i :: size <= i < a.Length ==> a[i] == old(a[i])
  {
    ghost var src := a[..size];
    ghost var carry := OneMult(a, 0, size, digit, a, 0);
    NoCarry(a[..size], src, digit, carry);
  }

  /** The product mval = digit * den that one round subtracts. */
  method MultiplyRow(den: array<Digit>, size: nat, digit: nat, mval: array<Digit>)
    requires den != mval && size <= den.Length && mval.Length == size + 1 && digit < 10
    modifies mval
    ensures Val(mval[..]) == digit * Val(den[..size])
  {
    mval[0] := 0;
    ghost var src := den[..size];
    ghost var carry := OneMult(den, 0, size, digit, mval, 1);
    assert mval[..][1..] == mval[1..1 + size];
    RowValue(mval[..], src, digit, carry);
  }

  lemma RowValue(m: seq<Digit>, src: seq<Digit>, digit: nat, carry: nat)
    requires |m| == |src| + 1 && Multiple(m[1..], src, 0, digit, carry) && m[0] == carry
    ensures Val(m) == digit * Val(src)
  {
    assert Exactly(|src|, |m[1..]|);
    ValFrom(m, 0);
    assert m[0..] == m && src[0..] == src;
  }

  lemma WindowStep(a: seq<Digit>, at: nat, w: nat, k: nat, v: Digit, x: seq<Digit>)
    requires at + w <= |a| && |x| == w && k < w && Untouched(a, at, k + 1, x)
    ensures a[at + k := v][at..at + w] == a[at..at + w][k := v]
    ensures Untouched(a[at + k := v], at, k, x) && a[at + k] == x[k]
    ensures Outside(a[at + k := v], a, at, w)
  {
  }

  /** Columns k.. of the window of a hold x minus y, the rest of a is that of b. */
  ghost predicate Subtracted(a: seq<Digit>, b: seq<Digit>, at: nat, x: seq<Digit>, y: seq<Digit>, k: nat, borrow: nat) {
    && Untouched(a, at, k, x) && Outside(a, b, at, |x|)
    && SumFrom(x, a[at..at + |x|], y, k, borrow)
  }

  lemma SubtractedStep(a: seq<Digit>, b: seq<Digit>, at: nat, x: seq<Digit>, y: seq<Digit>, k: nat,
                       borrow: nat, v: Digit, borrow': nat)
    requires k < |x| && Subtracted(a, b, at, x, y, k + 1, borrow)
    requires a[at + k] + 10 * borrow' == v + y[k] + borrow
    ensures Subtracted(a[at + k := v], b, at, x, y, k, borrow')
  {
    var seg := a[at..at + |x|];
    WindowStep(a, at, |x|, k, v, x);
    SumColumn(x, seg, y, x, seg[k := v], y, k + 1, borrow, borrow');
  }

  /** The multiply-and-subtract loop: subtract mval from the window at `at`. */
  method SubtractRow(num: array<Digit>, at: nat, mval: array<Digit>) returns (borrow: nat)
    requires num != mval && at + mval.Length <= num.Length
    modifies num
    ensures borrow <= 1
    ensures SumFrom(old(num[at..at + mval.Length]), num[at..at + mval.Length], mval[..], 0, borrow)
    ensures Outside(num[..], old(num[..]), at, mval.Length)
  {
    ghost var x, y, was := num[at..at + mval.Length], mval[..], num[..];
    var k := mval.Length;
    borrow := 0;
    while k > 0
      invariant 0 <= k <= mval.Length && borrow <= 1 && mval[..] == y
      invariant Subtracted(num[..], was, at, x, y, k, borrow)
    {
      ghost var all, b := num[..], borrow;
      k := k - 1;
      var v;
      v, borrow := SubDigit(num[at + k], mval[k], borrow);
      SubtractedStep(all, was, at, x, y, k, b, v, borrow);
      num[at + k] := v;
      assert num[..] == all[at + k := v];
    }
    assert num[..][at..at + |x|] == num[at..at + mval.Length];
  }

  /** Columns k.. of the window of a hold x plus y, the rest of a is that of b. */
  ghost predicate Added(a: seq<Digit>, b: seq<Digit>, at: nat, x: seq<Digit>, y: seq<Digit>, k: nat, carry: nat) {
    && Untouched(a, at, k, x) && Outside(a, b, at, |x|)
    && SumFrom(a[at..at + |x|], x, y, k, carry)
  }

  lemma AddedStep(a: seq<Digit>, b: seq<Digit>, at: nat, x: seq<Digit>, y: seq<Digit>, k: nat,
                  carry: nat, v: Digit, carry': nat)
    requires k < |x| && Added(a, b, at, x, y, k + 1, carry)
    requires v + 10 * carry' == a[at + k] + y[k] + carry
    ensures Added(a[at + k := v], b, at, x, y, k, carry')
  {
    var seg := a[at..at + |x|];
    WindowStep(a, at, |x|, k, v, x);
    SumColumn(seg, x, y, seg[k := v], x, y, k + 1, carry, carry');
  }

  /** The add-back loop: add den to the window at `at`, but for its first column. */
  method AddBackLoop(num: array<Digit>, at: nat, den: array<Digit>, len: nat, ghost x: seq<Digit>, ghost y: seq<Digit>)
    returns (carry: nat)
    requires num != den && len <= den.Length && at + len + 1 <= num.Length
    requires x == num[..][at..at + len + 1]
    requires |y| == len + 1 && y[0] == 0 && y[1..] == den[..len]
    modifies num
    ensures carry <= 1 && Added(num[..], old(num[..]), at, x, y, 1, carry)
  {
    ghost var was := num[..];
    var k := len + 1;
    carry := 0;
    while k > 1
      invariant 1 <= k <= len + 1 && carry <= 1 && y[1..] == den[..len]
      invariant Added(num[..], was, at, x, y, k, carry)
    {
      ghost var all, c := num[..], carry;
      k := k - 1;
      assert y[k] == y[1..][k - 1] == den[k - 1];
      var v;
      v, carry := AddDigit(num[at + k], den[k - 1], carry);
      AddedStep(all, was, at, x, y, k, c, v, carry);
      num[at + k] := v;
      assert num[..] == all[at + k := v];
    }
  }

  method AddBack(num: array<Digit>, at: nat, den: array<Digit>, len: nat)
    requires num != den && len <= den.Length && at + len + 1 <= num.Length
    requires Val(num[at..at + len + 1]) + Val(den[..len]) >= Pow10(len + 1)
    modifies num
    ensures Val(num[at..at + len + 1]) == old(Val(num[at..at + len + 1])) + Val(den[..len]) - Pow10(len + 1)
    ensures Outside(num[..], old(num[..]), at, len + 1)
  {
    ghost var x, d, was := num[..][at..at + len + 1], den[..len], num[..];
    assert x == num[at..at + len + 1];
    var carry := AddBackLoop(num, at, den, len, x, [0] + d);
    ghost var all := num[..];
    var top: int := num[at];
    top := top + carry;
    var v: Digit := top % BASE;
    AddedStep(all, was, at, x, [0] + d, 0, carry, v, top / BASE);
    num[at] := v;
    assert num[..] == all[at + 0 := v] && den[..len] == d;
    AddedAll(num[..], was, at, x, d, top / BASE);
    assert num[at..at + len + 1] == num[..][at..at + |x|];
  }

  lemma AddedAll(a: seq<Digit>, b: seq<Digit>, at: nat, x: seq<Digit>, d: seq<Digit>, c: nat)
    requires Added(a, b, at, x, [0] + d, 0, c) && c <= 1 && Val(x) + Val(d) >= Pow10(|x|)
    ensures Val(a[at..at + |x|]) == Val(x) + Val(d) - Pow10(|x|)
  {
    ValCons(0, d);
    WrapsOnce(a[at..at + |x|], x, [0] + d, c);
  }

  lemma WrapsOnce(s: seq<Digit>, x: seq<Digit>, y: seq<Digit>, c: nat)
    requires SumFrom(s, x, y, 0, c) && c <= 1 && Val(x) + Val(y) >= Pow10(|s|)
    ensures Val(s) == Val(x) + Val(y) - Pow10(|s|)
  {
    assert Exactly(0, 0) && s[0..] == s && x[0..] == x && y[0..] == y;
    ValBound(s);
    WrapAlgebra(Val(s), c, Pow10(|s|), Val(x) + Val(y));
  }

  lemma WrapAlgebra(s: nat, c: nat, p: nat, total: nat)
    requires s + c * p == total && c <= 1 && s < p <= total
    ensures s == total - p
  {
  }

  // ---------------------------------------------------------------------
  // One round of the divide loop.
  // ---------------------------------------------------------------------

  lemma TwoDigits(s: seq<Digit>)
    requires |s| >= 2
    ensures Val(s[..2]) == 10 * (s[0] as int) + s[1]
  {
    ValTo(s, 1);
    ValTo(s, 0);
    assert s[..0] == [];
  }

  lemma ThreeDigits(s: seq<Digit>)
    requires |s| >= 3
    ensures Val(s[..3]) == 100 * (s[0] as int) + 10 * (s[1] as int) + s[2]
  {
    ValTo(s, 2);
    TwoDigits(s);
  }

  lemma HeadBounds(s: seq<Digit>, i: nat)
    requires i <= |s|
    ensures Val(s[..i]) * Pow10(|s| - i) <= Val(s) < (Val(s[..i]) + 1) * Pow10(|s| - i)
  {
    ValSplit(s, i);
    ValBound(s[i..]);
    MulAdd(Val(s[..i]), 1, Pow10(|s| - i));
  }

  lemma FirstDigitBounds(s: seq<Digit>)
    requires |s| >= 1
    ensures s[0] * Pow10(|s| - 1) <= Val(s) < ((s[0] as int) + 1) * Pow10(|s| - 1)
  {
    HeadBounds(s, 1);
    assert s[..1] == [s[0]];
    ValOne(s[0]);
  }

  /** The window's first digit cannot exceed the divisor's. */
  lemma FirstDigitOrder(x: seq<Digit>, d: seq<Digit>)
    requires |x| == |d| + 1 && |d| >= 1 && Val(x) < 10 * Val(d)
    ensures x[0] <= d[0]
  {
    FirstDigitBounds(x);
    FirstDigitBounds(d);
    DigitOrderAlgebra(x[0], d[0], Pow10(|d| - 1), Val(x), Val(d));
  }

  lemma DigitOrderAlgebra(a: nat, b: nat, p: nat, x: nat, d: nat)
    requires a * (10 * p) <= x && x < 10 * d && d < (b + 1) * p
    ensures a <= b
  {
    if a > b {
      MulLe(b + 1, a, 10 * p);
    }
  }

  /** Guess the digit of x / d, where x is one digit longer than d and next is the digit after x. */
  method GuessFor(x: seq<Digit>, next: Digit, d: seq<Digit>, sentinel: Digit) returns (guess: nat)
    requires |x| == |d| + 1 && |d| >= 1 && d[0] >= 5 && sentinel == 0
    requires Val(x) < 10 * Val(d) && Val(d) > 0
    ensures Val(x) / Val(d) <= guess <= Val(x) / Val(d) + 1 && guess <= 9
  {
    FirstDigitOrder(x, d);
    if |d| >= 2 {
      HeadBounds(x, 3);
      HeadBounds(d, 2);
      ThreeDigits(x);
      TwoDigits(d);
      guess := GuessDigit(x[0], x[1], x[2], d[0], d[1], Val(x), Val(d), Pow10(|d| - 2));
    } else {
      TwoDigits(x);
      assert x[..2] == x && d == [d[0]];
      ValOne(d[0]);
      guess := GuessDigit(x[0], x[1], next, d[0], sentinel, 10 * Val(x) + next, 10 * Val(d), 1);
      TenfoldQuotient(Val(x), Val(d), next);
    }
  }

  lemma TenfoldQuotient(u: nat, v: nat, e: nat)
    requires v > 0 && e < 10
    ensures (10 * u + e) / (10 * v) == u / v
  {
    var q := u / v;
    assert q * v <= u < (q + 1) * v;
    DivAtLeast(10 * u + e, 10 * v, q);
    DivBelow(10 * u + e, 10 * v, q + 1);
  }

  /** Subtracting guess * v either gives the remainder or shows the guess one too large. */
  lemma AfterSubtract(u: nat, v: nat, guess: nat, r: nat, borrow: nat, p: nat)
    requires v > 0 && u / v <= guess <= u / v + 1 && borrow <= 1 && r < p
    requires u + borrow * p == r + guess * v
    ensures borrow == 0 ==> guess == u / v && r == u % v
    ensures borrow == 1 ==> guess == u / v + 1 && r + v - p == u % v && r + v >= p
  {
    var q := u / v;
    assert u == q * v + u % v;
    if guess == q + 1 {
      assert guess * v == q * v + v;
    }
  }

  lemma SubtractMeaning(x: seq<Digit>, r: seq<Digit>, m: seq<Digit>, borrow: nat)
    requires SumFrom(x, r, m, 0, borrow)
    ensures Val(x) + borrow * Pow10(|x|) == Val(r) + Val(m)
  {
    assert Exactly(0, 0) && x[0..] == x && r[0..] == r && m[0..] == m;
  }

  /** The multiple q * den of the divisor is taken from the window. */
  method TakeMultiple(num: array<Digit>, at: nat, den: array<Digit>, len: nat, q: nat, mval: array<Digit>)
    returns (borrow: nat)
    requires num != den && num != mval && den != mval
    requires len <= den.Length && mval.Length == len + 1 && at + len + 1 <= num.Length && q < 10
    modifies num, mval
    ensures borrow <= 1
    ensures old(Val(num[at..at + len + 1])) + borrow * Pow10(len + 1)
         == Val(num[at..at + len + 1]) + q * Val(den[..len])
    ensures Outside(num[..], old(num[..]), at, len + 1)
  {
    ghost var x, d := num[at..at + len + 1], den[..len];
    MultiplyRow(den, len, q, mval);
    assert num[at..at + len + 1] == x;
    borrow := SubtractRow(num, at, mval);
    SubtractMeaning(x, num[at..at + len + 1], mval[..], borrow);
    assert den[..len] == d;
  }

  /** One round: guess, multiply and subtract, add back if negative. */
  method QuotientRound(num: array<Digit>, qdig: nat, den: array<Digit>, len: nat, mval: array<Digit>) returns (q: nat)
    requires num != den && num != mval && den != mval
    requires 1 <= len < den.Length && den[len] == 0 && den[0] >= 5 && mval.Length == len + 1
    requires qdig + len + 1 <= num.Length && qdig + 2 < num.Length
    requires 0 < Val(den[..len]) && Val(num[qdig..qdig + len + 1]) < 10 * Val(den[..len])
    modifies num, mval
    ensures q == old(Val(num[qdig..qdig + len + 1])) / Val(den[..len])
    ensures Val(num[qdig..qdig + len + 1]) == old(Val(num[qdig..qdig + len + 1])) % Val(den[..len])
    ensures Outside(num[..], old(num[..]), qdig, len + 1)
  {
    ghost var x, d := num[qdig..qdig + len + 1], den[..len];
    q := GuessFor(num[qdig..qdig + len + 1], num[qdig + 2], den[..len], den[len]);
    var borrow := 0;
    if q != 0 {
      borrow := TakeMultiple(num, qdig, den, len, q, mval);
      assert den[..len] == d;
      ghost var r := num[qdig..qdig + len + 1];
      ValBound(r);
      AfterSubtract(Val(x), Val(d), q, Val(r), borrow, Pow10(len + 1));
    } else {
      AfterSubtract(Val(x), Val(d), 0, Val(x), 0, Val(x) + 1);
    }
    if borrow == 1 {
      q := q - 1;
      assert den[..len] == d;
      AddBack(num, qdig, den, len);
    }
    assert den[..len] == d;
  }
}
