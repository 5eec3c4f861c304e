/** Long division: bc_divide, bc_divmod and bc_modulo. */
module Division {
  import opened Wrappers
  import opened Digits
  import opened Numbers
  import opened QuotientDigit
  import opened DivideStep

  /** After k quotient digits: the consumed prefix of the dividend is
      quotient * divisor + remainder, and the rest is still to come. */
  ghost predicate Progress(start: seq<Digit>, num: seq<Digit>, quot: seq<Digit>, den: seq<Digit>, k: nat) {
    && |num| == |start| && k + |den| <= |num|
    && Val(start[..k + |den|]) == Val(quot) * Val(den) + Val(num[k..k + |den|])
    && Val(num[k..k + |den|]) < Val(den)
    && num[k + |den|..] == start[k + |den|..]
  }

  /** The window of the next round is the remainder followed by the next digit. */
  lemma NextWindow(start: seq<Digit>, num: seq<Digit>, quot: seq<Digit>, den: seq<Digit>, k: nat)
    requires Progress(start, num, quot, den, k) && k + |den| < |num|
    ensures var u := Val(num[k..k + |den| + 1]);
      && u == 10 * Val(num[k..k + |den|]) + num[k + |den|]
      && u < 10 * Val(den)
      && Val(start[..k + |den| + 1]) == 10 * (Val(quot) * Val(den)) + u
  {
    var w := num[k..k + |den| + 1];
    assert w[..|den|] == num[k..k + |den|];
    assert num[k + |den|] == num[k + |den|..][0] == start[k + |den|];
    ValTo(start, k + |den|);
  }

  lemma ProgressStep(start: seq<Digit>, num: seq<Digit>, num': seq<Digit>, quot: seq<Digit>, den: seq<Digit>, k: nat, q: Digit)
    requires Progress(start, num, quot, den, k) && k + |den| < |num| && |den| >= 1 && Val(den) > 0
    requires Outside(num', num, k, |den| + 1)
    requires Splits(Val(num[k..k + |den| + 1]), Val(den), q, Val(num'[k..k + |den| + 1]))
    ensures Progress(start, num', quot + [q], den, k + 1)
  {
    StepValue(start, num, num', quot, den, k, q);
    ProgressIntro(start, num, num', quot + [q], den, k);
  }

  lemma StepValue(start: seq<Digit>, num: seq<Digit>, num': seq<Digit>, quot: seq<Digit>, den: seq<Digit>, k: nat, q: Digit)
    requires Progress(start, num, quot, den, k) && k + |den| < |num| == |num'| && Val(den) > 0
    requires Splits(Val(num[k..k + |den| + 1]), Val(den), q, Val(num'[k..k + |den| + 1]))
    ensures Splits(Val(start[..k + 1 + |den|]), Val(den), Val(quot + [q]), Val(num'[k + 1..k + 1 + |den|]))
  {
    NextWindow(start, num, quot, den, k);
    WindowShrinks(num', den, k);
    AppendDigit(quot, q);
    var seen := start[..k + 1 + |den|];
    assert seen == start[..k + |den| + 1];
    QuotientStep(Val(quot), Val(quot + [q]), Val(den), Val(num[k..k + |den| + 1]), q, Val(num'[k..k + |den| + 1]), Val(seen));
  }

  lemma ProgressIntro(start: seq<Digit>, num: seq<Digit>, num': seq<Digit>, quot: seq<Digit>, den: seq<Digit>, k: nat)
    requires |start| == |num| && k + |den| < |num|
    requires num[k + |den|..] == start[k + |den|..] && Outside(num', num, k, |den| + 1)
    requires Splits(Val(start[..k + 1 + |den|]), Val(den), Val(quot), Val(num'[k + 1..k + 1 + |den|]))
    ensures Progress(start, num', quot, den, k + 1)
  {
    RestUnchanged(start, num, num', |den|, k);
  }

  /** u divided by v is q, and r is left. */
  predicate Splits(u: int, v: int, q: int, r: int) { u == q * v + r && 0 <= r < v }

  lemma SplitsByDivision(u: nat, v: nat)
    requires v > 0
    ensures Splits(u, v, u / v, u % v)
  {
  }

  lemma AppendDigit(s: seq<Digit>, d: Digit)
    ensures Val(s + [d]) == 10 * Val(s) + d
  {
    assert (s + [d])[..|s|] == s;
  }

  /** A remainder below the divisor leaves the window's first cell zero. */
  lemma WindowShrinks(num: seq<Digit>, den: seq<Digit>, k: nat)
    requires k + |den| < |num| && Val(num[k..k + |den| + 1]) < Val(den)
    ensures Val(num[k + 1..k + 1 + |den|]) == Val(num[k..k + |den| + 1])
  {
    var w := num[k..k + |den| + 1];
    ValBound(den);
    ValFrom(w, 0);
    assert w[0..] == w && w[1..] == num[k + 1..k + 1 + |den|];
    NothingLeft(Val(w[1..]), w[0], Pow10(|den|), Val(w));
  }

  lemma RestUnchanged(start: seq<Digit>, num: seq<Digit>, num': seq<Digit>, len: nat, k: nat)
    requires |start| == |num| == |num'| && k + len < |num|
    requires num[k + len..] == start[k + len..] && Outside(num', num, k, len + 1)
    ensures num'[k + 1 + len..] == start[k + 1 + len..]
  {
    assert num[k + len..][1..] == num[k + 1 + len..];
    assert start[k + len..][1..] == start[k + 1 + len..];
    assert num'[k + 1 + len..] == num[k + 1 + len..];
  }

  lemma QuotientStep(quot: nat, quot': nat, v: nat, u: nat, q: nat, r: nat, total: nat)
    requires Splits(u, v, q, r) && quot' == 10 * quot + q && total == 10 * (quot * v) + u
    ensures Splits(total, v, quot', r)
  {
    MulAdd(10 * quot, q, v);
  }

  /** The divide loop: `rounds` quotient digits, most significant first. */
  method DivideLoop(num: array<Digit>, den: array<Digit>, len: nat, rounds: nat) returns (quot: array<Digit>)
    requires num != den
    requires 1 <= len < den.Length && den[len] == 0 && den[0] >= 5
    requires rounds + len <= num.Length && rounds + 1 < num.Length
    requires Val(num[..len]) < Val(den[..len])
    modifies num
    ensures fresh(quot) && quot.Length == rounds
    ensures Val(quot[..]) == old(Val(num[..rounds + len])) / Val(den[..len])
  {
    ghost var start, d := num[..], den[..len];
    quot := new Digit[rounds];
    var mval := new Digit[len + 1];
    assert start[..len] == num[..len];
    StartProgress(start, d);
    for qdig := 0 to rounds
      invariant Progress(start, num[..], quot[..qdig], d, qdig)
      invariant den[..len] == d && den[len] == 0 && den[0] >= 5
    {
      ghost var qs := quot[..qdig];
      var q := NextDigit(num, qdig, den, len, mval, start, qs);
      quot[qdig] := q;
      assert quot[..qdig + 1] == qs + [q];
    }
    assert quot[..] == quot[..rounds];
    FinalQuotient(start, num[..], quot[..], d, rounds);
    assert start[..rounds + len] == old(num[..rounds + len]);
  }

  /** One round keeps the division in progress. */
  method NextDigit(num: array<Digit>, qdig: nat, den: array<Digit>, len: nat, mval: array<Digit>,
                   ghost start: seq<Digit>, ghost quot: seq<Digit>) returns (q: Digit)
    requires num != den && num != mval && den != mval
    requires 1 <= len < den.Length && den[len] == 0 && den[0] >= 5 && mval.Length == len + 1
    requires qdig + len < num.Length && qdig + 2 < num.Length
    requires Progress(start, num[..], quot, den[..len], qdig)
    modifies num, mval
    ensures Progress(start, num[..], quot + [q], den[..len], qdig + 1)
  {
    ghost var before, d := num[..], den[..len];
    NextWindow(start, before, quot, d, qdig);
    assert num[..][qdig..qdig + len + 1] == num[qdig..qdig + len + 1];
    var digit := QuotientRound(num, qdig, den, len, mval);
    DivBelow(Val(before[qdig..qdig + len + 1]), Val(d), 10);
    SplitsByDivision(Val(before[qdig..qdig + len + 1]), Val(d));
    q := digit;
    assert num[..][qdig..qdig + len + 1] == num[qdig..qdig + len + 1] && den[..len] == d;
    ProgressStep(start, before, num[..], quot, d, qdig, q);
  }

  lemma StartProgress(start: seq<Digit>, d: seq<Digit>)
    requires |d| <= |start| && Val(start[..|d|]) < Val(d)
    ensures Progress(start, start, [], d, 0)
  {
    assert start[..|d|] == start[0..|d|];
  }

  lemma FinalQuotient(start: seq<Digit>, num: seq<Digit>, quot: seq<Digit>, den: seq<Digit>, k: nat)
    requires Progress(start, num, quot, den, k)
    ensures Val(quot) == Val(start[..k + |den|]) / Val(den)
  {
    DivModUnique(Val(start[..k + |den|]), Val(den), Val(quot), Val(num[k..k + |den|]));
  }

  // ---------------------------------------------------------------------
  // Setting up the division.
  // ---------------------------------------------------------------------

  lemma DivDiv(x: nat, a: nat, b: nat)
    requires a > 0 && b > 0
    ensures a * b > 0 && (x / a) / b == x / (a * b)
  {
    DivDivUnique(x, a, b, x / a, (x / a) / b, x % a, (x / a) % b);
  }

  lemma DivDivUnique(x: nat, a: nat, b: nat, q: nat, r: nat, e: nat, f: nat)
    requires x == q * a + e && q == r * b + f && e < a && f < b
    ensures a * b > 0 && r == x / (a * b)
  {
    DivDivAlgebra(x, a, b, q, r, e, f);
    DivModUnique(x, a * b, r, f * a + e);
  }

  lemma DivDivAlgebra(x: nat, a: nat, b: nat, q: nat, r: nat, e: nat, f: nat)
    requires x == q * a + e && q == r * b + f && e < a && f < b
    ensures x == r * (a * b) + (f * a + e) && 0 <= f * a + e < a * b
  {
    assert (r * b + f) * a == r * (a * b) + f * a;
    MulLe(f + 1, b, a);
  }

  lemma DivCancel(x: nat, y: nat, k: nat)
    requires y > 0 && k > 0
    ensures y * k > 0 && (x * k) / (y * k) == x / y
  {
    var q := x / y;
    assert x == q * y + x % y;
    MulLe(1, y, k);
    CancelAlgebra(x, y, k, q, x % y);
    DivModUnique(x * k, y * k, q, (x % y) * k);
  }

  lemma CancelAlgebra(x: nat, y: nat, k: nat, q: nat, r: nat)
    requires x == q * y + r && r < y && k > 0
    ensures x * k == q * (y * k) + r * k && 0 <= r * k < y * k
  {
    MulAssoc(q, y, k);
    MulLe(r + 1, y, k);
  }

  /** The factor that brings the divisor's first digit to at least 5. */
  function Norm(lead: Digit): nat
    requires lead > 0
  {
    10 / (lead + 1)
  }

  lemma NormRange(lead: Digit)
    requires lead > 0
    ensures 1 <= Norm(lead) <= 5 && 5 <= Norm(lead) * lead && Norm(lead) * (lead + 1) <= 10
  {
    if lead == 1 {
    } else if lead == 2 {
    } else if lead <= 4 {
    } else {
    }
  }

  lemma NormDivisor(d: seq<Digit>)
    requires |d| >= 1 && d[0] > 0
    ensures Norm(d[0]) * Val(d) < Pow10(|d|)
    ensures 5 * Pow10(|d| - 1) <= Norm(d[0]) * Val(d)
  {
    NormRange(d[0]);
    FirstDigitBounds(d);
    NormAlgebra(Norm(d[0]), d[0], Pow10(|d| - 1), Val(d));
  }

  lemma NormAlgebra(n: nat, lead: nat, p: nat, v: nat)
    requires 5 <= n * lead && n * (lead + 1) <= 10 && n >= 1
    requires lead * p <= v < (lead + 1) * p
    ensures n * v < 10 * p && 5 * p <= n * v
  {
    MulLe(lead * p, v, n);
    MulAssoc(n, lead, p);
    MulLe(5, n * lead, p);
    MulLe(v + 1, (lead + 1) * p, n);
    assert n * (v + 1) == n * v + n;
    MulAssoc(n, lead + 1, p);
    MulLe(n * (lead + 1), 10, p);
  }

  lemma LeadAtLeastFive(d: seq<Digit>)
    requires |d| >= 1 && 5 * Pow10(|d| - 1) <= Val(d)
    ensures d[0] >= 5
  {
    FirstDigitBounds(d);
    if d[0] < 5 {
      MulLe(d[0] + 1, 5, Pow10(|d| - 1));
    }
  }

  /** A dividend that starts with a zero cell has room for the factor. */
  lemma NormDividend(x: seq<Digit>, n: nat)
    requires |x| >= 1 && x[0] == 0 && n <= 5
    ensures n * Val(x) < Pow10(|x|)
  {
    LeadingZero(x);
    MulLe(n, 5, Val(x));
  }

  /** Scaling both operands does not change the quotient of a prefix. */
  lemma ScaledQuotient(x: seq<Digit>, x': seq<Digit>, d: nat, n: nat, keep: nat)
    requires |x| == |x'| && keep <= |x| && n > 0 && d > 0 && Val(x') == n * Val(x)
    ensures n * d > 0 && Val(x'[..keep]) / (n * d) == Val(x[..keep]) / d
  {
    ValPrefix(x, keep);
    ValPrefix(x', keep);
    ScaledAlgebra(Val(x), Val(x'), Pow10(|x| - keep), d, n);
  }

  lemma ScaledAlgebra(x: nat, x': nat, p: nat, d: nat, n: nat)
    requires p > 0 && n > 0 && d > 0 && x' == n * x
    ensures n * d > 0 && (x' / p) / (n * d) == (x / p) / d
  {
    MulLe(1, n, d);
    DivDiv(x, p, d);
    DivDiv(x', p, n * d);
    DivCancel(x, p * d, n);
    assert (p * d) * n == p * (n * d);
    assert x * n == x';
  }

  /** The first window is smaller than the divisor. */
  lemma FirstWindow(x: seq<Digit>, d: seq<Digit>)
    requires 1 <= |d| <= |x| && x[0] == 0 && d[0] != 0
    ensures Val(x[..|d|]) < Val(d)
  {
    LeadingZero(x[..|d|]);
    ValLead(d);
  }

  lemma LeadingZero(w: seq<Digit>)
    requires |w| >= 1 && w[0] == 0
    ensures Val(w) < Pow10(|w| - 1)
  {
    ValFrom(w, 0);
    assert w[0..] == w;
    ValBound(w[1..]);
  }

  lemma QuotientZero(a: nat, b: nat)
    requires b > 0
    ensures a / b == 0 <==> a < b
  {
    if a < b {
      DivModUnique(a, b, 0, a);
    } else {
      DivAtLeast(a, b, 1);
    }
  }

  /** Allocate the buffers and normalise both operands. */
  method Normalise(x: seq<Digit>, d: seq<Digit>) returns (num: array<Digit>, den: array<Digit>, ghost norm: nat)
    requires |x| >= 1 && x[0] == 0 && |d| >= 1 && d[0] != 0
    ensures fresh(num) && fresh(den) && num != den && num.Length == |x| + 1 && den.Length == |d| + 1
    ensures norm > 0 && Val(num[..|x|]) == norm * Val(x) && Val(den[..|d|]) == norm * Val(d)
    ensures den[|d|] == 0 && den[0] >= 5
  {
    num := new Digit[|x| + 1](i requires 0 <= i <= |x| => if i < |x| then x[i] else 0);
    den := new Digit[|d| + 1](i requires 0 <= i <= |d| => if i < |d| then d[i] else 0);
    assert num[..|x|] == x && den[..|d|] == d;
    var factor := Norm(d[0]);
    NormRange(d[0]);
    NormDivisor(d);
    NormDividend(x, factor);
    if factor != 1 {
      ScaleInPlace(num, |x|, factor);
      ScaleInPlace(den, |d|, factor);
    }
    LeadAtLeastFive(den[..|d|]);
    norm := factor;
  }

  /** Normalise, then run the divide loop for `rounds` digits. */
  method LongDivide(x: seq<Digit>, d: seq<Digit>, rounds: nat) returns (quot: array<Digit>)
    requires |x| >= 1 && x[0] == 0 && |d| >= 1 && d[0] != 0 && rounds + |d| <= |x|
    ensures fresh(quot) && quot.Length == rounds
    ensures Val(d) > 0 && Val(quot[..]) == Val(x[..rounds + |d|]) / Val(d)
  {
    ValLead(d);
    var num, den, norm := Normalise(x, d);
    ghost var x', d' := num[..|x|], den[..|d|];
    FirstScaledWindow(x, x', d, d', norm);
    ScaledQuotient(x, x', Val(d), norm, rounds + |d|);
    assert num[..|d|] == x'[..|d|] && num[..rounds + |d|] == x'[..rounds + |d|];
    quot := DivideLoop(num, den, |d|, rounds);
    assert den[..|d|] == d';
  }

  lemma FirstScaledWindow(x: seq<Digit>, x': seq<Digit>, d: seq<Digit>, d': seq<Digit>, norm: nat)
    requires 1 <= |d| <= |x| == |x'| && x[0] == 0 && d[0] != 0 && norm > 0
    requires Val(x') == norm * Val(x) && Val(d') == norm * Val(d)
    ensures Val(x'[..|d|]) < Val(d')
  {
    ValLead(d);
    ScaledQuotient(x, x', Val(d), norm, |d|);
    FirstWindow(x, d);
    QuotientZero(Val(x[..|d|]), Val(d));
    QuotientZero(Val(x'[..|d|]), Val(d'));
  }

  // ---------------------------------------------------------------------
  // bc_divide.
  // ---------------------------------------------------------------------

  /** |n1| / |n2| in units of 10^-scale, rounded down. */
  function QuotientMagnitude(n1: Num, n2: Num, scale: nat): (q: nat)
    requires n2.Mag() != 0
  {
    PositiveProduct(n2.Mag(), Pow10(n1.Scale()));
    ProductNonNegative(n1.Mag(), Pow10(n2.Scale() + scale));
    QuotientNonNegative(n1.Mag() * Pow10(n2.Scale() + scale), n2.Mag() * Pow10(n1.Scale()));
    (n1.Mag() * Pow10(n2.Scale() + scale)) / (n2.Mag() * Pow10(n1.Scale()))
  }

  lemma QuotientNonNegative(a: nat, b: nat)
    requires b > 0
    ensures a / b >= 0
  {
  }

  /** n1 / n2 in units of 10^-scale, truncated toward zero. */
  function Quotient(n1: Num, n2: Num, scale: nat): (q: int)
    requires n2.Mag() != 0
  {
    var m: int := QuotientMagnitude(n1, n2, scale);
    if n1.neg != n2.neg then -m else m
  }

  /** The first while loop: zeros at the end of n2 are wasted effort. */
  method DropTrailingZeros(d: seq<Digit>, scale: nat) returns (scale2: nat)
    requires scale <= |d|
    ensures scale2 <= scale
    ensures Val(d) == Val(d[..|d| - scale + scale2]) * Pow10(scale - scale2)
  {
    scale2 := scale;
    while scale2 > 0 && d[|d| - scale + scale2 - 1] == 0
      invariant scale2 <= scale
      invariant forall i :: |d| - scale + scale2 <= i < |d| ==> d[i] == 0
    {
      scale2 := scale2 - 1;
    }
    var keep := |d| - scale + scale2;
    ValSplit(d, keep);
    ValZeros(d[keep..]);
  }

  /** The second while loop: leading zeros of the divisor. */
  method DropLeadingZeros(d: seq<Digit>) returns (t: seq<Digit>)
    requires Val(d) > 0
    ensures 1 <= |t| <= |d| && t[0] != 0 && Val(t) == Val(d)
  {
    var i := 0;
    while i < |d| && d[i] == 0
      invariant i <= |d|
      invariant forall j :: 0 <= j < i ==> d[j] == 0
    {
      i := i + 1;
    }
    t := d[i..];
    TrimValue(d, i);
  }

  /** Moving the decimal points does not change the quotient. */
  lemma ReducedQuotient(a: nat, v: nat, extra: nat, t: nat, s1: nat, s2: nat, scale2: nat, scale: nat)
    requires v > 0 && scale2 <= s2
    requires extra + s1 == t + scale + scale2
    requires extra <= s2 + scale
    ensures Pow10(t) * v > 0 && (v * Pow10(s2 - scale2)) * Pow10(s1) > 0
    ensures (a * Pow10(extra)) / (Pow10(t) * v) == (a * Pow10(s2 + scale)) / ((v * Pow10(s2 - scale2)) * Pow10(s1))
  {
    var w := s2 + scale - extra;
    PositiveProduct(Pow10(t), v);
    DivCancel(a * Pow10(extra), Pow10(t) * v, Pow10(w));
    Pow10Add(extra, w);
    MulAssoc(a, Pow10(extra), Pow10(w));
    ReducedDivisor(v, t, w, s2 - scale2, s1);
  }

  lemma ReducedDivisor(v: nat, t: nat, w: nat, i: nat, j: nat)
    requires t + w == i + j
    ensures (Pow10(t) * v) * Pow10(w) == (v * Pow10(i)) * Pow10(j)
  {
    EqualProducts(t, w, i, j);
    ReducedDivisorAlgebra(v, Pow10(t), Pow10(w), Pow10(i), Pow10(j), Pow10(t + w));
  }

  lemma EqualProducts(t: nat, w: nat, i: nat, j: nat)
    requires t + w == i + j
    ensures Pow10(t) * Pow10(w) == Pow10(t + w) == Pow10(i) * Pow10(j)
  {
    Pow10Add(t, w);
    Pow10Add(i, j);
  }

  lemma ReducedDivisorAlgebra(v: int, t: int, w: int, i: int, j: int, p: int)
    requires t * w == p && i * j == p
    ensures (t * v) * w == (v * i) * j
  {
    calc {
      (t * v) * w;
      v * (t * w);
      v * (i * j);
      (v * i) * j;
    }
  }

  lemma TooShort(a: nat, extra: nat, t: nat, v: nat, width: nat, len: nat)
    requires len >= 1 && a < Pow10(width) && v >= Pow10(len - 1) && width + extra < t + len
    ensures Pow10(t) * v > 0 && (a * Pow10(extra)) / (Pow10(t) * v) == 0
  {
    PositiveProduct(Pow10(t), v);
    Pow10Add(width, extra);
    Pow10Add(t, len - 1);
    Pow10Monotone(width + extra, t + (len - 1));
    TooShortAlgebra(a, Pow10(extra), Pow10(width), Pow10(width + extra), Pow10(t), v, Pow10(len - 1), Pow10(t + (len - 1)));
    QuotientZero(a * Pow10(extra), Pow10(t) * v);
  }

  lemma TooShortAlgebra(a: nat, e: nat, p: nat, pe: nat, t: nat, v: nat, l: nat, tl: nat)
    requires a < p && e > 0 && pe == p * e && tl == t * l && pe <= tl && v >= l
    ensures 0 <= a * e < t * v
  {
    MulLe(a + 1, p, e);
    MulLe(l, v, t);
  }

  /** The digits of d1 * 10^extra / (den * 10^t), with `scale` of them after the
      point; d1 keeps whole digits before its point, shifted left by scale2. */
  method DivideDigits(d1: seq<Digit>, den: seq<Digit>, extra: nat, len1: nat, scale: nat, ghost t: nat)
    returns (buf: seq<Digit>, len: nat)
    requires |den| >= 1 && den[0] != 0 && Val(den) > 0 && len1 >= 1
    requires |d1| + extra == len1 + scale + t
    ensures len >= 1 && |buf| == len + scale
    ensures Pow10(t) * Val(den) > 0 && Val(buf) == (Val(d1) * Pow10(extra)) / (Pow10(t) * Val(den))
  {
    if |den| > len1 + scale {
      buf, len := Zeros(scale + 1), 1;
      ValBound(d1);
      ValLead(den);
      ValZeros(buf);
      TooShort(Val(d1), extra, t, Val(den), |d1|, |den|);
    } else {
      var lead := if |den| > len1 then |den| - len1 else 0;
      var quot := LongDivide([0] + d1 + Zeros(extra), den, len1 + scale - |den| + 1);
      buf, len := Zeros(lead) + quot[..], lead + quot.Length - scale;
      ValAppend(Zeros(lead), quot[..]);
      ValZeros(Zeros(lead));
      DividendPrefix(d1, extra, len1 + scale + 1, Val(den));
    }
  }

  lemma QuotientIs(n1: Num, n2: Num, scale: nat, v: nat, scale2: nat, extra: nat, t: nat)
    requires v > 0 && n2.Mag() != 0 && scale2 <= n2.Scale() && n2.Mag() == v * Pow10(n2.Scale() - scale2)
    requires extra + n1.Scale() == t + scale + scale2 && extra <= n2.Scale() + scale
    ensures Pow10(t) * v > 0
    ensures QuotientMagnitude(n1, n2, scale) == (n1.Mag() * Pow10(extra)) / (Pow10(t) * v)
  {
    ReducedQuotient(n1.Mag(), v, extra, t, n1.Scale(), n2.Scale(), scale2, scale);
  }

  /** The magnitude of the quotient as a string of len + scale digits. */
  method QuotientDigits(n1: Num, n2: Num, scale: nat) returns (buf: seq<Digit>, len: nat)
    requires n1.Len() >= 1 && n2.Mag() != 0
    ensures len >= 1 && |buf| == len + scale
    ensures Val(buf) == QuotientMagnitude(n1, n2, scale)
  {
    var d2 := n2.Digits();
    var scale2 := DropTrailingZeros(d2, n2.Scale());
    var len1 := n1.Len() + scale2;
    var extra := if n1.Scale() - scale2 < scale then scale - (n1.Scale() - scale2) else 0;
    NonZeroFactor(Val(d2[..n2.Len() + scale2]), Pow10(n2.Scale() - scale2));
    var den := DropLeadingZeros(d2[..n2.Len() + scale2]);
    ghost var t := n1.Scale() + extra - (scale2 + scale);
    QuotientIs(n1, n2, scale, Val(den), scale2, extra, t);
    buf, len := DivideDigits(n1.Digits(), den, extra, len1, scale, t);
  }

  lemma NonZeroFactor(a: nat, b: nat)
    requires a * b != 0
    ensures a > 0
  {
  }

  lemma DividendPrefix(d: seq<Digit>, extra: nat, keep: nat, v: nat)
    requires keep <= |d| + extra + 1 && v > 0
    ensures Pow10(|d| + extra + 1 - keep) * v > 0
    ensures Val(([0] + d + Zeros(extra))[..keep]) / v
         == (Val(d) * Pow10(extra)) / (Pow10(|d| + extra + 1 - keep) * v)
  {
    var x := [0] + d + Zeros(extra);
    assert x == [0] + (d + Zeros(extra));
    ValCons(0, d + Zeros(extra));
    ValAppend(d, Zeros(extra));
    ValZeros(Zeros(extra));
    ValPrefix(x, keep);
    DivDiv(Val(x), Pow10(|x| - keep), v);
  }

  /** bc_divide: no result for a zero divisor, otherwise the quotient truncated
      toward zero at exactly `scale` digits.  The special case for a divisor of
      one stores a copy of n1 that the general division then replaces. */
  method Divide(n1: Num, n2: Num, scale: nat) returns (r: Option<Num>)
    requires n1.Len() >= 1
    ensures r.None? <==> n2.Mag() == 0
    ensures r.Some? ==> Is(r.value, Quotient(n1, n2, scale), scale)
  {
    var zero := IsZero(n2);
    if zero {
      return None;
    }
    var buf, len := QuotientDigits(n1, n2, scale);
    var q := Finish(n1.neg != n2.neg, buf, len, scale);
    assert buf[..len + scale] == buf;
    r := Some(q);
  }
}
