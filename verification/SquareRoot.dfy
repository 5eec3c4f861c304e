/** bc_int2num and bc_sqrt. */
module SquareRoot {
  import opened Wrappers
  import opened Digits
  import opened Numbers
  import opened AddSub
  import opened Karatsuba
  import opened Division
  import opened Power
  import opened LongValue
  import opened Raising
  import opened Newton

  /** bc_int2num: digits come out last first. */
  method Int2Num(value: int) returns (n: Num)
    ensures Is(n, value, 0)
  {
    var neg, val: nat := value < 0, if value < 0 then -value else value;
    var buffer: seq<Digit> := [val % BASE];
    var v := val / BASE;
    ValOne(val % BASE);
    assert Pow10(1) == 10;
    while v != 0
      invariant v >= 0 && |buffer| >= 1
      invariant Val(buffer) + v * Pow10(|buffer|) == val
      invariant v == 0 && |buffer| > 1 ==> buffer[0] != 0
    {
      ValCons(v % BASE, buffer);
      NextDigit(Val(buffer), v, Pow10(|buffer|));
      buffer := [v % BASE] + buffer;
      v := v / BASE;
    }
    n := Num(neg, buffer, []);
    assert n.Digits() == buffer;
  }

  lemma NextDigit(low: nat, v: nat, p: nat)
    ensures (v % BASE) * p + low + (v / BASE) * (10 * p) == low + v * p
  {
    assert v == v % BASE + 10 * (v / BASE);
    MulAdd(v % BASE, 10 * (v / BASE), p);
  }

  // ---------------------------------------------------------------------
  // One Newton round on numbers is one Newton round on integers.
  // ---------------------------------------------------------------------

  /** The radicand in units of 10^-2c, rounded down. */
  function Radicand(num: Num, c: nat): nat {
    QuotientNonNegative(Times(num.Mag(), Pow10(c + c)), Pow10(num.Scale()));
    Times(num.Mag(), Pow10(c + c)) / Pow10(num.Scale())
  }

  /** The guess in units of 10^-c. */
  predicate Guess(guess: Num, c: nat) {
    guess.Canonical() && !guess.neg && guess.Scale() <= c && guess.Mag() > 0
  }

  lemma AlignPositive(guess: Num, c: nat)
    requires Guess(guess, c)
    ensures Align(guess, c) > 0 && AlignValue(guess, c) == Align(guess, c)
  {
    AlignZero(guess, c);
  }

  /** Dividing num by the guess at scale c is integer division of the radicand. */
  lemma GuessQuotient(num: Num, guess: Num, c: nat)
    requires Guess(guess, c) && !num.neg
    ensures Align(guess, c) > 0
    ensures Quotient(num, guess, c) == Radicand(num, c) / Align(guess, c)
  {
    AlignPositive(guess, c);
    var g, k := guess.Scale(), c - guess.Scale();
    Pow10Add(g + c, k);
    GuessAlgebra(num.Mag(), Pow10(g + c), Pow10(k), Pow10(c + c), guess.Mag(), Pow10(num.Scale()));
  }

  lemma GuessAlgebra(m: nat, a: nat, k: nat, p: nat, g: nat, s: nat)
    requires a * k == p && k > 0 && g > 0 && s > 0
    ensures g * s > 0 && g * k > 0 && (m * p) / s >= 0
    ensures (m * a) / (g * s) == ((m * p) / s) / (g * k)
  {
    PositiveProduct(g, s);
    PositiveProduct(g, k);
    ProductNonNegative(m, a);
    ProductNonNegative(m, p);
    DivCancel(m * a, g * s, k);
    MulAssoc(m, a, k);
    DivDiv(m * p, s, g * k);
    assert (g * s) * k == s * (g * k);
  }

  const POINT5 := Num(false, [0], [5])

  lemma Point5Value()
    ensures POINT5.Value() == 5 && POINT5.Scale() == 1
  {
    assert POINT5.Digits() == [0] + [5];
    ValCons(0, [5]);
    ValOne(5);
  }

  lemma Halved(x: nat)
    ensures Quo(x * 5, 10) == x / 2
  {
  }

  /** The body of the Newton loop: the next guess, and whether it moved by at
      most one unit of the last place. */
  method NewtonRound(num: Num, guess: Num, c: nat) returns (next: Num, near: bool)
    requires num.Canonical() && !num.neg && Guess(guess, c) && c >= 1
    ensures var g := Align(guess, c);
      && g > 0
      && Is(next, Next(Radicand(num, c), g), c)
      && (near <==> g - 1 <= Next(Radicand(num, c), g) <= g + 1)
  {
    ghost var g, m := Align(guess, c), Radicand(num, c);
    AlignPositive(guess, c);
    GuessQuotient(num, guess, c);
    var q := Divide(num, guess, c);
    var sum := Add(q.value, guess, 0);
    assert Pow10(0) == 1;
    assert sum.Scale() == c && sum.Value() == m / g + g;
    next := HalfOf(sum, c);
    near := Nearby(next, guess, c);
  }

  method HalfOf(sum: Num, c: nat) returns (half: Num)
    requires sum.Canonical() && !sum.neg && sum.Scale() == c && c >= 1
    ensures Is(half, sum.Mag() / 2, c)
  {
    Point5Value();
    half := Multiply(sum, POINT5, c);
    assert Pow10(1) == 10;
    Halved(sum.Mag());
  }

  /** bc_sub followed by bc_is_near_zero. */
  method Nearby(next: Num, guess: Num, c: nat) returns (near: bool)
    requires next.Canonical() && !next.neg && next.Scale() == c && Guess(guess, c)
    ensures near <==> Align(guess, c) - 1 <= next.Mag() <= Align(guess, c) + 1
  {
    var diff := Sub(next, guess, c + 1);
    near := IsNearZero(diff, c);
    AlignMore(guess, c, c + 1);
    AlignSigned(guess, c + 1);
    AlignSigned(next, c + 1);
    assert Pow10(1) == 10 && Pow10(0) == 1;
    assert Align(next, c) == next.Mag();
    AlignMore(next, c, c + 1);
    NearAlgebra(diff.Value(), diff.Mag(), next.Mag(), Align(guess, c));
  }

  lemma NearAlgebra(d: int, mag: int, x: int, y: int)
    requires mag >= 0 && d == 10 * x - 10 * y && (d == mag || d == -mag)
    ensures mag / 10 <= 1 <==> y - 1 <= x <= y + 1
  {
  }

  // ---------------------------------------------------------------------
  // The loop over precisions.
  // ---------------------------------------------------------------------

  /** x is the integer square root of m, or one more just below a square. */
  predicate NearRoot(m: nat, x: nat) { Square(x) <= m + 1 && m < Square(x + 1) }

  /** Newton's loop: triple the precision whenever a round settles, and stop
      when a round settles with at least one digit to spare. */
  method NewtonLoop(num: Num, start: Num, startScale: nat, rscale: nat) returns (guess: Num, cscale: nat)
    requires num.Canonical() && !num.neg && num.Mag() > 0 && num.Scale() <= rscale
    requires Guess(start, startScale) && startScale >= 1 && Radicand(num, startScale) > 0
    ensures cscale >= rscale + 1 && Guess(guess, cscale) && guess.Scale() == cscale
    ensures NearRoot(Radicand(num, cscale), guess.Mag())
  {
    guess, cscale := start, startScale;
    var done := false;
    while !done
      invariant Guess(guess, cscale) && cscale >= 1 && Radicand(num, cscale) > 0
      invariant done ==> cscale >= rscale + 1 && guess.Scale() == cscale
      invariant done ==> NearRoot(Radicand(num, cscale), guess.Mag())
      decreases Max(0, rscale + 1 - cscale), !done,
                Square(Align(guess, cscale) + 1) <= Radicand(num, cscale), Align(guess, cscale)
    {
      ghost var g, m := Align(guess, cscale), Radicand(num, cscale);
      var next, near := NewtonRound(num, guess, cscale);
      RoundProgress(m, g);
      NextPositive(m, g);
      guess := next;
      assert Align(guess, cscale) == guess.Mag() by { assert Pow10(0) == 1; }
      if near {
        SmallStep(m, g);
        if cscale < rscale + 1 {
          RadicandGrows(num, cscale, Min(cscale * 3, rscale + 1));
          cscale := Min(cscale * 3, rscale + 1);
        } else {
          done := true;
        }
      }
    }
  }

  lemma RoundProgress(m: nat, g: nat)
    requires g > 0
    ensures m < Square(Next(m, g) + 1)
    ensures m < Square(g + 1) && !(g - 1 <= Next(m, g) <= g + 1) ==> Next(m, g) < g
  {
    NextNotBelow(m, g);
    if m < Square(g + 1) && Next(m, g) > g {
      BigStepDown(m, g);
    }
  }

  lemma NextPositive(m: nat, g: nat)
    requires g > 0 && m > 0
    ensures Next(m, g) > 0
  {
    NextNotBelow(m, g);
  }

  lemma RadicandSign(num: Num, c: nat)
    ensures Radicand(num, c) > 0 <==> Times(num.Mag(), Pow10(c + c)) >= Pow10(num.Scale())
  {
    QuotientZero(Times(num.Mag(), Pow10(c + c)), Pow10(num.Scale()));
  }

  lemma RadicandGrows(num: Num, c: nat, c': nat)
    requires c <= c' && Radicand(num, c) > 0
    ensures Radicand(num, c') > 0
  {
    RadicandSign(num, c);
    RadicandSign(num, c');
    Pow10Monotone(c + c, c' + c');
    MulLe(Pow10(c + c), Pow10(c' + c'), num.Mag());
  }

  // ---------------------------------------------------------------------
  // The final truncation.
  // ---------------------------------------------------------------------

  /** root is the square root of m / 10^s in units of 10^-rs, rounded down. */
  predicate SqrtOf(root: int, m: nat, s: nat, rs: nat) {
    Square(root) * Pow10(s) <= m * Pow10(rs + rs) < Square(root + 1) * Pow10(s)
  }

  lemma SquareMod10(x: nat)
    requires x % 10 == 0
    ensures Square(x) % 10 == 0
  {
    assert Square(x) == 10 * ((x / 10) * x);
  }

  /** Dropping at least one digit removes the possible excess of one: a square
      that is one more than a multiple of ten does not end in zero. */
  lemma ExcessVanishes(m: nat, x: nat, y: nat, p: nat)
    requires NearRoot(m, x) && m % 10 == 0 && x > 0
    requires y <= x < y + p && y % 10 == 0
    ensures Square(y) <= m < Square(y + p)
  {
    SquareMonotone(x + 1, y + p);
    if Square(x) <= m {
      SquareMonotone(y, x);
    } else {
      if x % 10 == 0 {
        SquareMod10(x);
      }
      SquareMonotone(y, x - 1);
      assert Square(x - 1) == Square(x) - 2 * x + 1;
    }
  }

  lemma Truncated(m: nat, x: nat, p: nat) returns (root: nat)
    requires NearRoot(m, x) && m % 10 == 0 && x > 0 && p > 0 && p % 10 == 0
    ensures root == x / p && Square(root * p) <= m < Square((root + 1) * p)
  {
    var y;
    root, y := Floor(x, p);
    MultipleOfTen(root, p);
    ExcessVanishes(m, x, y, p);
  }

  lemma Floor(x: nat, p: nat) returns (root: nat, y: nat)
    requires p > 0
    ensures root == x / p && y == root * p && y <= x < y + p && (root + 1) * p == y + p
  {
    QuotientNonNegative(x, p);
    root := x / p;
    ProductNonNegative(root, p);
    y := root * p;
    DivFacts(x, p);
    MulAdd(root, 1, p);
  }

  lemma MultipleOfTen(q: nat, p: nat)
    requires p % 10 == 0
    ensures (q * p) % 10 == 0
  {
    assert q * p == 10 * (q * (p / 10));
  }

  /** From units of 10^-2c back to the number itself. */
  lemma RootAlgebra(root: nat, mag: nat, m: nat, p: nat, s: nat, a: nat, b: nat)
    requires Square(root * p) <= m < Square((root + 1) * p)
    requires m * s == mag * a && a == b * Square(p) && p > 0 && s > 0
    ensures Square(root) * s <= mag * b < Square(root + 1) * s
  {
    var pp := Square(p);
    assert pp > 0 by { MulLe(1, p, p); }
    SquareOfProduct(root, p);
    SquareOfProduct(root + 1, p);
    ScaleOut(Square(root), pp, m, s, mag, b);
    ScaleOutStrict(Square(root + 1), pp, m, s, mag, b);
  }

  lemma SquareOfProduct(x: int, p: int)
    ensures Square(x * p) == Square(x) * Square(p)
  {
  }

  lemma ScaleOut(r: nat, pp: nat, m: nat, s: nat, mag: nat, b: nat)
    requires r * pp <= m && m * s == mag * (b * pp) && pp > 0
    ensures r * s <= mag * b
  {
    MulLe(r * pp, m, s);
    assert (r * pp) * s == (r * s) * pp && mag * (b * pp) == (mag * b) * pp;
    if r * s > mag * b {
      MulLe(mag * b + 1, r * s, pp);
    }
  }

  lemma ScaleOutStrict(r: nat, pp: nat, m: nat, s: nat, mag: nat, b: nat)
    requires m < r * pp && m * s == mag * (b * pp) && pp > 0 && s > 0
    ensures mag * b < r * s
  {
    MulLe(m + 1, r * pp, s);
    assert (r * pp) * s == (r * s) * pp && mag * (b * pp) == (mag * b) * pp;
    if r * s <= mag * b {
      MulLe(r * s, mag * b, pp);
    }
  }

  /** The settled guess, cut to rs digits, is the truncated square root. */
  lemma RootOf(num: Num, x: nat, c: nat, rs: nat)
    requires num.Scale() <= rs < c && x > 0 && NearRoot(Radicand(num, c), x)
    ensures SqrtOf(x / Pow10(c - rs), num.Mag(), num.Scale(), rs)
  {
    var s, m, p := num.Scale(), Radicand(num, c), Pow10(c - rs);
    Pow10Add(s, c + c - s);
    ExactRadicand(num.Mag(), Pow10(s), Pow10(c + c - s), Pow10(c + c), m);
    PowerMod10(c + c - s);
    PowerMod10(c - rs);
    MultipleOfTen(num.Mag(), Pow10(c + c - s));
    var root := Truncated(m, x, p);
    Pow10Add(c - rs, c - rs);
    Pow10Add(rs + rs, (c - rs) + (c - rs));
    RootAlgebra(root, num.Mag(), m, p, Pow10(s), Pow10(c + c), Pow10(rs + rs));
  }

  lemma PowerMod10(k: nat)
    requires k > 0
    ensures Pow10(k) % 10 == 0
  {
    assert Pow10(k) == 10 * Pow10(k - 1);
  }

  /** With more than s digits the radicand is exact. */
  lemma ExactRadicand(mag: nat, s: nat, k: nat, p: nat, m: nat)
    requires s * k == p && s > 0 && m == Times(mag, p) / s
    ensures m == mag * k && m * s == mag * p
  {
    assert Times(mag, p) == (mag * k) * s;
    DivModUnique(Times(mag, p), s, mag * k, 0);
  }

  // ---------------------------------------------------------------------
  // bc_sqrt.
  // ---------------------------------------------------------------------

  /** The first guess for a number above one: ten to half its length. */
  method FirstGuess(len: nat) returns (guess: Num)
    ensures Guess(guess, 0)
  {
    var ten := Int2Num(10);
    var half := Int2Num(len);
    Point5Value();
    half := Multiply(half, POINT5, 0);
    half := CutScale(half, 0);
    var g, tooLarge := Raise(ten, half, 0);
    ScanNonNegative(half.whole, 0);
    guess := g.value;
    if Scan(half.whole, 0) > 0 {
      PowPositive(10, Scan(half.whole, 0));
      assert Pow10(0) == 1;
    } else {
      ConstantValues();
    }
  }

  lemma ScanNonNegative(rest: seq<Digit>, val: int)
    ensures Scan(rest, val) >= 0
  {
  }

  /** Truncating the last guess with bc_divide. */
  method CutToScale(guess: Num, c: nat, rscale: nat) returns (r: Num)
    requires Guess(guess, c) && guess.Scale() == c && rscale <= c
    ensures Is(r, guess.Mag() / Pow10(c - rscale), rscale)
  {
    ConstantValues();
    var q := Divide(guess, ONE, rscale);
    r := q.value;
    Pow10Add(c - rscale, rscale);
    DivCancel(guess.Mag(), Pow10(c - rscale), Pow10(rscale));
    assert ONE.Mag() * Pow10(guess.Scale()) == Pow10(c);
  }

  /** bc_sqrt: no result for a negative number, otherwise the exact square root
      truncated to max(scale, own scale) digits; zero and one keep scale zero. */
  method Sqrt(num: Num, scale: nat) returns (r: Option<Num>)
    requires num.Proper()
    ensures r.None? <==> num.neg
    ensures r.Some? ==>
      if num.Mag() == 0 then r.value == ZERO
      else if num.Mag() == Pow10(num.Scale()) then r.value == ONE
      else
        var rs := Max(scale, num.Scale());
        r.value.Canonical() && r.value.Scale() == rs && SqrtOf(r.value.Value(), num.Mag(), num.Scale(), rs)
  {
    ConstantValues();
    var c0 := Compare(num, ZERO);
    if c0 < 0 { return None; }
    if c0 == 0 { return Some(ZERO); }
    var c1 := Compare(num, ONE);
    if c1 == 0 { return Some(ONE); }
    var rscale := Max(scale, num.Scale());
    var guess, cscale;
    if c1 < 0 {
      guess, cscale := ONE, num.Scale();
    } else {
      guess := FirstGuess(num.Len());
      cscale := 3;
    }
    StartRadicand(num, c1 < 0);
    guess, cscale := NewtonLoop(num, guess, cscale, rscale);
    RootOf(num, guess.Mag(), cscale, rscale);
    var root := CutToScale(guess, cscale, rscale);
    r := Some(root);
  }

  lemma StartRadicand(num: Num, small: bool)
    requires num.Mag() > 0
    requires if small then num.Mag() < Pow10(num.Scale()) else num.Mag() >= Pow10(num.Scale())
    ensures small ==> num.Scale() >= 1 && Radicand(num, num.Scale()) > 0
    ensures !small ==> Radicand(num, 3) > 0
  {
    var c := if small then num.Scale() else 3;
    RadicandSign(num, c);
    if small {
      Pow10Monotone(num.Scale(), c + c);
      MulLe(1, num.Mag(), Pow10(c + c));
    } else {
      MulLe(1, Pow10(6), num.Mag());
    }
  }
}
