/** The range loop of taskset's list reader, on 32-bit unsigned values: which
    ranges it finishes, and which CPUs it sets. */
module TasksetRange {
  import opened Digits
  import opened Numbers
  import opened TasksetMask

  /** The number of values of an unsigned int. */
  const WORD: nat := 0x1_0000_0000

  type Word = x: nat | x < WORD

  // ---------------------------------------------------------------------
  // Greatest common divisors.
  // ---------------------------------------------------------------------

  function Gcd(s: nat, n: nat): (g: nat)
    requires n > 0
    ensures g > 0
    decreases s
  {
    if s == 0 then n else Gcd(n % s, s)
  }

  lemma DivideAlgebra(g: nat, s: nat, n: nat, k: nat, r: nat, p: nat, q: nat)
    requires n == k * s + r && r == p * g && s == q * g
    ensures n == (k * q + p) * g
  {
    assert k * (q * g) == (k * q) * g;
  }

  /** The greatest common divisor divides both numbers. */
  lemma {:induction false} GcdDivides(s: nat, n: nat) returns (p: nat, q: nat)
    requires n > 0
    ensures s == p * Gcd(s, n) && n == q * Gcd(s, n)
    decreases s
  {
    if s == 0 {
      p, q := 0, 1;
    } else {
      var a, b := GcdDivides(n % s, s);
      var g := Gcd(s, n);
      DivideAlgebra(g, s, n, n / s, n % s, a, b);
      ProductNonNegative(n / s, b);
      p, q := b, n / s * b + a;
    }
  }

  lemma BezoutAlgebra(x: int, y: int, s: nat, n: nat, k: nat, r: nat)
    requires n == k * s + r
    ensures (y - x * k) * s + x * n == x * r + y * s
  {
    assert x * (k * s + r) == (x * k) * s + x * r;
    assert (y - x * k) * s == y * s - (x * k) * s;
  }

  lemma {:induction false} Bezout(s: nat, n: nat) returns (x: int, y: int)
    requires n > 0
    ensures x * s + y * n == Gcd(s, n)
    decreases s
  {
    if s == 0 {
      x, y := 0, 1;
    } else {
      var u, v := Bezout(n % s, s);
      BezoutAlgebra(u, v, s, n, n / s, n % s);
      x, y := v - u * (n / s), u;
    }
  }

  lemma NaturalAlgebra(x: int, y: int, s: int, n: int, k: int, d: int, g: int)
    requires x * s + y * n == g && x == d * n + k
    ensures k * s == g + (-(y + d * s)) * n
  {
    assert (d * n + k) * s == (d * s) * n + k * s;
    assert (-(y + d * s)) * n == -(y * n) - (d * s) * n;
  }

  /** Some multiple of s exceeds a multiple of n by exactly the divisor. */
  lemma Multiple(s: nat, n: nat) returns (k: nat, c: int)
    requires n > 0
    ensures k * s == Gcd(s, n) + c * n
  {
    var x, y := Bezout(s, n);
    k := x % n;
    NaturalAlgebra(x, y, s, n, k, x / n, Gcd(s, n));
    c := -(y + (x / n) * s);
  }

  // ---------------------------------------------------------------------
  // The values the loop variable takes.
  // ---------------------------------------------------------------------

  /** The loop variable after k rounds of a += s. */
  function After(a: Word, s: Word, k: nat): Word {
    if k == 0 then a else (After(a, s, k - 1) + s) % WORD
  }

  lemma ModStep(x: nat, c: nat, r: Word, s: nat) returns (c': nat)
    requires x == c * WORD + r
    ensures x + s == c' * WORD + (r + s) % WORD
  {
    c' := c + (r + s) / WORD;
  }

  /** k rounds add k * s, up to a multiple of the word size. */
  lemma {:induction false} AfterIs(a: Word, s: Word, k: nat) returns (c: nat)
    ensures a + k * s == c * WORD + After(a, s, k)
  {
    if k == 0 {
      c := 0;
    } else {
      var d := AfterIs(a, s, k - 1);
      ProductNonNegative(k - 1, s);
      c := ModStep(a + (k - 1) * s, d, After(a, s, k - 1), s);
      assert (k - 1) * s + s == k * s;
    }
  }

  lemma SameRemainder(x: nat, a: nat, g: nat, t: int)
    requires g > 0 && x == a + t * g
    ensures x % g == a % g
  {
    assert x == (a / g + t) * g + a % g by {
      assert a == a / g * g + a % g;
      assert (a / g + t) * g == a / g * g + t * g;
    }
    if a / g + t < 0 {
      MulBelow(a / g + t, g);
      assert false;
    }
    DivModUnique(x, g, a / g + t, a % g);
  }

  lemma MulBelow(t: int, g: nat)
    requires t < 0 && g > 0
    ensures t * g <= 0 - g
  {
  }

  /** The largest value the loop variable can take. */
  function Largest(a: Word, s: Word): int {
    var g := Gcd(s, WORD);
    WORD - g + a % g
  }

  lemma OrbitAlgebra(a: int, k: int, p: int, c: int, q: int, g: int, x: int)
    requires a + k * (p * g) == c * (q * g) + x
    ensures x == a + (k * p - c * q) * g
  {
    assert (k * p - c * q) * g == k * (p * g) - c * (q * g);
  }

  lemma BelowMultiple(x: nat, g: nat, q: nat)
    requires g > 0 && x < q * g
    ensures x <= q * g - g + x % g
  {
    var d := x / g;
    assert x == d * g + x % g;
    if d >= q {
      MulLe(q, d, g);
    } else {
      MulLe(d, q - 1, g);
      assert (q - 1) * g == q * g - g;
    }
  }

  /** It never gets above that. */
  lemma OrbitBound(a: Word, s: Word, k: nat)
    ensures After(a, s, k) <= Largest(a, s)
  {
    var g, x := Gcd(s, WORD), After(a, s, k);
    var p, q := GcdDivides(s, WORD);
    var c := AfterIs(a, s, k);
    OrbitAlgebra(a, k, p, c, q, g, x);
    SameRemainder(x, a, g, k * p - c * q);
    BelowMultiple(x, g, q);
  }

  lemma ReachAlgebra(a: int, t: int, k: int, s: int, g: int, c: int, n: int)
    requires k * s == g + c * n
    ensures a + (t * k) * s == (t * c) * n + (a + t * g)
  {
    assert (t * k) * s == t * (k * s);
    assert t * (g + c * n) == t * g + (t * c) * n;
  }

  lemma UniqueWord(c: int, x: Word, d: int, y: Word)
    requires c * WORD + x == d * WORD + y
    ensures x == y
  {
  }

  /** And it gets there. */
  lemma OrbitReaches(a: Word, s: Word) returns (k: nat)
    ensures After(a, s, k) == Largest(a, s)
  {
    var g := Gcd(s, WORD);
    var p, q := GcdDivides(s, WORD);
    var k0, c := Multiple(s, WORD);
    var t := LargestSteps(a, g, q);
    ProductNonNegative(t, k0);
    k := t * k0;
    ReachAlgebra(a, t, k0, s, g, c, WORD);
    var d := AfterIs(a, s, k);
    LargestIsWord(a, g, q);
    UniqueWord(t * c, a + t * g, d, After(a, s, k));
  }

  lemma LargestIsWord(a: Word, g: nat, q: nat)
    requires g > 0 && WORD == q * g
    ensures 0 <= WORD - g + a % g < WORD
  {
    PositiveFactor(q, g);
    MulLe(1, q, g);
  }

  lemma PositiveFactor(q: nat, g: nat)
    requires q * g > 0
    ensures q > 0
  {
  }

  /** The largest value lies a multiple of the divisor above a. */
  lemma LargestSteps(a: Word, g: nat, q: nat) returns (t: nat)
    requires g > 0 && WORD == q * g
    ensures a + t * g == WORD - g + a % g
  {
    var d := a / g;
    assert a == d * g + a % g;
    if d >= q {
      MulLe(q, d, g);
      assert false;
    }
    t := q - 1 - d;
    assert (q - 1 - d) * g == q * g - g - d * g;
  }

  /** The loop `while (a <= b) a += s` ends. */
  ghost predicate Ends(a: Word, b: Word, s: Word) { exists k: nat :: After(a, s, k) > b }

  /** It ends exactly if b lies below the largest value. */
  lemma EndsIff(a: Word, b: Word, s: Word)
    ensures Ends(a, b, s) <==> b < WORD - Gcd(s, WORD) + a % Gcd(s, WORD)
  {
    if Ends(a, b, s) {
      var k: nat :| After(a, s, k) > b;
      OrbitBound(a, s, k);
    }
    if b < Largest(a, s) {
      var k := OrbitReaches(a, s);
      assert After(a, s, k) > b;
    }
  }

  /** A stride of zero ends no range. */
  lemma ZeroStride(a: Word, b: Word)
    requires a <= b
    ensures !Ends(a, b, 0)
  {
    EndsIff(a, b, 0);
    DivModUnique(a, WORD, 0, a);
  }

  lemma UnitGcd(n: nat)
    requires n > 0
    ensures Gcd(1, n) == 1
  {
    assert n % 1 == 0;
    assert Gcd(1, n) == Gcd(0, 1);
  }

  /** With stride one only the range up to the very last value never ends. */
  lemma UnitStride(a: Word, b: Word)
    ensures Ends(a, b, 1) <==> b < WORD - 1
  {
    EndsIff(a, b, 1);
    UnitGcd(WORD);
    assert a % 1 == 0;
  }

  // ---------------------------------------------------------------------
  // The CPUs that are set.
  // ---------------------------------------------------------------------

  /** The rounds the loop makes. */
  ghost predicate EndsAt(a: Word, b: Word, s: Word, k: nat) {
    After(a, s, k) > b && forall j: nat :: j < k ==> After(a, s, j) <= b
  }

  lemma {:induction false} FirstAbove(a: Word, b: Word, s: Word, k: nat, n: nat)
    requires k <= n && After(a, s, n) > b && forall j: nat :: j < k ==> After(a, s, j) <= b
    ensures exists r: nat :: EndsAt(a, b, s, r)
    decreases n - k
  {
    if After(a, s, k) > b {
      assert EndsAt(a, b, s, k);
    } else {
      FirstAbove(a, b, s, k + 1, n);
    }
  }

  lemma OneEnd(a: Word, b: Word, s: Word, j: nat, k: nat)
    requires EndsAt(a, b, s, j) && EndsAt(a, b, s, k)
    ensures j == k
  {
  }

  ghost function Rounds(a: Word, b: Word, s: Word): (k: nat)
    requires Ends(a, b, s)
    ensures EndsAt(a, b, s, k)
  {
    var n: nat :| After(a, s, n) > b;
    FirstAbove(a, b, s, 0, n);
    var k: nat :| EndsAt(a, b, s, k);
    k
  }

  /** The CPUs of the first k rounds. */
  function First(a: Word, s: Word, k: nat): CpuSet {
    if k == 0 then {} else First(a, s, k - 1) + Cpu(After(a, s, k - 1))
  }

  /** The CPUs a range sets. */
  ghost function Every(a: Word, b: Word, s: Word): CpuSet
    requires Ends(a, b, s)
  {
    First(a, s, Rounds(a, b, s))
  }

  /** As long as nothing wraps around, the loop variable grows by s. */
  lemma {:induction false} NoWrap(a: Word, b: Word, s: Word, k: nat)
    requires b + s < WORD && forall j: nat :: j < k ==> After(a, s, j) <= b
    ensures After(a, s, k) == a + k * s
  {
    if k > 0 {
      NoWrap(a, b, s, k - 1);
      assert (k - 1) * s + s == k * s;
    }
  }

  /** x is j strides above a. */
  predicate Above(a: nat, s: nat, j: nat, x: nat) { x == a + j * s }

  lemma {:induction false} FirstHits(a: Word, b: Word, s: Word, k: nat, x: nat)
    requires b + s < WORD && forall j: nat :: j < k ==> After(a, s, j) <= b
    ensures x in First(a, s, k) <==> x < SETSIZE && exists j: nat :: j < k && Above(a, s, j, x)
  {
    if k > 0 {
      FirstHits(a, b, s, k - 1, x);
      NoWrap(a, b, s, k - 1);
      assert Above(a, s, k - 1, After(a, s, k - 1));
    }
  }

  /** A range that does not come near the word size sets every s-th CPU from a to b. */
  lemma EveryIs(a: Word, b: Word, s: Word, x: nat)
    requires s > 0 && b + s < WORD
    ensures Ends(a, b, s)
    ensures x in Every(a, b, s) <==> x < SETSIZE && x <= b && exists j: nat :: Above(a, s, j, x)
  {
    ShortEnds(a, b, s);
    var k := Rounds(a, b, s);
    FirstHits(a, b, s, k, x);
    NoWrap(a, b, s, k);
    if j: nat :| j < k && Above(a, s, j, x) {
      NoWrap(a, b, s, j);
    }
    if j: nat :| x <= b && Above(a, s, j, x) {
      if j >= k {
        MulLe(k, j, s);
      }
    }
  }

  lemma ShortEnds(a: Word, b: Word, s: Word)
    requires s > 0 && b + s < WORD
    ensures Ends(a, b, s)
  {
    var g := Gcd(s, WORD);
    var p, q := GcdDivides(s, WORD);
    PositiveFactor(p, g);
    MulLe(1, p, g);
    EndsIff(a, b, s);
  }

  /** Stride one sets the whole interval. */
  lemma UnitEvery(a: Word, b: Word, x: nat)
    requires b < WORD - 1
    ensures Ends(a, b, 1)
    ensures x in Every(a, b, 1) <==> x < SETSIZE && a <= x <= b
  {
    EveryIs(a, b, 1, x);
    if a <= x {
      assert Above(a, 1, x - a, x);
    }
  }
}
