/** The trial quotient digit of Algorithm D (Knuth, TAOCP vol. 2, section
    4.3.1) as bc_divide computes it, and why it is at most one too large. */
module QuotientDigit {
  import opened Wrappers
  import opened Digits

  lemma DivAtLeast(u: nat, v: nat, k: int)
    requires v > 0 && k * v <= u
    ensures k <= u / v
  {
    var q := u / v;
    assert u < (q + 1) * v;
    if k > q {
      MulLe(q + 1, k, v);
    }
  }

  lemma DivBelow(u: nat, v: nat, k: int)
    requires v > 0 && u < k * v
    ensures u / v < k
  {
    var q := u / v;
    assert q * v <= u;
    if q >= k {
      MulLe(k, q, v);
    }
  }

  /** u and v begin with the digits u0 u1 u2 and v0 v1, followed by digits worth less than b. */
  ghost predicate Leading(u: nat, v: nat, u3: nat, v2: nat, b: nat) {
    b > 0 && forall k: nat {:trigger Exactly(k, b)} ::
      Exactly(k, b) ==> u3 * k <= u < (u3 + 1) * k && v2 * k <= v < (v2 + 1) * k
  }

  /** A guess that fails the two-digit test is too large. */
  lemma TestRejects(u: nat, v: nat, u3: nat, v2: nat, b: nat, guess: nat)
    requires Leading(u, v, u3, v2, b) && v > 0 && guess * v2 > u3
    ensures u / v < guess
  {
    assert Exactly(b, b);
    MulLe(v2 * b, v, guess);
    MulLe(u3 + 1, guess * v2, b);
    MulAssoc(guess, v2, b);
    DivBelow(u, v, guess);
  }

  /** A guess that passes the test is at most one too large. */
  lemma TestAccepts(u: nat, v: nat, u3: nat, v2: nat, b: nat, guess: nat)
    requires Leading(u, v, u3, v2, b) && v > 0 && guess * v2 <= u3 && 0 < guess <= 9 && v2 >= 50
    ensures guess <= u / v + 1
  {
    assert Exactly(b, b);
    MulLe(v, (v2 + 1) * b, guess - 1);
    assert (guess - 1) * (v2 + 1) <= u3;
    MulAssoc(guess - 1, v2 + 1, b);
    MulLe((guess - 1) * (v2 + 1), u3, b);
    DivAtLeast(u, v, guess - 1);
  }

  /** The first guess is never too small. */
  lemma GuessNotSmall(u: nat, v: nat, u2: nat, v0: nat, b: nat, guess: nat)
    requires b > 0 && u < (u2 + 1) * b && v0 * b <= v && v0 > 0 && v > 0
    requires (guess + 1) * v0 > u2
    ensures u / v <= guess
  {
    MulLe(v0 * b, v, guess + 1);
    MulLe(u2 + 1, (guess + 1) * v0, b);
    MulAssoc(guess + 1, v0, b);
    DivBelow(u, v, guess + 1);
  }

  lemma SmallerGuess(guess: nat, v0: nat, u2: nat)
    requires 2 <= guess <= 9 && v0 >= 5 && guess * v0 <= u2
    ensures (guess - 2) * (v0 + 1) <= u2
  {
    assert (guess - 2) * (v0 + 1) == guess * v0 + guess - 2 * v0 - 2;
  }

  /** The first guess is at most two too large once v0 >= 5. */
  lemma GuessNotLarge(u: nat, v: nat, u2: nat, v0: nat, b: nat, guess: nat)
    requires b > 0 && u2 * b <= u && v < (v0 + 1) * b && v0 >= 5 && v > 0
    requires guess * v0 <= u2 && guess <= 9
    ensures guess <= u / v + 2
  {
    if guess >= 2 {
      MulLe(v, (v0 + 1) * b, guess - 2);
      SmallerGuess(guess, v0, u2);
      MulAssoc(guess - 2, v0 + 1, b);
      MulLe((guess - 2) * (v0 + 1), u2, b);
      DivAtLeast(u, v, guess - 2);
    }
  }

  /** The test of a guess against the first three and two digits. */
  predicate TooLarge(guess: nat, u0: nat, u1: nat, u2: nat, v0: nat, v1: nat) {
    v1 * guess > (u0 * 10 + u1 - v0 * guess) * 10 + u2
  }

  lemma TooLargeMeans(guess: nat, u0: nat, u1: nat, u2: nat, v0: nat, v1: nat)
    ensures TooLarge(guess, u0, u1, u2, v0, v1) <==> guess * (10 * v0 + v1) > 100 * u0 + 10 * u1 + u2
  {
    assert guess * (10 * v0 + v1) == 10 * (v0 * guess) + v1 * guess;
  }

  method FirstGuess(u0: nat, u1: Digit, v0: nat, ghost u: nat, ghost v: nat, ghost b: nat) returns (guess: nat)
    requires 5 <= v0 <= 9 && u0 <= v0 && b > 0 && 0 < v && u < 10 * v
    requires (10 * u0 + u1) * b <= u < (10 * u0 + u1 + 1) * b && v0 * b <= v < (v0 + 1) * b
    ensures u / v <= guess <= u / v + 2 && guess <= 9
  {
    if v0 == u0 {
      guess := 9;
      DivBelow(u, v, 10);
    } else {
      guess := (u0 * 10 + u1) / v0;
      SmallQuotient(u0 * 10 + u1, v0);
      GuessNotSmall(u, v, 10 * u0 + u1, v0, b, guess);
    }
    GuessNotLarge(u, v, 10 * u0 + u1, v0, b, guess);
  }

  lemma SmallQuotient(a: nat, d: nat)
    requires 0 < d && a < 10 * d
    ensures a / d <= 9 && (a / d) * d <= a < (a / d + 1) * d
  {
    DivBelow(a, d, 10);
  }

  lemma LeadingCoarse(u: nat, v: nat, u2: nat, d: nat, v0: nat, e: nat, b: nat)
    requires Leading(u, v, 10 * u2 + d, 10 * v0 + e, b) && d < 10 && e < 10
    ensures u2 * (10 * b) <= u < (u2 + 1) * (10 * b) && v0 * (10 * b) <= v < (v0 + 1) * (10 * b)
  {
    assert Exactly(b, b);
    Coarser(u, u2, d, b);
    Coarser(v, v0, e, b);
  }

  lemma Coarser(u: nat, h: nat, d: nat, b: nat)
    requires (10 * h + d) * b <= u < (10 * h + d + 1) * b && d < 10
    ensures h * (10 * b) <= u < (h + 1) * (10 * b)
  {
    MulLe(10 * h, 10 * h + d, b);
    MulLe(10 * h + d + 1, 10 * h + 10, b);
    assert h * (10 * b) == (10 * h) * b && (h + 1) * (10 * b) == (10 * h + 10) * b;
  }

  /** Calculate and test the quotient digit guess (the head of the divide loop). */
  method GuessDigit(u0: nat, u1: Digit, u2: Digit, v0: nat, v1: Digit, ghost u: nat, ghost v: nat, ghost b: nat)
    returns (guess: nat)
    requires Leading(u, v, 100 * u0 + 10 * u1 + u2, 10 * v0 + v1, b)
    requires 5 <= v0 <= 9 && u0 <= v0 && v > 0 && u < 10 * v
    ensures u / v <= guess <= u / v + 1 && guess <= 9
  {
    LeadingCoarse(u, v, 10 * u0 + u1, u2, v0, v1, b);
    guess := FirstGuess(u0, u1, v0, u, v, 10 * b);
    guess := TestGuess(guess, u0, u1, u2, v0, v1, u, v, 100 * u0 + 10 * u1 + u2, 10 * v0 + v1, b);
  }

  /** The two tests that follow the first guess. */
  method TestGuess(first: nat, u0: nat, u1: Digit, u2: Digit, v0: nat, v1: Digit,
                   ghost u: nat, ghost v: nat, ghost u3: nat, ghost v2: nat, ghost b: nat) returns (guess: nat)
    requires u3 == 100 * u0 + 10 * u1 + u2 && v2 == 10 * v0 + v1 && v2 >= 50
    requires Leading(u, v, u3, v2, b) && v > 0 && u / v <= first <= u / v + 2 && first <= 9
    ensures u / v <= guess <= u / v + 1 && guess <= 9
  {
    guess := first;
    TooLargeMeans(guess, u0, u1, u2, v0, v1);
    if TooLarge(guess, u0, u1, u2, v0, v1) {
      TestRejects(u, v, u3, v2, b, guess);
      guess := guess - 1;
      TooLargeMeans(guess, u0, u1, u2, v0, v1);
      if TooLarge(guess, u0, u1, u2, v0, v1) {
        TestRejects(u, v, u3, v2, b, guess);
        guess := guess - 1;
        return;
      }
    }
    if guess > 0 {
      TestAccepts(u, v, u3, v2, b, guess);
    }
  }
}
