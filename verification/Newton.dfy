/** Integer Newton iteration for square roots: x' = (m / x + x) / 2. */
module Newton {
  import opened Digits

  function Next(m: nat, x: nat): (y: nat)
    requires x > 0
  {
    (m / x + x) / 2
  }

  function Square(x: int): int { x * x }

  lemma DivFacts(m: nat, x: nat)
    requires x > 0
    ensures (m / x) * x <= m < (m / x + 1) * x
  {
  }

  lemma NextFacts(m: nat, x: nat) returns (q: nat)
    requires x > 0
    ensures q * x <= m < (q + 1) * x && 2 * Next(m, x) <= q + x <= 2 * Next(m, x) + 1
  {
    q := m / x;
    DivFacts(m, x);
    Half(q + x);
  }

  lemma Half(a: nat)
    ensures 2 * (a / 2) <= a <= 2 * (a / 2) + 1
  {
  }

  /** Newton's next value is never below the integer square root. */
  lemma NextNotBelow(m: nat, x: nat)
    requires x > 0
    ensures m < Square(Next(m, x) + 1)
  {
    var q := NextFacts(m, x);
    NotBelowAlgebra(m, x, q, Next(m, x));
  }

  lemma NotBelowAlgebra(m: nat, x: nat, q: nat, y: nat)
    requires m < (q + 1) * x && 2 * (y + 1) >= q + x + 1
    ensures m < Square(y + 1)
  {
    var t := q + 1;
    assert Square(t + x) >= 4 * (t * x) by {
      assert Square(t + x) - 4 * (t * x) == Square(t - x);
      SquareNonNegative(t - x);
    }
    SquareMonotone(t + x, 2 * (y + 1));
    assert Square(2 * (y + 1)) == 4 * Square(y + 1);
  }

  lemma SquareNonNegative(a: int)
    ensures Square(a) >= 0
  {
  }

  lemma SquareMonotone(a: int, b: int)
    requires 0 <= a <= b
    ensures Square(a) <= Square(b)
  {
    MulLe(a, b, a);
    MulLe(a, b, b);
  }

  /** Once a step moves by at most one, the value is the root or one more,
      and one more only just below a perfect square. */
  lemma SmallStep(m: nat, x: nat)
    requires x > 0 && x - 1 <= Next(m, x) <= x + 1
    ensures Square(Next(m, x)) <= m + 1
  {
    var q := NextFacts(m, x);
    SmallStepAlgebra(m, x, q, Next(m, x));
  }

  lemma SmallStepAlgebra(m: nat, x: nat, q: nat, y: int)
    requires q * x <= m && 2 * y <= q + x && x > 0 && x - 1 <= y <= x + 1
    ensures Square(y) <= m + 1
  {
    if y == x - 1 {
      if x >= 2 {
        MulLe(x - 2, q, x);
        assert Square(x - 1) == (x - 2) * x + 1;
      }
    } else if y == x {
      MulLe(x, q, x);
    } else {
      MulLe(x + 2, q, x);
      assert Square(x + 1) == (x + 2) * x + 1;
    }
  }

  /** From above the root, a step that does not stop goes down. */
  lemma BigStepDown(m: nat, x: nat)
    requires x > 0 && m < Square(x + 1) && Next(m, x) > x
    ensures Next(m, x) == x + 1
  {
    var q := NextFacts(m, x);
    assert (x + 3) * x == Square(x + 1) + x - 1;
    if q >= x + 3 {
      MulLe(x + 3, q, x);
    }
  }
}
