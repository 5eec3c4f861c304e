/** Integer powers. */
module Power {
  import opened Digits

  function Pow(b: int, n: nat): int {
    if n == 0 then 1 else b * Pow(b, n - 1)
  }

  lemma {:induction false} PowAdd(b: int, m: nat, n: nat)
    ensures Pow(b, m + n) == Pow(b, m) * Pow(b, n)
  {
    if m == 0 {
    } else {
      PowAdd(b, m - 1, n);
      MulAssoc(b, Pow(b, m - 1), Pow(b, n));
    }
  }

  /** Squaring the base halves the exponent. */
  lemma {:induction false} PowSquare(b: int, n: nat)
    ensures Pow(b * b, n) == Pow(b, 2 * n)
  {
    if n == 0 {
    } else {
      PowSquare(b, n - 1);
      assert Pow(b, 2 * n) == b * (b * Pow(b, 2 * (n - 1)));
      MulAssoc(b, b, Pow(b, 2 * (n - 1)));
    }
  }

  /** One step of square-and-multiply, for either parity. */
  lemma PowStep(b: int, n: nat)
    ensures Pow(b, n) == (if n % 2 == 1 then b else 1) * Pow(b * b, n / 2)
  {
    PowSquare(b, n / 2);
    if n % 2 == 1 {
      assert n == 1 + 2 * (n / 2);
    }
  }

  lemma {:induction false} PowSigned(neg: bool, m: nat, n: nat)
    ensures Pow(if neg then -(m as int) else m, n)
         == if neg && n % 2 == 1 then -Pow(m, n) else Pow(m, n)
    ensures Pow(m, n) >= 0
  {
    if n == 0 {
    } else {
      PowSigned(neg, m, n - 1);
      PowSignedStep(neg, m, Pow(m, n - 1), (n - 1) % 2 == 1);
    }
  }

  lemma PowSignedStep(neg: bool, m: nat, p: int, odd: bool)
    requires p >= 0
    ensures (if neg then -(m as int) else m) * (if neg && odd then -p else p)
         == if neg && !odd then -(m * p) else m * p
    ensures m * p >= 0
  {
  }

  lemma {:induction false} PowPositive(m: nat, n: nat)
    requires m > 0
    ensures Pow(m, n) > 0
  {
    if n > 0 {
      PowPositive(m, n - 1);
      MulLe(1, m, Pow(m, n - 1));
    }
  }
}
