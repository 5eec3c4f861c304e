/** Decimal text: what printf's %d writes, and what scanning digits reads. */
module DecimalText {
  import Digits

  predicate IsDigit(c: char) { '0' <= c <= '9' }

  /** isspace. */
  predicate Blank(c: char) { c == ' ' || 9 <= c as int <= 13 }

  function SkipBlanks(s: seq<char>): (r: seq<char>)
    ensures |r| <= |s|
  {
    if s != [] && Blank(s[0]) then SkipBlanks(s[1..]) else s
  }

  /** printf's %d for a number that is not negative. */
  function Decimal(n: nat): (r: seq<char>)
    ensures |r| > 0 && forall i :: 0 <= i < |r| ==> IsDigit(r[i])
  {
    var d := [(n % 10 + '0' as int) as char];
    if n < 10 then d else Decimal(n / 10) + d
  }

  /** printf's %d. */
  function Signed(n: int): seq<char> { if n < 0 then "-" + Decimal(-n) else Decimal(n) }

  function Peek(s: seq<char>): char { if s == [] then '\0' else s[0] }

  function Tail(s: seq<char>): seq<char> { if s == [] then [] else s[1..] }

  /** The number of the digits at the front of s, and what follows them. */
  function DigitsVal(s: seq<char>, acc: nat): (r: (nat, seq<char>))
    ensures |r.1| <= |s|
    decreases |s|
  {
    if s == [] || !IsDigit(s[0]) then (acc, s) else DigitsVal(s[1..], acc * 10 + (s[0] as int - '0' as int))
  }

  /** An optional minus sign and digits: long_val of load.c. */
  function LongVal(s: seq<char>): (r: (int, seq<char>))
    ensures |r.1| <= |s|
  {
    if Peek(s) == '-' then
      var r := DigitsVal(s[1..], 0);
      (-(r.0 as int), r.1)
    else
      var r := DigitsVal(s, 0);
      (r.0 as int, r.1)
  }

  /** No digit follows. */
  predicate NoDigit(s: seq<char>) { s == [] || !IsDigit(s[0]) }

  lemma ShiftAlgebra(acc: nat, q: nat, p: nat, n: nat)
    requires q == n / 10
    ensures (acc * p + q) * 10 + n % 10 == acc * (10 * p) + n
  {
    assert n == 10 * q + n % 10;
    assert (acc * p) * 10 == acc * (10 * p);
  }

  /** One digit in front. */
  lemma DigitStep(d: char, rest: seq<char>, acc: nat)
    requires IsDigit(d)
    ensures DigitsVal([d] + rest, acc) == DigitsVal(rest, acc * 10 + (d as int - '0' as int))
  {
    assert ([d] + rest)[1..] == rest;
  }

  lemma Join(a: seq<char>, b: seq<char>, c: seq<char>)
    ensures a + b + c == a + (b + c)
  {
  }

  /** Reading the digits of n shifts the accumulator and goes on behind them. */
  lemma {:induction false} DigitsMore(n: nat, rest: seq<char>, acc: nat)
    ensures DigitsVal(Decimal(n) + rest, acc) == DigitsVal(rest, acc * Digits.Pow10(|Decimal(n)|) + n)
    decreases n
  {
    var c := (n % 10 + '0' as int) as char;
    if n < 10 {
      DigitStep(c, rest, acc);
      assert Digits.Pow10(1) == 10 * Digits.Pow10(0);
    } else {
      var q := Decimal(n / 10);
      var p := Digits.Pow10(|q|);
      Join(q, [c], rest);
      DigitsMore(n / 10, [c] + rest, acc);
      DigitStep(c, rest, acc * p + n / 10);
      ShiftAlgebra(acc, n / 10, p, n);
      assert Digits.Pow10(|q| + 1) == 10 * p;
    }
  }

  /** Reading back what was written. */
  lemma ReadDecimal(n: nat, rest: seq<char>)
    requires NoDigit(rest)
    ensures LongVal(Decimal(n) + rest) == (n, rest)
  {
    DigitsMore(n, rest, 0);
    assert (Decimal(n) + rest)[0] == Decimal(n)[0];
  }

  lemma ReadSigned(n: int, rest: seq<char>)
    requires NoDigit(rest)
    ensures LongVal(Signed(n) + rest) == (n, rest)
  {
    if n < 0 {
      Join("-", Decimal(-n), rest);
      assert ("-" + (Decimal(-n) + rest))[1..] == Decimal(-n) + rest;
      DigitsMore(-n, rest, 0);
    } else {
      ReadDecimal(n, rest);
    }
  }

  /** A number below 10^k has at most k digits. */
  lemma {:induction false} DecimalShort(n: nat, k: nat)
    requires n < Digits.Pow10(k) && k > 0
    ensures |Decimal(n)| <= k
    decreases n
  {
    if n >= 10 {
      DecimalShort(n / 10, k - 1);
    }
  }
}
