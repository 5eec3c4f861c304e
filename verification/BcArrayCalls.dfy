/** Calls with array arguments: an array is passed by its number, which is
    written in decimal and read as a constant in the current base. */
module BcArrayCalls {
  import opened Wrappers
  import opened Digits
  import opened Numbers
  import opened LongValue
  import opened BcSyntax
  import opened BcStore
  import opened BcSemantics
  import opened BaseConversion
  import opened DecimalText
  import opened BcArith
  import opened BcArrayParams

  // ---------------------------------------------------------------------
  // The number of an array argument.
  // ---------------------------------------------------------------------

  /** The array that an argument names: its number is written in decimal and
      read as a constant in the current base. */
  function ArrayNumber(a: nat, base: nat): nat
    requires 2 <= base <= 16
  {
    WholePart(Printed(a, 10), base)
  }

  /** Decimal digits read in a smaller base mean less, in a larger one more. */
  lemma {:induction false} HornerOrder(ds: seq<nat>, base: nat)
    requires 2 <= base && forall i :: 0 <= i < |ds| ==> ds[i] < 10
    ensures base <= 10 ==> Horner(ds, base) <= Horner(ds, 10)
    ensures base >= 10 ==> Horner(ds, base) >= Horner(ds, 10)
    ensures |ds| >= 2 && ds[0] > 0 && base < 10 ==> Horner(ds, base) < Horner(ds, 10)
    ensures |ds| >= 2 && ds[0] > 0 && base > 10 ==> Horner(ds, base) > Horner(ds, 10)
    decreases |ds|
  {
    if ds != [] {
      var k := |ds| - 1;
      var rest, d := ds[..k], ds[k];
      HornerOrder(rest, base);
      if k > 0 && ds[0] > 0 {
        HornerPositive(rest);
      }
      NextOrder(Horner(rest, base), Horner(rest, 10), base, d);
    }
  }

  lemma {:induction false} HornerPositive(ds: seq<nat>)
    requires ds != [] && ds[0] > 0 && forall i :: 0 <= i < |ds| ==> ds[i] < 10
    ensures Horner(ds, 10) > 0
    decreases |ds|
  {
    var k := |ds| - 1;
    if k > 0 {
      HornerPositive(ds[..k]);
    }
  }

  lemma NextOrder(m: nat, n: nat, base: nat, d: nat)
    requires base >= 2 && d < 10
    ensures base <= 10 && m <= n ==> Next(m, base, Clamp(d, base)) <= Next(n, 10, Clamp(d, 10))
    ensures base >= 10 && m >= n ==> Next(m, base, Clamp(d, base)) >= Next(n, 10, Clamp(d, 10))
    ensures base < 10 && m <= n && n > 0 ==> Next(m, base, Clamp(d, base)) < Next(n, 10, Clamp(d, 10))
    ensures base > 10 && m >= n && n > 0 ==> Next(m, base, Clamp(d, base)) > Next(n, 10, Clamp(d, 10))
  {
    if base <= 10 && m <= n {
      Products(m, n, base, 10);
    }
    if base >= 10 && m >= n {
      Products(n, m, 10, base);
    }
  }

  lemma Products(m: nat, n: nat, a: nat, b: nat)
    requires m <= n && a <= b
    ensures m * a <= n * b && (n > 0 && a < b ==> m * a < n * b)
  {
    var x, y := n - m, b - a;
    assert n * b == m * a + x * a + n * y by {
      assert n * b == n * a + n * y;
      assert n * a == m * a + x * a;
    }
    assert x * a >= 0 && n * y >= 0;
    if n > 0 && a < b {
      assert n * y >= 1;
    }
  }

  /** An array argument names the right array exactly if its number has one
      digit or constants are read in base ten. */
  lemma ArrayNumberIff(a: nat, base: nat)
    requires 2 <= base <= 16
    ensures ArrayNumber(a, base) == a <==> a < 10 || base == 10
  {
    PrintedValue(a, 10);
    var ds := Printed(a, 10);
    if a < 10 {
      SmallPrinted(a);
    } else if base != 10 {
      LongPrinted(a);
      HornerOrder(ds, base);
      HornerDigits(a, 10);
    }
  }

  lemma SmallPrinted(a: nat)
    requires a < 10
    ensures Printed(a, 10) == [a]
  {
    if a > 0 {
      assert a / 10 == 0 && a % 10 == a;
      assert DigitsOf(0, 10) == [];
    }
  }

  lemma {:induction false} LongPrinted(a: nat)
    requires a >= 10
    ensures |DigitsOf(a, 10)| >= 2 && DigitsOf(a, 10)[0] > 0
    decreases a
  {
    var q := a / 10;
    if q >= 10 {
      LongPrinted(q);
    } else {
      SmallPrinted(q);
      assert DigitsOf(q, 10) == [q];
    }
  }

  // ---------------------------------------------------------------------
  // Whole calls.
  // ---------------------------------------------------------------------

  /** The arrays an argument list means; 0 stands for a value. */
  function Meant(args: Args): (r: seq<nat>)
    ensures |r| == Count(args)
  {
    match args
    case NoArgs => []
    case Arg(_, others) => [0] + Meant(others)
    case ArrayArg(a, others) => [a] + Meant(others)
  }

  /** No array argument names a later array parameter, unless that one is
      given the same array in at least the same way. */
  ghost predicate NoClash(fs: seq<Formal>, xs: seq<nat>)
    requires |fs| == |xs|
  {
    forall k, p :: 0 <= k < |fs| && fs[k].name < 0 && Later(fs, k, p, xs[k]) ==> xs[p] == xs[k] && (fs[k].byVar ==> fs[p].byVar)
  }

  /** If equal arrays are passed as equal numbers, resolving means that every
      number is right and no argument clashes with a later parameter. */
  lemma UniformIff(fs: seq<Formal>, ns: seq<nat>, xs: seq<nat>)
    requires GoodFormals(fs) && |fs| == |ns| == |xs|
    requires forall i, j :: 0 <= i < |fs| && 0 <= j < |fs| && fs[i].name < 0 && fs[j].name < 0 && xs[i] == xs[j] ==> ns[i] == ns[j]
    ensures AllResolve(fs, ns, xs) <==> NoClash(fs, xs) && forall k :: 0 <= k < |fs| && fs[k].name < 0 ==> ns[k] == xs[k]
  {
    if AllResolve(fs, ns, xs) {
      forall k | 0 <= k < |fs| && fs[k].name < 0 ensures ns[k] == xs[k] {
        assert Resolves(fs, ns, xs, k);
        if p :| Later(fs, k, p, ns[k]) {
          assert Resolves(fs, ns, xs, p);
          if q :| Later(fs, p, q, ns[p]) {
            OneParam(fs, p, q);
          }
        }
      }
      forall k, p | 0 <= k < |fs| && fs[k].name < 0 && Later(fs, k, p, xs[k])
        ensures xs[p] == xs[k] && (fs[k].byVar ==> fs[p].byVar)
      {
        assert Resolves(fs, ns, xs, k);
      }
    }
  }

  /** Array numbers are read as push_constant reads them. */
  ghost predicate ReadsNumbers(ar: Arith) {
    forall a: nat, b: nat :: 0 < a <= MAX_STORE && 2 <= b <= 16
      ==> ArrayOf(ar.constant(ConstBytes(Decimal(a)), b)) == ArrayNumber(a, b)
  }

  /** All array numbers among the arguments are read in base b. */
  ghost predicate ReadIn(w: World, args: Args, st: Store, base: Option<nat>, fuel: nat, b: nat)
    decreases args
  {
    match args
    case NoArgs => true
    case ArrayArg(_, others) => BaseOf(st, base) == b && ReadIn(w, others, st, base, fuel, b)
    case Arg(e, others) =>
      match EvalExpr(w, e, st, base, fuel)
      case Val(_, st1) => ReadIn(w, others, st1, base, fuel, b)
      case _ => true
  }

  /** Inside a function that is always so. */
  lemma {:induction false} ReadInFunction(w: World, args: Args, st: Store, fuel: nat, b: nat)
    ensures ReadIn(w, args, st, Some(b), fuel, b)
    decreases args
  {
    match args
    case NoArgs =>
    case ArrayArg(_, others) => ReadInFunction(w, others, st, fuel, b);
    case Arg(e, others) =>
      var r := EvalExpr(w, e, st, Some(b), fuel);
      if r.Val? {
        ReadInFunction(w, others, r.st, fuel, b);
      }
  }

  /** The values of array arguments are their numbers. */
  ghost predicate NumbersOf(w: World, fs: seq<Formal>, vs: seq<Num>, xs: seq<nat>, b: nat)
    requires |fs| == |vs| == |xs|
  {
    forall k :: 0 <= k < |fs| && fs[k].name < 0 ==> 0 < xs[k] <= MAX_STORE && vs[k] == ArrayValue(w, xs[k], b)
  }

  lemma {:induction false} ArgNumbers(w: World, args: Args, fs: seq<Formal>, st: Store, base: Option<nat>, fuel: nat, b: nat)
    requires GoodArgs(args) && Match(args, fs) && ReadIn(w, args, st, base, fuel, b) && EvalArgs(w, args, st, base, fuel).Vals?
    ensures |fs| == Count(args) && NumbersOf(w, fs, EvalArgs(w, args, st, base, fuel).vs, Meant(args), b)
    decreases args
  {
    match args
    case NoArgs =>
    case ArrayArg(a, others) => ArgNumbers(w, others, fs[1..], st, base, fuel, b);
    case Arg(e, others) =>
      var r := EvalExpr(w, e, st, base, fuel);
      ArgNumbers(w, others, fs[1..], r.st, base, fuel, b);
  }

  /** A call whose array numbers are read in base b passes every array argument
      to its parameter, in every store, exactly if no argument clashes with a
      later parameter and all its arrays have one-digit numbers or b is ten. */
  lemma CallPassesIff(w: World, args: Args, fs: seq<Formal>, st: Store, base: Option<nat>, fuel: nat, b: nat)
    requires ReadsNumbers(w.ar) && 2 <= b <= 16 && GoodFormals(fs)
    requires GoodArgs(args) && Match(args, fs) && ReadIn(w, args, st, base, fuel, b) && EvalArgs(w, args, st, base, fuel).Vals?
    ensures |fs| == Count(args)
    ensures var vs, xs := EvalArgs(w, args, st, base, fuel).vs, Meant(args);
      (forall s :: Sound(s) ==> Passed(s, fs, vs, xs))
      <==> NoClash(fs, xs) && forall k :: 0 <= k < |fs| && fs[k].name < 0 ==> xs[k] < 10 || b == 10
  {
    var vs, xs := EvalArgs(w, args, st, base, fuel).vs, Meant(args);
    ArgNumbers(w, args, fs, st, base, fuel, b);
    var ns := ArraysOf(vs);
    forall k | 0 <= k < |fs| && fs[k].name < 0
      ensures ns[k] == ArrayNumber(xs[k], b) && (ns[k] == xs[k] <==> xs[k] < 10 || b == 10)
    {
      ArrayNumberIff(xs[k], b);
    }
    UniformIff(fs, ns, xs);
    ArraysPassedIff(fs, vs, xs);
  }

  // ---------------------------------------------------------------------
  // The readers of number.c and execute.c.
  // ---------------------------------------------------------------------

  /** The digits that are written are the digits of the number. */
  lemma {:induction false} DecimalDigits(a: nat)
    ensures ConstBytes(Decimal(a)) == Printed(a, 10)
    decreases a
  {
    if a < 10 {
      SmallPrinted(a);
    } else {
      DecimalDigits(a / 10);
      assert Decimal(a) == Decimal(a / 10) + [(a % 10 + '0' as int) as char];
      assert ConstBytes(Decimal(a)) == ConstBytes(Decimal(a / 10)) + [a % 10];
    }
  }

  lemma {:induction false} AllWhole(s: seq<nat>, i: nat)
    requires i <= |s| && forall k :: 0 <= k < |s| ==> s[k] < 16
    ensures End(s, i) == |s|
    decreases |s| - i
  {
    if i < |s| {
      AllWhole(s, i + 1);
    }
  }

  function Sixteen(k: nat): nat { if k == 0 then 1 else 16 * Sixteen(k - 1) }

  lemma BelowNext(n: nat, base: nat, d: nat, bound: nat)
    requires n < bound && base <= 16 && d < 16
    ensures Next(n, base, d) < 16 * bound
  {
    MulLe(base, 16, n);
  }

  lemma {:induction false} HornerBelow(ds: seq<nat>, base: nat)
    requires 2 <= base <= 16
    ensures Horner(ds, base) < Sixteen(|ds|)
    decreases |ds|
  {
    if ds != [] {
      var k := |ds| - 1;
      HornerBelow(ds[..k], base);
      BelowNext(Horner(ds[..k], base), base, Clamp(ds[k], base), Sixteen(k));
    }
  }

  lemma {:induction false} SixteenUp(j: nat, k: nat)
    requires j <= k
    ensures Sixteen(j) <= Sixteen(k)
    decreases k
  {
    if j < k {
      SixteenUp(j, k - 1);
    }
  }

  /** A constant of digits only denotes its whole part. */
  lemma WholeConstant(c: seq<nat>, base: nat)
    requires 2 <= base <= 16 && c != [] && forall k :: 0 <= k < |c| ==> c[k] < 10
    ensures ConstantOf(c, base) == Canon(WholePart(c, base), 0)
  {
    assert Codes(c) == c;
    AllWhole(c, 0);
    assert WholeDigits(c) == c && AfterPoint(c) == [];
    assert Pow10(0) == 1 && Base(base, 0) == 1 && Horner([], base) == 0;
    if base == 10 {
      assert FastWhole(c) == WholePart(c, 10);
    }
  }

  /** Array numbers are read as push_constant and push_b10_const read them. */
  lemma ActualReads()
    ensures ReadsNumbers(ACTUAL)
  {
    forall a: nat, b: nat | 0 < a <= MAX_STORE && 2 <= b <= 16
      ensures ArrayOf(ACTUAL.constant(ConstBytes(Decimal(a)), b)) == ArrayNumber(a, b)
    {
      ActualNumber(a, b);
    }
  }

  lemma ActualNumber(a: nat, b: nat)
    requires 0 < a <= MAX_STORE && 2 <= b <= 16
    ensures ArrayOf(ConstantOf(ConstBytes(Decimal(a)), b)) == ArrayNumber(a, b)
  {
    var c := Printed(a, 10);
    DecimalDigits(a);
    DecimalShort(a, 5);
    WholeConstant(c, b);
    HornerBelow(c, b);
    SixteenUp(|c|, 5);
    var v := WholePart(c, b);
    SmallCanon(v);
  }

  /** A small number is converted to a long exactly. */
  lemma SmallNumber(n: Num, v: nat)
    requires Is(n, v, 0) && v <= 0x10_0000
    ensures ArrayOf(n) == v
  {
    MagSplit(n);
    assert Digits.Val(n.frac) == 0 && Pow10(0) == 1;
    ScanExact(n.whole);
  }

  lemma SmallCanon(v: nat)
    requires v <= 0x10_0000
    ensures ArrayOf(Canon(v, 0)) == v
  {
    SmallNumber(Canon(v, 0), v);
  }
}
