/** Printing and reading CPU sets as lists of numbers and ranges (taskset.c). */
module TasksetList {
  import opened Wrappers
  import opened TasksetMask
  import opened TasksetRange
  import T = DecimalText

  type Str = seq<char>

  /** nexttoken: what follows the first sep. */
  function Next(s: Str, sep: char): (r: Option<Str>)
    ensures r.Some? ==> |r.value| < |s|
    decreases |s|
  {
    if s == [] then None else if s[0] == sep then Some(s[1..]) else Next(s[1..], sep)
  }

  const LONGWORD: nat := 0x1_0000_0000_0000_0000

  /** What strtoul makes of a sign and digits, cut to an unsigned int. */
  function Unsigned(neg: bool, n: nat): Word {
    (if n >= LONGWORD then LONGWORD - 1 else if neg then (LONGWORD - n) % LONGWORD else n) % WORD
  }

  /** sscanf of one unsigned number. */
  function ReadU(s: Str): Option<Word> {
    var t := T.SkipBlanks(s);
    var u := if t != [] && (t[0] == '-' || t[0] == '+') then t[1..] else t;
    if u != [] && T.IsDigit(u[0]) then Some(Unsigned(t[0] == '-', T.DigitsVal(u, 0).0)) else None
  }

  datatype Token = Span(a: Word, b: Word, stride: Word) | BadToken

  /** x comes before y in the same string (both are suffixes of it). */
  predicate Before(x: Option<Str>, y: Option<Str>) { x.Some? && (y.None? || |x.value| > |y.value|) }

  /** The range at the front of p. */
  function TokenAt(p: Str): Token {
    match ReadU(p)
    case None => BadToken
    case Some(a) =>
      var c1, c2 := Next(p, '-'), Next(p, ',');
      if !Before(c1, c2) then Span(a, a, 1)
      else
        match ReadU(c1.value)
        case None => BadToken
        case Some(b) =>
          var c := Next(c1.value, ':');
          if !Before(c, c2) then Span(a, b, 1)
          else
            match ReadU(c.value)
            case None => BadToken
            case Some(s) => Span(a, b, s)
  }

  // ---------------------------------------------------------------------
  // The reader, one round of its loops at a time.
  // ---------------------------------------------------------------------

  datatype Outcome = Read(mask: CpuSet) | Rejected

  /** Between two tokens, inside the loop over a range, or finished. */
  datatype Reader =
    | Scanning(p: Option<Str>, mask: CpuSet)
    | Filling(a: Word, b: Word, s: Word, q: Option<Str>, mask: CpuSet)
    | Done(r: Outcome)

  function Step(x: Reader): Reader {
    match x
    case Scanning(None, mask) => Done(Read(mask))
    case Scanning(Some(p), mask) => (
      match TokenAt(p)
      case BadToken => Done(Rejected)
      case Span(a, b, s) => if a > b then Done(Rejected) else Filling(a, b, s, Next(p, ','), mask))
    case Filling(a, b, s, q, mask) =>
      if a <= b then Filling((a + s) % WORD, b, s, q, mask + Cpu(a)) else Scanning(q, mask)
    case Done(_) => x
  }

  function Steps(x: Reader, n: nat): Reader
    decreases n
  {
    if n == 0 then x else Steps(Step(x), n - 1)
  }

  function Start(s: Str): Reader { Scanning(Some(s), {}) }

  /** The reader comes to an end. */
  ghost predicate Finishes(x: Reader) { exists n: nat :: Steps(x, n).Done? }

  /** Every range before the first rejected token lies below the largest value
      its loop variable can take. */
  ghost predicate RangesEnd(p: Option<Str>)
    decreases if p.Some? then |p.value| + 1 else 0
  {
    match p
    case None => true
    case Some(t) =>
      match TokenAt(t)
      case BadToken => true
      case Span(a, b, s) => a > b || (b < WORD - Gcd(s, WORD) + a % Gcd(s, WORD) && RangesEnd(Next(t, ',')))
  }

  /** What a list means, if the reader finishes it. */
  ghost function Meaning(p: Option<Str>, mask: CpuSet): Outcome
    requires RangesEnd(p)
    decreases if p.Some? then |p.value| + 1 else 0
  {
    match p
    case None => Read(mask)
    case Some(t) =>
      match TokenAt(t)
      case BadToken => Rejected
      case Span(a, b, s) =>
        if a > b then Rejected
        else
          EndsIff(a, b, s);
          Meaning(Next(t, ','), mask + Every(a, b, s))
  }

  lemma {:induction false} StepsSplit(x: Reader, a: nat, b: nat)
    ensures Steps(x, a + b) == Steps(Steps(x, a), b)
    decreases a
  {
    if a > 0 {
      StepsSplit(Step(x), a - 1, b);
    }
  }

  lemma {:induction false} DoneStays(x: Reader, n: nat)
    requires x.Done?
    ensures Steps(x, n) == x
  {
    if n > 0 {
      DoneStays(x, n - 1);
    }
  }

  /** As long as no value exceeds b, the reader stays in the range. */
  lemma {:induction false} FillingOn(a: Word, b: Word, s: Word, q: Option<Str>, mask: CpuSet, k: nat)
    requires forall j: nat :: j < k ==> After(a, s, j) <= b
    ensures Steps(Filling(a, b, s, q, mask), k) == Filling(After(a, s, k), b, s, q, mask + First(a, s, k))
  {
    if k > 0 {
      var x := Filling(a, b, s, q, mask);
      FillingOn(a, b, s, q, mask, k - 1);
      StepsSplit(x, k - 1, 1);
      var y := Steps(x, k - 1);
      assert Steps(y, 1) == Steps(Step(y), 0);
      assert After(a, s, k - 1) <= b;
      assert mask + First(a, s, k - 1) + Cpu(After(a, s, k - 1)) == mask + First(a, s, k);
    }
  }

  /** A range that ends is left with its CPUs set. */
  lemma FillingEnds(a: Word, b: Word, s: Word, q: Option<Str>, mask: CpuSet) returns (n: nat)
    requires Ends(a, b, s)
    ensures Steps(Filling(a, b, s, q, mask), n) == Scanning(q, mask + Every(a, b, s))
  {
    var k := Rounds(a, b, s);
    var x := Filling(a, b, s, q, mask);
    FillingOn(a, b, s, q, mask, k);
    StepsSplit(x, k, 1);
    var y := Steps(x, k);
    assert Steps(y, 1) == Steps(Step(y), 0);
    n := k + 1;
  }

  /** A range that does not end is never left. */
  lemma FillingForever(a: Word, b: Word, s: Word, q: Option<Str>, mask: CpuSet)
    requires !Ends(a, b, s)
    ensures !Finishes(Filling(a, b, s, q, mask))
  {
    forall n: nat ensures !Steps(Filling(a, b, s, q, mask), n).Done? {
      forall j: nat ensures After(a, s, j) <= b {
        assert !(After(a, s, j) > b);
      }
      FillingOn(a, b, s, q, mask, n);
    }
  }

  /** Whether the reader finishes is decided later. */
  lemma FinishesLater(x: Reader, n: nat)
    ensures Finishes(x) <==> Finishes(Steps(x, n))
  {
    var y := Steps(x, n);
    if Finishes(x) {
      var k: nat :| Steps(x, k).Done?;
      StepsSplit(x, n, k);
      StepsSplit(x, k, n);
      DoneStays(Steps(x, k), n);
      assert Steps(y, k).Done?;
    }
    if Finishes(y) {
      var k: nat :| Steps(y, k).Done?;
      StepsSplit(x, n, k);
    }
  }

  /** The first step of a scan. */
  lemma ScanStep(p: Option<Str>, mask: CpuSet)
    ensures Steps(Scanning(p, mask), 1) == Step(Scanning(p, mask))
  {
    assert Steps(Step(Scanning(p, mask)), 0) == Step(Scanning(p, mask));
  }

  lemma DoneFinishes(x: Reader)
    requires x.Done?
    ensures Finishes(x)
  {
    assert Steps(x, 0).Done?;
  }

  /** The reader finishes a list exactly if all ranges before the first
      rejected token end. */
  lemma {:induction false} FinishesIff(p: Option<Str>, mask: CpuSet)
    ensures Finishes(Scanning(p, mask)) <==> RangesEnd(p)
    decreases if p.Some? then |p.value| + 1 else 0
  {
    var x := Scanning(p, mask);
    ScanStep(p, mask);
    FinishesLater(x, 1);
    var y := Step(x);
    if y.Done? {
      DoneFinishes(y);
    } else {
      EndsIff(y.a, y.b, y.s);
      if Ends(y.a, y.b, y.s) {
        var n := FillingEnds(y.a, y.b, y.s, y.q, mask);
        FinishesLater(y, n);
        FinishesIff(y.q, mask + Every(y.a, y.b, y.s));
      } else {
        FillingForever(y.a, y.b, y.s, y.q, mask);
      }
    }
  }

  lemma DoneOnce(x: Reader, a: nat, b: nat)
    requires Steps(x, a).Done? && Steps(x, b).Done?
    ensures Steps(x, a) == Steps(x, b)
  {
    StepsSplit(x, a, b);
    StepsSplit(x, b, a);
    DoneStays(Steps(x, a), b);
    DoneStays(Steps(x, b), a);
  }

  /** And then it ends with what the list means. */
  lemma {:induction false} FinishesWith(p: Option<Str>, mask: CpuSet) returns (n: nat)
    requires RangesEnd(p)
    ensures Steps(Scanning(p, mask), n) == Done(Meaning(p, mask))
    decreases if p.Some? then |p.value| + 1 else 0
  {
    var x := Scanning(p, mask);
    ScanStep(p, mask);
    var y := Step(x);
    n := 1;
    if !y.Done? {
      EndsIff(y.a, y.b, y.s);
      var k := FillingEnds(y.a, y.b, y.s, y.q, mask);
      var m := FinishesWith(y.q, mask + Every(y.a, y.b, y.s));
      StepsSplit(y, k, m);
      StepsSplit(x, 1, k + m);
      n := 1 + (k + m);
    }
  }

  /** The result of a list that is finished. */
  lemma ResultIs(str: Str, n: nat)
    requires Steps(Start(str), n).Done?
    ensures RangesEnd(Some(str)) && Steps(Start(str), n) == Done(Meaning(Some(str), {}))
  {
    FinishesIff(Some(str), {});
    var k := FinishesWith(Some(str), {});
    DoneOnce(Start(str), n, k);
  }

  /** How many rounds a list takes that is finished. */
  ghost function Needed(str: Str): (n: nat)
    requires RangesEnd(Some(str))
    ensures Steps(Start(str), n).Done?
  {
    FinishesIff(Some(str), {});
    var n: nat :| Steps(Start(str), n).Done?;
    n
  }

  /** cstr_to_cpuset, for at most `limit` rounds of its loops: what it has
      reached then; a finished list gives its meaning, and enough rounds
      finish every list that can be finished. */
  method CstrToCpuset(str: Str, limit: nat) returns (x: Reader)
    ensures x == Steps(Start(str), limit)
    ensures x.Done? ==> RangesEnd(Some(str)) && x.r == Meaning(Some(str), {})
    ensures RangesEnd(Some(str)) && limit >= Needed(str) ==> x.Done?
  {
    var mask: CpuSet, q, n := {}, Some(str), 0;
    x := Scanning(q, mask);
    while n < limit && !x.Done?
      invariant n <= limit && x == Steps(Start(str), n)
      invariant x.Scanning? ==> x == Scanning(q, mask)
      invariant x.Filling? ==> n == limit
    {
      StepsSplit(Start(str), n, 1);
      ScanStep(q, mask);
      n := n + 1;
      if q.None? {
        x := Done(Read(mask));
      } else {
        var p := q.value;
        q := Next(p, ',');
        var t := TokenAt(p);
        if t.BadToken? || t.a > t.b {
          x := Done(Rejected);
        } else {
          n, x, mask := FillRange(str, n, t.a, t.b, t.stride, q, mask, limit);
        }
      }
    }
    if x.Done? {
      StepsSplit(Start(str), n, limit - n);
      DoneStays(x, limit - n);
      ResultIs(str, n);
    }
    if RangesEnd(Some(str)) && limit >= Needed(str) {
      var k := Needed(str);
      StepsSplit(Start(str), k, limit - k);
      DoneStays(Steps(Start(str), k), limit - k);
    }
  }

  /** The inner loop. */
  method FillRange(ghost str: Str, n0: nat, a0: Word, b: Word, s: Word, q: Option<Str>, mask0: CpuSet, limit: nat)
    returns (n: nat, x: Reader, mask: CpuSet)
    requires n0 <= limit && Steps(Start(str), n0) == Filling(a0, b, s, q, mask0)
    ensures n0 <= n <= limit && x == Steps(Start(str), n)
    ensures x == Scanning(q, mask) || (x.Filling? && n == limit)
  {
    n, mask := n0, mask0;
    var a: Word := a0;
    while n < limit && a <= b
      invariant n0 <= n <= limit && Steps(Start(str), n) == Filling(a, b, s, q, mask)
    {
      StepsSplit(Start(str), n, 1);
      OneMore(Filling(a, b, s, q, mask));
      mask := mask + Cpu(a);
      a := (a + s) % WORD;
      n := n + 1;
    }
    x := Filling(a, b, s, q, mask);
    if n < limit {
      StepsSplit(Start(str), n, 1);
      OneMore(x);
      x := Scanning(q, mask);
      n := n + 1;
    }
  }

  lemma OneMore(x: Reader)
    ensures Steps(x, 1) == Step(x)
  {
    assert Steps(Step(x), 0) == Step(x);
  }

  // ---------------------------------------------------------------------
  // The printer.
  // ---------------------------------------------------------------------

  /** The last CPU of the run of CPUs that starts at i. */
  function RunEnd(m: CpuSet, i: nat): (j: nat)
    requires i in m && i < SETSIZE
    ensures i <= j < SETSIZE && (forall x :: i <= x <= j ==> x in m) && (j + 1 < SETSIZE ==> j + 1 !in m)
    decreases SETSIZE - i
  {
    if i + 1 < SETSIZE && i + 1 in m then RunEnd(m, i + 1) else i
  }

  /** One run: a single number, two numbers, or a range. */
  function RunText(i: nat, j: nat): Str {
    if j == i then T.Decimal(i) + ","
    else if j == i + 1 then T.Decimal(i) + "," + T.Decimal(j) + ","
    else T.Decimal(i) + "-" + T.Decimal(j) + ","
  }

  /** The entries for the CPUs from i on, each followed by a comma. */
  function Entries(m: CpuSet, i: nat): Str
    decreases SETSIZE - i
  {
    if i >= SETSIZE then []
    else if i !in m then Entries(m, i + 1)
    else RunText(i, RunEnd(m, i)) + Entries(m, RunEnd(m, i) + 1)
  }

  function DropLast(s: Str): Str { if s == [] then [] else s[..|s| - 1] }

  /** How many CPUs follow i without a gap. */
  method RunLength(m: CpuSet, i: nat) returns (run: nat)
    requires i in m && i < SETSIZE
    ensures i + run == RunEnd(m, i)
  {
    run := 0;
    var j := i + 1;
    while j < SETSIZE && j in m
      invariant i < j <= SETSIZE && run == j - i - 1 && i + run in m && RunEnd(m, i) == RunEnd(m, i + run)
      decreases SETSIZE - j
    {
      run, j := run + 1, j + 1;
    }
  }

  lemma EntriesStep(m: CpuSet, i: nat, str: Str)
    requires i in m && i < SETSIZE
    ensures str + Entries(m, i) == str + RunText(i, RunEnd(m, i)) + Entries(m, RunEnd(m, i) + 1)
  {
  }

  /** cpuset_to_cstr. */
  method CpusetToCstr(m: CpuSet) returns (r: Str)
    ensures r == DropLast(Entries(m, 0))
  {
    var i: nat, str: Str := 0, [];
    ghost var all := Entries(m, 0);
    while i < SETSIZE
      invariant all == str + Entries(m, i)
      decreases SETSIZE - i
    {
      if i in m {
        var run := RunLength(m, i);
        EntriesStep(m, i, str);
        str := str + RunText(i, i + run);
        i := i + run;
      }
      i := i + 1;
    }
    assert str + [] == str;
    r := if str == [] then [] else str[..|str| - 1];
  }

  // ---------------------------------------------------------------------
  // Reading undoes printing.
  // ---------------------------------------------------------------------

  predicate AllDigits(s: Str) { forall i :: 0 <= i < |s| ==> T.IsDigit(s[i]) }

  lemma {:induction false} NextSkips(d: Str, rest: Str, sep: char)
    requires AllDigits(d) && !T.IsDigit(sep)
    ensures Next(d + rest, sep) == Next(rest, sep)
    decreases |d|
  {
    if d == [] {
      assert d + rest == rest;
    } else {
      assert (d + rest)[1..] == d[1..] + rest;
      NextSkips(d[1..], rest, sep);
    }
  }

  lemma ReadPlain(s: Str)
    requires s != [] && T.IsDigit(s[0])
    ensures ReadU(s) == Some(Unsigned(false, T.DigitsVal(s, 0).0))
  {
    assert T.SkipBlanks(s) == s;
  }

  lemma SmallUnsigned(n: nat)
    requires n < WORD
    ensures Unsigned(false, n) == n
  {
  }

  lemma ReadBack(n: nat, rest: Str)
    requires T.NoDigit(rest) && n < WORD
    ensures ReadU(T.Decimal(n) + rest) == Some(n)
  {
    var s := T.Decimal(n) + rest;
    T.ReadDecimal(n, rest);
    assert s[0] == T.Decimal(n)[0];
    ReadPlain(s);
    SmallUnsigned(n);
  }

  /** What follows a token: nothing, or a comma and more. */
  predicate Tail(rest: Str) { rest == [] || rest[0] == ',' }

  lemma TailNext(rest: Str, sep: char)
    requires Tail(rest) && sep != ','
    ensures !Before(Next(rest, sep), Next(rest, ','))
  {
  }

  lemma SingleToken(i: Word, rest: Str)
    requires Tail(rest)
    ensures TokenAt(T.Decimal(i) + rest) == Span(i, i, 1)
    ensures Next(T.Decimal(i) + rest, ',') == if rest == [] then None else Some(rest[1..])
  {
    ReadBack(i, rest);
    NextSkips(T.Decimal(i), rest, '-');
    NextSkips(T.Decimal(i), rest, ',');
    TailNext(rest, '-');
  }

  lemma RangeToken(i: Word, j: Word, rest: Str)
    requires Tail(rest)
    ensures TokenAt(T.Decimal(i) + ("-" + (T.Decimal(j) + rest))) == Span(i, j, 1)
    ensures Next(T.Decimal(i) + ("-" + (T.Decimal(j) + rest)), ',') == if rest == [] then None else Some(rest[1..])
  {
    var u := T.Decimal(j) + rest;
    ReadBack(i, "-" + u);
    ReadBack(j, rest);
    NextSkips(T.Decimal(i), "-" + u, '-');
    NextSkips(T.Decimal(i), "-" + u, ',');
    assert ("-" + u)[1..] == u;
    NextSkips(T.Decimal(j), rest, ',');
    NextSkips(T.Decimal(j), rest, ':');
    TailNext(rest, ':');
  }

  /** The CPUs of m from i on. */
  function From(m: CpuSet, i: nat): CpuSet { set b | b in m && b >= i }

  /** The CPUs from i to j. */
  function Interval(i: nat, j: nat): CpuSet { set x: nat | x <= j && Within(i, j, x) }

  predicate Within(i: nat, j: nat, x: nat) { i <= x <= j }

  lemma EveryUnit(i: nat, j: nat)
    requires j < SETSIZE && i <= j
    ensures Ends(i, j, 1) && Every(i, j, 1) == Interval(i, j)
  {
    UnitEvery(i, j, i);
    forall x: nat ensures x in Every(i, j, 1) <==> x in Interval(i, j) {
      UnitEvery(i, j, x);
    }
  }

  lemma RunIsInterval(m: CpuSet, i: nat, j: nat)
    requires GoodSet(m) && i in m && i < SETSIZE && j == RunEnd(m, i)
    ensures From(m, i) == Interval(i, j) + From(m, j + 1)
  {
  }

  /** The entries end in a comma; without it, they are what follows a token. */
  lemma {:induction false} EntriesShape(m: CpuSet, i: nat)
    requires GoodSet(m)
    ensures Entries(m, i) == [] <==> From(m, i) == {}
    ensures Entries(m, i) != [] ==> Entries(m, i)[|Entries(m, i)| - 1] == ','
    decreases SETSIZE - i
  {
    if i < SETSIZE && i !in m {
      EntriesShape(m, i + 1);
      assert From(m, i) == From(m, i + 1);
    } else if i < SETSIZE {
      var j := RunEnd(m, i);
      EntriesShape(m, j + 1);
      var r := RunText(i, j);
      assert |r| > 0 && r[|r| - 1] == ',';
      assert i in From(m, i);
    } else {
      assert forall b :: b in From(m, i) ==> b < SETSIZE;
    }
  }

  /** Entries without their last comma, behind a token. */
  function Rest(u: Str): Str { if u == [] then [] else "," + DropLast(u) }

  lemma DropLastRun(x: Str, u: Str)
    requires u != [] ==> u[|u| - 1] == ','
    ensures DropLast(x + "," + u) == x + Rest(u) && Tail(Rest(u))
    ensures Rest(u) == [] <==> u == []
    ensures u != [] ==> Rest(u)[1..] == DropLast(u)
  {
    if u == [] {
      assert x + "," + u == x + ",";
    } else {
      assert (x + "," + u)[..|x + "," + u| - 1] == x + ("," + u[..|u| - 1]);
    }
  }

  /** What is left of a list behind a token. */
  function Rem(u: Str): Option<Str> { if u == [] then None else Some(DropLast(u)) }

  /** Reading p with the CPUs acc set is reading q with acc'. */
  ghost predicate LeadsTo(p: Str, acc: CpuSet, q: Option<Str>, acc': CpuSet) {
    RangesEnd(q) ==> RangesEnd(Some(p)) && Meaning(Some(p), acc) == Meaning(q, acc')
  }

  lemma ParseToken(p: Str, a: nat, b: nat, q: Option<Str>, acc: CpuSet)
    requires a <= b < SETSIZE && TokenAt(p) == Span(a, b, 1) && Next(p, ',') == q
    ensures LeadsTo(p, acc, q, acc + Interval(a, b))
  {
    EveryUnit(a, b);
    EndsIff(a, b, 1);
  }

  lemma ParseSingle(i: nat, u: Str, acc: CpuSet)
    requires i < SETSIZE && (u != [] ==> u[|u| - 1] == ',')
    ensures LeadsTo(DropLast(RunText(i, i) + u), acc, Rem(u), acc + Interval(i, i))
  {
    DropLastRun(T.Decimal(i), u);
    SecondOfPair(i, u, acc);
  }

  lemma ParseRange(i: nat, j: nat, u: Str, acc: CpuSet)
    requires i + 1 < j < SETSIZE && (u != [] ==> u[|u| - 1] == ',')
    ensures LeadsTo(DropLast(RunText(i, j) + u), acc, Rem(u), acc + Interval(i, j))
  {
    var d, e, r := T.Decimal(i), T.Decimal(j), Rest(u);
    DropLastRun(d + "-" + e, u);
    assert d + "-" + e + r == d + ("-" + (e + r));
    RangeToken(i, j, r);
    ParseToken(d + ("-" + (e + r)), i, j, Rem(u), acc);
  }

  /** Reading one printed run. */
  lemma ParseRun(i: nat, j: nat, u: Str, acc: CpuSet)
    requires i <= j < SETSIZE && (u != [] ==> u[|u| - 1] == ',')
    ensures LeadsTo(DropLast(RunText(i, j) + u), acc, Rem(u), acc + Interval(i, j))
  {
    if j == i {
      ParseSingle(i, u, acc);
    } else if j == i + 1 {
      ParsePair(i, u, acc);
    } else {
      ParseRange(i, j, u, acc);
    }
  }

  lemma LeadsOn(p: Str, acc: CpuSet, q: Str, acc1: CpuSet, r: Option<Str>, acc2: CpuSet)
    requires LeadsTo(p, acc, Some(q), acc1) && LeadsTo(q, acc1, r, acc2)
    ensures LeadsTo(p, acc, r, acc2)
  {
  }

  lemma PairText(d: Str, e: Str, r: Str)
    ensures d + "," + e + r == d + ("," + (e + r)) && ("," + (e + r))[1..] == e + r
  {
  }

  /** A single number with more behind it. */
  lemma FirstOfPair(i: nat, t: Str, acc: CpuSet)
    requires i < SETSIZE
    ensures LeadsTo(T.Decimal(i) + ("," + t), acc, Some(t), acc + Interval(i, i))
  {
    assert ("," + t)[1..] == t;
    SingleToken(i, "," + t);
    ParseToken(T.Decimal(i) + ("," + t), i, i, Some(t), acc);
  }

  /** A single number at the end of a run. */
  lemma SecondOfPair(i: nat, u: Str, acc: CpuSet)
    requires i < SETSIZE && (u != [] ==> u[|u| - 1] == ',')
    ensures LeadsTo(T.Decimal(i) + Rest(u), acc, Rem(u), acc + Interval(i, i))
  {
    DropLastRun(T.Decimal(i), u);
    SingleToken(i, Rest(u));
    ParseToken(T.Decimal(i) + Rest(u), i, i, Rem(u), acc);
  }

  lemma TwoIntervals(i: nat, acc: CpuSet)
    ensures acc + Interval(i, i) + Interval(i + 1, i + 1) == acc + Interval(i, i + 1)
  {
  }

  lemma ParsePair(i: nat, u: Str, acc: CpuSet)
    requires i + 1 < SETSIZE && (u != [] ==> u[|u| - 1] == ',')
    ensures LeadsTo(DropLast(RunText(i, i + 1) + u), acc, Rem(u), acc + Interval(i, i + 1))
  {
    var d, e, r := T.Decimal(i), T.Decimal(i + 1), Rest(u);
    DropLastRun(d + "," + e, u);
    PairText(d, e, r);
    FirstOfPair(i, e + r, acc);
    SecondOfPair(i + 1, u, acc + Interval(i, i));
    TwoIntervals(i, acc);
    LeadsOn(d + ("," + (e + r)), acc, e + r, acc + Interval(i, i), Rem(u), acc + Interval(i, i + 1));
  }

  lemma Union3(a: CpuSet, b: CpuSet, c: CpuSet)
    ensures a + (b + c) == a + b + c && a + {} == a && (c == {} ==> a + (b + c) == a + b)
  {
  }

  /** Reading on with the CPUs acc set ends with the outcome r. */
  ghost predicate ReadsOn(p: Option<Str>, acc: CpuSet, r: Outcome) { RangesEnd(p) && Meaning(p, acc) == r }

  lemma LeadsEnd(p: Str, acc: CpuSet, q: Option<Str>, acc1: CpuSet, r: Outcome)
    requires LeadsTo(p, acc, q, acc1) && ReadsOn(q, acc1, r)
    ensures ReadsOn(Some(p), acc, r)
  {
  }

  lemma NothingMore(acc: CpuSet)
    ensures ReadsOn(None, acc, Read(acc))
  {
  }

  lemma EntriesAt(m: CpuSet, i: nat)
    requires i < SETSIZE
    ensures Entries(m, i) == if i in m then RunText(i, RunEnd(m, i)) + Entries(m, RunEnd(m, i) + 1) else Entries(m, i + 1)
    ensures i !in m ==> From(m, i) == From(m, i + 1)
  {
  }

  /** A printed run and what follows it, which adds the CPUs `more`. */
  lemma RunThen(i: nat, j: nat, u: Str, acc: CpuSet, more: CpuSet)
    requires i <= j < SETSIZE && (u == [] <==> more == {}) && (u != [] ==> u[|u| - 1] == ',')
    requires u != [] ==> ReadsOn(Some(DropLast(u)), acc + Interval(i, j), Read(acc + Interval(i, j) + more))
    ensures ReadsOn(Some(DropLast(RunText(i, j) + u)), acc, Read(acc + (Interval(i, j) + more)))
  {
    var now := acc + Interval(i, j);
    ParseRun(i, j, u, acc);
    Union3(acc, Interval(i, j), more);
    if u == [] {
      NothingMore(now);
    }
    LeadsEnd(DropLast(RunText(i, j) + u), acc, Rem(u), now, Read(acc + (Interval(i, j) + more)));
  }

  /** Reading the entries from i on adds exactly the CPUs from i on. */
  ghost predicate ReadsFrom(m: CpuSet, i: nat, acc: CpuSet) {
    ReadsOn(Some(DropLast(Entries(m, i))), acc, Read(acc + From(m, i)))
  }

  lemma {:induction false} EntriesParse(m: CpuSet, i: nat, acc: CpuSet)
    requires GoodSet(m) && From(m, i) != {}
    ensures ReadsFrom(m, i, acc)
    decreases SETSIZE - i
  {
    assert i < SETSIZE;
    if i !in m {
      EntriesAt(m, i);
      EntriesParse(m, i + 1, acc);
    } else {
      var j := RunEnd(m, i);
      if From(m, j + 1) != {} {
        EntriesParse(m, j + 1, acc + Interval(i, j));
      }
      RunParse(m, i, j, acc);
    }
  }

  /** A run and the entries behind it. */
  lemma RunParse(m: CpuSet, i: nat, j: nat, acc: CpuSet)
    requires GoodSet(m) && i in m && i < SETSIZE && j == RunEnd(m, i)
    requires From(m, j + 1) != {} ==> ReadsFrom(m, j + 1, acc + Interval(i, j))
    ensures ReadsFrom(m, i, acc)
  {
    var u, more := Entries(m, j + 1), From(m, j + 1);
    EntriesShape(m, j + 1);
    RunIsInterval(m, i, j);
    RunThen(i, j, u, acc, more);
    EntriesAt(m, i);
  }

  /** The reader ends with the outcome r. */
  ghost predicate Reads(str: Str, r: Outcome) { ReadsOn(Some(str), {}, r) }

  /** cstr_to_cpuset undoes cpuset_to_cstr exactly for the sets that are not
      empty; the empty set prints as a string that is rejected. */
  lemma ListRoundTrip(m: CpuSet)
    requires GoodSet(m)
    ensures Reads(DropLast(Entries(m, 0)), Read(m)) <==> m != {}
    ensures m == {} ==> Reads(DropLast(Entries(m, 0)), Rejected)
  {
    assert From(m, 0) == m;
    if m != {} {
      EntriesParse(m, 0, {});
      assert {} + m == m;
    } else {
      EntriesShape(m, 0);
    }
  }

  /** Print a set as a list and read it back, with enough rounds to read on. */
  method PrintAndReadList(m: CpuSet, limit: nat) returns (x: Reader)
    requires GoodSet(m)
    ensures x.Done? ==> x.r == if m == {} then Rejected else Read(m)
    ensures RangesEnd(Some(DropLast(Entries(m, 0)))) && (limit >= Needed(DropLast(Entries(m, 0))) ==> x.Done?)
  {
    var str := CpusetToCstr(m);
    ListRoundTrip(m);
    x := CstrToCpuset(str, limit);
  }

  /** The list i-j:s. */
  function RangeText(i: Word, j: Word, s: Word): Str { T.Decimal(i) + ("-" + (T.Decimal(j) + (":" + T.Decimal(s)))) }

  lemma StrideToken(i: Word, j: Word, s: Word)
    ensures TokenAt(RangeText(i, j, s)) == Span(i, j, s) && Next(RangeText(i, j, s), ',') == None
  {
    var x := T.Decimal(s);
    var u := T.Decimal(j) + (":" + x);
    NextSkips(T.Decimal(i), "-" + u, '-');
    NextSkips(T.Decimal(i), "-" + u, ',');
    NextSkips(T.Decimal(j), ":" + x, ',');
    NextSkips(T.Decimal(j), ":" + x, ':');
    NextSkips(x, "", ',');
    assert x + "" == x && ("-" + u)[1..] == u && (":" + x)[1..] == x;
    ReadBack(i, "-" + u);
    ReadBack(j, ":" + x);
    ReadBack(s, "");
  }

  /** A single range with a stride is read to its end exactly if it lies below
      the largest value of its loop variable. */
  lemma RangeFinishesIff(i: Word, j: Word, s: Word)
    requires i <= j
    ensures Finishes(Start(RangeText(i, j, s))) <==> j < WORD - Gcd(s, WORD) + i % Gcd(s, WORD)
  {
    StrideToken(i, j, s);
    FinishesIff(Some(RangeText(i, j, s)), {});
  }

  /** A single range without a stride is read to its end exactly if it does not
      reach the largest unsigned number. */
  lemma PlainRangeFinishesIff(i: Word, j: Word)
    requires i <= j
    ensures Finishes(Start(T.Decimal(i) + ("-" + T.Decimal(j)))) <==> j < WORD - 1
  {
    var p := T.Decimal(i) + ("-" + T.Decimal(j));
    assert T.Decimal(j) + "" == T.Decimal(j);
    RangeToken(i, j, "");
    UnitStride(i, j);
    FinishesIff(Some(p), {});
  }

  /** A stride of zero, and ranges up to the largest value, are never finished. */
  lemma EndlessLists()
    ensures !Finishes(Start(RangeText(0, 3, 0)))
    ensures !Finishes(Start(T.Decimal(0) + ("-" + T.Decimal(4294967295))))
    ensures !Finishes(Start(RangeText(0, 4294967294, 2)))
  {
    RangeFinishesIff(0, 3, 0);
    PlainRangeFinishesIff(0, 4294967295);
    RangeFinishesIff(0, 4294967294, 2);
    assert Gcd(2, WORD) == Gcd(0, 2);
  }
}
