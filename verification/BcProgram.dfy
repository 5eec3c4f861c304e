/** Whole programs: text, loading, and the theorem that running the loaded
    code does exactly what direct evaluation of the source does. */
module BcProgram {
  import opened Wrappers
  import opened Numbers
  import opened DecimalText
  import opened BcSyntax
  import opened BcStore
  import M = BcMachine
  import opened BcCompile
  import opened BcSemantics
  import opened BcPlacement
  import opened BcSimulation
  import opened BcComposeStmt
  import opened BcLabels
  import opened BcEncoding
  import opened BcText
  import opened BcFit
  import opened BcFunctions
  import C = BcCorrect

  /** Definitions in the order they are read, then a statement to run. */
  datatype Source = Source(defs: seq<(nat, FuncDef)>, main: Stmt)

  ghost predicate GoodSource(p: Source) {
    && GoodStmt(p.main, false, false) && StmtCode(p.main, 1, 0, 0).next <= 65536
    && forall i :: 0 <= i < |p.defs| ==> GoodEntry(p.defs[i])
  }

  ghost predicate GoodEntry(e: (nat, FuncDef)) {
    0 < e.0 <= MAX_STORE && GoodDef(e.1) && StmtCode(e.1.body, 1, 0, 0).next <= 65536
  }

  function DefsText(defs: seq<(nat, FuncDef)>): seq<char>
    decreases |defs|
  {
    if defs == [] then [] else FuncText(defs[0].0, defs[0].1) + DefsText(defs[1..])
  }

  /** Everything that is emitted for a program. */
  function ProgramText(p: Source): seq<char> { DefsText(p.defs) + TextAll(StmtCode(p.main, 1, 0, 0).code) }

  /** A later definition of a function replaces an earlier one. */
  function FuncsOf(defs: seq<(nat, FuncDef)>, funcs: map<nat, FuncDef>): map<nat, FuncDef>
    decreases |defs|
  {
    if defs == [] then funcs else FuncsOf(defs[1..], funcs[defs[0].0 := defs[0].1])
  }

  const START := Loading(map[0 := EMPTY], 0, 0, false, false, false)

  function ToCode(b: Body): M.Code { M.Code(b.bytes, b.labels, b.params, b.autos) }

  /** What the machine can run: the main program and the defined functions. */
  function ImageOf(l: Loading): M.Image {
    map f | f in l.bodies && (f == 0 || l.bodies[f].defined) :: ToCode(l.bodies[f])
  }

  // ---------------------------------------------------------------------
  // Loading a program.
  // ---------------------------------------------------------------------

  /** The loaded functions are those of funcs, and the main program is as given. */
  ghost predicate Holds(bodies: map<nat, Body>, funcs: map<nat, FuncDef>, main: Body) {
    && 0 !in funcs && 0 in bodies && bodies[0] == main
    && (forall f :: f in funcs ==> f in bodies && bodies[f] == LoadedBody(funcs[f]))
    && (forall f :: f in bodies && f != 0 ==> f in funcs)
  }

  ghost predicate AllGood(funcs: map<nat, FuncDef>) { forall f :: f in funcs ==> GoodEntry((f, funcs[f])) }

  lemma FuncFits(d: FuncDef)
    requires GoodDef(d) && StmtCode(d.body, 1, 0, 0).next <= 65536
    ensures AllFit(FuncCode(d))
  {
    FitsIff(d.body);
    forall k | 0 <= k < |FuncCode(d)| ensures Fits(FuncCode(d)[k]) {
      if k < |StmtCode(d.body, 1, 0, 0).code| {
        assert FuncCode(d)[k] == StmtCode(d.body, 1, 0, 0).code[k];
      }
    }
  }

  lemma {:induction false} LoadDefs(l: Loading, defs: seq<(nat, FuncDef)>, funcs: map<nat, FuncDef>, rest: seq<char>)
    returns (l': Loading)
    requires Idle(l) && l.func == 0 && l.saved == 0 && Holds(l.bodies, funcs, EMPTY) && AllGood(funcs)
    requires forall i :: 0 <= i < |defs| ==> GoodEntry(defs[i])
    ensures LoadCode(l, DefsText(defs) + rest) == LoadCode(l', rest)
    ensures Idle(l') && l'.func == 0 && Holds(l'.bodies, FuncsOf(defs, funcs), EMPTY) && AllGood(FuncsOf(defs, funcs))
    decreases |defs|
  {
    if defs == [] {
      assert DefsText(defs) + rest == rest;
      l' := l;
    } else {
      var f, d := defs[0].0, defs[0].1;
      assert GoodEntry(defs[0]);
      FuncFits(d);
      Join(FuncText(f, d), DefsText(defs[1..]), rest);
      LoadFunction(l, f, d, DefsText(defs[1..]) + rest);
      var l1 := l.(bodies := l.bodies[f := LoadedBody(d)], saved := 0);
      HoldsMore(l.bodies, funcs, f, d);
      l' := LoadDefs(l1, defs[1..], funcs[f := d], rest);
    }
  }

  /** One more definition. */
  lemma HoldsMore(bodies: map<nat, Body>, funcs: map<nat, FuncDef>, f: nat, d: FuncDef)
    requires Holds(bodies, funcs, EMPTY) && AllGood(funcs) && GoodEntry((f, d))
    ensures Holds(bodies[f := LoadedBody(d)], funcs[f := d], EMPTY) && AllGood(funcs[f := d])
  {
  }

  /** The main program as loaded. */
  function MainBody(s: Stmt): Body {
    EMPTY.(bytes := EncodeAll(StmtCode(s, 1, 0, 0).code), labels := LabelMap(StmtCode(s, 1, 0, 0).code, 0, map[]))
  }

  lemma LoadProgram(p: Source) returns (l: Loading)
    requires GoodSource(p)
    ensures l == LoadCode(START, ProgramText(p)) && !l.stop
    ensures Holds(l.bodies, FuncsOf(p.defs, map[]), MainBody(p.main)) && AllGood(FuncsOf(p.defs, map[]))
  {
    var code := StmtCode(p.main, 1, 0, 0).code;
    var l1 := LoadDefs(START, p.defs, map[], TextAll(code));
    FitsIff(p.main);
    assert TextAll(code) + [] == TextAll(code);
    LoadAll(l1, code, []);
    l := if code == [] then l1 else AfterAll(l1, code);
    assert [] + EncodeAll(code) == EncodeAll(code);
    if code == [] {
      assert MainBody(p.main) == EMPTY;
    } else {
      assert l.bodies == l1.bodies[0 := MainBody(p.main)];
    }
  }

  // ---------------------------------------------------------------------
  // A loaded program is ready to run.
  // ---------------------------------------------------------------------

  lemma EncodedHas(code: seq<Instr>)
    ensures Has(EncodeAll(code), 0, EncodeAll(code))
  {
  }

  lemma FuncReady(d: FuncDef)
    requires GoodDef(d) && StmtCode(d.body, 1, 0, 0).next <= 65536
    ensures LoadedFunc(ToCode(LoadedBody(d)), d)
  {
    var code, g := FuncCode(d), StmtCode(d.body, 1, 0, 0);
    FuncFits(d);
    FreshStmt(d.body, 1, 0, 0);
    UsesPlain(g.code, Range(1, g.next), [Plain('0'), Plain('R')]);
    LabelMapResolves(code, 0, map[]);
    EncodedHas(code);
    EncodedIsPlaced(ToCode(LoadedBody(d)), 0, code, EncodeAll(code));
  }

  lemma MainReady(s: Stmt)
    requires GoodStmt(s, false, false) && StmtCode(s, 1, 0, 0).next <= 65536
    ensures Placed(ToCode(MainBody(s)), 0, StmtCode(s, 1, 0, 0).code)
  {
    var g := StmtCode(s, 1, 0, 0);
    FitsIff(s);
    FreshStmt(s, 1, 0, 0);
    LabelMapResolves(g.code, 0, map[]);
    EncodedHas(g.code);
    EncodedIsPlaced(ToCode(MainBody(s)), 0, g.code, EncodeAll(g.code));
  }

  lemma ProgramReady(ar: Arith, p: Source, l: Loading)
    requires GoodSource(p) && l == LoadCode(START, ProgramText(p))
    ensures Ready(World(ar, FuncsOf(p.defs, map[])), ImageOf(l))
    ensures 0 in ImageOf(l) && ImageOf(l)[0] == ToCode(MainBody(p.main))
    ensures Placed(ImageOf(l)[0], 0, StmtCode(p.main, 1, 0, 0).code)
  {
    var funcs := FuncsOf(p.defs, map[]);
    var l' := LoadProgram(p);
    MainReady(p.main);
    forall f: nat ensures ReadyFor(World(ar, funcs), ImageOf(l), f) {
      if f in funcs {
        assert GoodEntry((f, funcs[f]));
        FuncReady(funcs[f]);
      }
    }
  }

  // ---------------------------------------------------------------------
  // The theorem.
  // ---------------------------------------------------------------------

  /** The machine before it runs a program. */
  function Initial(st: Store): M.Machine { M.Machine(0, 0, Bottom, M.NoFrame, st, false) }

  function MainSize(s: Stmt): nat { Bytes(StmtCode(s, 1, 0, 0).code) }

  lemma MainAt(im: M.Image, s: Stmt, m: M.Machine, a: nat)
    requires Live(im, m) && m.addr == 0 && Placed(im[m.func], 0, StmtCode(s, 1, 0, 0).code) && a == MainSize(s)
    ensures C.OnStmt(im, m, s, 1, C.NOWHERE, a)
  {
  }

  /** The machine after a program that ended normally: nothing on the value
      stack, nothing on the call stack. */
  function Final(p: Source, st: Store): M.Machine {
    M.Machine(0, MainSize(p.main), Bottom, M.NoFrame, st, false)
  }

  /** What running the loaded program does, for the outcome the source has with some fuel. */
  lemma RunMatches(ar: Arith, p: Source, l: Loading, st: Store, fuel: nat) returns (n: nat, o: Outcome)
    requires GoodSource(p) && l == LoadCode(START, ProgramText(p))
    ensures o == ExecStmt(World(ar, FuncsOf(p.defs, map[])), p.main, st, None, fuel)
    ensures var m := Initial(st); var im := ImageOf(l);
      match o
      case Normal(st') => M.Reaches(ar, im, m, n, Final(p, st')) && M.Halted(im, Final(p, st'))
      case Failed(st') => ReachesError(ar, im, m, n, st')
      case Returned(_, st') => ReachesError(ar, im, m, n, st')
      case NoFuel => n >= fuel && StillRunning(ar, im, m, n)
      case _ => false
  {
    var w, im, m := World(ar, FuncsOf(p.defs, map[])), ImageOf(l), Initial(st);
    ProgramReady(ar, p, l);
    var a := MainSize(p.main);
    MainAt(im, p.main, m, a);
    n, o := C.SimStmt(w, im, p.main, 1, m, C.NOWHERE, a, fuel);
    assert Exactly(fuel, fuel);
    if o.Returned? {
      n := ReturnFails(ar, im, m, n, Behind(m, a), o.v, o.st);
    }
  }

  /** A return outside every function is a run-time error. */
  lemma ReturnFails(ar: Arith, im: M.Image, m: M.Machine, n: nat, b: M.Machine, v: Num, st: Store) returns (t: nat)
    requires ReachesReturn(ar, im, m, n, b, v, st) && b.func == 0 && !b.error
    ensures ReachesError(ar, im, m, t, st)
  {
    var a: nat :| b.func in im && Placed(im[b.func], a, [Plain('R')]) && M.Reaches(ar, im, m, n, With(b, v, st).(addr := a));
    var m1 := With(b, v, st).(addr := a);
    Placed1(im[b.func], a, Plain('R'));
    OneStep(ar, im, m1, Plain('R'));
    FailNow(ar, im, m1, 1, M.Fail(Past(m1, Plain('R'))));
    ErrorThen(ar, im, m, n, m1, 1, st);
    t := n + 1;
  }

  /** Once halted, a run stays where it is. */
  lemma {:induction false} HaltedLater(ar: Arith, im: M.Image, m: M.Machine, n: nat, k: nat)
    requires M.Halted(im, M.Run(ar, im, m, n)) && n <= k
    ensures M.Run(ar, im, m, k) == M.Run(ar, im, m, n)
    decreases n
  {
    if n == 0 {
      M.RunHalted(ar, im, m, k);
    } else {
      HaltedLater(ar, im, M.Step(ar, im, m), n - 1, k - 1);
    }
  }

  /** The machine comes to a stop in the state m'. */
  ghost predicate Stops(ar: Arith, im: M.Image, m: M.Machine, m': M.Machine) {
    exists n: nat :: M.Run(ar, im, m, n) == m' && M.Halted(im, m')
  }

  ghost predicate StopsInError(ar: Arith, im: M.Image, m: M.Machine, st: Store) {
    exists m' :: Stops(ar, im, m, m') && m'.error && m'.store == st
  }

  /** Executing s with enough fuel has the outcome o. */
  ghost predicate Means(w: World, s: Stmt, st: Store, o: Outcome) {
    exists fuel: nat :: ExecStmt(w, s, st, None, fuel) == o
  }

  ghost predicate MeansError(w: World, s: Stmt, st: Store, st': Store) {
    Means(w, s, st, Failed(st')) || exists v :: Means(w, s, st, Returned(v, st'))
  }

  lemma StopsAt(ar: Arith, im: M.Image, m: M.Machine, n: nat, m': M.Machine)
    requires M.Reaches(ar, im, m, n, m') && M.Halted(im, m')
    ensures Stops(ar, im, m, m')
  {
    M.ReachesRun(ar, im, m, n, m');
  }

  /** What the source does, the machine does. */
  lemma MachineFollows(ar: Arith, p: Source, l: Loading, st: Store, fuel: nat)
    requires GoodSource(p) && l == LoadCode(START, ProgramText(p))
    ensures match ExecStmt(World(ar, FuncsOf(p.defs, map[])), p.main, st, None, fuel)
      case Normal(st') => Stops(ar, ImageOf(l), Initial(st), Final(p, st'))
      case Failed(st') => StopsInError(ar, ImageOf(l), Initial(st), st')
      case Returned(_, st') => StopsInError(ar, ImageOf(l), Initial(st), st')
      case _ => true
  {
    var im, m := ImageOf(l), Initial(st);
    var n, o := RunMatches(ar, p, l, st, fuel);
    if o.Normal? {
      StopsAt(ar, im, m, n, Final(p, o.st));
    } else if o.Failed? || o.Returned? {
      ErrorStops(ar, im, m, n, o.st);
    }
  }

  lemma ErrorStops(ar: Arith, im: M.Image, m: M.Machine, n: nat, st: Store)
    requires ReachesError(ar, im, m, n, st)
    ensures StopsInError(ar, im, m, st)
  {
    var m' :| M.Reaches(ar, im, m, n, m') && m'.error && m'.store == st;
    StopsAt(ar, im, m, n, m');
  }

  /** A machine stops in at most one state. */
  lemma StopsOnce(ar: Arith, im: M.Image, m: M.Machine, a: M.Machine, b: M.Machine)
    requires Stops(ar, im, m, a) && Stops(ar, im, m, b)
    ensures a == b
  {
    var i: nat :| M.Run(ar, im, m, i) == a && M.Halted(im, a);
    var j: nat :| M.Run(ar, im, m, j) == b && M.Halted(im, b);
    if i <= j {
      HaltedLater(ar, im, m, i, j);
    } else {
      HaltedLater(ar, im, m, j, i);
    }
  }

  /** A machine that has stopped is not still running later. */
  lemma NotRunning(ar: Arith, im: M.Image, m: M.Machine, n: nat, k: nat)
    requires M.Halted(im, M.Run(ar, im, m, n)) && n <= k
    ensures !StillRunning(ar, im, m, k)
  {
    HaltedLater(ar, im, m, n, k);
    if StillRunning(ar, im, m, k) {
      var m1 :| M.Reaches(ar, im, m, k, m1) && !M.Halted(im, m1);
      M.ReachesRun(ar, im, m, k, m1);
    }
  }

  /** The state in which a machine stops, given what it reaches. */
  lemma StopsThere(ar: Arith, im: M.Image, m: M.Machine, m': M.Machine, k: nat, o: Outcome, final: M.Machine)
    requires Stops(ar, im, m, m')
    ensures o.Normal? && M.Reaches(ar, im, m, k, final) && M.Halted(im, final) ==> m' == final
    ensures (o.Failed? || o.Returned?) && ReachesError(ar, im, m, k, o.st) ==> m'.error && m'.store == o.st
  {
    if o.Normal? && M.Reaches(ar, im, m, k, final) && M.Halted(im, final) {
      StopsAt(ar, im, m, k, final);
      StopsOnce(ar, im, m, m', final);
    }
    if (o.Failed? || o.Returned?) && ReachesError(ar, im, m, k, o.st) {
      ErrorStops(ar, im, m, k, o.st);
      var e :| Stops(ar, im, m, e) && e.error && e.store == o.st;
      StopsOnce(ar, im, m, m', e);
    }
  }

  /** If the machine stops, the source has an outcome with finite fuel. */
  lemma SourceEnds(ar: Arith, p: Source, l: Loading, st: Store, m': M.Machine) returns (o: Outcome)
    requires GoodSource(p) && l == LoadCode(START, ProgramText(p)) && Stops(ar, ImageOf(l), Initial(st), m')
    ensures Means(World(ar, FuncsOf(p.defs, map[])), p.main, st, o)
    ensures match o
      case Normal(st') => m' == Final(p, st')
      case Failed(st') => m'.error && m'.store == st'
      case Returned(_, st') => m'.error && m'.store == st'
      case _ => false
  {
    var im, m := ImageOf(l), Initial(st);
    var n: nat :| M.Run(ar, im, m, n) == m' && M.Halted(im, m');
    var k, r := RunMatches(ar, p, l, st, n + 1);
    o := r;
    if o.NoFuel? {
      NotRunning(ar, im, m, n, k);
    } else {
      StopsThere(ar, im, m, m', k, o, if o.Normal? then Final(p, o.st) else m);
    }
  }

  /** The loaded program halts normally in st' exactly if the source ends
      normally in st'; the value and call stacks are then empty again. */
  lemma HaltsIff(ar: Arith, p: Source, l: Loading, st: Store, st': Store)
    requires GoodSource(p) && l == LoadCode(START, ProgramText(p))
    ensures Stops(ar, ImageOf(l), Initial(st), Final(p, st'))
       <==> Means(World(ar, FuncsOf(p.defs, map[])), p.main, st, Normal(st'))
  {
    var w := World(ar, FuncsOf(p.defs, map[]));
    if Stops(ar, ImageOf(l), Initial(st), Final(p, st')) {
      var o := SourceEnds(ar, p, l, st, Final(p, st'));
    }
    if Means(w, p.main, st, Normal(st')) {
      var fuel: nat :| ExecStmt(w, p.main, st, None, fuel) == Normal(st');
      MachineFollows(ar, p, l, st, fuel);
    }
  }

  /** It stops in an error with the store st' exactly if the source fails
      there, or returns outside every function. */
  lemma FailsIff(ar: Arith, p: Source, l: Loading, st: Store, st': Store)
    requires GoodSource(p) && l == LoadCode(START, ProgramText(p))
    ensures StopsInError(ar, ImageOf(l), Initial(st), st')
       <==> MeansError(World(ar, FuncsOf(p.defs, map[])), p.main, st, st')
  {
    var w := World(ar, FuncsOf(p.defs, map[]));
    if StopsInError(ar, ImageOf(l), Initial(st), st') {
      var m' :| Stops(ar, ImageOf(l), Initial(st), m') && m'.error && m'.store == st';
      var o := SourceEnds(ar, p, l, st, m');
    }
    if MeansError(w, p.main, st, st') {
      ErrorForward(ar, p, l, st, st');
    }
  }

  lemma ErrorForward(ar: Arith, p: Source, l: Loading, st: Store, st': Store)
    requires GoodSource(p) && l == LoadCode(START, ProgramText(p))
    requires MeansError(World(ar, FuncsOf(p.defs, map[])), p.main, st, st')
    ensures StopsInError(ar, ImageOf(l), Initial(st), st')
  {
    var w := World(ar, FuncsOf(p.defs, map[]));
    if Means(w, p.main, st, Failed(st')) {
      var fuel: nat :| ExecStmt(w, p.main, st, None, fuel) == Failed(st');
      MachineFollows(ar, p, l, st, fuel);
    } else {
      var v :| Means(w, p.main, st, Returned(v, st'));
      var fuel: nat :| ExecStmt(w, p.main, st, None, fuel) == Returned(v, st');
      MachineFollows(ar, p, l, st, fuel);
    }
  }
}
