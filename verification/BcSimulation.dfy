/** Running emitted code does what direct evaluation says: expressions. */
module BcSimulation {
  import opened Wrappers
  import opened Numbers
  import opened BcSyntax
  import opened BcStore
  import M = BcMachine
  import opened BcCompile
  import opened BcSemantics
  import opened BcPlacement
  import opened BcCalls
  import opened DecimalText

  /** The code of a function definition. */
  function FuncCode(d: FuncDef): seq<Instr> { StmtCode(d.body, 1, 0, 0).code + [Plain('0'), Plain('R')] }

  /** What check_params and the symbol table guarantee of a definition. */
  ghost predicate GoodDef(d: FuncDef) {
    && GoodStmt(d.body, false, false)
    && Distinct(NamesOf(d.formals)) && Distinct(d.autos)
    && (forall i :: 0 <= i < |d.formals| ==> GoodFormal(d.formals[i]))
    && (forall i :: 0 <= i < |d.autos| ==> d.autos[i] != 0 && !(0 < d.autos[i] <= 3))
    && (forall i, j :: 0 <= i < |d.formals| && 0 <= j < |d.autos| ==> d.formals[i].name != d.autos[j])
  }

  /** Only arrays can be variable parameters. */
  predicate GoodFormal(f: Formal) { (f.name > 3 && !f.byVar) || f.name < 0 }

  /** Function f is loaded: its code from address 0, its lists reversed. */
  ghost predicate LoadedFunc(code: M.Code, d: FuncDef) {
    && GoodDef(d) && Placed(code, 0, FuncCode(d))
    && code.params == Reversed(d.formals) && code.autos == Reversed(d.autos)
  }

  /** Function f is loaded if it is defined, and defined if it is loaded. */
  ghost predicate ReadyFor(w: World, im: M.Image, f: nat) {
    if f in w.funcs then f != 0 && f in im && LoadedFunc(im[f], w.funcs[f]) else f == 0 || f !in im
  }

  ghost predicate Ready(w: World, im: M.Image) {
    forall f: nat {:trigger ReadyFor(w, im, f)} :: ReadyFor(w, im, f)
  }

  /** A state the compiled code can be in: no error, and a frame inside functions. */
  ghost predicate Live(im: M.Image, m: M.Machine) {
    !m.error && m.func in im && (m.func != 0 ==> m.frames.Frame?)
  }

  function Base(m: M.Machine): Option<nat> {
    if m.func == 0 || m.frames.NoFrame? then None else Some(m.frames.ibase)
  }

  /** Behind len bytes of code. */
  function Behind(m: M.Machine, len: nat): M.Machine { m.(addr := m.addr + len) }

  /** The state b with the value x pushed and store st. */
  function With(b: M.Machine, x: Num, st: Store): M.Machine { b.(stack := Push(x, b.stack), store := st) }

  ghost predicate ReachesError(ar: Arith, im: M.Image, m: M.Machine, n: nat, st: Store) {
    exists m' :: M.Reaches(ar, im, m, n, m') && m'.error && m'.store == st
  }

  ghost predicate StillRunning(ar: Arith, im: M.Image, m: M.Machine, n: nat) {
    exists m' :: M.Reaches(ar, im, m, n, m') && !M.Halted(im, m')
  }

  /** n steps from m do what evaluating an expression to r says: its value on
      top of b, or the same error, or at least `fuel` steps without an end. */
  ghost predicate Yields(ar: Arith, im: M.Image, m: M.Machine, n: nat, r: Value, b: M.Machine, fuel: nat) {
    match r
    case Val(x, st) => M.Reaches(ar, im, m, n, With(b, x, st))
    case Err(st) => ReachesError(ar, im, m, n, st)
    case OutOfFuel => n >= fuel && StillRunning(ar, im, m, n)
  }

  lemma ErrorThen(ar: Arith, im: M.Image, m: M.Machine, a: nat, m1: M.Machine, b: nat, st: Store)
    requires M.Reaches(ar, im, m, a, m1) && ReachesError(ar, im, m1, b, st)
    ensures ReachesError(ar, im, m, a + b, st)
  {
    var m' :| M.Reaches(ar, im, m1, b, m') && m'.error && m'.store == st;
    M.ReachesThen(ar, im, m, a, m1, b, m');
  }

  lemma RunningThen(ar: Arith, im: M.Image, m: M.Machine, a: nat, m1: M.Machine, b: nat)
    requires M.Reaches(ar, im, m, a, m1) && StillRunning(ar, im, m1, b)
    ensures StillRunning(ar, im, m, a + b)
  {
    var m' :| M.Reaches(ar, im, m1, b, m') && !M.Halted(im, m');
    M.ReachesThen(ar, im, m, a, m1, b, m');
  }

  /** Prefixing a run. */
  lemma YieldsThen(ar: Arith, im: M.Image, m: M.Machine, a: nat, m1: M.Machine, n: nat, r: Value, b: M.Machine, fuel: nat)
    requires M.Reaches(ar, im, m, a, m1) && Yields(ar, im, m1, n, r, b, fuel)
    ensures Yields(ar, im, m, a + n, r, b, fuel)
  {
    match r
    case Val(x, st) => M.ReachesThen(ar, im, m, a, m1, n, With(b, x, st));
    case Err(st) => ErrorThen(ar, im, m, a, m1, n, st);
    case OutOfFuel => RunningThen(ar, im, m, a, m1, n);
  }

  lemma FailNow(ar: Arith, im: M.Image, m: M.Machine, n: nat, m': M.Machine)
    requires M.Reaches(ar, im, m, n, m') && m'.error
    ensures ReachesError(ar, im, m, n, m'.store)
  {
  }

  // ---------------------------------------------------------------------
  // Pieces of code that need no induction.
  // ---------------------------------------------------------------------

  lemma SimConst(w: World, im: M.Image, e: Expr, next: nat, m: M.Machine, fuel: nat)
    requires e.Const? && Live(im, m) && Placed(im[m.func], m.addr, ExprCode(e, next).code)
    ensures Yields(w.ar, im, m, 1, EvalExpr(w, e, m.store, Base(m), fuel),
                   Behind(m, Bytes(ExprCode(e, next).code)), fuel)
  {
    var i := if e.text == "0" then Plain('0') else if e.text == "1" then Plain('1') else Number(e.text);
    assert ExprCode(e, next).code == [i];
    Placed1(im[m.func], m.addr, i);
    OneStep(w.ar, im, m, i);
  }

  /** An array argument pushes its number. */
  lemma SimArrayArg(w: World, im: M.Image, a: nat, m: M.Machine, fuel: nat)
    requires Live(im, m) && Placed(im[m.func], m.addr, [Number(Decimal(a))])
    ensures Yields(w.ar, im, m, 1, Val(ArrayValue(w, a, BaseOf(m.store, Base(m))), m.store),
                   Behind(m, Bytes([Number(Decimal(a))])), fuel)
  {
    Placed1(im[m.func], m.addr, Number(Decimal(a)));
    OneStep(w.ar, im, m, Number(Decimal(a)));
  }

  /** The stack once the subscript of lv, if it has one, has been evaluated. */
  function Indexed(lv: LValue, x: Num, stack: Stack): Stack { if lv.Simple? then stack else Push(x, stack) }

  function LoadValue(w: World, lv: LValue, x: Num, st: Store): Value {
    if lv.Simple? then Val(GetVar(w.ar, st, lv.v), st) else ReadCell(lv.a, x, st)
  }

  function StoreValue(lv: LValue, x: Num, z: Num, st: Store): Value {
    if lv.Simple? then Val(z, SetVar(st, lv.v, z)) else WriteCell(lv.a, x, z, st)
  }

  function BumpValue(w: World, lv: LValue, x: Num, pre: bool, up: bool, st: Store): Value {
    if lv.Simple? then BumpSimple(w, lv.v, pre, up, st) else BumpCell(w, lv.a, x, pre, up, st)
  }

  /** One instruction that ends the evaluation of r. */
  lemma LastStep(ar: Arith, im: M.Image, m: M.Machine, i: Instr, r: Value, b: M.Machine, fuel: nat)
    requires On(im, m, i)
    requires var m' := M.Perform(ar, im, Past(m, i), OpOf(i));
      match r
      case Val(x, st) => m' == With(b, x, st)
      case Err(st) => m'.error && m'.store == st
      case OutOfFuel => false
    ensures Yields(ar, im, m, 1, r, b, fuel)
  {
    OneStep(ar, im, m, i);
  }

  lemma SimLoaded(w: World, im: M.Image, lv: LValue, m: M.Machine, x: Num, below: Stack, fuel: nat)
    requires Live(im, m) && Placed(im[m.func], m.addr, Loaded(lv)) && m.stack == Indexed(lv, x, below)
    ensures Yields(w.ar, im, m, 1, LoadValue(w, lv, x, m.store),
                   Behind(m, Bytes(Loaded(lv))).(stack := below), fuel)
  {
    var i := Loaded(lv)[0];
    assert Loaded(lv) == [i];
    Placed1(im[m.func], m.addr, i);
    LastStep(w.ar, im, m, i, LoadValue(w, lv, x, m.store), Behind(m, Size(i)).(stack := below), fuel);
  }

  /** Loading the current value keeps the subscript for the later store. */
  lemma SimFetched(w: World, im: M.Image, lv: LValue, m: M.Machine, x: Num, below: Stack, fuel: nat) returns (n: nat)
    requires Live(im, m) && Placed(im[m.func], m.addr, Fetched(lv)) && m.stack == Indexed(lv, x, below)
    ensures Yields(w.ar, im, m, n, LoadValue(w, lv, x, m.store), Behind(m, Bytes(Fetched(lv))), fuel)
  {
    if lv.Simple? {
      assert Fetched(lv) == Loaded(lv);
      SimLoaded(w, im, lv, m, x, below, fuel);
      n := 1;
    } else {
      assert Fetched(lv) == [Plain('D')] + Loaded(lv);
      PlacedCons(im[m.func], m.addr, Plain('D'), Loaded(lv));
      StepDup(w.ar, im, m);
      var m1 := m.(addr := m.addr + 1, stack := Push(x, m.stack));
      SimLoaded(w, im, lv, m1, x, m.stack, fuel);
      YieldsThen(w.ar, im, m, 1, m1, 1, LoadValue(w, lv, x, m.store), Behind(m, Bytes(Fetched(lv))), fuel);
      n := 2;
    }
  }

  lemma SimStored(w: World, im: M.Image, lv: LValue, m: M.Machine, x: Num, z: Num, below: Stack, fuel: nat)
    requires Live(im, m) && Placed(im[m.func], m.addr, Stored(lv)) && m.stack == Push(z, Indexed(lv, x, below))
    ensures Yields(w.ar, im, m, 1, StoreValue(lv, x, z, m.store), Behind(m, Bytes(Stored(lv))).(stack := below), fuel)
  {
    var i := Stored(lv)[0];
    assert Stored(lv) == [i];
    Placed1(im[m.func], m.addr, i);
    LastStep(w.ar, im, m, i, StoreValue(lv, x, z, m.store), Behind(m, Size(i)).(stack := below), fuel);
  }

  lemma StepVarBump(ar: Arith, im: M.Image, m: M.Machine, v: nat, up: bool)
    requires On(im, m, Named(if up then 'i' else 'd', v))
    ensures M.Reaches(ar, im, m, 1, Behind(m, 1 + NameSize(v)).(store := BumpVar(ar, m.store, v, up)))
  {
    OneStep(ar, im, m, Named(if up then 'i' else 'd', v));
  }

  lemma StepLoadVar(ar: Arith, im: M.Image, m: M.Machine, v: nat)
    requires On(im, m, Named('l', v))
    ensures M.Reaches(ar, im, m, 1, With(Behind(m, 1 + NameSize(v)), GetVar(ar, m.store, v), m.store))
  {
    OneStep(ar, im, m, Named('l', v));
  }

  lemma SimBumpSimple(w: World, im: M.Image, v: nat, pre: bool, up: bool, m: M.Machine, fuel: nat)
    requires Live(im, m) && Placed(im[m.func], m.addr, Bumped(Simple(v), pre, up))
    ensures Yields(w.ar, im, m, 2, BumpSimple(w, v, pre, up, m.store),
                   Behind(m, Bytes(Bumped(Simple(v), pre, up))), fuel)
  {
    var code, k := im[m.func], 1 + NameSize(v);
    var b, l := Named(if up then 'i' else 'd', v), Named('l', v);
    var i, j := if pre then b else l, if pre then l else b;
    assert Bumped(Simple(v), pre, up) == [i] + [j];
    PlacedCons(code, m.addr, i, [j]);
    Placed1(code, m.addr + k, j);
    var st' := BumpVar(w.ar, m.store, v, up);
    if pre {
      var m1 := Behind(m, k).(store := st');
      StepVarBump(w.ar, im, m, v, up);
      StepLoadVar(w.ar, im, m1, v);
      M.ReachesThen(w.ar, im, m, 1, m1, 1, With(Behind(m, 2 * k), GetVar(w.ar, st', v), st'));
    } else {
      var x := GetVar(w.ar, m.store, v);
      var m1 := With(Behind(m, k), x, m.store);
      StepLoadVar(w.ar, im, m, v);
      StepVarBump(w.ar, im, m1, v, up);
      M.ReachesThen(w.ar, im, m, 1, m1, 1, With(Behind(m, 2 * k), x, st'));
    }
  }

  /** The instruction that adds or subtracts one from a cell. */
  function CellBump(a: nat, up: bool): Instr { Named(if up then 'A' else 'M', a) }

  lemma StepCellBump(ar: Arith, im: M.Image, m: M.Machine, a: nat, up: bool, x: Num, below: Stack)
    requires On(im, m, CellBump(a, up)) && m.stack == Push(x, below)
    ensures match Subscript(x)
      case None => ReachesError(ar, im, m, 1, m.store)
      case Some(i) =>
        M.Reaches(ar, im, m, 1, Past(m, CellBump(a, up)).(stack := below,
          store := SetCell(m.store, a, i, Sum(ar, GetCell(m.store, a, i), up))))
  {
    OneStep(ar, im, m, CellBump(a, up));
  }

  lemma SimBumpCellPre(w: World, im: M.Image, lv: LValue, up: bool, m: M.Machine, x: Num, below: Stack, fuel: nat)
    returns (n: nat)
    requires lv.Element? && Live(im, m) && Placed(im[m.func], m.addr, Bumped(lv, true, up)) && m.stack == Push(x, below)
    ensures Yields(w.ar, im, m, n, BumpCell(w, lv.a, x, true, up, m.store),
                   Behind(m, Bytes(Bumped(lv, true, up))).(stack := below), fuel)
  {
    var code, b, r := im[m.func], CellBump(lv.a, up), BumpCell(w, lv.a, x, true, up, m.store);
    var goal := Behind(m, Bytes(Bumped(lv, true, up))).(stack := below);
    assert Bumped(lv, true, up) == [Plain('D')] + ([b] + Loaded(lv));
    PlacedCons(code, m.addr, Plain('D'), [b] + Loaded(lv));
    PlacedCons(code, m.addr + 1, b, Loaded(lv));
    StepDup(w.ar, im, m);
    var m1 := m.(addr := m.addr + 1, stack := Push(x, m.stack));
    StepCellBump(w.ar, im, m1, lv.a, up, x, m.stack);
    if Subscript(x).None? {
      YieldsThen(w.ar, im, m, 1, m1, 1, r, goal, fuel);
      n := 2;
    } else {
      var m2 := m1.(addr := m1.addr + Size(b), stack := m.stack, store := r.st);
      SimLoaded(w, im, lv, m2, x, below, fuel);
      YieldsThen(w.ar, im, m1, 1, m2, 1, r, goal, fuel);
      YieldsThen(w.ar, im, m, 1, m1, 2, r, goal, fuel);
      n := 3;
    }
  }

  lemma SimBumpCellPost(w: World, im: M.Image, lv: LValue, up: bool, m: M.Machine, x: Num, below: Stack, fuel: nat)
    returns (n: nat)
    requires lv.Element? && Live(im, m) && Placed(im[m.func], m.addr, Bumped(lv, false, up)) && m.stack == Push(x, below)
    ensures Yields(w.ar, im, m, n, BumpCell(w, lv.a, x, false, up, m.store),
                   Behind(m, Bytes(Bumped(lv, false, up))).(stack := below), fuel)
  {
    var code, b, r := im[m.func], CellBump(lv.a, up), BumpCell(w, lv.a, x, false, up, m.store);
    var goal := Behind(m, Bytes(Bumped(lv, false, up))).(stack := below);
    assert Bumped(lv, false, up) == Fetched(lv) + ([Plain('x')] + [b]);
    PlacedSplit(code, m.addr, Fetched(lv), [Plain('x')] + [b]);
    var k := m.addr + Bytes(Fetched(lv));
    PlacedCons(code, k, Plain('x'), [b]);
    Placed1(code, k + 1, b);
    n := SimFetched(w, im, lv, m, x, below, fuel);
    if Subscript(x).Some? {
      var was := GetCell(m.store, lv.a, Subscript(x).value);
      var m1 := With(Behind(m, Bytes(Fetched(lv))), was, m.store);
      StepSwap(w.ar, im, m1, was, x, below);
      var m2 := m1.(addr := k + 1, stack := Push(x, Push(was, below)));
      StepCellBump(w.ar, im, m2, lv.a, up, x, Push(was, below));
      M.ReachesThen(w.ar, im, m1, 1, m2, 1, With(goal, was, r.st));
      YieldsThen(w.ar, im, m, n, m1, 2, r, goal, fuel);
      n := n + 2;
    }
  }

  lemma SimBumped(w: World, im: M.Image, lv: LValue, pre: bool, up: bool, m: M.Machine, x: Num, below: Stack, fuel: nat)
    returns (n: nat)
    requires Live(im, m) && Placed(im[m.func], m.addr, Bumped(lv, pre, up)) && m.stack == Indexed(lv, x, below)
    ensures Yields(w.ar, im, m, n, BumpValue(w, lv, x, pre, up, m.store),
                   Behind(m, Bytes(Bumped(lv, pre, up))).(stack := below), fuel)
  {
    if lv.Simple? {
      SimBumpSimple(w, im, lv.v, pre, up, m, fuel);
      n := 2;
    } else if pre {
      n := SimBumpCellPre(w, im, lv, up, m, x, below, fuel);
    } else {
      n := SimBumpCellPost(w, im, lv, up, m, x, below, fuel);
    }
  }

  // ---------------------------------------------------------------------
  // Calls.
  // ---------------------------------------------------------------------

  lemma {:induction false} BindAllKeepsBase(st: Store, fs: seq<Formal>, vs: seq<Num>)
    requires |fs| == |vs|
    ensures BindAll(st, fs, vs).ibase == st.ibase
    decreases |fs|
  {
    if fs != [] {
      var k := |fs| - 1;
      BindAllKeepsBase(BindOne(st, fs[k], vs[k]), fs[..k], vs[..k]);
    }
  }

  /** The state in which the body of f starts. */
  function Entered(m: M.Machine, f: nat, size: nat, d: FuncDef, vs: seq<Num>, below: Stack): M.Machine
    requires |d.formals| == |vs|
  {
    M.Machine(f, 0, below, M.Frame(m.func, m.addr + size, m.store.ibase, m.frames), Enter(m.store, d, vs), false)
  }

  /** The effect of 'C' on a machine whose program counter is already behind it. */
  lemma InvokeEffect(w: World, im: M.Image, m: M.Machine, f: nat, d: FuncDef, args: Args, vs: seq<Num>, below: Stack)
    requires f != 0 && f in im && LoadedFunc(im[f], d) && m.stack == PushAll(below, vs) && |vs| == Count(args)
    ensures M.StepInvoke(im, m, f, CharBytes(CallStr(args))) ==
      if Match(args, d.formals) && |d.formals| == |vs| then Entered(m, f, 0, d, vs, below) else M.Fail(m)
  {
    MatchIff(args, d.formals);
    if Match(args, d.formals) {
      BindParamsIsBindAll(below, m.store, d.formals, vs, CallStr(args));
      PushAutosReversed(BindAll(m.store, d.formals, vs), d.autos);
      BindAllKeepsBase(m.store, d.formals, vs);
    } else {
      BindParamsMismatch(m.stack, m.store, d.formals, args);
    }
  }

  lemma InvokeOp(ar: Arith, im: M.Image, m: M.Machine, f: nat, kinds: seq<char>)
    requires m.func in im
    ensures M.Perform(ar, im, m, OpOf(Invoke(f, kinds))) == M.StepInvoke(im, m, f, CharBytes(kinds))
  {
  }

  lemma EnteredPast(m: M.Machine, i: Instr, f: nat, d: FuncDef, vs: seq<Num>, below: Stack)
    requires |d.formals| == |vs|
    ensures Entered(Past(m, i), f, 0, d, vs, below) == Entered(m, f, Size(i), d, vs, below)
  {
  }

  /** The call instruction enters the function, or stops with an error. */
  lemma StepCall(w: World, im: M.Image, m: M.Machine, f: nat, d: FuncDef, args: Args, vs: seq<Num>, below: Stack)
    requires On(im, m, Invoke(f, CallStr(args))) && f != 0 && f in im && LoadedFunc(im[f], d)
    requires m.stack == PushAll(below, vs) && |vs| == Count(args)
    ensures if Match(args, d.formals) && |d.formals| == |vs|
      then M.Reaches(w.ar, im, m, 1, Entered(m, f, Size(Invoke(f, CallStr(args))), d, vs, below))
      else ReachesError(w.ar, im, m, 1, m.store)
  {
    var i := Invoke(f, CallStr(args));
    var m1 := Past(m, i);
    OneStep(w.ar, im, m, i);
    InvokeOp(w.ar, im, m1, f, i.kinds);
    InvokeEffect(w, im, m1, f, d, args, vs, below);
    if Match(args, d.formals) && |d.formals| == |vs| {
      EnteredPast(m, i, f, d, vs, below);
    } else {
      FailNow(w.ar, im, m, 1, M.Fail(m1));
    }
  }

  lemma StepCallUnknown(w: World, im: M.Image, m: M.Machine, f: nat, kinds: seq<char>)
    requires On(im, m, Invoke(f, kinds)) && (f == 0 || f !in im)
    ensures ReachesError(w.ar, im, m, 1, m.store)
  {
    OneStep(w.ar, im, m, Invoke(f, kinds));
    FailNow(w.ar, im, m, 1, M.Fail(Past(m, Invoke(f, kinds))));
  }

  lemma LeaveEffect(code: M.Code, d: FuncDef, st: Store)
    requires LoadedFunc(code, d)
    ensures PopNames(PopNames(st, code.autos), NamesOf(code.params)) == Leave(st, d)
  {
    PopNamesReversed(st, d.autos);
    PopNamesReversed(PopNames(st, d.autos), NamesOf(d.formals));
    assert NamesOf(code.params) == Reversed(NamesOf(d.formals));
  }

  lemma StepReturn(w: World, im: M.Image, m: M.Machine, d: FuncDef)
    requires Live(im, m) && m.func != 0 && LoadedFunc(im[m.func], d) && On(im, m, Plain('R')) && m.stack.Push?
    ensures M.Reaches(w.ar, im, m, 1, M.Machine(m.frames.func, m.frames.addr, m.stack, m.frames.outer,
                                                Leave(m.store, d), false))
  {
    OneStep(w.ar, im, m, Plain('R'));
    LeaveEffect(im[m.func], d, m.store);
  }
}
