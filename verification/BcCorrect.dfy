/** Running compiled code has the effect of evaluating the source: the
    induction over expressions, statements, loops and calls. */
module BcCorrect {
  import opened Wrappers
  import opened Numbers
  import opened BcSyntax
  import opened BcStore
  import M = BcMachine
  import opened BcCompile
  import opened BcSemantics
  import opened BcPlacement
  import opened BcCalls
  import opened BcSimulation
  import opened BcCompose
  import opened BcComposeStmt
  import opened BcComposeLoop
  import opened BcLayout
  import opened BcEvaluation

  /** The code of e lies where the machine is. */
  ghost predicate OnExpr(im: M.Image, m: M.Machine, e: Expr, next: nat, a: nat) {
    Live(im, m) && ExprAt(im[m.func], m.addr, e, next, a)
  }

  ghost predicate OnStmt(im: M.Image, m: M.Machine, s: Stmt, next: nat, x: Exits, a: nat) {
    Live(im, m) && Known(im, m, x) && StmtAt(im[m.func], m.addr, s, next, x, a)
  }

  // ---------------------------------------------------------------------
  // Expressions.
  // ---------------------------------------------------------------------

  /** Running the code of an expression, which has a bytes, pushes exactly the
      value that evaluating it gives, with the same effects; it fails where the
      evaluation fails, and runs on where that does not end. */
  lemma SimExpr(w: World, im: M.Image, e: Expr, next: nat, m: M.Machine, a: nat, fuel: nat) returns (n: nat, r: Value)
    requires Ready(w, im) && GoodExpr(e) && OnExpr(im, m, e, next, a)
    ensures Evaluates(w, e, m, fuel, r) && Yields(w.ar, im, m, n, r, Behind(m, a), fuel)
    decreases fuel, e, 3
  {
    match e
    case Const(_) =>
      r := SimConstant(w, im, e, next, m, a, fuel);
      n := 1;
    case Paren(inner) =>
      ParenParts(im[m.func], m.addr, e, next, a);
      n, r := SimExpr(w, im, inner, next, m, a, fuel);
      EvalParen(w, e, m, fuel, r);
    case Load(_) => n, r := SimLoad(w, im, e, next, m, a, fuel);
    case Assign(_, op, _) =>
      if op == '=' {
        n, r := SimSet(w, im, e, next, m, a, fuel);
      } else {
        n, r := SimUpdate(w, im, e, next, m, a, fuel);
      }
    case Binary(_, _, _) => n, r := SimBinary(w, im, e, next, m, a, fuel);
    case Compare(_, _, _) => n, r := SimBinary(w, im, e, next, m, a, fuel);
    case Negate(_) => n, r := SimUnary(w, im, e, next, m, a, fuel);
    case Not(_) => n, r := SimUnary(w, im, e, next, m, a, fuel);
    case Builtin(_, _) => n, r := SimUnary(w, im, e, next, m, a, fuel);
    case And(_, _) => n, r := SimAnd(w, im, e, next, m, a, fuel);
    case Or(_, _) => n, r := SimOr(w, im, e, next, m, a, fuel);
    case Bump(_, _, _) => n, r := SimBump(w, im, e, next, m, a, fuel);
    case Call(_, _) => n, r := SimCall(w, im, e, next, m, a, fuel);
  }

  lemma SimConstant(w: World, im: M.Image, e: Expr, next: nat, m: M.Machine, a: nat, fuel: nat) returns (r: Value)
    requires e.Const? && OnExpr(im, m, e, next, a)
    ensures Evaluates(w, e, m, fuel, r) && Yields(w.ar, im, m, 1, r, Behind(m, a), fuel)
  {
    assert Exactly(next, next);
    r := EvalExpr(w, e, m.store, Base(m), fuel);
    SimConst(w, im, e, next, m, fuel);
  }

  lemma SimIndex(w: World, im: M.Image, lv: LValue, next: nat, m: M.Machine, a: nat, fuel: nat) returns (n: nat, r: Value)
    requires Ready(w, im) && GoodLValue(lv) && Live(im, m) && LValueAt(im[m.func], m.addr, lv, next, a)
    ensures Indexes(w, lv, m, fuel, r) && Locates(w.ar, im, m, n, lv, r, Behind(m, a), fuel)
    decreases fuel, lv, 1
  {
    IndexParts(im[m.func], m.addr, lv, next, a);
    if lv.Simple? {
      M.RunReaches(w.ar, im, m, 0);
      n, r := 0, Val(ZERO, m.store);
    } else {
      n, r := SimExpr(w, im, lv.index, next, m, a, fuel);
    }
    EvalIndexed(w, lv, m, fuel, r);
  }

  lemma SimLoad(w: World, im: M.Image, e: Expr, next: nat, m: M.Machine, size: nat, fuel: nat) returns (n: nat, r: Value)
    requires e.Load? && Ready(w, im) && GoodExpr(e) && OnExpr(im, m, e, next, size)
    ensures Evaluates(w, e, m, fuel, r) && Yields(w.ar, im, m, n, r, Behind(m, size), fuel)
    decreases fuel, e, 0
  {
    var a := LoadParts(im[m.func], m.addr, e, next, size);
    var i, q := SimIndex(w, im, e.lv, next, m, a, fuel);
    EvalLoad(w, e, m, fuel, q);
    r := LoadOf(w, e.lv, q);
    n := ComposeLoad(w, im, m, a, e.lv, i, q, fuel);
  }

  lemma SimBump(w: World, im: M.Image, e: Expr, next: nat, m: M.Machine, size: nat, fuel: nat) returns (n: nat, r: Value)
    requires e.Bump? && Ready(w, im) && GoodExpr(e) && OnExpr(im, m, e, next, size)
    ensures Evaluates(w, e, m, fuel, r) && Yields(w.ar, im, m, n, r, Behind(m, size), fuel)
    decreases fuel, e, 0
  {
    var a := BumpParts(im[m.func], m.addr, e, next, size);
    var i, q := SimIndex(w, im, e.lv, next, m, a, fuel);
    EvalBump(w, e, m, fuel, q);
    r := BumpOf(w, e.lv, e.pre, e.up, q);
    n := ComposeBump(w, im, m, a, e.lv, e.pre, e.up, i, q, fuel);
  }

  lemma SimUnary(w: World, im: M.Image, e: Expr, next: nat, m: M.Machine, size: nat, fuel: nat) returns (n: nat, r: Value)
    requires (e.Negate? || e.Not? || e.Builtin?) && Ready(w, im) && GoodExpr(e) && OnExpr(im, m, e, next, size)
    ensures Evaluates(w, e, m, fuel, r) && Yields(w.ar, im, m, n, r, Behind(m, size), fuel)
    decreases fuel, e, 0
  {
    var a := UnaryParts(im[m.func], m.addr, e, next, size);
    var i, q := SimExpr(w, im, e.arg, next, m, a, fuel);
    EvalUnary(w, e, m, fuel, q);
    r := UnaryOf(w, UnaryPart(e), q);
    n := ComposeUnary(w, im, m, a, UnaryPart(e), i, q, fuel);
  }

  lemma SimBinary(w: World, im: M.Image, e: Expr, next: nat, m: M.Machine, size: nat, fuel: nat) returns (n: nat, r: Value)
    requires (e.Binary? || e.Compare?) && Ready(w, im) && GoodExpr(e) && OnExpr(im, m, e, next, size)
    ensures Evaluates(w, e, m, fuel, r) && Yields(w.ar, im, m, n, r, Behind(m, size), fuel)
    decreases fuel, e, 0
  {
    var a, b, mid := BinaryParts(im[m.func], m.addr, e, next, size);
    var i, q := SimExpr(w, im, e.left, next, m, a, fuel);
    var m1, p, k := m, OutOfFuel, 0;
    if q.Val? {
      m1 := With(Behind(m, a), q.v, q.st);
      k, p := SimExpr(w, im, e.right, mid, m1, b, fuel);
    }
    EvalBinary(w, e, m, fuel, q, m1, p);
    r := BinaryOf(w, e.op, q, p);
    n := ComposeBinary(w, im, m, a, b, e.op, i, q, m1, k, p, fuel);
  }

  lemma SimSet(w: World, im: M.Image, e: Expr, next: nat, m: M.Machine, size: nat, fuel: nat) returns (n: nat, r: Value)
    requires e.Assign? && e.op == '=' && Ready(w, im) && GoodExpr(e) && OnExpr(im, m, e, next, size)
    ensures Evaluates(w, e, m, fuel, r) && Yields(w.ar, im, m, n, r, Behind(m, size), fuel)
    decreases fuel, e, 0
  {
    var a, b, mid := SetParts(im[m.func], m.addr, e, next, size);
    var i, q := SimIndex(w, im, e.target, next, m, a, fuel);
    var m1, p, k := m, OutOfFuel, 0;
    if q.Val? {
      m1 := Located(Behind(m, a), e.target, q.v, q.st);
      k, p := SimExpr(w, im, e.rhs, mid, m1, b, fuel);
    }
    EvalSet(w, e, m, fuel, q, m1, p);
    r := SetOf(e.target, q, p);
    n := ComposeSet(w, im, m, a, b, e.target, i, q, m1, k, p, fuel);
  }

  lemma SimUpdate(w: World, im: M.Image, e: Expr, next: nat, m: M.Machine, size: nat, fuel: nat) returns (n: nat, r: Value)
    requires e.Assign? && e.op != '=' && Ready(w, im) && GoodExpr(e) && OnExpr(im, m, e, next, size)
    ensures Evaluates(w, e, m, fuel, r) && Yields(w.ar, im, m, n, r, Behind(m, size), fuel)
    decreases fuel, e, 0
  {
    var a, b, mid := UpdateParts(im[m.func], m.addr, e, next, size);
    var i, q := SimIndex(w, im, e.target, next, m, a, fuel);
    var m1, p, k := m, OutOfFuel, 0;
    if q.Val? && LoadValue(w, e.target, q.v, q.st).Val? {
      m1 := Updating(Behind(m, a), e.target, q.v, LoadValue(w, e.target, q.v, q.st).v, q.st);
      k, p := SimExpr(w, im, e.rhs, mid, m1, b, fuel);
    }
    EvalUpdate(w, e, m, fuel, q, m1, p);
    r := UpdateOf(w, e.target, e.op, q, p);
    n := ComposeUpdate(w, im, m, a, b, e.target, e.op, i, q, m1, k, p, fuel);
  }

  lemma SimAnd(w: World, im: M.Image, e: Expr, next: nat, m: M.Machine, size: nat, fuel: nat) returns (n: nat, r: Value)
    requires e.And? && Ready(w, im) && GoodExpr(e) && OnExpr(im, m, e, next, size)
    ensures Evaluates(w, e, m, fuel, r) && Yields(w.ar, im, m, n, r, Behind(m, size), fuel)
    decreases fuel, e, 0
  {
    var a, b, lab := AndParts(im[m.func], m.addr, e, next, size);
    var i, q := SimExpr(w, im, e.left, next, m, a, fuel);
    var m1, p, k := m, OutOfFuel, 0;
    if q.Val? && M.IsTrue(q.v) {
      m1 := Behind(m, a + 5).(store := q.st);
      k, p := SimExpr(w, im, e.right, lab + 1, m1, b, fuel);
    }
    EvalAnd(w, e, m, fuel, q, m1, p);
    r := AndOf(q, p);
    n := ComposeAnd(w, im, m, a, b, lab, i, q, Behind(m, a), m1, k, p, Behind(m1, b), Behind(m, size), fuel);
  }

  lemma SimOr(w: World, im: M.Image, e: Expr, next: nat, m: M.Machine, size: nat, fuel: nat) returns (n: nat, r: Value)
    requires e.Or? && Ready(w, im) && GoodExpr(e) && OnExpr(im, m, e, next, size)
    ensures Evaluates(w, e, m, fuel, r) && Yields(w.ar, im, m, n, r, Behind(m, size), fuel)
    decreases fuel, e, 0
  {
    var a, b, lab, end := OrParts(im[m.func], m.addr, e, next, size);
    var i, q := SimExpr(w, im, e.left, next, m, a, fuel);
    var m1, p, k := m, OutOfFuel, 0;
    if q.Val? && !M.IsTrue(q.v) {
      m1 := Behind(m, a + 3).(store := q.st);
      k, p := SimExpr(w, im, e.right, lab + 1, m1, b, fuel);
    }
    EvalOr(w, e, m, fuel, q, m1, p);
    r := OrOf(q, p);
    n := ComposeOr(w, im, m, a, b, lab, end, i, q, Behind(m, a), m1, k, p, Behind(m1, b), Behind(m, size), fuel);
  }

  // ---------------------------------------------------------------------
  // Calls.
  // ---------------------------------------------------------------------

  lemma SimArgs(w: World, im: M.Image, args: Args, next: nat, m: M.Machine, size: nat, fuel: nat) returns (n: nat, r: Values)
    requires Ready(w, im) && GoodArgs(args) && Live(im, m) && ArgsAt(im[m.func], m.addr, args, next, size)
    ensures EvaluatesAll(w, args, m, fuel, r) && YieldsAll(w.ar, im, m, n, r, Behind(m, size), fuel)
    decreases fuel, args, 1
  {
    match args
    case NoArgs =>
      NoArgsParts(im[m.func], m.addr, next, size);
      EvalNoArgs(w, m, fuel);
      M.RunReaches(w.ar, im, m, 0);
      n, r := 0, Vals([], m.store);
    case Arg(_, _) => n, r := SimArg(w, im, args, next, m, size, fuel);
    case ArrayArg(_, _) => n, r := SimArrayArgs(w, im, args, next, m, size, fuel);
  }

  lemma SimArg(w: World, im: M.Image, args: Args, next: nat, m: M.Machine, size: nat, fuel: nat) returns (n: nat, r: Values)
    requires args.Arg? && Ready(w, im) && GoodArgs(args) && Live(im, m) && ArgsAt(im[m.func], m.addr, args, next, size)
    ensures EvaluatesAll(w, args, m, fuel, r) && YieldsAll(w.ar, im, m, n, r, Behind(m, size), fuel)
    decreases fuel, args, 0
  {
    var a, b, mid := ArgParts(im[m.func], m.addr, args, next, size);
    var i, q := SimExpr(w, im, args.first, next, m, a, fuel);
    var c, m1, p, k := Behind(m, a), m, NoFuelVals, 0;
    if q.Val? {
      m1 := With(c, q.v, q.st);
      k, p := SimArgs(w, im, args.others, mid, m1, b, fuel);
      AllGoal(w.ar, im, m1, k, p, Behind(m1, b), Behind(m, size).(stack := Push(q.v, c.stack)), fuel);
    }
    EvalArg(w, args, m, fuel, q, m1, p);
    r := ArgsOf(q, p);
    n := ComposeArgs(w.ar, im, m, i, q, c, k, p, Behind(m, size), fuel);
  }

  lemma SimArrayArgs(w: World, im: M.Image, args: Args, next: nat, m: M.Machine, size: nat, fuel: nat) returns (n: nat, r: Values)
    requires args.ArrayArg? && Ready(w, im) && GoodArgs(args) && Live(im, m) && ArgsAt(im[m.func], m.addr, args, next, size)
    ensures EvaluatesAll(w, args, m, fuel, r) && YieldsAll(w.ar, im, m, n, r, Behind(m, size), fuel)
    decreases fuel, args, 0
  {
    var a, b := ArrayArgParts(im[m.func], m.addr, args, next, size);
    SimArrayArg(w, im, args.a, m, fuel);
    var x := ArrayValue(w, args.a, BaseOf(m.store, Base(m)));
    var c := Behind(m, a);
    var m1 := With(c, x, m.store);
    var k, p := SimArgs(w, im, args.others, next, m1, b, fuel);
    AllGoal(w.ar, im, m1, k, p, Behind(m1, b), Behind(m, size).(stack := Push(x, c.stack)), fuel);
    EvalArrayArg(w, args, m, fuel, m1, p);
    r := ArgsOf(Val(x, m.store), p);
    n := ComposeArgs(w.ar, im, m, 1, Val(x, m.store), c, k, p, Behind(m, size), fuel);
  }

  /** The store of the final state's description does not matter. */
  lemma AllGoal(ar: Arith, im: M.Image, m: M.Machine, n: nat, r: Values, b: M.Machine, c: M.Machine, fuel: nat)
    requires YieldsAll(ar, im, m, n, r, b, fuel) && c == b.(store := c.store)
    ensures YieldsAll(ar, im, m, n, r, c, fuel)
  {
    if r.Vals? {
      assert b.(stack := PushAll(b.stack, r.vs), store := r.st) == c.(stack := PushAll(c.stack, r.vs), store := r.st);
    }
  }

  /** A call replaces its arguments by exactly one result and resumes behind it. */
  lemma SimCall(w: World, im: M.Image, e: Expr, next: nat, m: M.Machine, size: nat, fuel: nat) returns (n: nat, r: Value)
    requires e.Call? && Ready(w, im) && GoodExpr(e) && OnExpr(im, m, e, next, size)
    ensures Evaluates(w, e, m, fuel, r) && Yields(w.ar, im, m, n, r, Behind(m, size), fuel)
    decreases fuel, e, 2
  {
    var a := CallParts(im[m.func], m.addr, e, next, size);
    var i, q := SimArgs(w, im, e.args, next, m, a, fuel);
    CountValues(w, e.args, m, fuel, q);
    var m1, p, k := m, OutOfFuel, 0;
    if q.Vals? {
      m1 := Behind(m, a).(stack := PushAll(m.stack, q.vs), store := q.st);
      k, p := SimInvoke(w, im, e, m1, q.vs, m.stack, fuel);
    }
    EvalCall(w, e, m, fuel, q, m1, p);
    n, r := AfterArgs(w.ar, im, m, i, q, Behind(m, a), m1, k, p, Behind(m, size), fuel);
  }

  /** The arguments, then the call. */
  lemma AfterArgs(ar: Arith, im: M.Image, m: M.Machine, i: nat, q: Values, c: M.Machine, m1: M.Machine, k: nat, p: Value,
                  goal: M.Machine, fuel: nat) returns (n: nat, r: Value)
    requires YieldsAll(ar, im, m, i, q, c, fuel)
    requires q.Vals? ==> m1 == c.(stack := PushAll(c.stack, q.vs), store := q.st) && Yields(ar, im, m1, k, p, goal, fuel)
    ensures r == (if q.Vals? then p else if q.ErrVals? then Err(q.st) else OutOfFuel)
    ensures Yields(ar, im, m, n, r, goal, fuel)
  {
    n := i;
    r := if q.Vals? then p else if q.ErrVals? then Err(q.st) else OutOfFuel;
    if q.Vals? {
      YieldsThen(ar, im, m, i, m1, k, p, goal, fuel);
      n := i + k;
    }
  }

  lemma KnownFunction(w: World, im: M.Image, f: nat)
    requires Ready(w, im)
    ensures f in w.funcs ==> f != 0 && f in im && LoadedFunc(im[f], w.funcs[f]) && GoodStmt(w.funcs[f].body, false, false)
    ensures f !in w.funcs ==> f == 0 || f !in im
  {
    assert ReadyFor(w, im, f);
  }

  /** No loop surrounds a function's body. */
  const NOWHERE := Exits(0, 0, false, false)

  /** The body of a loaded function lies at its start, and a return of zero behind it. */
  lemma BodyParts(code: M.Code, d: FuncDef) returns (a: nat)
    requires LoadedFunc(code, d)
    ensures StmtAt(code, 0, d.body, 1, NOWHERE, a) && Placed(code, a, [Plain('0')] + [Plain('R')])
  {
    var b := StmtCode(d.body, 1, 0, 0).code;
    assert FuncCode(d) == b + ([Plain('0')] + [Plain('R')]);
    PlacedSplit(code, 0, b, [Plain('0')] + [Plain('R')]);
    a := Bytes(b);
  }

  /** The call instruction. */
  lemma SimInvoke(w: World, im: M.Image, e: Expr, m: M.Machine, vs: seq<Num>, below: Stack, fuel: nat) returns (n: nat, r: Value)
    requires e.Call? && Ready(w, im) && Live(im, m) && Placed(im[m.func], m.addr, [Invoke(e.f, CallStr(e.args))])
    requires m.stack == PushAll(below, vs) && |vs| == Count(e.args)
    ensures Calls(w, e, vs, m, fuel, r)
    ensures Yields(w.ar, im, m, n, r, Behind(m, Bytes([Invoke(e.f, CallStr(e.args))])).(stack := below), fuel)
    decreases fuel, e, 1
  {
    var i := Invoke(e.f, CallStr(e.args));
    KnownFunction(w, im, e.f);
    Placed1(im[m.func], m.addr, i);
    CallFails(w, e, vs, m, fuel);
    if !Callable(w, e, vs) {
      n, r := 1, Err(m.store);
      if e.f in w.funcs {
        StepCall(w, im, m, e.f, w.funcs[e.f], e.args, vs, below);
      } else {
        StepCallUnknown(w, im, m, e.f, i.kinds);
      }
    } else if fuel == 0 {
      OneStep(w.ar, im, m, i);
      M.RunReaches(w.ar, im, m, 0);
      n, r := 0, OutOfFuel;
    } else {
      n, r := SimBody(w, im, e, m, vs, below, fuel);
    }
  }

  /** A call that finds its function and enough fuel. */
  lemma SimBody(w: World, im: M.Image, e: Expr, m: M.Machine, vs: seq<Num>, below: Stack, fuel: nat) returns (n: nat, r: Value)
    requires e.Call? && Ready(w, im) && On(im, m, Invoke(e.f, CallStr(e.args))) && m.stack == PushAll(below, vs)
    requires Callable(w, e, vs) && |vs| == Count(e.args) && fuel > 0
    ensures Calls(w, e, vs, m, fuel, r)
    ensures Yields(w.ar, im, m, n, r, Behind(m, Size(Invoke(e.f, CallStr(e.args)))).(stack := below), fuel)
    decreases fuel, e, 0
  {
    var d, size := w.funcs[e.f], Size(Invoke(e.f, CallStr(e.args)));
    KnownFunction(w, im, e.f);
    StepCall(w, im, m, e.f, d, e.args, vs, below);
    var m1 := Entered(m, e.f, size, d, vs, below);
    var a := BodyParts(im[e.f], d);
    var k, o := SimStmt(w, im, d.body, 1, m1, NOWHERE, a, fuel - 1);
    CallBody(w, e, vs, m, fuel, m1, o);
    r := CallOf(d, o);
    var t := ReturnFrom(w, im, m1, d, k, o, a, fuel - 1);
    n := AfterCall(w.ar, im, m, m1, t, r, Behind(m, size).(stack := below), fuel);
  }

  /** The state to which a call with result v returns. */
  function Resumed(m: M.Machine, v: Num, st: Store): M.Machine
    requires m.frames.Frame?
  {
    M.Machine(m.frames.func, m.frames.addr, Push(v, m.stack), m.frames.outer, st, false)
  }

  /** A called function comes back with r. */
  ghost predicate ComesBack(ar: Arith, im: M.Image, m: M.Machine, n: nat, r: Value, fuel: nat)
    requires m.frames.Frame?
  {
    match r
    case Val(v, st) => M.Reaches(ar, im, m, n, Resumed(m, v, st))
    case Err(st) => ReachesError(ar, im, m, n, st)
    case OutOfFuel => n >= fuel && StillRunning(ar, im, m, n)
  }

  /** From the end of the body to behind the call. */
  lemma ReturnFrom(w: World, im: M.Image, m: M.Machine, d: FuncDef, n: nat, o: Outcome, a: nat, fuel: nat) returns (t: nat)
    requires Live(im, m) && m.func != 0 && LoadedFunc(im[m.func], d) && Placed(im[m.func], a, [Plain('0')] + [Plain('R')])
    requires Ends(w.ar, im, m, n, o, m.(addr := a), NOWHERE, fuel)
    ensures ComesBack(w.ar, im, m, t, CallOf(d, o), fuel)
  {
    var c := m.(addr := a);
    t := n;
    match o
    case Normal(st) =>
      var m1 := c.(store := st);
      FallOff(w, im, m1, d);
      M.ReachesThen(w.ar, im, m, n, m1, 2, Resumed(m, ZERO, Leave(st, d)));
      t := n + 2;
    case Returned(v, st) =>
      var b: nat :| c.func in im && Placed(im[c.func], b, [Plain('R')]) && M.Reaches(w.ar, im, m, n, With(c, v, st).(addr := b));
      var m1 := With(c, v, st).(addr := b);
      Placed1(im[m.func], b, Plain('R'));
      StepReturn(w, im, m1, d);
      M.ReachesThen(w.ar, im, m, n, m1, 1, Resumed(m, v, Leave(st, d)));
      t := n + 1;
    case Failed(_) =>
    case NoFuel =>
    case Broke(_) =>
    case Continued(_) =>
  }

  /** Falling off the end of a function returns zero. */
  lemma FallOff(w: World, im: M.Image, m: M.Machine, d: FuncDef)
    requires Live(im, m) && m.func != 0 && LoadedFunc(im[m.func], d) && Placed(im[m.func], m.addr, [Plain('0')] + [Plain('R')])
    ensures M.Reaches(w.ar, im, m, 2, Resumed(m, ZERO, Leave(m.store, d)))
  {
    PlacedCons(im[m.func], m.addr, Plain('0'), [Plain('R')]);
    Placed1(im[m.func], m.addr + 1, Plain('R'));
    StepOne(w.ar, im, m, false);
    var m1 := Past(m, Plain('0')).(stack := Push(ZERO, m.stack));
    StepReturn(w, im, m1, d);
    M.ReachesThen(w.ar, im, m, 1, m1, 1, Resumed(m, ZERO, Leave(m.store, d)));
  }

  /** One step into the function, then everything up to its return. */
  lemma AfterCall(ar: Arith, im: M.Image, m: M.Machine, m1: M.Machine, k: nat, r: Value, b: M.Machine, fuel: nat) returns (n: nat)
    requires fuel > 0 && M.Reaches(ar, im, m, 1, m1) && m1.frames.Frame? && ComesBack(ar, im, m1, k, r, fuel - 1)
    requires b == M.Machine(m1.frames.func, m1.frames.addr, m1.stack, m1.frames.outer, b.store, false)
    ensures Yields(ar, im, m, n, r, b, fuel)
  {
    n := 1 + k;
    match r
    case Val(v, st) => M.ReachesThen(ar, im, m, 1, m1, k, Resumed(m1, v, st));
    case Err(st) => ErrorThen(ar, im, m, 1, m1, k, st);
    case OutOfFuel => RunningThen(ar, im, m, 1, m1, k);
  }

  // ---------------------------------------------------------------------
  // Statements.
  // ---------------------------------------------------------------------

  /** Running the code of a statement, which has a bytes, leaves the value stack
      as it was and ends behind it, at the break, the continue or a return, as
      executing the statement does. */
  lemma SimStmt(w: World, im: M.Image, s: Stmt, next: nat, m: M.Machine, x: Exits, a: nat, fuel: nat) returns (n: nat, r: Outcome)
    requires Ready(w, im) && GoodStmt(s, x.inLoop, x.inFor) && OnStmt(im, m, s, next, x, a)
    ensures Executes(w, s, m, fuel, r) && Ends(w.ar, im, m, n, r, Behind(m, a), x, fuel)
    decreases fuel, s, 5
  {
    if s.If? || s.IfElse? || s.While? || s.For? {
      n, r := SimControl(w, im, s, next, m, x, a, fuel);
    } else if s.Text? || s.Break? || s.Continue? {
      r := SimSingle(w, im, s, next, m, x, a, fuel);
      n := 1;
    } else {
      n, r := SimBasic(w, im, s, next, m, x, a, fuel);
    }
  }

  lemma SimBasic(w: World, im: M.Image, s: Stmt, next: nat, m: M.Machine, x: Exits, a: nat, fuel: nat) returns (n: nat, r: Outcome)
    requires s.Eval? || s.Block? || s.Return?
    requires Ready(w, im) && GoodStmt(s, x.inLoop, x.inFor) && OnStmt(im, m, s, next, x, a)
    ensures Executes(w, s, m, fuel, r) && Ends(w.ar, im, m, n, r, Behind(m, a), x, fuel)
    decreases fuel, s, 4
  {
    match s
    case Eval(_) => n, r := SimEval(w, im, s, next, m, x, a, fuel);
    case Block(_) => n, r := SimBlock(w, im, s, next, m, x, a, fuel);
    case Return(_) => n, r := SimReturn(w, im, s, next, m, x, a, fuel);
  }

  lemma SimControl(w: World, im: M.Image, s: Stmt, next: nat, m: M.Machine, x: Exits, a: nat, fuel: nat) returns (n: nat, r: Outcome)
    requires s.If? || s.IfElse? || s.While? || s.For?
    requires Ready(w, im) && GoodStmt(s, x.inLoop, x.inFor) && OnStmt(im, m, s, next, x, a)
    ensures Executes(w, s, m, fuel, r) && Ends(w.ar, im, m, n, r, Behind(m, a), x, fuel)
    decreases fuel, s, 4
  {
    match s
    case If(_, _) => n, r := SimIf(w, im, s, next, m, x, a, fuel);
    case IfElse(_, _, _) => n, r := SimIfElse(w, im, s, next, m, x, a, fuel);
    case While(_, _) => n, r := SimWhile(w, im, s, next, m, x, a, fuel);
    case For(_, _, _, _) => n, r := SimFor(w, im, s, next, m, x, a, fuel);
  }

  lemma SimBlock(w: World, im: M.Image, s: Stmt, next: nat, m: M.Machine, x: Exits, a: nat, fuel: nat) returns (n: nat, r: Outcome)
    requires s.Block? && Ready(w, im) && GoodStmt(s, x.inLoop, x.inFor) && OnStmt(im, m, s, next, x, a)
    ensures Executes(w, s, m, fuel, r) && Ends(w.ar, im, m, n, r, Behind(m, a), x, fuel)
    decreases fuel, s, 3
  {
    BlockParts(im[m.func], m.addr, s, next, x, a);
    n, r := SimStmts(w, im, s.body, next, m, x, a, fuel);
    ExecBlock(w, s, m, fuel, r);
  }

  lemma SimEval(w: World, im: M.Image, s: Stmt, next: nat, m: M.Machine, x: Exits, size: nat, fuel: nat) returns (n: nat, r: Outcome)
    requires s.Eval? && Ready(w, im) && GoodStmt(s, x.inLoop, x.inFor) && OnStmt(im, m, s, next, x, size)
    ensures Executes(w, s, m, fuel, r) && Ends(w.ar, im, m, n, r, Behind(m, size), x, fuel)
    decreases fuel, s, 0
  {
    var a := EvalParts(im[m.func], m.addr, s, next, x, size);
    var i, q := SimExpr(w, im, s.e, next, m, a, fuel);
    ExecEval(w, s, m, fuel, q);
    r := EvalOf(q, Prints(s.e));
    n := ComposeEval(w, im, m, a, Prints(s.e), i, q, x, fuel);
  }

  lemma SimReturn(w: World, im: M.Image, s: Stmt, next: nat, m: M.Machine, x: Exits, size: nat, fuel: nat) returns (n: nat, r: Outcome)
    requires s.Return? && Ready(w, im) && GoodStmt(s, x.inLoop, x.inFor) && OnStmt(im, m, s, next, x, size)
    ensures Executes(w, s, m, fuel, r) && Ends(w.ar, im, m, n, r, Behind(m, size), x, fuel)
    decreases fuel, s, 0
  {
    var a := ReturnParts(im[m.func], m.addr, s, next, x, size);
    var q;
    n, q := SimExpr(w, im, s.result, next, m, a, fuel);
    ExecReturn(w, s, m, fuel, q);
    r := ReturnOf(q);
    ComposeReturn(w.ar, im, m, a, n, q, x, fuel);
  }

  lemma SimSingle(w: World, im: M.Image, s: Stmt, next: nat, m: M.Machine, x: Exits, size: nat, fuel: nat) returns (r: Outcome)
    requires (s.Text? || s.Break? || s.Continue?) && GoodStmt(s, x.inLoop, x.inFor) && OnStmt(im, m, s, next, x, size)
    ensures Executes(w, s, m, fuel, r) && Ends(w.ar, im, m, 1, r, Behind(m, size), x, fuel)
  {
    SingleParts(im[m.func], m.addr, s, next, x, size);
    ExecSingle(w, s, m, fuel);
    if s.Text? {
      SimText(w.ar, im, m, s.s, x, fuel);
      r := Normal(m.store.(out := m.store.out + [Shown(s.s)]));
    } else {
      r := if s.Break? then Broke(m.store) else Continued(m.store);
      SimGoto(w.ar, im, m, if s.Break? then x.brk else x.cont);
    }
  }

  lemma SimStmts(w: World, im: M.Image, ss: Stmts, next: nat, m: M.Machine, x: Exits, size: nat, fuel: nat)
    returns (n: nat, r: Outcome)
    requires Ready(w, im) && GoodStmts(ss, x.inLoop, x.inFor) && Live(im, m) && Known(im, m, x)
    requires StmtsAt(im[m.func], m.addr, ss, next, x, size)
    ensures ExecutesAll(w, ss, m, fuel, r) && Ends(w.ar, im, m, n, r, Behind(m, size), x, fuel)
    decreases fuel, ss, 2
  {
    match ss
    case Nil =>
      NilParts(im[m.func], m.addr, next, x, size);
      ExecNil(w, m, fuel);
      M.RunReaches(w.ar, im, m, 0);
      n, r := 0, Normal(m.store);
    case Cons(s, t) =>
      var a, b, mid := StmtsParts(im[m.func], m.addr, ss, next, x, size);
      var i, q := SimStmt(w, im, s, next, m, x, a, fuel);
      var c, goal, m1, p, k := Behind(m, a), Behind(m, size), m, NoFuel, 0;
      if q.Normal? {
        m1 := c.(store := q.st);
        k, p := SimStmts(w, im, t, mid, m1, x, b, fuel);
        EndsStore(w.ar, im, m1, k, p, Behind(m1, b), goal, x, fuel);
      }
      ExecCons(w, ss, m, fuel, q, m1, p);
      r := if q.Normal? then p else q;
      n := ComposeStmts(w.ar, im, m, i, q, c, k, p, goal, x, fuel);
  }

  lemma SimIf(w: World, im: M.Image, s: Stmt, next: nat, m: M.Machine, x: Exits, size: nat, fuel: nat) returns (n: nat, r: Outcome)
    requires s.If? && Ready(w, im) && GoodStmt(s, x.inLoop, x.inFor) && OnStmt(im, m, s, next, x, size)
    ensures Executes(w, s, m, fuel, r) && Ends(w.ar, im, m, n, r, Behind(m, size), x, fuel)
    decreases fuel, s, 0
  {
    var a, b, lab := IfParts(im[m.func], m.addr, s, next, x, size);
    var i, q := SimExpr(w, im, s.cond, next, m, a, fuel);
    var m1, o, k := m, NoFuel, 0;
    if q.Val? && M.IsTrue(q.v) {
      m1 := Behind(m, a + 3).(store := q.st);
      k, o := SimStmt(w, im, s.thn, lab + 1, m1, x, b, fuel);
    }
    n, r := JoinIf(w, im, s, m, a, b, lab, i, q, m1, k, o, Behind(m, size), x, fuel);
  }

  lemma JoinIf(w: World, im: M.Image, s: Stmt, m: M.Machine, a: nat, b: nat, lab: nat, i: nat, q: Value,
               m1: M.Machine, k: nat, o: Outcome, goal: M.Machine, x: Exits, fuel: nat) returns (n: nat, r: Outcome)
    requires s.If? && Live(im, m) && IfAt(im[m.func], m.addr, a, b, lab) && goal == Behind(m, a + 3 + b)
    requires Evaluates(w, s.cond, m, fuel, q) && Yields(w.ar, im, m, i, q, Behind(m, a), fuel)
    requires q.Val? && M.IsTrue(q.v) ==>
      && m1 == Behind(m, a + 3).(store := q.st) && Executes(w, s.thn, m1, fuel, o)
      && Ends(w.ar, im, m1, k, o, Behind(m1, b), x, fuel)
    ensures Executes(w, s, m, fuel, r) && Ends(w.ar, im, m, n, r, goal, x, fuel)
  {
    ExecIf(w, s, m, fuel, q, m1, o);
    r := IfOf(q, o);
    n := ComposeIf(w, im, m, a, b, lab, i, q, Behind(m, a), m1, k, o, Behind(m1, b), goal, x, fuel);
  }

  lemma SimIfElse(w: World, im: M.Image, s: Stmt, next: nat, m: M.Machine, x: Exits, size: nat, fuel: nat) returns (n: nat, r: Outcome)
    requires s.IfElse? && Ready(w, im) && GoodStmt(s, x.inLoop, x.inFor) && OnStmt(im, m, s, next, x, size)
    ensures Executes(w, s, m, fuel, r) && Ends(w.ar, im, m, n, r, Behind(m, size), x, fuel)
    decreases fuel, s, 0
  {
    var a, b, d, lab, end := IfElseParts(im[m.func], m.addr, s, next, x, size);
    var i, q := SimExpr(w, im, s.cond, next, m, a, fuel);
    var m1, c1, o, k := m, m, NoFuel, 0;
    if q.Val? && M.IsTrue(q.v) {
      m1 := Behind(m, a + 3).(store := q.st);
      c1 := Behind(m1, b);
      k, o := SimStmt(w, im, s.thn, lab + 1, m1, x, b, fuel);
    } else if q.Val? {
      m1 := Behind(m, a + b + 6).(store := q.st);
      c1 := Behind(m1, d);
      k, o := SimStmt(w, im, s.els, end + 1, m1, x, d, fuel);
    }
    n, r := JoinIfElse(w, im, s, m, a, b, d, lab, end, i, q, m1, k, o, c1, Behind(m, size), x, fuel);
  }

  lemma JoinIfElse(w: World, im: M.Image, s: Stmt, m: M.Machine, a: nat, b: nat, d: nat, lab: nat, end: nat, i: nat, q: Value,
                   m1: M.Machine, k: nat, o: Outcome, c1: M.Machine, goal: M.Machine, x: Exits, fuel: nat)
    returns (n: nat, r: Outcome)
    requires s.IfElse? && Live(im, m) && Known(im, m, x) && IfElseAt(im[m.func], m.addr, a, b, d, lab, end)
    requires goal == Behind(m, a + b + d + 6)
    requires Evaluates(w, s.cond, m, fuel, q) && Yields(w.ar, im, m, i, q, Behind(m, a), fuel)
    requires q.Val? ==> var yes := M.IsTrue(q.v);
      && m1 == Behind(m, if yes then a + 3 else a + b + 6).(store := q.st) && c1 == Behind(m1, if yes then b else d)
      && Executes(w, if yes then s.thn else s.els, m1, fuel, o) && Ends(w.ar, im, m1, k, o, c1, x, fuel)
    ensures Executes(w, s, m, fuel, r) && Ends(w.ar, im, m, n, r, goal, x, fuel)
  {
    ExecIfElse(w, s, m, fuel, q, m1, o);
    r := After(q, o);
    n := ComposeIfElse(w, im, m, a, b, d, lab, end, i, q, Behind(m, a), m1, k, o, c1, goal, x, fuel);
  }

  lemma SimWhile(w: World, im: M.Image, s: Stmt, next: nat, m: M.Machine, x: Exits, size: nat, fuel: nat) returns (n: nat, r: Outcome)
    requires s.While? && Ready(w, im) && GoodStmt(s, x.inLoop, x.inFor) && OnStmt(im, m, s, next, x, size)
    ensures Executes(w, s, m, fuel, r) && Ends(w.ar, im, m, n, r, Behind(m, size), x, fuel)
    decreases fuel, s, 2
  {
    var a, b, out := WhileParts(im[m.func], m.addr, s, next, x, size);
    var i, q := SimExpr(w, im, s.cond, next + 1, m, a, fuel);
    var m1, o, k, m2, rest, l := m, NoFuel, 0, m, NoFuel, 0;
    if q.Val? && M.IsTrue(q.v) {
      m1 := Behind(m, a + 3).(store := q.st);
      k, o, m2, l, rest := SimBodyAndRest(w, im, s, next, m, x, size, m1, out, b, fuel);
    }
    n, r := JoinWhile(w, im, s, m, a, b, next, out, i, q, m1, k, o, m2, l, rest, Behind(m, size), x, fuel);
  }

  lemma JoinWhile(w: World, im: M.Image, s: Stmt, m: M.Machine, a: nat, b: nat, start: nat, out: nat, i: nat, q: Value,
                  m1: M.Machine, k: nat, o: Outcome, m2: M.Machine, l: nat, rest: Outcome, goal: M.Machine, x: Exits, fuel: nat)
    returns (n: nat, r: Outcome)
    requires s.While? && Live(im, m) && Known(im, m, x) && WhileAt(im[m.func], m.addr, a, b, start, out) && goal == Behind(m, a + b + 6)
    requires Evaluates(w, s.cond, m, fuel, q) && Yields(w.ar, im, m, i, q, Behind(m, a), fuel)
    requires q.Val? && M.IsTrue(q.v) ==>
      && m1 == Behind(m, a + 3).(store := q.st) && Executes(w, s.loop, m1, fuel, o)
      && Ends(w.ar, im, m1, k, o, Behind(m1, b), InWhile(x, out), fuel)
    requires q.Val? && M.IsTrue(q.v) && o.Normal? && fuel > 0 ==>
      m2 == m.(store := o.st) && Executes(w, s, m2, fuel - 1, rest) && Ends(w.ar, im, m2, l, rest, goal, x, fuel - 1)
    ensures Executes(w, s, m, fuel, r) && Ends(w.ar, im, m, n, r, goal, x, fuel)
  {
    ExecWhile(w, s, m, fuel, q, m1, o, m2, rest);
    r := WhileOf(q, o, rest, fuel);
    n := ComposeWhile(w, im, m, a, b, start, out, i, q, Behind(m, a), m1, k, o, Behind(m1, b), l, rest, goal, x, fuel);
  }

  /** The body of a while, at m1, and the remaining rounds. */
  lemma SimBodyAndRest(w: World, im: M.Image, s: Stmt, next: nat, m: M.Machine, x: Exits, size: nat,
                       m1: M.Machine, out: nat, b: nat, fuel: nat)
    returns (k: nat, o: Outcome, m2: M.Machine, l: nat, rest: Outcome)
    requires s.While? && Ready(w, im) && GoodStmt(s, x.inLoop, x.inFor) && OnStmt(im, m, s, next, x, size)
    requires OnStmt(im, m1, s.loop, out + 1, InWhile(x, out), b)
    ensures Executes(w, s.loop, m1, fuel, o) && Ends(w.ar, im, m1, k, o, Behind(m1, b), InWhile(x, out), fuel)
    ensures o.Normal? && fuel > 0 ==>
      && m2 == m.(store := o.st) && Executes(w, s, m2, fuel - 1, rest)
      && Ends(w.ar, im, m2, l, rest, Behind(m, size), x, fuel - 1)
    decreases fuel, s, 1
  {
    k, o := SimStmt(w, im, s.loop, out + 1, m1, InWhile(x, out), b, fuel);
    m2, l, rest := m, 0, NoFuel;
    if o.Normal? && fuel > 0 {
      m2 := m.(store := o.st);
      l, rest := SimStmt(w, im, s, next, m2, x, size, fuel - 1);
      EndsStore(w.ar, im, m2, l, rest, Behind(m2, size), Behind(m, size), x, fuel - 1);
    }
  }

  lemma SimFor(w: World, im: M.Image, s: Stmt, next: nat, m: M.Machine, x: Exits, size: nat, fuel: nat) returns (n: nat, r: Outcome)
    requires s.For? && Ready(w, im) && GoodStmt(s, x.inLoop, x.inFor) && OnStmt(im, m, s, next, x, size)
    ensures Executes(w, s, m, fuel, r) && Ends(w.ar, im, m, n, r, Behind(m, size), x, fuel)
    decreases fuel, s, 3
  {
    var a, z, p, from := ForParts(im[m.func], m.addr, s, next, x, size);
    var i, q := SimExpr(w, im, s.init, next + 1, m, a, fuel);
    var m1, o, k := m, NoFuel, 0;
    if q.Val? {
      m1 := Behind(m, a + 1).(store := q.st);
      k, o := SimRounds(w, im, s, z, p, from, m1, x, Behind(m, size), fuel);
    }
    ExecLoop(w, s, m, fuel, q, m1, o);
    r := After(q, o);
    n := ComposeFor(w, im, m, i, q, Behind(m, a), k, o, Behind(m, size), x, fuel);
  }

  lemma SimRounds(w: World, im: M.Image, s: Stmt, z: ForLabels, p: ForAt, from: nat, m: M.Machine, x: Exits,
                  goal: M.Machine, fuel: nat) returns (n: nat, r: Outcome)
    requires s.For? && Ready(w, im) && GoodStmt(s, x.inLoop, x.inFor) && Live(im, m) && RoundsAt(im[m.func], s, z, p, from)
    requires m.addr == p.test && goal == m.(addr := p.Out(), store := goal.store)
    ensures Rounds(w, s, m, fuel, r) && Ends(w.ar, im, m, n, r, goal, x, fuel)
    decreases fuel, s, 2
  {
    var i, q := SimExpr(w, im, s.cond, z.test + 1, m, p.h, fuel);
    var m1, o, k, m2, upd, j := m, NoFuel, 0, m, NoFuel, 0;
    if q.Val? && M.IsTrue(q.v) {
      m1 := m.(addr := p.Body(), store := q.st);
      k, o := SimStmt(w, im, s.loop, from, m1, InFor(z), p.l, fuel);
      if o.Normal? || o.Continued? {
        m2 := m.(addr := p.Again(), store := o.st);
        j, upd := SimForUpdate(w, im, s, z, p, from, m2, x, goal, fuel);
      }
    }
    ExecRound(w, s, m, fuel, q, m1, o, m2, upd);
    r := RoundOf(q, o, upd);
    n := ComposeRound(w, im, m, z, p, i, q, Behind(m, p.h), m1, k, o, Behind(m1, p.l), j, upd, goal, x, fuel);
  }

  lemma SimForUpdate(w: World, im: M.Image, s: Stmt, z: ForLabels, p: ForAt, from: nat, m: M.Machine, x: Exits,
                     goal: M.Machine, fuel: nat) returns (n: nat, r: Outcome)
    requires s.For? && Ready(w, im) && GoodStmt(s, x.inLoop, x.inFor) && Live(im, m) && RoundsAt(im[m.func], s, z, p, from)
    requires m.addr == p.Again() && goal == m.(addr := p.Out(), store := goal.store)
    ensures Updates(w, s, m, fuel, r) && Ends(w.ar, im, m, n, r, goal, x, fuel)
    decreases fuel, s, 1
  {
    var i, u := SimExpr(w, im, s.update, z.again + 1, m, p.k, fuel);
    var m1, rest, j := m, NoFuel, 0;
    if u.Val? && fuel > 0 {
      m1 := m.(addr := p.test, store := u.st);
      j, rest := SimRounds(w, im, s, z, p, from, m1, x, goal, fuel - 1);
    }
    ExecUpdate(w, s, m, fuel, u, m1, rest);
    r := UpdateOutcome(u, rest, fuel);
    n := ComposeForUpdate(w, im, m, z, p, i, u, Behind(m, p.k), j, rest, goal, x, fuel);
  }
}
