/** The evaluator, construct by construct: what an expression or statement
    gives in a machine's store, from what its parts give. */
module BcEvaluation {
  import opened Wrappers
  import opened Numbers
  import opened BcSyntax
  import opened BcStore
  import M = BcMachine
  import opened BcSemantics
  import opened BcSimulation
  import opened BcCompose
  import opened BcComposeStmt
  import opened BcComposeLoop
  import opened BcLayout

  /** Evaluating e in the store of m gives r. */
  ghost predicate Evaluates(w: World, e: Expr, m: M.Machine, fuel: nat, r: Value) {
    forall k: nat {:trigger Exactly(k, fuel)} :: Exactly(k, fuel) ==> EvalExpr(w, e, m.store, Base(m), k) == r
  }

  ghost predicate Indexes(w: World, lv: LValue, m: M.Machine, fuel: nat, r: Value) {
    forall k: nat {:trigger Exactly(k, fuel)} :: Exactly(k, fuel) ==> EvalIndex(w, lv, m.store, Base(m), k) == r
  }

  ghost predicate EvaluatesAll(w: World, args: Args, m: M.Machine, fuel: nat, r: Values) {
    forall k: nat {:trigger Exactly(k, fuel)} :: Exactly(k, fuel) ==> EvalArgs(w, args, m.store, Base(m), k) == r
  }

  /** The call e with the argument values vs gives r. */
  ghost predicate Calls(w: World, e: Expr, vs: seq<Num>, m: M.Machine, fuel: nat, r: Value)
    requires e.Call?
  {
    forall k: nat {:trigger Exactly(k, fuel)} :: Exactly(k, fuel) ==> CallFunction(w, e, vs, m.store, k) == r
  }

  /** Executing s in the store of m has the outcome o. */
  ghost predicate Executes(w: World, s: Stmt, m: M.Machine, fuel: nat, o: Outcome) {
    forall k: nat {:trigger Exactly(k, fuel)} :: Exactly(k, fuel) ==> ExecStmt(w, s, m.store, Base(m), k) == o
  }

  ghost predicate ExecutesAll(w: World, ss: Stmts, m: M.Machine, fuel: nat, o: Outcome) {
    forall k: nat {:trigger Exactly(k, fuel)} :: Exactly(k, fuel) ==> ExecStmts(w, ss, m.store, Base(m), k) == o
  }

  /** The rounds of a for, from the test or from the update on. */
  ghost predicate Rounds(w: World, s: Stmt, m: M.Machine, fuel: nat, o: Outcome)
    requires s.For?
  {
    forall k: nat {:trigger Exactly(k, fuel)} :: Exactly(k, fuel) ==> ExecFor(w, s, m.store, Base(m), k) == o
  }

  ghost predicate Updates(w: World, s: Stmt, m: M.Machine, fuel: nat, o: Outcome)
    requires s.For?
  {
    forall k: nat {:trigger Exactly(k, fuel)} :: Exactly(k, fuel) ==> ForUpdate(w, s, m.store, Base(m), k) == o
  }

  /** m1 is in the same call as m, with the store st. */
  predicate Same(m: M.Machine, m1: M.Machine, st: Store) { m1.func == m.func && m1.frames == m.frames && m1.store == st }

  // ---------------------------------------------------------------------
  // Expressions.
  // ---------------------------------------------------------------------

  lemma EvalParen(w: World, e: Expr, m: M.Machine, fuel: nat, r: Value)
    requires e.Paren? && Evaluates(w, e.inner, m, fuel, r)
    ensures Evaluates(w, e, m, fuel, r)
  {
    assert Exactly(fuel, fuel);
  }

  lemma EvalIndexed(w: World, lv: LValue, m: M.Machine, fuel: nat, r: Value)
    requires if lv.Simple? then r == Val(ZERO, m.store) else Evaluates(w, lv.index, m, fuel, r)
    ensures Indexes(w, lv, m, fuel, r)
  {
    assert Exactly(fuel, fuel);
  }

  lemma EvalLoad(w: World, e: Expr, m: M.Machine, fuel: nat, r: Value)
    requires e.Load? && Indexes(w, e.lv, m, fuel, r)
    ensures Evaluates(w, e, m, fuel, LoadOf(w, e.lv, r))
  {
    assert Exactly(fuel, fuel);
  }

  lemma EvalBump(w: World, e: Expr, m: M.Machine, fuel: nat, r: Value)
    requires e.Bump? && Indexes(w, e.lv, m, fuel, r)
    ensures Evaluates(w, e, m, fuel, BumpOf(w, e.lv, e.pre, e.up, r))
  {
    assert Exactly(fuel, fuel);
  }

  lemma EvalUnary(w: World, e: Expr, m: M.Machine, fuel: nat, r: Value)
    requires (e.Negate? || e.Not? || e.Builtin?) && Evaluates(w, e.arg, m, fuel, r)
    ensures Evaluates(w, e, m, fuel, UnaryOf(w, UnaryPart(e), r))
  {
    assert Exactly(fuel, fuel);
  }

  lemma EvalBinary(w: World, e: Expr, m: M.Machine, fuel: nat, r: Value, m1: M.Machine, q: Value)
    requires (e.Binary? || e.Compare?) && GoodExpr(e) && Evaluates(w, e.left, m, fuel, r)
    requires r.Val? ==> Same(m, m1, r.st) && Evaluates(w, e.right, m1, fuel, q)
    ensures Evaluates(w, e, m, fuel, BinaryOf(w, e.op, r, q))
  {
    assert Exactly(fuel, fuel);
  }

  lemma EvalSet(w: World, e: Expr, m: M.Machine, fuel: nat, r: Value, m1: M.Machine, q: Value)
    requires e.Assign? && e.op == '=' && Indexes(w, e.target, m, fuel, r)
    requires r.Val? ==> Same(m, m1, r.st) && Evaluates(w, e.rhs, m1, fuel, q)
    ensures Evaluates(w, e, m, fuel, SetOf(e.target, r, q))
  {
    assert Exactly(fuel, fuel);
  }

  lemma EvalUpdate(w: World, e: Expr, m: M.Machine, fuel: nat, r: Value, m1: M.Machine, q: Value)
    requires e.Assign? && ArithOp(e.op) && Indexes(w, e.target, m, fuel, r)
    requires r.Val? && LoadValue(w, e.target, r.v, r.st).Val? ==> Same(m, m1, r.st) && Evaluates(w, e.rhs, m1, fuel, q)
    ensures Evaluates(w, e, m, fuel, UpdateOf(w, e.target, e.op, r, q))
  {
    assert Exactly(fuel, fuel);
  }

  lemma EvalAnd(w: World, e: Expr, m: M.Machine, fuel: nat, r: Value, m1: M.Machine, q: Value)
    requires e.And? && Evaluates(w, e.left, m, fuel, r)
    requires r.Val? && M.IsTrue(r.v) ==> Same(m, m1, r.st) && Evaluates(w, e.right, m1, fuel, q)
    ensures Evaluates(w, e, m, fuel, AndOf(r, q))
  {
    assert Exactly(fuel, fuel);
  }

  lemma EvalOr(w: World, e: Expr, m: M.Machine, fuel: nat, r: Value, m1: M.Machine, q: Value)
    requires e.Or? && Evaluates(w, e.left, m, fuel, r)
    requires r.Val? && !M.IsTrue(r.v) ==> Same(m, m1, r.st) && Evaluates(w, e.right, m1, fuel, q)
    ensures Evaluates(w, e, m, fuel, OrOf(r, q))
  {
    assert Exactly(fuel, fuel);
  }

  // ---------------------------------------------------------------------
  // Calls.
  // ---------------------------------------------------------------------

  lemma EvalNoArgs(w: World, m: M.Machine, fuel: nat)
    ensures EvaluatesAll(w, NoArgs, m, fuel, Vals([], m.store))
  {
  }

  lemma EvalArg(w: World, args: Args, m: M.Machine, fuel: nat, r: Value, m1: M.Machine, q: Values)
    requires args.Arg? && Evaluates(w, args.first, m, fuel, r)
    requires r.Val? ==> Same(m, m1, r.st) && EvaluatesAll(w, args.others, m1, fuel, q)
    ensures EvaluatesAll(w, args, m, fuel, ArgsOf(r, q))
  {
    assert Exactly(fuel, fuel);
  }

  lemma EvalArrayArg(w: World, args: Args, m: M.Machine, fuel: nat, m1: M.Machine, q: Values)
    requires args.ArrayArg? && Same(m, m1, m.store) && EvaluatesAll(w, args.others, m1, fuel, q)
    ensures EvaluatesAll(w, args, m, fuel, ArgsOf(Val(ArrayValue(w, args.a, BaseOf(m.store, Base(m))), m.store), q))
  {
    assert Exactly(fuel, fuel);
  }

  /** The number of values is the number of arguments. */
  lemma CountValues(w: World, args: Args, m: M.Machine, fuel: nat, q: Values)
    requires EvaluatesAll(w, args, m, fuel, q)
    ensures q.Vals? ==> |q.vs| == Count(args)
  {
    assert Exactly(fuel, fuel);
  }

  lemma EvalCall(w: World, e: Expr, m: M.Machine, fuel: nat, q: Values, m1: M.Machine, r: Value)
    requires e.Call? && EvaluatesAll(w, e.args, m, fuel, q)
    requires q.Vals? ==> m1.store == q.st && Calls(w, e, q.vs, m1, fuel, r)
    ensures Evaluates(w, e, m, fuel, if q.Vals? then r else if q.ErrVals? then Err(q.st) else OutOfFuel)
  {
    assert Exactly(fuel, fuel);
  }

  /** What the body of a call ends with. */
  function CallOf(d: FuncDef, o: Outcome): Value {
    match o
    case Normal(st1) => Val(ZERO, Leave(st1, d))
    case Returned(v, st1) => Val(v, Leave(st1, d))
    case Failed(st1) => Err(st1)
    case NoFuel => OutOfFuel
    case Broke(st1) => Err(st1)
    case Continued(st1) => Err(st1)
  }

  /** The arguments fit the parameters of a function that is defined. */
  predicate Callable(w: World, e: Expr, vs: seq<Num>)
    requires e.Call?
  {
    e.f in w.funcs && Match(e.args, w.funcs[e.f].formals) && |w.funcs[e.f].formals| == |vs|
  }

  lemma CallFails(w: World, e: Expr, vs: seq<Num>, m: M.Machine, fuel: nat)
    requires e.Call?
    ensures !Callable(w, e, vs) ==> Calls(w, e, vs, m, fuel, Err(m.store))
    ensures Callable(w, e, vs) && fuel == 0 ==> Calls(w, e, vs, m, fuel, OutOfFuel)
  {
  }

  lemma CallBody(w: World, e: Expr, vs: seq<Num>, m: M.Machine, fuel: nat, m1: M.Machine, o: Outcome)
    requires e.Call? && Callable(w, e, vs) && fuel > 0 && Executes(w, w.funcs[e.f].body, m1, fuel - 1, o)
    requires m1.store == Enter(m.store, w.funcs[e.f], vs) && Base(m1) == Some(m.store.ibase)
    ensures Calls(w, e, vs, m, fuel, CallOf(w.funcs[e.f], o))
  {
    assert Exactly(fuel - 1, fuel - 1);
  }

  // ---------------------------------------------------------------------
  // Statements.
  // ---------------------------------------------------------------------

  lemma ExecEval(w: World, s: Stmt, m: M.Machine, fuel: nat, r: Value)
    requires s.Eval? && Evaluates(w, s.e, m, fuel, r)
    ensures Executes(w, s, m, fuel, EvalOf(r, Prints(s.e)))
  {
    assert Exactly(fuel, fuel);
  }

  lemma ExecSingle(w: World, s: Stmt, m: M.Machine, fuel: nat)
    requires s.Text? || s.Break? || s.Continue?
    ensures Executes(w, s, m, fuel, if s.Text? then Normal(m.store.(out := m.store.out + [Shown(s.s)]))
                                    else if s.Break? then Broke(m.store) else Continued(m.store))
  {
  }

  lemma ExecBlock(w: World, s: Stmt, m: M.Machine, fuel: nat, o: Outcome)
    requires s.Block? && ExecutesAll(w, s.body, m, fuel, o)
    ensures Executes(w, s, m, fuel, o)
  {
    assert Exactly(fuel, fuel);
  }

  lemma ExecNil(w: World, m: M.Machine, fuel: nat)
    ensures ExecutesAll(w, Nil, m, fuel, Normal(m.store))
  {
  }

  lemma ExecCons(w: World, ss: Stmts, m: M.Machine, fuel: nat, r: Outcome, m1: M.Machine, q: Outcome)
    requires ss.Cons? && Executes(w, ss.head, m, fuel, r)
    requires r.Normal? ==> Same(m, m1, r.st) && ExecutesAll(w, ss.tail, m1, fuel, q)
    ensures ExecutesAll(w, ss, m, fuel, if r.Normal? then q else r)
  {
    assert Exactly(fuel, fuel);
  }

  lemma ExecReturn(w: World, s: Stmt, m: M.Machine, fuel: nat, r: Value)
    requires s.Return? && Evaluates(w, s.result, m, fuel, r)
    ensures Executes(w, s, m, fuel, ReturnOf(r))
  {
    assert Exactly(fuel, fuel);
  }

  lemma ExecIf(w: World, s: Stmt, m: M.Machine, fuel: nat, r: Value, m1: M.Machine, o: Outcome)
    requires s.If? && Evaluates(w, s.cond, m, fuel, r)
    requires r.Val? && M.IsTrue(r.v) ==> Same(m, m1, r.st) && Executes(w, s.thn, m1, fuel, o)
    ensures Executes(w, s, m, fuel, IfOf(r, o))
  {
    assert Exactly(fuel, fuel);
  }

  lemma ExecIfElse(w: World, s: Stmt, m: M.Machine, fuel: nat, r: Value, m1: M.Machine, o: Outcome)
    requires s.IfElse? && Evaluates(w, s.cond, m, fuel, r)
    requires r.Val? ==> Same(m, m1, r.st) && Executes(w, if M.IsTrue(r.v) then s.thn else s.els, m1, fuel, o)
    ensures Executes(w, s, m, fuel, After(r, o))
  {
    assert Exactly(fuel, fuel);
  }

  lemma ExecWhile(w: World, s: Stmt, m: M.Machine, fuel: nat, r: Value, m1: M.Machine, o: Outcome, m2: M.Machine, next: Outcome)
    requires s.While? && Evaluates(w, s.cond, m, fuel, r)
    requires r.Val? && M.IsTrue(r.v) ==> Same(m, m1, r.st) && Executes(w, s.loop, m1, fuel, o)
    requires r.Val? && M.IsTrue(r.v) && o.Normal? && fuel > 0 ==> Same(m, m2, o.st) && Executes(w, s, m2, fuel - 1, next)
    ensures Executes(w, s, m, fuel, WhileOf(r, o, next, fuel))
  {
    assert Exactly(fuel, fuel);
    if fuel > 0 {
      assert Exactly(fuel - 1, fuel - 1);
    }
  }

  lemma ExecLoop(w: World, s: Stmt, m: M.Machine, fuel: nat, r: Value, m1: M.Machine, o: Outcome)
    requires s.For? && Evaluates(w, s.init, m, fuel, r)
    requires r.Val? ==> Same(m, m1, r.st) && Rounds(w, s, m1, fuel, o)
    ensures Executes(w, s, m, fuel, After(r, o))
  {
    assert Exactly(fuel, fuel);
  }

  lemma ExecRound(w: World, s: Stmt, m: M.Machine, fuel: nat, r: Value, m1: M.Machine, o: Outcome, m2: M.Machine, upd: Outcome)
    requires s.For? && Evaluates(w, s.cond, m, fuel, r)
    requires r.Val? && M.IsTrue(r.v) ==> Same(m, m1, r.st) && Executes(w, s.loop, m1, fuel, o)
    requires r.Val? && M.IsTrue(r.v) && (o.Normal? || o.Continued?) ==> Same(m, m2, o.st) && Updates(w, s, m2, fuel, upd)
    ensures Rounds(w, s, m, fuel, RoundOf(r, o, upd))
  {
    assert Exactly(fuel, fuel);
  }

  lemma ExecUpdate(w: World, s: Stmt, m: M.Machine, fuel: nat, u: Value, m1: M.Machine, next: Outcome)
    requires s.For? && Evaluates(w, s.update, m, fuel, u)
    requires u.Val? && fuel > 0 ==> Same(m, m1, u.st) && Rounds(w, s, m1, fuel - 1, next)
    ensures Updates(w, s, m, fuel, UpdateOutcome(u, next, fuel))
  {
    assert Exactly(fuel, fuel);
    if fuel > 0 {
      assert Exactly(fuel - 1, fuel - 1);
    }
  }
}
