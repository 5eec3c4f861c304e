/** Which programs the byte code can represent: exactly those whose code
    takes no label above 65535. */
module BcFit {
  import opened BcSyntax
  import opened BcCompile
  import opened DecimalText
  import opened BcLabels
  import opened BcEncoding
  import opened BcText
  import M = BcMachine

  /** Everything but the labels jumped to fits. */
  predicate Parts(code: seq<Instr>) { forall k :: 0 <= k < |code| ==> FitsButLabels(code[k]) }

  lemma PartsAppend(a: seq<Instr>, b: seq<Instr>)
    requires Parts(a) && Parts(b)
    ensures Parts(a + b)
  {
  }

  lemma {:induction false} PartsLValue(lv: LValue, next: nat)
    requires GoodLValue(lv)
    ensures Parts(LValueCode(lv, next).code)
    decreases lv
  {
    if lv.Element? {
      PartsExpr(lv.index, next);
    }
  }

  lemma {:induction false} PartsExpr(e: Expr, next: nat)
    requires GoodExpr(e)
    ensures Parts(ExprCode(e, next).code)
    decreases e, 1
  {
    match e
    case Const(text) =>
    case Load(lv) =>
      PartsLValue(lv, next);
      PartsAppend(LValueCode(lv, next).code, Loaded(lv));
    case Paren(a) => PartsExpr(a, next);
    case Assign(_, _, _) => PartsAssign(e, next);
    case Binary(_, _, _) => PartsPair(e, next);
    case Compare(_, _, _) => PartsPair(e, next);
    case Negate(a) =>
      PartsExpr(a, next);
      PartsAppend(ExprCode(a, next).code, [Plain('n')]);
    case Not(a) =>
      PartsExpr(a, next);
      PartsAppend(ExprCode(a, next).code, [Plain('!')]);
    case And(_, _) => PartsAnd(e, next);
    case Or(_, _) => PartsOr(e, next);
    case Bump(pre, up, lv) =>
      PartsLValue(lv, next);
      PartsAppend(LValueCode(lv, next).code, Bumped(lv, pre, up));
    case Builtin(which, a) =>
      PartsExpr(a, next);
      PartsAppend(ExprCode(a, next).code, [Special(which)]);
    case Call(f, args) =>
      PartsArgs(args, next);
      PartsAppend(ArgsCode(args, next).code, [Invoke(f, CallStr(args))]);
  }

  lemma {:induction false} PartsAnd(e: Expr, next: nat)
    requires e.And? && GoodExpr(e)
    ensures Parts(ExprCode(e, next).code)
    decreases e, 0
  {
    var g := ExprCode(e.left, next);
    var h := ExprCode(e.right, g.next + 1);
    PartsExpr(e.left, next);
    PartsExpr(e.right, g.next + 1);
    var u, v := [Plain('D'), Jump('Z', g.next), Plain('p')], [Plain('D'), Jump('Z', g.next), Plain('p'), Plain('1'), Label(g.next)];
    PartsAppend(g.code, u);
    PartsAppend(g.code + u, h.code);
    PartsAppend(g.code + u + h.code, v);
  }

  lemma {:induction false} PartsOr(e: Expr, next: nat)
    requires e.Or? && GoodExpr(e)
    ensures Parts(ExprCode(e, next).code)
    decreases e, 0
  {
    var g := ExprCode(e.left, next);
    var h := ExprCode(e.right, g.next + 1);
    PartsExpr(e.left, next);
    PartsExpr(e.right, g.next + 1);
    var u, v := [Jump('B', g.next)], [Jump('B', g.next), Plain('0'), Jump('J', h.next), Label(g.next), Plain('1'), Label(h.next)];
    PartsAppend(g.code, u);
    PartsAppend(g.code + u, h.code);
    PartsAppend(g.code + u + h.code, v);
  }

  lemma {:induction false} PartsPair(e: Expr, next: nat)
    requires (e.Binary? || e.Compare?) && GoodExpr(e)
    ensures Parts(ExprCode(e, next).code)
    decreases e, 0
  {
    var g := ExprCode(e.left, next);
    PartsExpr(e.left, next);
    PartsExpr(e.right, g.next);
    PartsAppend(g.code, ExprCode(e.right, g.next).code);
    assert M.PlainOp(e.op);
    PartsAppend(g.code + ExprCode(e.right, g.next).code, [Plain(e.op)]);
  }

  lemma {:induction false} PartsAssign(e: Expr, next: nat)
    requires e.Assign? && GoodExpr(e)
    ensures Parts(ExprCode(e, next).code)
    decreases e, 0
  {
    var g := LValueCode(e.target, next);
    var h := ExprCode(e.rhs, g.next);
    var f, o := if e.op == '=' then [] else Fetched(e.target), if e.op == '=' then [] else [Plain(e.op)];
    PartsLValue(e.target, next);
    PartsExpr(e.rhs, g.next);
    PartsAppend(g.code, f);
    PartsAppend(g.code + f, h.code);
    PartsAppend(g.code + f + h.code, o);
    PartsAppend(g.code + f + h.code + o, Stored(e.target));
  }

  lemma {:induction false} PartsArgs(args: Args, next: nat)
    requires GoodArgs(args)
    ensures Parts(ArgsCode(args, next).code)
    decreases args
  {
    match args
    case NoArgs =>
    case Arg(e, others) =>
      PartsExpr(e, next);
      PartsArgs(others, ExprCode(e, next).next);
    case ArrayArg(a, others) =>
      assert forall k :: 0 <= k < |Decimal(a)| ==> ConstChar(Decimal(a)[k]);
      PartsArgs(others, next);
  }

  lemma {:induction false} PartsStmt(s: Stmt, next: nat, brk: nat, cont: nat, inLoop: bool, inFor: bool)
    requires GoodStmt(s, inLoop, inFor)
    ensures Parts(StmtCode(s, next, brk, cont).code)
    decreases s, 1
  {
    match s
    case Eval(e) => PartsExpr(e, next);
    case Text(t) =>
    case Block(body) => PartsStmts(body, next, brk, cont, inLoop, inFor);
    case If(_, _) => PartsIf(s, next, brk, cont, inLoop, inFor);
    case IfElse(_, _, _) => PartsIfElse(s, next, brk, cont, inLoop, inFor);
    case While(_, _) => PartsWhile(s, next, brk, cont, inLoop, inFor);
    case For(_, _, _, _) => PartsFor(s, next, brk, cont, inLoop, inFor);
    case Break =>
    case Continue =>
    case Return(e) => PartsExpr(e, next);
  }

  lemma {:induction false} PartsIf(s: Stmt, next: nat, brk: nat, cont: nat, inLoop: bool, inFor: bool)
    requires s.If? && GoodStmt(s, inLoop, inFor)
    ensures Parts(StmtCode(s, next, brk, cont).code)
    decreases s, 0
  {
    var g := ExprCode(s.cond, next);
    var h := StmtCode(s.thn, g.next + 1, brk, cont).code;
    PartsExpr(s.cond, next);
    PartsStmt(s.thn, g.next + 1, brk, cont, inLoop, inFor);
    PartsAppend(g.code, [Jump('Z', g.next)]);
    PartsAppend(g.code + [Jump('Z', g.next)], h);
    PartsAppend(g.code + [Jump('Z', g.next)] + h, [Label(g.next)]);
  }

  lemma {:induction false} PartsWhile(s: Stmt, next: nat, brk: nat, cont: nat, inLoop: bool, inFor: bool)
    requires s.While? && GoodStmt(s, inLoop, inFor)
    ensures Parts(StmtCode(s, next, brk, cont).code)
    decreases s, 0
  {
    var g := ExprCode(s.cond, next + 1);
    var h := StmtCode(s.loop, g.next + 1, g.next, cont).code;
    PartsExpr(s.cond, next + 1);
    PartsStmt(s.loop, g.next + 1, g.next, cont, true, inFor);
    PartsAppend([Label(next)], g.code);
    PartsAppend([Label(next)] + g.code, [Jump('Z', g.next)]);
    PartsAppend([Label(next)] + g.code + [Jump('Z', g.next)], h);
    PartsAppend([Label(next)] + g.code + [Jump('Z', g.next)] + h, [Jump('J', next), Label(g.next)]);
  }

  lemma {:induction false} PartsIfElse(s: Stmt, next: nat, brk: nat, cont: nat, inLoop: bool, inFor: bool)
    requires s.IfElse? && GoodStmt(s, inLoop, inFor)
    ensures Parts(StmtCode(s, next, brk, cont).code)
    decreases s, 0
  {
    var g := ExprCode(s.cond, next);
    var h := StmtCode(s.thn, g.next + 1, brk, cont);
    PartsExpr(s.cond, next);
    PartsStmt(s.thn, g.next + 1, brk, cont, inLoop, inFor);
    PartsStmt(s.els, h.next + 1, brk, cont, inLoop, inFor);
    var c := g.code + [Jump('Z', g.next)] + h.code + [Jump('J', h.next), Label(g.next)];
    PartsAppend(g.code + [Jump('Z', g.next)], h.code);
    PartsAppend(g.code + [Jump('Z', g.next)] + h.code, [Jump('J', h.next), Label(g.next)]);
    PartsAppend(c, StmtCode(s.els, h.next + 1, brk, cont).code);
  }

  lemma {:induction false} PartsFor(s: Stmt, next: nat, brk: nat, cont: nat, inLoop: bool, inFor: bool)
    requires s.For? && GoodStmt(s, inLoop, inFor)
    ensures Parts(StmtCode(s, next, brk, cont).code)
    decreases s, 0
  {
    var g := ExprCode(s.init, next + 1);
    var h := ExprCode(s.cond, g.next + 1);
    var k := ExprCode(s.update, h.next + 2);
    PartsExpr(s.init, next + 1);
    PartsExpr(s.cond, g.next + 1);
    PartsExpr(s.update, h.next + 2);
    PartsStmt(s.loop, k.next, next, h.next + 1, true, true);
    var u, v := [Plain('p'), Label(g.next)], [Jump('B', h.next), Jump('J', next), Label(h.next + 1)];
    var w := [Plain('p'), Jump('J', g.next), Label(h.next)];
    var l := StmtCode(s.loop, k.next, next, h.next + 1).code;
    PartsAppend(g.code, u);
    PartsAppend(g.code + u, h.code);
    PartsAppend(g.code + u + h.code, v);
    PartsAppend(g.code + u + h.code + v, k.code);
    PartsAppend(g.code + u + h.code + v + k.code, w);
    PartsAppend(g.code + u + h.code + v + k.code + w, l);
    PartsAppend(g.code + u + h.code + v + k.code + w + l, [Jump('J', h.next + 1), Label(next)]);
  }

  lemma {:induction false} PartsStmts(ss: Stmts, next: nat, brk: nat, cont: nat, inLoop: bool, inFor: bool)
    requires GoodStmts(ss, inLoop, inFor)
    ensures Parts(StmtsCode(ss, next, brk, cont).code)
    decreases ss, 1
  {
    match ss
    case Nil =>
    case Cons(s, t) =>
      PartsStmt(s, next, brk, cont, inLoop, inFor);
      PartsStmts(t, StmtCode(s, next, brk, cont).next, brk, cont, inLoop, inFor);
  }

  /** A top-level statement's code fits exactly if it takes no label above 65535. */
  lemma FitsIff(s: Stmt)
    requires GoodStmt(s, false, false)
    ensures AllFit(StmtCode(s, 1, 0, 0).code) <==> StmtCode(s, 1, 0, 0).next <= 65536
  {
    var g := StmtCode(s, 1, 0, 0);
    PartsStmt(s, 1, 0, 0, false, false);
    TargetsStmt(s, 1, 0, 0, false, false);
    FreshStmt(s, 1, 0, 0);
    assert Targets(g.code) == Range(1, g.next);
    if g.next <= 65536 {
      forall k | 0 <= k < |g.code| ensures Fits(g.code[k]) {
        assert FitsButLabels(g.code[k]);
        if g.code[k].Jump? {
          assert g.code[k].lab in Targets(g.code);
        }
      }
    } else {
      assert Between(1, g.next - 1, g.next);
      assert g.next - 1 in Targets(g.code);
      var k :| 0 <= k < |g.code| && g.code[k].Jump? && g.code[k].lab == g.next - 1;
      assert !Fits(g.code[k]);
    }
  }

  /** If code does not fit, some jump is the first that does not. */
  lemma {:induction false} FirstUnfit(code: seq<Instr>, n: nat) returns (k: nat)
    requires Parts(code) && n <= |code| && (forall i :: 0 <= i < n ==> Fits(code[i])) && !AllFit(code)
    ensures k < |code| && AllFit(code[..k]) && code[k].Jump? && M.JumpOp(code[k].c) && code[k].lab > 65535
    decreases |code| - n
  {
    assert FitsButLabels(code[n]);
    if Fits(code[n]) {
      k := FirstUnfit(code, n + 1);
    } else {
      k := n;
    }
  }

  /** The loader accepts the text of a top-level statement exactly if its
      code fits; a bigger program makes it give up. */
  lemma LoadsIff(l: Loading, s: Stmt)
    requires Idle(l) && GoodStmt(s, false, false)
    ensures LoadCode(l, TextAll(StmtCode(s, 1, 0, 0).code)).stop <==> StmtCode(s, 1, 0, 0).next > 65536
  {
    var code := StmtCode(s, 1, 0, 0).code;
    FitsIff(s);
    assert TextAll(code) + [] == TextAll(code);
    if AllFit(code) {
      LoadAll(l, code, []);
    } else {
      PartsStmt(s, 1, 0, 0, false, false);
      var k := FirstUnfit(code, 0);
      LoadTooBig(l, code, k, []);
    }
  }
}
