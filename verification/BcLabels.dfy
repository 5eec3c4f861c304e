/** Every label the compiler emits is defined exactly once, and is fresh. */
module BcLabels {
  import opened BcSyntax
  import opened BcCompile
  import opened DecimalText

  /** The labels defined in a piece of code. */
  function Defs(code: seq<Instr>): set<nat> {
    set i | 0 <= i < |code| && code[i].Label? :: code[i].lab
  }

  ghost predicate Once(code: seq<Instr>) {
    forall i, j :: 0 <= i < j < |code| && code[i].Label? && code[j].Label? ==> code[i].lab != code[j].lab
  }

  /** Code that defines exactly the labels in s, each once. */
  ghost predicate Uses(code: seq<Instr>, s: set<nat>) { Once(code) && Defs(code) == s }

  predicate Between(lo: nat, x: nat, hi: nat) { lo <= x < hi }

  function Range(lo: nat, hi: nat): set<nat> { set x | 0 <= x < hi && Between(lo, x, hi) }

  lemma DefsAppend(a: seq<Instr>, b: seq<Instr>)
    ensures Defs(a + b) == Defs(a) + Defs(b)
  {
    forall l | l in Defs(a) ensures l in Defs(a + b) {
      var i :| 0 <= i < |a| && a[i].Label? && a[i].lab == l;
      assert (a + b)[i] == a[i];
    }
    forall l | l in Defs(b) ensures l in Defs(a + b) {
      var i :| 0 <= i < |b| && b[i].Label? && b[i].lab == l;
      assert (a + b)[|a| + i] == b[i];
    }
    forall l | l in Defs(a + b) ensures l in Defs(a) + Defs(b) {
      var i :| 0 <= i < |a + b| && (a + b)[i].Label? && (a + b)[i].lab == l;
      if i < |a| {
        assert a[i] == (a + b)[i];
      } else {
        assert b[i - |a|] == (a + b)[i];
      }
    }
  }

  lemma UsesAppend(a: seq<Instr>, s: set<nat>, b: seq<Instr>, t: set<nat>)
    requires Uses(a, s) && Uses(b, t) && s !! t
    ensures Uses(a + b, s + t)
  {
    DefsAppend(a, b);
    var c := a + b;
    forall i, j | 0 <= i < j < |c| && c[i].Label? && c[j].Label? ensures c[i].lab != c[j].lab {
      if j < |a| {
        assert a[i] == c[i] && a[j] == c[j];
      } else if i < |a| {
        assert a[i] == c[i] && b[j - |a|] == c[j];
        assert a[i].lab in Defs(a) && b[j - |a|].lab in Defs(b);
      } else {
        assert b[i - |a|] == c[i] && b[j - |a|] == c[j];
      }
    }
  }

  /** Code without labels. */
  lemma UsesNone(a: seq<Instr>)
    requires forall i :: 0 <= i < |a| ==> !a[i].Label?
    ensures Uses(a, {})
  {
  }

  lemma UsesOne(l: nat)
    ensures Uses([Label(l)], {l})
  {
    assert [Label(l)][0] == Label(l);
  }

  /** Appending code without labels. */
  lemma UsesPlain(a: seq<Instr>, s: set<nat>, b: seq<Instr>)
    requires Uses(a, s) && forall i :: 0 <= i < |b| ==> !b[i].Label?
    ensures Uses(a + b, s) && Uses(b + a, s)
  {
    UsesNone(b);
    UsesAppend(a, s, b, {});
    UsesAppend(b, {}, a, s);
    assert s + {} == s && {} + s == s;
  }

  lemma RangeJoin(lo: nat, mid: nat, hi: nat)
    requires lo <= mid <= hi
    ensures Range(lo, mid) + Range(mid, hi) == Range(lo, hi) && Range(lo, mid) !! Range(mid, hi)
  {
  }

  /** Two pieces of code with consecutive label ranges. */
  lemma UsesSeq(a: seq<Instr>, lo: nat, mid: nat, b: seq<Instr>, hi: nat)
    requires Uses(a, Range(lo, mid)) && Uses(b, Range(mid, hi)) && lo <= mid <= hi
    ensures Uses(a + b, Range(lo, hi))
  {
    RangeJoin(lo, mid, hi);
    UsesAppend(a, Range(lo, mid), b, Range(mid, hi));
  }

  /** A piece of code followed by a label not in its range. */
  lemma UsesThenLabel(a: seq<Instr>, s: set<nat>, l: nat, t: set<nat>)
    requires Uses(a, s) && l !in s && s + {l} == t
    ensures Uses(a + [Label(l)], t)
  {
    UsesOne(l);
    UsesAppend(a, s, [Label(l)], {l});
  }

  // The label layouts of the compound constructs, over arbitrary operand code.

  lemma AndUses(a: seq<Instr>, lo: nat, lab: nat, b: seq<Instr>, hi: nat)
    requires lo <= lab < hi && Uses(a, Range(lo, lab)) && Uses(b, Range(lab + 1, hi))
    ensures Uses(a + [Plain('D'), Jump('Z', lab), Plain('p')]
                 + b + [Plain('D'), Jump('Z', lab), Plain('p'), Plain('1'), Label(lab)], Range(lo, hi))
  {
    var t, u := [Plain('D'), Jump('Z', lab), Plain('p')], [Plain('D'), Jump('Z', lab), Plain('p'), Plain('1')];
    UsesPlain(a, Range(lo, lab), t);
    UsesAppend(a + t, Range(lo, lab), b, Range(lab + 1, hi));
    UsesPlain(a + t + b, Range(lo, lab) + Range(lab + 1, hi), u);
    UsesThenLabel(a + t + b + u, Range(lo, lab) + Range(lab + 1, hi), lab, Range(lo, hi));
    assert u + [Label(lab)] == [Plain('D'), Jump('Z', lab), Plain('p'), Plain('1'), Label(lab)];
    assert a + t + b + u + [Label(lab)] == a + t + b + (u + [Label(lab)]);
  }

  lemma OrUses(a: seq<Instr>, lo: nat, lab: nat, b: seq<Instr>, end: nat)
    requires lo <= lab < end && Uses(a, Range(lo, lab)) && Uses(b, Range(lab + 1, end))
    ensures Uses(a + [Jump('B', lab)] + b
                 + [Jump('B', lab), Plain('0'), Jump('J', end), Label(lab), Plain('1'), Label(end)], Range(lo, end + 1))
  {
    var s := Range(lo, lab) + Range(lab + 1, end);
    var u := [Jump('B', lab), Plain('0'), Jump('J', end)];
    var c := a + [Jump('B', lab)] + b + u;
    UsesPlain(a, Range(lo, lab), [Jump('B', lab)]);
    UsesAppend(a + [Jump('B', lab)], Range(lo, lab), b, Range(lab + 1, end));
    UsesPlain(a + [Jump('B', lab)] + b, s, u);
    UsesThenLabel(c, s, lab, Range(lo, end));
    UsesPlain(c + [Label(lab)], Range(lo, end), [Plain('1')]);
    UsesThenLabel(c + [Label(lab)] + [Plain('1')], Range(lo, end), end, Range(lo, end + 1));
    assert u + [Label(lab)] + [Plain('1')] + [Label(end)]
        == [Jump('B', lab), Plain('0'), Jump('J', end), Label(lab), Plain('1'), Label(end)];
    assert c + [Label(lab)] + [Plain('1')] + [Label(end)]
        == a + [Jump('B', lab)] + b + (u + [Label(lab)] + [Plain('1')] + [Label(end)]);
  }

  lemma IfUses(a: seq<Instr>, lo: nat, lab: nat, b: seq<Instr>, hi: nat)
    requires lo <= lab < hi && Uses(a, Range(lo, lab)) && Uses(b, Range(lab + 1, hi))
    ensures Uses(a + [Jump('Z', lab)] + b + [Label(lab)], Range(lo, hi))
  {
    UsesPlain(a, Range(lo, lab), [Jump('Z', lab)]);
    UsesAppend(a + [Jump('Z', lab)], Range(lo, lab), b, Range(lab + 1, hi));
    UsesThenLabel(a + [Jump('Z', lab)] + b, Range(lo, lab) + Range(lab + 1, hi), lab, Range(lo, hi));
  }

  lemma IfElseUses(a: seq<Instr>, lo: nat, lab: nat, b: seq<Instr>, end: nat, f: seq<Instr>, hi: nat)
    requires lo <= lab < end < hi && Uses(a, Range(lo, lab)) && Uses(b, Range(lab + 1, end)) && Uses(f, Range(end + 1, hi))
    ensures Uses(a + [Jump('Z', lab)] + b + [Jump('J', end), Label(lab)] + f + [Label(end)], Range(lo, hi))
  {
    var c := a + [Jump('Z', lab)] + b;
    UsesPlain(a, Range(lo, lab), [Jump('Z', lab)]);
    UsesAppend(a + [Jump('Z', lab)], Range(lo, lab), b, Range(lab + 1, end));
    UsesPlain(c, Range(lo, lab) + Range(lab + 1, end), [Jump('J', end)]);
    UsesThenLabel(c + [Jump('J', end)], Range(lo, lab) + Range(lab + 1, end), lab, Range(lo, end));
    assert c + [Jump('J', end)] + [Label(lab)] == c + [Jump('J', end), Label(lab)];
    var d := c + [Jump('J', end), Label(lab)];
    UsesAppend(d, Range(lo, end), f, Range(end + 1, hi));
    UsesThenLabel(d + f, Range(lo, end) + Range(end + 1, hi), end, Range(lo, hi));
  }

  lemma WhileUses(start: nat, a: seq<Instr>, out: nat, b: seq<Instr>, hi: nat)
    requires start < out < hi && Uses(a, Range(start + 1, out)) && Uses(b, Range(out + 1, hi))
    ensures Uses([Label(start)] + a + [Jump('Z', out)] + b + [Jump('J', start), Label(out)], Range(start, hi))
  {
    UsesOne(start);
    UsesAppend([Label(start)], {start}, a, Range(start + 1, out));
    var c := [Label(start)] + a;
    assert {start} + Range(start + 1, out) == Range(start, out);
    UsesPlain(c, Range(start, out), [Jump('Z', out)]);
    UsesAppend(c + [Jump('Z', out)], Range(start, out), b, Range(out + 1, hi));
    var d := c + [Jump('Z', out)] + b;
    UsesPlain(d, Range(start, out) + Range(out + 1, hi), [Jump('J', start)]);
    UsesThenLabel(d + [Jump('J', start)], Range(start, out) + Range(out + 1, hi), out, Range(start, hi));
    assert d + [Jump('J', start)] + [Label(out)] == d + [Jump('J', start), Label(out)];
  }

  /** The front of a for: initialisation and test; out is still to be defined. */
  lemma ForFrontUses(out: nat, g: seq<Instr>, test: nat, h: seq<Instr>, body: nat)
    requires out < test < body && Uses(g, Range(out + 1, test)) && Uses(h, Range(test + 1, body))
    ensures Uses(g + [Plain('p'), Label(test)] + h + [Jump('B', body), Jump('J', out), Label(body + 1)],
                 Range(out + 1, body) + {body + 1})
  {
    UsesPlain(g, Range(out + 1, test), [Plain('p')]);
    UsesThenLabel(g + [Plain('p')], Range(out + 1, test), test, Range(out + 1, test + 1));
    assert g + [Plain('p')] + [Label(test)] == g + [Plain('p'), Label(test)];
    var c := g + [Plain('p'), Label(test)];
    UsesSeq(c, out + 1, test + 1, h, body);
    UsesPlain(c + h, Range(out + 1, body), [Jump('B', body), Jump('J', out)]);
    UsesThenLabel(c + h + [Jump('B', body), Jump('J', out)], Range(out + 1, body), body + 1, Range(out + 1, body) + {body + 1});
    assert c + h + [Jump('B', body), Jump('J', out)] + [Label(body + 1)]
        == c + h + [Jump('B', body), Jump('J', out), Label(body + 1)];
  }

  lemma ForBackUses(front: seq<Instr>, out: nat, test: nat, body: nat, k: seq<Instr>, mid: nat, l: seq<Instr>, hi: nat)
    requires out < body && body + 2 <= mid <= hi
    requires Uses(front, Range(out + 1, body) + {body + 1}) && Uses(k, Range(body + 2, mid)) && Uses(l, Range(mid, hi))
    ensures Uses(front + k + [Plain('p'), Jump('J', test), Label(body)] + l + [Jump('J', body + 1), Label(out)], Range(out, hi))
  {
    var s := Range(out + 1, body) + {body + 1};
    UsesAppend(front, s, k, Range(body + 2, mid));
    UsesPlain(front + k, s + Range(body + 2, mid), [Plain('p'), Jump('J', test)]);
    var c := front + k + [Plain('p'), Jump('J', test)];
    UsesThenLabel(c, s + Range(body + 2, mid), body, Range(out + 1, mid));
    assert c + [Label(body)] == front + k + [Plain('p'), Jump('J', test), Label(body)];
    UsesSeq(c + [Label(body)], out + 1, mid, l, hi);
    UsesPlain(c + [Label(body)] + l, Range(out + 1, hi), [Jump('J', body + 1)]);
    var d := c + [Label(body)] + l + [Jump('J', body + 1)];
    UsesThenLabel(d, Range(out + 1, hi), out, Range(out, hi));
    assert d + [Label(out)] == c + [Label(body)] + l + [Jump('J', body + 1), Label(out)];
  }

  // ---------------------------------------------------------------------
  // The compiler.
  // ---------------------------------------------------------------------

  /** Exactly the labels taken between two counter values are defined, each once. */
  ghost predicate Fresh(g: Gen, next: nat) { next <= g.next && Uses(g.code, Range(next, g.next)) }

  lemma {:induction false} FreshLValue(lv: LValue, next: nat)
    ensures Fresh(LValueCode(lv, next), next)
    decreases lv
  {
    if lv.Element? {
      FreshExpr(lv.index, next);
    } else {
      UsesNone([]);
    }
  }

  /** The labels of an expression's code are the ones it takes, each once. */
  lemma {:induction false} FreshExpr(e: Expr, next: nat)
    ensures Fresh(ExprCode(e, next), next)
    decreases e, 1
  {
    match e
    case Const(text) => UsesNone(ExprCode(e, next).code);
    case Load(lv) =>
      FreshLValue(lv, next);
      UsesPlain(LValueCode(lv, next).code, Range(next, LValueCode(lv, next).next), Loaded(lv));
    case Paren(a) => FreshExpr(a, next);
    case Assign(_, _, _) => FreshAssign(e, next);
    case Binary(op, l, r) => FreshPair(e, l, r, next);
    case Compare(op, l, r) => FreshPair(e, l, r, next);
    case Negate(a) => FreshUnary(e, a, Plain('n'), next);
    case Not(a) => FreshUnary(e, a, Plain('!'), next);
    case And(l, r) =>
      FreshExpr(l, next);
      var g := ExprCode(l, next);
      FreshExpr(r, g.next + 1);
      AndUses(g.code, next, g.next, ExprCode(r, g.next + 1).code, ExprCode(r, g.next + 1).next);
    case Or(l, r) =>
      FreshExpr(l, next);
      var g := ExprCode(l, next);
      FreshExpr(r, g.next + 1);
      OrUses(g.code, next, g.next, ExprCode(r, g.next + 1).code, ExprCode(r, g.next + 1).next);
    case Bump(pre, up, lv) =>
      FreshLValue(lv, next);
      UsesPlain(LValueCode(lv, next).code, Range(next, LValueCode(lv, next).next), Bumped(lv, pre, up));
    case Builtin(which, a) => FreshUnary(e, a, Special(which), next);
    case Call(f, args) =>
      FreshArgs(args, next);
      UsesPlain(ArgsCode(args, next).code, Range(next, ArgsCode(args, next).next), [Invoke(f, CallStr(args))]);
  }

  lemma {:induction false} FreshUnary(e: Expr, a: Expr, i: Instr, next: nat)
    requires !i.Label? && a < e
    ensures Fresh(Gen(ExprCode(a, next).code + [i], ExprCode(a, next).next), next)
    decreases e, 0
  {
    FreshExpr(a, next);
    UsesPlain(ExprCode(a, next).code, Range(next, ExprCode(a, next).next), [i]);
  }

  lemma {:induction false} FreshPair(e: Expr, l: Expr, r: Expr, next: nat)
    requires (e.Binary? || e.Compare?) && l == e.left && r == e.right
    ensures Fresh(ExprCode(e, next), next)
    decreases e, 0
  {
    var g := ExprCode(l, next);
    var h := ExprCode(r, g.next);
    FreshExpr(l, next);
    FreshExpr(r, g.next);
    UsesSeq(g.code, next, g.next, h.code, h.next);
    UsesPlain(g.code + h.code, Range(next, h.next), [Plain(e.op)]);
  }

  lemma {:induction false} FreshAssign(e: Expr, next: nat)
    requires e.Assign?
    ensures Fresh(ExprCode(e, next), next)
    decreases e, 0
  {
    var g := LValueCode(e.target, next);
    var h := ExprCode(e.rhs, g.next);
    var f, o := if e.op == '=' then [] else Fetched(e.target), if e.op == '=' then [] else [Plain(e.op)];
    FreshLValue(e.target, next);
    FreshExpr(e.rhs, g.next);
    UsesPlain(g.code, Range(next, g.next), f);
    UsesSeq(g.code + f, next, g.next, h.code, h.next);
    UsesPlain(g.code + f + h.code, Range(next, h.next), o);
    UsesPlain(g.code + f + h.code + o, Range(next, h.next), Stored(e.target));
  }

  lemma {:induction false} FreshArgs(args: Args, next: nat)
    ensures Fresh(ArgsCode(args, next), next)
    decreases args
  {
    match args
    case NoArgs => UsesNone([]);
    case Arg(e, others) =>
      var g := ExprCode(e, next);
      FreshExpr(e, next);
      FreshArgs(others, g.next);
      UsesSeq(g.code, next, g.next, ArgsCode(others, g.next).code, ArgsCode(others, g.next).next);
    case ArrayArg(a, others) =>
      FreshArgs(others, next);
      UsesPlain(ArgsCode(others, next).code, Range(next, ArgsCode(others, next).next), [Number(Decimal(a))]);
  }

  /** The same of statements. */
  lemma {:induction false} FreshStmt(s: Stmt, next: nat, brk: nat, cont: nat)
    ensures Fresh(StmtCode(s, next, brk, cont), next)
    decreases s, 1
  {
    match s
    case Eval(e) =>
      FreshExpr(e, next);
      UsesPlain(ExprCode(e, next).code, Range(next, ExprCode(e, next).next), [Plain(if Prints(e) then 'W' else 'p')]);
    case Text(t) => UsesNone([Show(t)]);
    case Block(body) => FreshStmts(body, next, brk, cont);
    case If(_, _) => FreshIf(s, next, brk, cont);
    case IfElse(_, _, _) => FreshIfElse(s, next, brk, cont);
    case While(_, _) => FreshWhile(s, next, brk, cont);
    case For(_, _, _, _) => FreshFor(s, next, brk, cont);
    case Break => UsesNone([Jump('J', brk)]);
    case Continue => UsesNone([Jump('J', cont)]);
    case Return(e) =>
      FreshExpr(e, next);
      UsesPlain(ExprCode(e, next).code, Range(next, ExprCode(e, next).next), [Plain('R')]);
  }

  lemma {:induction false} FreshIf(s: Stmt, next: nat, brk: nat, cont: nat)
    requires s.If?
    ensures Fresh(StmtCode(s, next, brk, cont), next)
    decreases s, 0
  {
    var g := ExprCode(s.cond, next);
    var h := StmtCode(s.thn, g.next + 1, brk, cont);
    FreshExpr(s.cond, next);
    FreshStmt(s.thn, g.next + 1, brk, cont);
    IfUses(g.code, next, g.next, h.code, h.next);
  }

  lemma {:induction false} FreshIfElse(s: Stmt, next: nat, brk: nat, cont: nat)
    requires s.IfElse?
    ensures Fresh(StmtCode(s, next, brk, cont), next)
    decreases s, 0
  {
    var g := ExprCode(s.cond, next);
    var h := StmtCode(s.thn, g.next + 1, brk, cont);
    var k := StmtCode(s.els, h.next + 1, brk, cont);
    FreshExpr(s.cond, next);
    FreshStmt(s.thn, g.next + 1, brk, cont);
    FreshStmt(s.els, h.next + 1, brk, cont);
    IfElseUses(g.code, next, g.next, h.code, h.next, k.code, k.next);
  }

  lemma {:induction false} FreshWhile(s: Stmt, next: nat, brk: nat, cont: nat)
    requires s.While?
    ensures Fresh(StmtCode(s, next, brk, cont), next)
    decreases s, 0
  {
    var g := ExprCode(s.cond, next + 1);
    var h := StmtCode(s.loop, g.next + 1, g.next, cont);
    FreshExpr(s.cond, next + 1);
    FreshStmt(s.loop, g.next + 1, g.next, cont);
    WhileUses(next, g.code, g.next, h.code, h.next);
  }

  lemma {:induction false} FreshFor(s: Stmt, next: nat, brk: nat, cont: nat)
    requires s.For?
    ensures Fresh(StmtCode(s, next, brk, cont), next)
    decreases s, 0
  {
    var g := ExprCode(s.init, next + 1);
    var h := ExprCode(s.cond, g.next + 1);
    var k := ExprCode(s.update, h.next + 2);
    var l := StmtCode(s.loop, k.next, next, h.next + 1);
    FreshExpr(s.init, next + 1);
    FreshExpr(s.cond, g.next + 1);
    FreshExpr(s.update, h.next + 2);
    FreshStmt(s.loop, k.next, next, h.next + 1);
    var front := g.code + [Plain('p'), Label(g.next)] + h.code + [Jump('B', h.next), Jump('J', next), Label(h.next + 1)];
    ForFrontUses(next, g.code, g.next, h.code, h.next);
    ForBackUses(front, next, g.next, h.next, k.code, k.next, l.code, l.next);
  }

  lemma {:induction false} FreshStmts(ss: Stmts, next: nat, brk: nat, cont: nat)
    ensures Fresh(StmtsCode(ss, next, brk, cont), next)
    decreases ss
  {
    match ss
    case Nil => UsesNone([]);
    case Cons(s, t) =>
      var g := StmtCode(s, next, brk, cont);
      FreshStmt(s, next, brk, cont);
      FreshStmts(t, g.next, brk, cont);
      UsesSeq(g.code, next, g.next, StmtsCode(t, g.next, brk, cont).code, StmtsCode(t, g.next, brk, cont).next);
  }

  // ---------------------------------------------------------------------
  // Jump targets.
  // ---------------------------------------------------------------------

  /** The labels a piece of code jumps to. */
  function Targets(code: seq<Instr>): set<nat> {
    set i | 0 <= i < |code| && code[i].Jump? :: code[i].lab
  }

  lemma TargetsAppend(a: seq<Instr>, b: seq<Instr>)
    ensures Targets(a + b) == Targets(a) + Targets(b)
  {
    forall l | l in Targets(a) ensures l in Targets(a + b) {
      var i :| 0 <= i < |a| && a[i].Jump? && a[i].lab == l;
      assert (a + b)[i] == a[i];
    }
    forall l | l in Targets(b) ensures l in Targets(a + b) {
      var i :| 0 <= i < |b| && b[i].Jump? && b[i].lab == l;
      assert (a + b)[|a| + i] == b[i];
    }
    forall l | l in Targets(a + b) ensures l in Targets(a) + Targets(b) {
      var i :| 0 <= i < |a + b| && (a + b)[i].Jump? && (a + b)[i].lab == l;
      if i < |a| {
        assert a[i] == (a + b)[i];
      } else {
        assert b[i - |a|] == (a + b)[i];
      }
    }
  }

  lemma NoTargets(a: seq<Instr>)
    requires forall i :: 0 <= i < |a| ==> !a[i].Jump?
    ensures Targets(a) == {}
  {
  }

  lemma OneTarget(c: char, l: nat)
    ensures Targets([Jump(c, l)]) == {l}
  {
    assert [Jump(c, l)][0] == Jump(c, l);
  }

  /** Two pieces of code and their jump targets. */
  lemma Targets2(a: seq<Instr>, s: set<nat>, b: seq<Instr>, t: set<nat>)
    requires Targets(a) == s && Targets(b) == t
    ensures Targets(a + b) == s + t
  {
    TargetsAppend(a, b);
  }

  lemma AndTargets(a: seq<Instr>, s: set<nat>, lab: nat, b: seq<Instr>, t: set<nat>)
    requires Targets(a) == s && Targets(b) == t
    ensures Targets(a + [Plain('D'), Jump('Z', lab), Plain('p')]
                    + b + [Plain('D'), Jump('Z', lab), Plain('p'), Plain('1'), Label(lab)]) == s + {lab} + t
  {
    var u, v := [Plain('D'), Jump('Z', lab), Plain('p')], [Plain('D'), Jump('Z', lab), Plain('p'), Plain('1'), Label(lab)];
    assert u[1] == Jump('Z', lab) && v[1] == Jump('Z', lab);
    assert Targets(u) == {lab} && Targets(v) == {lab};
    Targets2(a, s, u, {lab});
    Targets2(a + u, s + {lab}, b, t);
    Targets2(a + u + b, s + {lab} + t, v, {lab});
  }

  lemma OrTargets(a: seq<Instr>, s: set<nat>, lab: nat, b: seq<Instr>, t: set<nat>, end: nat)
    requires Targets(a) == s && Targets(b) == t
    ensures Targets(a + [Jump('B', lab)] + b
                    + [Jump('B', lab), Plain('0'), Jump('J', end), Label(lab), Plain('1'), Label(end)]) == s + {lab} + t + {end}
  {
    var v := [Jump('B', lab), Plain('0'), Jump('J', end), Label(lab), Plain('1'), Label(end)];
    assert v[0] == Jump('B', lab) && v[2] == Jump('J', end);
    assert Targets(v) == {lab, end};
    OneTarget('B', lab);
    Targets2(a, s, [Jump('B', lab)], {lab});
    Targets2(a + [Jump('B', lab)], s + {lab}, b, t);
    Targets2(a + [Jump('B', lab)] + b, s + {lab} + t, v, {lab, end});
  }

  lemma {:induction false} TargetsLValue(lv: LValue, next: nat)
    ensures Targets(LValueCode(lv, next).code) == Range(next, LValueCode(lv, next).next)
    decreases lv
  {
    if lv.Element? {
      TargetsExpr(lv.index, next);
    }
  }

  /** An expression jumps exactly to the labels it takes: all its jumps stay inside. */
  lemma {:induction false} TargetsExpr(e: Expr, next: nat)
    ensures Targets(ExprCode(e, next).code) == Range(next, ExprCode(e, next).next)
    decreases e, 1
  {
    match e
    case Const(text) => NoTargets(ExprCode(e, next).code);
    case Load(lv) =>
      TargetsLValue(lv, next);
      NoTargets(Loaded(lv));
      Targets2(LValueCode(lv, next).code, Range(next, LValueCode(lv, next).next), Loaded(lv), {});
    case Paren(a) => TargetsExpr(a, next);
    case Assign(_, _, _) => TargetsAssign(e, next);
    case Binary(_, _, _) => TargetsPair(e, next);
    case Compare(_, _, _) => TargetsPair(e, next);
    case Negate(a) =>
      TargetsExpr(a, next);
      Targets2(ExprCode(a, next).code, Range(next, ExprCode(a, next).next), [Plain('n')], {});
    case Not(a) =>
      TargetsExpr(a, next);
      Targets2(ExprCode(a, next).code, Range(next, ExprCode(a, next).next), [Plain('!')], {});
    case And(_, _) => TargetsAnd(e, next);
    case Or(_, _) => TargetsOr(e, next);
    case Bump(pre, up, lv) =>
      TargetsLValue(lv, next);
      NoTargets(Bumped(lv, pre, up));
      Targets2(LValueCode(lv, next).code, Range(next, LValueCode(lv, next).next), Bumped(lv, pre, up), {});
    case Builtin(which, a) =>
      TargetsExpr(a, next);
      Targets2(ExprCode(a, next).code, Range(next, ExprCode(a, next).next), [Special(which)], {});
    case Call(f, args) =>
      TargetsArgs(args, next);
      Targets2(ArgsCode(args, next).code, Range(next, ArgsCode(args, next).next), [Invoke(f, CallStr(args))], {});
  }

  lemma {:induction false} TargetsPair(e: Expr, next: nat)
    requires e.Binary? || e.Compare?
    ensures Targets(ExprCode(e, next).code) == Range(next, ExprCode(e, next).next)
    decreases e, 0
  {
    var g := ExprCode(e.left, next);
    var h := ExprCode(e.right, g.next);
    TargetsExpr(e.left, next);
    TargetsExpr(e.right, g.next);
    FreshExpr(e.left, next);
    FreshExpr(e.right, g.next);
    RangeJoin(next, g.next, h.next);
    Targets2(g.code, Range(next, g.next), h.code, Range(g.next, h.next));
    Targets2(g.code + h.code, Range(next, h.next), [Plain(e.op)], {});
  }

  lemma {:induction false} TargetsAnd(e: Expr, next: nat)
    requires e.And?
    ensures Targets(ExprCode(e, next).code) == Range(next, ExprCode(e, next).next)
    decreases e, 0
  {
    var g := ExprCode(e.left, next);
    var h := ExprCode(e.right, g.next + 1);
    TargetsExpr(e.left, next);
    TargetsExpr(e.right, g.next + 1);
    FreshExpr(e.left, next);
    FreshExpr(e.right, g.next + 1);
    AndTargets(g.code, Range(next, g.next), g.next, h.code, Range(g.next + 1, h.next));
    assert Range(next, g.next) + {g.next} + Range(g.next + 1, h.next) == Range(next, h.next);
  }

  lemma {:induction false} TargetsOr(e: Expr, next: nat)
    requires e.Or?
    ensures Targets(ExprCode(e, next).code) == Range(next, ExprCode(e, next).next)
    decreases e, 0
  {
    var g := ExprCode(e.left, next);
    var h := ExprCode(e.right, g.next + 1);
    TargetsExpr(e.left, next);
    TargetsExpr(e.right, g.next + 1);
    FreshExpr(e.left, next);
    FreshExpr(e.right, g.next + 1);
    OrTargets(g.code, Range(next, g.next), g.next, h.code, Range(g.next + 1, h.next), h.next);
    assert Range(next, g.next) + {g.next} + Range(g.next + 1, h.next) + {h.next} == Range(next, h.next + 1);
  }

  lemma {:induction false} TargetsAssign(e: Expr, next: nat)
    requires e.Assign?
    ensures Targets(ExprCode(e, next).code) == Range(next, ExprCode(e, next).next)
    decreases e, 0
  {
    var g := LValueCode(e.target, next);
    var h := ExprCode(e.rhs, g.next);
    var f, o := if e.op == '=' then [] else Fetched(e.target), if e.op == '=' then [] else [Plain(e.op)];
    TargetsLValue(e.target, next);
    TargetsExpr(e.rhs, g.next);
    FreshLValue(e.target, next);
    FreshExpr(e.rhs, g.next);
    RangeJoin(next, g.next, h.next);
    NoTargets(f);
    NoTargets(o);
    NoTargets(Stored(e.target));
    Targets2(g.code, Range(next, g.next), f, {});
    Targets2(g.code + f, Range(next, g.next), h.code, Range(g.next, h.next));
    Targets2(g.code + f + h.code, Range(next, h.next), o, {});
    Targets2(g.code + f + h.code + o, Range(next, h.next), Stored(e.target), {});
  }

  lemma {:induction false} TargetsArgs(args: Args, next: nat)
    ensures Targets(ArgsCode(args, next).code) == Range(next, ArgsCode(args, next).next)
    decreases args
  {
    match args
    case NoArgs =>
    case Arg(e, others) =>
      var g := ExprCode(e, next);
      var h := ArgsCode(others, g.next);
      TargetsExpr(e, next);
      TargetsArgs(others, g.next);
      FreshExpr(e, next);
      FreshArgs(others, g.next);
      RangeJoin(next, g.next, h.next);
      Targets2(g.code, Range(next, g.next), h.code, Range(g.next, h.next));
    case ArrayArg(a, others) =>
      TargetsArgs(others, next);
      NoTargets([Number(Decimal(a))]);
      Targets2([Number(Decimal(a))], {}, ArgsCode(others, next).code, Range(next, ArgsCode(others, next).next));
  }

  /** Code that jumps to every label in s and otherwise only to labels in x. */
  ghost predicate Aims(code: seq<Instr>, s: set<nat>, x: set<nat>) { s <= Targets(code) <= s + x }

  lemma Aims2(a: seq<Instr>, s: set<nat>, b: seq<Instr>, t: set<nat>, x: set<nat>)
    requires Aims(a, s, x) && Aims(b, t, x)
    ensures Aims(a + b, s + t, x)
  {
    TargetsAppend(a, b);
  }

  /** Code with known targets among others. */
  lemma AimsThen(a: seq<Instr>, s: set<nat>, x: set<nat>, b: seq<Instr>, t: set<nat>)
    requires Aims(a, s, x) && Targets(b) == t
    ensures Aims(a + b, s + t, x) && Aims(b + a, s + t, x)
  {
    TargetsAppend(a, b);
    TargetsAppend(b, a);
  }

  /** Where break and continue may lead. */
  function Outside(brk: nat, inLoop: bool, cont: nat, inFor: bool): set<nat> {
    (if inLoop then {brk} else {}) + (if inFor then {cont} else {})
  }

  /** A statement jumps to every label it takes, and otherwise only to where
      an enclosing loop's break or continue leads. */
  lemma {:induction false} TargetsStmt(s: Stmt, next: nat, brk: nat, cont: nat, inLoop: bool, inFor: bool)
    requires GoodStmt(s, inLoop, inFor)
    ensures Aims(StmtCode(s, next, brk, cont).code, Range(next, StmtCode(s, next, brk, cont).next), Outside(brk, inLoop, cont, inFor))
    decreases s, 1
  {
    var x := Outside(brk, inLoop, cont, inFor);
    match s
    case Eval(e) =>
      TargetsExpr(e, next);
      Targets2(ExprCode(e, next).code, Range(next, ExprCode(e, next).next), [Plain(if Prints(e) then 'W' else 'p')], {});
    case Text(t) => NoTargets([Show(t)]);
    case Block(body) => TargetsStmts(body, next, brk, cont, inLoop, inFor);
    case If(_, _) => TargetsIf(s, next, brk, cont, inLoop, inFor);
    case IfElse(_, _, _) => TargetsIfElse(s, next, brk, cont, inLoop, inFor);
    case While(_, _) => TargetsWhile(s, next, brk, cont, inLoop, inFor);
    case For(_, _, _, _) => TargetsFor(s, next, brk, cont, inLoop, inFor);
    case Break => OneTarget('J', brk);
    case Continue => OneTarget('J', cont);
    case Return(e) =>
      TargetsExpr(e, next);
      Targets2(ExprCode(e, next).code, Range(next, ExprCode(e, next).next), [Plain('R')], {});
  }

  lemma {:induction false} TargetsStmts(ss: Stmts, next: nat, brk: nat, cont: nat, inLoop: bool, inFor: bool)
    requires GoodStmts(ss, inLoop, inFor)
    ensures Aims(StmtsCode(ss, next, brk, cont).code, Range(next, StmtsCode(ss, next, brk, cont).next), Outside(brk, inLoop, cont, inFor))
    decreases ss, 1
  {
    match ss
    case Nil =>
    case Cons(s, t) =>
      var g := StmtCode(s, next, brk, cont);
      var h := StmtsCode(t, g.next, brk, cont);
      TargetsStmt(s, next, brk, cont, inLoop, inFor);
      TargetsStmts(t, g.next, brk, cont, inLoop, inFor);
      FreshStmt(s, next, brk, cont);
      FreshStmts(t, g.next, brk, cont);
      RangeJoin(next, g.next, h.next);
      Aims2(g.code, Range(next, g.next), h.code, Range(g.next, h.next), Outside(brk, inLoop, cont, inFor));
  }

  lemma {:induction false} TargetsIf(s: Stmt, next: nat, brk: nat, cont: nat, inLoop: bool, inFor: bool)
    requires s.If? && GoodStmt(s, inLoop, inFor)
    ensures Aims(StmtCode(s, next, brk, cont).code, Range(next, StmtCode(s, next, brk, cont).next), Outside(brk, inLoop, cont, inFor))
    decreases s, 0
  {
    var x, g := Outside(brk, inLoop, cont, inFor), ExprCode(s.cond, next);
    var lab := g.next;
    var h := StmtCode(s.thn, lab + 1, brk, cont);
    TargetsExpr(s.cond, next);
    FreshExpr(s.cond, next);
    TargetsStmt(s.thn, lab + 1, brk, cont, inLoop, inFor);
    FreshStmt(s.thn, lab + 1, brk, cont);
    IfAims(g.code, next, lab, h.code, h.next, x);
  }

  lemma IfAims(a: seq<Instr>, lo: nat, lab: nat, b: seq<Instr>, hi: nat, x: set<nat>)
    requires lo <= lab < hi && Targets(a) == Range(lo, lab) && Aims(b, Range(lab + 1, hi), x)
    ensures Aims(a + [Jump('Z', lab)] + b + [Label(lab)], Range(lo, hi), x)
  {
    OneTarget('Z', lab);
    Targets2(a, Range(lo, lab), [Jump('Z', lab)], {lab});
    AimsThen(b, Range(lab + 1, hi), x, a + [Jump('Z', lab)], Range(lo, lab) + {lab});
    NoTargets([Label(lab)]);
    AimsThen(a + [Jump('Z', lab)] + b, Range(lab + 1, hi) + (Range(lo, lab) + {lab}), x, [Label(lab)], {});
    assert Range(lab + 1, hi) + (Range(lo, lab) + {lab}) + {} == Range(lo, hi);
  }

  lemma {:induction false} TargetsIfElse(s: Stmt, next: nat, brk: nat, cont: nat, inLoop: bool, inFor: bool)
    requires s.IfElse? && GoodStmt(s, inLoop, inFor)
    ensures Aims(StmtCode(s, next, brk, cont).code, Range(next, StmtCode(s, next, brk, cont).next), Outside(brk, inLoop, cont, inFor))
    decreases s, 0
  {
    var x, g := Outside(brk, inLoop, cont, inFor), ExprCode(s.cond, next);
    var lab := g.next;
    var h := StmtCode(s.thn, lab + 1, brk, cont);
    var end := h.next;
    var k := StmtCode(s.els, end + 1, brk, cont);
    TargetsExpr(s.cond, next);
    FreshExpr(s.cond, next);
    TargetsStmt(s.thn, lab + 1, brk, cont, inLoop, inFor);
    FreshStmt(s.thn, lab + 1, brk, cont);
    TargetsStmt(s.els, end + 1, brk, cont, inLoop, inFor);
    FreshStmt(s.els, end + 1, brk, cont);
    IfElseAims(g.code, next, lab, h.code, end, k.code, k.next, x);
  }

  lemma IfElseAims(a: seq<Instr>, lo: nat, lab: nat, b: seq<Instr>, end: nat, f: seq<Instr>, hi: nat, x: set<nat>)
    requires lo <= lab < end < hi && Targets(a) == Range(lo, lab)
    requires Aims(b, Range(lab + 1, end), x) && Aims(f, Range(end + 1, hi), x)
    ensures Aims(a + [Jump('Z', lab)] + b + [Jump('J', end), Label(lab)] + f + [Label(end)], Range(lo, hi), x)
  {
    var s1, s2 := Range(lo, lab) + {lab}, Range(lab + 1, end);
    OneTarget('Z', lab);
    Targets2(a, Range(lo, lab), [Jump('Z', lab)], {lab});
    AimsThen(b, s2, x, a + [Jump('Z', lab)], s1);
    var c := a + [Jump('Z', lab)] + b;
    assert [Jump('J', end), Label(lab)][0] == Jump('J', end);
    assert Targets([Jump('J', end), Label(lab)]) == {end};
    AimsThen(c, s2 + s1, x, [Jump('J', end), Label(lab)], {end});
    Aims2(c + [Jump('J', end), Label(lab)], s2 + s1 + {end}, f, Range(end + 1, hi), x);
    NoTargets([Label(end)]);
    AimsThen(c + [Jump('J', end), Label(lab)] + f, s2 + s1 + {end} + Range(end + 1, hi), x, [Label(end)], {});
    IfElseRange(lo, lab, end, hi);
  }

  lemma IfElseRange(lo: nat, lab: nat, end: nat, hi: nat)
    requires lo <= lab < end < hi
    ensures Range(lab + 1, end) + (Range(lo, lab) + {lab}) + {end} + Range(end + 1, hi) + {} == Range(lo, hi)
  {
    var all := Range(lab + 1, end) + (Range(lo, lab) + {lab}) + {end} + Range(end + 1, hi) + {};
    forall l: nat ensures l in all <==> l in Range(lo, hi) {
    }
  }

  lemma {:induction false} TargetsWhile(s: Stmt, next: nat, brk: nat, cont: nat, inLoop: bool, inFor: bool)
    requires s.While? && GoodStmt(s, inLoop, inFor)
    ensures Aims(StmtCode(s, next, brk, cont).code, Range(next, StmtCode(s, next, brk, cont).next), Outside(brk, inLoop, cont, inFor))
    decreases s, 0
  {
    var g := ExprCode(s.cond, next + 1);
    var out := g.next;
    var h := StmtCode(s.loop, out + 1, out, cont);
    TargetsExpr(s.cond, next + 1);
    FreshExpr(s.cond, next + 1);
    TargetsStmt(s.loop, out + 1, out, cont, true, inFor);
    FreshStmt(s.loop, out + 1, out, cont);
    WhileAims(next, g.code, out, h.code, h.next, Outside(out, true, cont, inFor), Outside(brk, inLoop, cont, inFor));
  }

  lemma WhileAims(start: nat, a: seq<Instr>, out: nat, b: seq<Instr>, hi: nat, x: set<nat>, y: set<nat>)
    requires start < out < hi && Targets(a) == Range(start + 1, out) && Aims(b, Range(out + 1, hi), x) && x <= {out} + y
    ensures Aims([Label(start)] + a + [Jump('Z', out)] + b + [Jump('J', start), Label(out)], Range(start, hi), y)
  {
    NoTargets([Label(start)]);
    OneTarget('Z', out);
    Targets2([Label(start)], {}, a, Range(start + 1, out));
    Targets2([Label(start)] + a, {} + Range(start + 1, out), [Jump('Z', out)], {out});
    var s1 := {} + Range(start + 1, out) + {out};
    AimsThen(b, Range(out + 1, hi), x, [Label(start)] + a + [Jump('Z', out)], s1);
    assert [Jump('J', start), Label(out)][0] == Jump('J', start);
    assert Targets([Jump('J', start), Label(out)]) == {start};
    var c := [Label(start)] + a + [Jump('Z', out)] + b;
    AimsThen(c, Range(out + 1, hi) + s1, x, [Jump('J', start), Label(out)], {start});
    assert Range(out + 1, hi) + s1 + {start} == Range(start, hi);
  }

  lemma {:induction false} TargetsFor(s: Stmt, next: nat, brk: nat, cont: nat, inLoop: bool, inFor: bool)
    requires s.For? && GoodStmt(s, inLoop, inFor)
    ensures Aims(StmtCode(s, next, brk, cont).code, Range(next, StmtCode(s, next, brk, cont).next), Outside(brk, inLoop, cont, inFor))
    decreases s, 0
  {
    var again, mid := ForAgain(s, next), ForBody(s, next);
    var l := StmtCode(s.loop, mid, next, again);
    HeadTargets(s, next);
    TargetsStmt(s.loop, mid, next, again, true, true);
    FreshStmt(s.loop, mid, next, again);
    ForIs(s, next, brk, cont);
    ForAims(ForHead(s, next), next, again, mid, l.code, l.next, Outside(brk, inLoop, cont, inFor));
  }

  /** The code in front of the body of a for. */
  lemma HeadTargets(s: Stmt, next: nat)
    requires s.For?
    ensures next < ForAgain(s, next) < ForBody(s, next)
    ensures Targets(ForHead(s, next)) == Range(next, ForBody(s, next)) - {ForAgain(s, next)}
  {
    var g := ExprCode(s.init, next + 1);
    var h := ExprCode(s.cond, g.next + 1);
    var k := ExprCode(s.update, h.next + 2);
    TargetsExpr(s.init, next + 1);
    TargetsExpr(s.cond, g.next + 1);
    TargetsExpr(s.update, h.next + 2);
    FreshExpr(s.init, next + 1);
    FreshExpr(s.cond, g.next + 1);
    FreshExpr(s.update, h.next + 2);
    ForTargets(next, g.code, g.next, h.code, h.next, k.code, k.next);
  }

  lemma ForTargets(out: nat, g: seq<Instr>, test: nat, h: seq<Instr>, body: nat, k: seq<Instr>, mid: nat)
    requires out < test < body && body + 2 <= mid && Targets(g) == Range(out + 1, test)
    requires Targets(h) == Range(test + 1, body) && Targets(k) == Range(body + 2, mid)
    ensures Targets(g + [Plain('p'), Label(test)] + h + [Jump('B', body), Jump('J', out), Label(body + 1)]
                    + k + [Plain('p'), Jump('J', test), Label(body)]) == Range(out, mid) - {body + 1}
  {
    var u, v, w := [Plain('p'), Label(test)], [Jump('B', body), Jump('J', out), Label(body + 1)], [Plain('p'), Jump('J', test), Label(body)];
    NoTargets(u);
    assert v[0] == Jump('B', body) && v[1] == Jump('J', out) && w[1] == Jump('J', test);
    assert Targets(v) == {body, out} && Targets(w) == {test};
    Targets2(g, Range(out + 1, test), u, {});
    Targets2(g + u, Range(out + 1, test) + {}, h, Range(test + 1, body));
    Targets2(g + u + h, Range(out + 1, test) + {} + Range(test + 1, body), v, {body, out});
    var s := Range(out + 1, test) + {} + Range(test + 1, body) + {body, out};
    Targets2(g + u + h + v, s, k, Range(body + 2, mid));
    Targets2(g + u + h + v + k, s + Range(body + 2, mid), w, {test});
    HeadRange(out, test, body, mid);
  }

  lemma HeadRange(out: nat, test: nat, body: nat, mid: nat)
    requires out < test < body && body + 2 <= mid
    ensures Range(out + 1, test) + {} + Range(test + 1, body) + {body, out} + Range(body + 2, mid) + {test}
         == Range(out, mid) - {body + 1}
  {
    var all := Range(out + 1, test) + {} + Range(test + 1, body) + {body, out} + Range(body + 2, mid) + {test};
    forall l: nat ensures l in all <==> l in Range(out, mid) - {body + 1} {
    }
  }

  lemma ForAims(front: seq<Instr>, out: nat, again: nat, mid: nat, l: seq<Instr>, hi: nat, y: set<nat>)
    requires out < again < mid <= hi && Targets(front) == Range(out, mid) - {again}
    requires Aims(l, Range(mid, hi), Outside(out, true, again, true))
    ensures Aims(front + l + [Jump('J', again), Label(out)], Range(out, hi), y)
  {
    var x, s := Outside(out, true, again, true), Range(out, mid) - {again};
    AimsThen(l, Range(mid, hi), x, front, s);
    assert [Jump('J', again), Label(out)][0] == Jump('J', again);
    assert Targets([Jump('J', again), Label(out)]) == {again};
    AimsThen(front + l, Range(mid, hi) + s, x, [Jump('J', again), Label(out)], {again});
    assert Range(mid, hi) + s + {again} == Range(out, hi);
  }
}
