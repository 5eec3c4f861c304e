/** The semantic actions of the grammar as they run: they update the label
    counters and append code. */
module BcGenerator {
  import opened Wrappers
  import opened BcSyntax
  import opened BcCompile
  import opened DecimalText
  import BcText
  import L = BcLabels
  import S = BcSimulation
  import F = BcFunctions

  /** The text is the one in front and then that of the items. */
  ghost predicate TextIs(text: seq<char>, front: seq<char>, items: seq<Instr>) {
    forall k: nat {:trigger Exactly(k, |front|)} ::
      Exactly(k, |front|) ==> k <= |text| && text[..k] == front && text[k..] == BcText.TextAll(items)
  }

  lemma TextStarts(front: seq<char>)
    ensures TextIs(front, front, [])
  {
  }

  lemma TextOne(items: seq<Instr>, i: Instr)
    ensures BcText.TextAll(items + [i]) == BcText.TextAll(items) + BcText.Text(i)
  {
    BcText.TextAllAppend(items, [i]);
    assert BcText.TextAll([i]) == BcText.Text(i) + BcText.TextAll([]) == BcText.Text(i);
  }

  lemma Behind(text: seq<char>, k: nat, more: seq<char>)
    requires k <= |text|
    ensures (text + more)[..k] == text[..k] && (text + more)[k..] == text[k..] + more
  {
  }

  lemma TextGrows(text: seq<char>, front: seq<char>, items: seq<Instr>, i: Instr)
    requires TextIs(text, front, items)
    ensures TextIs(text + BcText.Text(i), front, items + [i])
  {
    assert Exactly(|front|, |front|);
    TextOne(items, i);
    Behind(text, |front|, BcText.Text(i));
  }

  lemma WholeText(text: seq<char>, front: seq<char>, items: seq<Instr>)
    requires TextIs(text, front, items)
    ensures text == front + BcText.TextAll(items)
  {
    assert Exactly(|front|, |front|);
  }

  class Generator {
    var nextLabel: nat
    var breakLabel: nat
    var continueLabel: nat
    var ifLabel: nat
    var hadError: bool
    var text: seq<char>
    /** The emitted items, whose character form follows the text in front. */
    ghost var items: seq<Instr>
    ghost var front: seq<char>

    ghost predicate Valid()
      reads this
    {
      TextIs(text, front, items)
    }

    /** init_gen. */
    constructor ()
      ensures Valid() && text == [] && front == [] && items == [] && nextLabel == 1 && breakLabel == 0 && continueLabel == 0 && !hadError
    {
      nextLabel, breakLabel, continueLabel, ifLabel, hadError := 1, 0, 0, 0, false;
      text, items, front := [], [], [];
      new;
      TextStarts([]);
    }

    /** generate, for one item. */
    method Emit(i: Instr)
      requires Valid()
      modifies this`text, this`items
      ensures Valid() && items == old(items) + [i]
    {
      TextGrows(text, front, items, i);
      text := text + BcText.Text(i);
      items := items + [i];
    }

    method EmitAll(code: seq<Instr>)
      requires Valid()
      modifies this`text, this`items
      ensures Valid() && items == old(items) + code
    {
      var k := 0;
      while k < |code|
        invariant 0 <= k <= |code| && Valid() && items == old(items) + code[..k]
      {
        Emit(code[k]);
        assert code[..k + 1] == code[..k] + [code[k]];
        k := k + 1;
      }
    }

    method TakeLabel() returns (l: nat)
      modifies this`nextLabel
      ensures l == old(nextLabel) && nextLabel == l + 1
    {
      l := nextLabel;
      nextLabel := nextLabel + 1;
    }

    method GenLValue(lv: LValue)
      requires Valid()
      modifies this`nextLabel, this`text, this`items
      ensures Valid() && items == old(items) + LValueCode(lv, old(nextLabel)).code
      ensures nextLabel == LValueCode(lv, old(nextLabel)).next
      decreases lv
    {
      if lv.Element? {
        GenExpr(lv.index);
      }
    }

    /** The actions of an expression, in the order the parser runs them. */
    method GenExpr(e: Expr)
      requires Valid()
      modifies this`nextLabel, this`text, this`items
      ensures Valid() && items == old(items) + ExprCode(e, old(nextLabel)).code
      ensures nextLabel == ExprCode(e, old(nextLabel)).next
      decreases e, 1
    {
      match e
      case Const(t) =>
        Emit(if t == "0" then Plain('0') else if t == "1" then Plain('1') else Number(t));
      case Load(lv) => GenLoad(e);
      case Paren(a) => GenExpr(a);
      case Assign(_, _, _) => GenAssign(e);
      case Binary(_, _, _) => GenPair(e);
      case Compare(_, _, _) => GenPair(e);
      case Negate(a) => GenUnary(e, a, Plain('n'));
      case Not(a) => GenUnary(e, a, Plain('!'));
      case And(_, _) => GenAnd(e);
      case Or(_, _) => GenOr(e);
      case Bump(_, _, _) => GenBump(e);
      case Builtin(which, a) => GenUnary(e, a, Special(which));
      case Call(_, _) => GenCall(e);
    }

    method GenUnary(e: Expr, a: Expr, i: Instr)
      requires Valid() && a < e
      requires ExprCode(e, nextLabel) == Gen(ExprCode(a, nextLabel).code + [i], ExprCode(a, nextLabel).next)
      modifies this`nextLabel, this`text, this`items
      ensures Valid() && items == old(items) + ExprCode(e, old(nextLabel)).code
      ensures nextLabel == ExprCode(e, old(nextLabel)).next
      decreases e, 0
    {
      ghost var g := ExprCode(a, nextLabel);
      GenExpr(a);
      Emit(i);
      Glue(old(items), g.code, [i]);
    }

    method GenLoad(e: Expr)
      requires Valid() && e.Load?
      modifies this`nextLabel, this`text, this`items
      ensures Valid() && items == old(items) + ExprCode(e, old(nextLabel)).code
      ensures nextLabel == ExprCode(e, old(nextLabel)).next
      decreases e, 0
    {
      ghost var g := LValueCode(e.lv, nextLabel);
      GenLValue(e.lv);
      EmitAll(Loaded(e.lv));
      Glue(old(items), g.code, Loaded(e.lv));
    }

    method GenBump(e: Expr)
      requires Valid() && e.Bump?
      modifies this`nextLabel, this`text, this`items
      ensures Valid() && items == old(items) + ExprCode(e, old(nextLabel)).code
      ensures nextLabel == ExprCode(e, old(nextLabel)).next
      decreases e, 0
    {
      ghost var g := LValueCode(e.lv, nextLabel);
      GenLValue(e.lv);
      EmitAll(Bumped(e.lv, e.pre, e.up));
      Glue(old(items), g.code, Bumped(e.lv, e.pre, e.up));
    }

    method GenPair(e: Expr)
      requires Valid() && (e.Binary? || e.Compare?)
      modifies this`nextLabel, this`text, this`items
      ensures Valid() && items == old(items) + ExprCode(e, old(nextLabel)).code
      ensures nextLabel == ExprCode(e, old(nextLabel)).next
      decreases e, 0
    {
      ghost var g := ExprCode(e.left, nextLabel);
      ghost var h := ExprCode(e.right, g.next);
      GenExpr(e.left);
      GenExpr(e.right);
      Emit(Plain(e.op));
      Glue(old(items), g.code, h.code);
      Glue(old(items), g.code + h.code, [Plain(e.op)]);
    }

    method GenAssign(e: Expr)
      requires Valid() && e.Assign?
      modifies this`nextLabel, this`text, this`items
      ensures Valid() && items == old(items) + ExprCode(e, old(nextLabel)).code
      ensures nextLabel == ExprCode(e, old(nextLabel)).next
      decreases e, 0
    {
      var f, o := if e.op == '=' then [] else Fetched(e.target), if e.op == '=' then [] else [Plain(e.op)];
      ghost var g := LValueCode(e.target, nextLabel);
      ghost var h := ExprCode(e.rhs, g.next);
      GenLValue(e.target);
      EmitAll(f);
      GenExpr(e.rhs);
      EmitAll(o);
      EmitAll(Stored(e.target));
      Glue(old(items), g.code, f);
      Glue(old(items), g.code + f, h.code);
      Glue(old(items), g.code + f + h.code, o);
      Glue(old(items), g.code + f + h.code + o, Stored(e.target));
    }

    method GenAnd(e: Expr)
      requires Valid() && e.And?
      modifies this`nextLabel, this`text, this`items
      ensures Valid() && items == old(items) + ExprCode(e, old(nextLabel)).code
      ensures nextLabel == ExprCode(e, old(nextLabel)).next
      decreases e, 0
    {
      ghost var g := ExprCode(e.left, nextLabel);
      ghost var h := ExprCode(e.right, g.next + 1);
      GenExpr(e.left);
      var lab := TakeLabel();
      var u, v := [Plain('D'), Jump('Z', lab), Plain('p')], [Plain('D'), Jump('Z', lab), Plain('p'), Plain('1'), Label(lab)];
      EmitAll(u);
      GenExpr(e.right);
      EmitAll(v);
      Glue4(old(items), g.code, u, h.code, v);
    }

    method GenOr(e: Expr)
      requires Valid() && e.Or?
      modifies this`nextLabel, this`text, this`items
      ensures Valid() && items == old(items) + ExprCode(e, old(nextLabel)).code
      ensures nextLabel == ExprCode(e, old(nextLabel)).next
      decreases e, 0
    {
      ghost var g := ExprCode(e.left, nextLabel);
      ghost var h := ExprCode(e.right, g.next + 1);
      GenExpr(e.left);
      var lab := TakeLabel();
      Emit(Jump('B', lab));
      GenExpr(e.right);
      var end := TakeLabel();
      var v := [Jump('B', lab), Plain('0'), Jump('J', end), Label(lab), Plain('1'), Label(end)];
      EmitAll(v);
      Glue4(old(items), g.code, [Jump('B', lab)], h.code, v);
    }

    method GenCall(e: Expr)
      requires Valid() && e.Call?
      modifies this`nextLabel, this`text, this`items
      ensures Valid() && items == old(items) + ExprCode(e, old(nextLabel)).code
      ensures nextLabel == ExprCode(e, old(nextLabel)).next
      decreases e, 0
    {
      ghost var g := ArgsCode(e.args, nextLabel);
      GenArgs(e.args);
      Emit(Invoke(e.f, CallStr(e.args)));
      Glue(old(items), g.code, [Invoke(e.f, CallStr(e.args))]);
    }

    method GenArgs(args: Args)
      requires Valid()
      modifies this`nextLabel, this`text, this`items
      ensures Valid() && items == old(items) + ArgsCode(args, old(nextLabel)).code
      ensures nextLabel == ArgsCode(args, old(nextLabel)).next
      decreases args
    {
      match args
      case NoArgs =>
      case Arg(e, others) =>
        ghost var g := ExprCode(e, nextLabel);
        GenExpr(e);
        GenArgs(others);
        Glue(old(items), g.code, ArgsCode(others, g.next).code);
      case ArrayArg(a, others) =>
        Emit(Number(Decimal(a)));
        GenArgs(others);
        Glue(old(items), [Number(Decimal(a))], ArgsCode(others, old(nextLabel)).code);
    }

    // -------------------------------------------------------------------
    // Statements.
    // -------------------------------------------------------------------

    /** The labels of the enclosing constructs are as they were. */
    predicate Restored(brk: nat, cont: nat, lab: nat)
      reads this
    {
      breakLabel == brk && continueLabel == cont && ifLabel == lab
    }

    /** The actions of a statement; a break or continue without a target is
        reported and emits nothing. */
    method GenStmt(s: Stmt)
      requires Valid() && nextLabel > 0
      modifies this`nextLabel, this`breakLabel, this`continueLabel, this`ifLabel, this`hadError, this`text, this`items
      ensures Valid() && Restored(old(breakLabel), old(continueLabel), old(ifLabel))
      ensures nextLabel == StmtCode(s, old(nextLabel), old(breakLabel), old(continueLabel)).next
      ensures hadError <==> old(hadError) || Stray(s, old(breakLabel) != 0, old(continueLabel) != 0)
      ensures !hadError ==>
        items == old(items) + StmtCode(s, old(nextLabel), old(breakLabel), old(continueLabel)).code
      decreases s, 2
    {
      match s
      case Eval(e) =>
        ghost var g := ExprCode(e, nextLabel);
        GenExpr(e);
        Emit(Plain(if Prints(e) then 'W' else 'p'));
        Glue(old(items), g.code, [Plain(if Prints(e) then 'W' else 'p')]);
      case Text(t) => Emit(Show(t));
      case Block(body) => GenStmts(body);
      case If(_, _) => GenIf(s);
      case IfElse(_, _, _) => GenIfElse(s);
      case While(_, _) => GenWhile(s);
      case For(_, _, _, _) => GenFor(s);
      case Break =>
        if breakLabel == 0 { hadError := true; } else { Emit(Jump('J', breakLabel)); }
      case Continue =>
        if continueLabel == 0 { hadError := true; } else { Emit(Jump('J', continueLabel)); }
      case Return(e) =>
        ghost var g := ExprCode(e, nextLabel);
        GenExpr(e);
        Emit(Plain('R'));
        Glue(old(items), g.code, [Plain('R')]);
    }

    method GenIf(s: Stmt)
      requires Valid() && nextLabel > 0 && s.If?
      modifies this`nextLabel, this`breakLabel, this`continueLabel, this`ifLabel, this`hadError, this`text, this`items
      ensures Valid() && Restored(old(breakLabel), old(continueLabel), old(ifLabel))
      ensures nextLabel == StmtCode(s, old(nextLabel), old(breakLabel), old(continueLabel)).next
      ensures hadError <==> old(hadError) || Stray(s, old(breakLabel) != 0, old(continueLabel) != 0)
      ensures !hadError ==>
        items == old(items) + StmtCode(s, old(nextLabel), old(breakLabel), old(continueLabel)).code
      decreases s, 0
    {
      ghost var g := ExprCode(s.cond, nextLabel);
      ghost var h := StmtCode(s.thn, g.next + 1, breakLabel, continueLabel);
      GenExpr(s.cond);
      var saved := ifLabel;
      ifLabel := TakeLabel();
      Emit(Jump('Z', ifLabel));
      GenStmt(s.thn);
      Emit(Label(ifLabel));
      ifLabel := saved;
      IfPieces(s, old(nextLabel), breakLabel, continueLabel, old(items), g, h);
    }

    /** An if with an else up to its else; the outer label is handed back. */
    method GenThen(s: Stmt) returns (saved: nat)
      requires Valid() && nextLabel > 0 && s.IfElse?
      modifies this`nextLabel, this`breakLabel, this`continueLabel, this`ifLabel, this`hadError, this`text, this`items
      ensures var g := ExprCode(s.cond, old(nextLabel));
        var h := StmtCode(s.thn, g.next + 1, old(breakLabel), old(continueLabel));
        && Valid() && nextLabel == h.next + 1 && saved == old(ifLabel)
        && Restored(old(breakLabel), old(continueLabel), h.next)
        && (!hadError ==> items == old(items) + g.code + [Jump('Z', g.next)] + h.code + [Jump('J', h.next), Label(g.next)])
      ensures hadError <==> old(hadError) || Stray(s.thn, old(breakLabel) != 0, old(continueLabel) != 0)
      decreases s, 0
    {
      GenExpr(s.cond);
      saved := ifLabel;
      ifLabel := TakeLabel();
      Emit(Jump('Z', ifLabel));
      GenStmt(s.thn);
      var end := TakeLabel();
      EmitAll([Jump('J', end), Label(ifLabel)]);
      ifLabel := end;
    }

    method GenIfElse(s: Stmt)
      requires Valid() && nextLabel > 0 && s.IfElse?
      modifies this`nextLabel, this`breakLabel, this`continueLabel, this`ifLabel, this`hadError, this`text, this`items
      ensures Valid() && Restored(old(breakLabel), old(continueLabel), old(ifLabel))
      ensures nextLabel == StmtCode(s, old(nextLabel), old(breakLabel), old(continueLabel)).next
      ensures hadError <==> old(hadError) || Stray(s, old(breakLabel) != 0, old(continueLabel) != 0)
      ensures !hadError ==>
        items == old(items) + StmtCode(s, old(nextLabel), old(breakLabel), old(continueLabel)).code
      decreases s, 1
    {
      ghost var g := ExprCode(s.cond, nextLabel);
      ghost var h := StmtCode(s.thn, g.next + 1, breakLabel, continueLabel);
      ghost var k := StmtCode(s.els, h.next + 1, breakLabel, continueLabel);
      var saved := GenThen(s);
      GenStmt(s.els);
      Emit(Label(ifLabel));
      ifLabel := saved;
      IfElsePieces(s, old(nextLabel), breakLabel, continueLabel, old(items), g, h, k);
    }

    method GenWhile(s: Stmt)
      requires Valid() && nextLabel > 0 && s.While?
      modifies this`nextLabel, this`breakLabel, this`continueLabel, this`ifLabel, this`hadError, this`text, this`items
      ensures Valid() && Restored(old(breakLabel), old(continueLabel), old(ifLabel))
      ensures nextLabel == StmtCode(s, old(nextLabel), old(breakLabel), old(continueLabel)).next
      ensures hadError <==> old(hadError) || Stray(s, old(breakLabel) != 0, old(continueLabel) != 0)
      ensures !hadError ==>
        items == old(items) + StmtCode(s, old(nextLabel), old(breakLabel), old(continueLabel)).code
      decreases s, 0
    {
      ghost var g := ExprCode(s.cond, nextLabel + 1);
      ghost var h := StmtCode(s.loop, g.next + 1, g.next, continueLabel);
      L.FreshExpr(s.cond, nextLabel + 1);
      var start := TakeLabel();
      Emit(Label(start));
      GenExpr(s.cond);
      var saved := breakLabel;
      breakLabel := TakeLabel();
      Emit(Jump('Z', breakLabel));
      GenStmt(s.loop);
      EmitAll([Jump('J', start), Label(breakLabel)]);
      breakLabel := saved;
      WhilePieces(s, start, breakLabel, continueLabel, old(items), g, h);
    }

    /** A for up to its test. */
    method GenForTest(s: Stmt) returns (test: nat)
      requires Valid() && nextLabel > 0 && s.For?
      modifies this`nextLabel, this`breakLabel, this`text, this`items
      ensures var g := ExprCode(s.init, old(nextLabel) + 1); var h := ExprCode(s.cond, g.next + 1);
        && Valid() && items == old(items) + (g.code + [Plain('p'), Label(g.next)] + h.code)
        && breakLabel == old(nextLabel) && test == g.next && nextLabel == h.next
    {
      ghost var g := ExprCode(s.init, nextLabel + 1);
      ghost var h := ExprCode(s.cond, g.next + 1);
      breakLabel := TakeLabel();
      GenExpr(s.init);
      test := TakeLabel();
      EmitAll([Plain('p'), Label(test)]);
      GenExpr(s.cond);
      Glue(old(items), g.code, [Plain('p'), Label(g.next)]);
      Glue(old(items), g.code + [Plain('p'), Label(g.next)], h.code);
    }

    /** Everything of a for up to its body. */
    method GenForHead(s: Stmt)
      requires Valid() && nextLabel > 0 && s.For?
      modifies this`nextLabel, this`breakLabel, this`continueLabel, this`ifLabel, this`hadError, this`text, this`items
      ensures Valid() && items == old(items) + ForHead(s, old(nextLabel))
      ensures nextLabel == ForBody(s, old(nextLabel)) > 0 && ifLabel == old(ifLabel) && hadError == old(hadError)
      ensures breakLabel == old(nextLabel) && continueLabel == ForAgain(s, old(nextLabel)) > 0
    {
      ghost var g := ExprCode(s.init, nextLabel + 1);
      ghost var h := ExprCode(s.cond, g.next + 1);
      ghost var k := ExprCode(s.update, h.next + 2);
      L.FreshExpr(s.update, h.next + 2);
      var test := GenForTest(s);
      var body := TakeLabel();
      continueLabel := TakeLabel();
      EmitAll([Jump('B', body), Jump('J', breakLabel), Label(continueLabel)]);
      GenExpr(s.update);
      EmitAll([Plain('p'), Jump('J', test), Label(body)]);
      ForPieces(s, old(nextLabel), old(items), g, h, k);
    }

    method GenFor(s: Stmt)
      requires Valid() && nextLabel > 0 && s.For?
      modifies this`nextLabel, this`breakLabel, this`continueLabel, this`ifLabel, this`hadError, this`text, this`items
      ensures Valid() && Restored(old(breakLabel), old(continueLabel), old(ifLabel))
      ensures nextLabel == StmtCode(s, old(nextLabel), old(breakLabel), old(continueLabel)).next
      ensures hadError <==> old(hadError) || Stray(s, old(breakLabel) != 0, old(continueLabel) != 0)
      ensures !hadError ==>
        items == old(items) + StmtCode(s, old(nextLabel), old(breakLabel), old(continueLabel)).code
      decreases s, 0
    {
      ghost var front, again := ForHead(s, nextLabel), ForAgain(s, nextLabel);
      ghost var l := StmtCode(s.loop, ForBody(s, nextLabel), nextLabel, again);
      var savedBreak, savedContinue := breakLabel, continueLabel;
      GenForHead(s);
      GenStmt(s.loop);
      EmitAll([Jump('J', continueLabel), Label(breakLabel)]);
      breakLabel := savedBreak;
      continueLabel := savedContinue;
      Glue(old(items), front, l.code);
      Glue(old(items), front + l.code, [Jump('J', again), Label(old(nextLabel))]);
    }

    method GenStmts(ss: Stmts)
      requires Valid() && nextLabel > 0
      modifies this`nextLabel, this`breakLabel, this`continueLabel, this`ifLabel, this`hadError, this`text, this`items
      ensures Valid() && Restored(old(breakLabel), old(continueLabel), old(ifLabel))
      ensures nextLabel == StmtsCode(ss, old(nextLabel), old(breakLabel), old(continueLabel)).next
      ensures hadError <==> old(hadError) || StrayIn(ss, old(breakLabel) != 0, old(continueLabel) != 0)
      ensures !hadError ==>
        items == old(items) + StmtsCode(ss, old(nextLabel), old(breakLabel), old(continueLabel)).code
      decreases ss, 1
    {
      match ss
      case Nil =>
      case Cons(s, t) =>
        ghost var g := StmtCode(s, nextLabel, breakLabel, continueLabel);
        NextPositive(s, nextLabel, breakLabel, continueLabel);
        GenStmt(s);
        GenStmts(t);
        Glue(old(items), g.code, StmtsCode(t, g.next, breakLabel, continueLabel).code);
    }

    /** The actions around a function definition: its head, its body with labels
        of its own, and the return of zero behind it. */
    method GenDef(f: nat, d: FuncDef)
      requires Valid() && breakLabel == 0 && continueLabel == 0 && !hadError
      modifies this
      ensures Valid() && Restored(0, 0, old(ifLabel)) && nextLabel == old(nextLabel) && items == [] && front == text
      ensures hadError <==> Stray(d.body, false, false)
      ensures !hadError ==> text == old(text) + F.FuncText(f, d)
    {
      ghost var before := text;
      text := text + F.HeadText(f, d);
      front, items := text, [];
      TextStarts(front);
      var saved := nextLabel;
      nextLabel := 1;
      GenStmt(d.body);
      EmitAll([Plain('0'), Plain('R')]);
      WholeText(text, front, items);
      text := text + "]";
      nextLabel := saved;
      if !hadError {
        assert items == S.FuncCode(d);
        DefPieces(before, F.HeadText(f, d), BcText.TextAll(S.FuncCode(d)));
      }
      front, items := text, [];
      TextStarts(front);
    }
  }

  lemma DefPieces(o: seq<char>, a: seq<char>, b: seq<char>)
    ensures o + a + b + "]" == o + (a + b + "]")
  {
    Join(o, a, b);
    Join(o, a + b, "]");
  }

  lemma Glue(o: seq<Instr>, a: seq<Instr>, b: seq<Instr>)
    ensures o + a + b == o + (a + b)
  {
  }

  lemma Glue4(o: seq<Instr>, a: seq<Instr>, b: seq<Instr>, c: seq<Instr>, d: seq<Instr>)
    ensures o + a + b + c + d == o + (a + b + c + d)
  {
    Glue(o, a, b);
    Glue(o, a + b, c);
    Glue(o, a + b + c, d);
  }

  lemma IfPieces(s: Stmt, next: nat, brk: nat, cont: nat, o: seq<Instr>, g: Gen, h: Gen)
    requires s.If? && g == ExprCode(s.cond, next) && h == StmtCode(s.thn, g.next + 1, brk, cont)
    ensures o + g.code + [Jump('Z', g.next)] + h.code + [Label(g.next)] == o + StmtCode(s, next, brk, cont).code
    ensures StmtCode(s, next, brk, cont).next == h.next
  {
    Glue4(o, g.code, [Jump('Z', g.next)], h.code, [Label(g.next)]);
  }

  lemma IfElsePieces(s: Stmt, next: nat, brk: nat, cont: nat, o: seq<Instr>, g: Gen, h: Gen, k: Gen)
    requires s.IfElse? && g == ExprCode(s.cond, next) && h == StmtCode(s.thn, g.next + 1, brk, cont)
    requires k == StmtCode(s.els, h.next + 1, brk, cont)
    ensures o + g.code + [Jump('Z', g.next)] + h.code + [Jump('J', h.next), Label(g.next)] + k.code + [Label(h.next)]
         == o + StmtCode(s, next, brk, cont).code
    ensures StmtCode(s, next, brk, cont).next == k.next
  {
    var z, j := [Jump('Z', g.next)], [Jump('J', h.next), Label(g.next)];
    Glue4(o, g.code, z, h.code, j);
    Glue(o, g.code + z + h.code + j, k.code);
    Glue(o, g.code + z + h.code + j + k.code, [Label(h.next)]);
  }

  lemma WhilePieces(s: Stmt, next: nat, brk: nat, cont: nat, o: seq<Instr>, g: Gen, h: Gen)
    requires s.While? && g == ExprCode(s.cond, next + 1) && h == StmtCode(s.loop, g.next + 1, g.next, cont)
    ensures o + [Label(next)] + g.code + [Jump('Z', g.next)] + h.code + [Jump('J', next), Label(g.next)]
         == o + StmtCode(s, next, brk, cont).code
    ensures StmtCode(s, next, brk, cont).next == h.next
  {
    Glue4(o, [Label(next)], g.code, [Jump('Z', g.next)], h.code);
    Glue(o, [Label(next)] + g.code + [Jump('Z', g.next)] + h.code, [Jump('J', next), Label(g.next)]);
  }

  lemma ForPieces(s: Stmt, next: nat, o: seq<Instr>, g: Gen, h: Gen, k: Gen)
    requires s.For? && g == ExprCode(s.init, next + 1) && h == ExprCode(s.cond, g.next + 1) && k == ExprCode(s.update, h.next + 2)
    ensures o + (g.code + [Plain('p'), Label(g.next)] + h.code) + [Jump('B', h.next), Jump('J', next), Label(h.next + 1)]
            + k.code + [Plain('p'), Jump('J', g.next), Label(h.next)] == o + ForHead(s, next)
    ensures ForAgain(s, next) == h.next + 1 && ForBody(s, next) == k.next
  {
    var a, v, w := g.code + [Plain('p'), Label(g.next)] + h.code, [Jump('B', h.next), Jump('J', next), Label(h.next + 1)], [Plain('p'), Jump('J', g.next), Label(h.next)];
    Glue4(o, a, v, k.code, w);
  }

  /** A break outside every loop, or a continue outside every for. */
  predicate Stray(s: Stmt, inLoop: bool, inFor: bool) {
    match s
    case Block(body) => StrayIn(body, inLoop, inFor)
    case If(_, t) => Stray(t, inLoop, inFor)
    case IfElse(_, t, f) => Stray(t, inLoop, inFor) || Stray(f, inLoop, inFor)
    case While(_, b) => Stray(b, true, inFor)
    case For(_, _, _, b) => Stray(b, true, true)
    case Break => !inLoop
    case Continue => !inFor
    case _ => false
  }

  predicate StrayIn(ss: Stmts, inLoop: bool, inFor: bool) {
    match ss
    case Nil => false
    case Cons(s, t) => Stray(s, inLoop, inFor) || StrayIn(t, inLoop, inFor)
  }

  /** A statement whose breaks and continues have their targets is not reported. */
  lemma {:induction false} GoodHasNoStray(s: Stmt, inLoop: bool, inFor: bool)
    requires GoodStmt(s, inLoop, inFor)
    ensures !Stray(s, inLoop, inFor)
    decreases s
  {
    match s
    case Block(body) => GoodHasNoneIn(body, inLoop, inFor);
    case If(_, t) => GoodHasNoStray(t, inLoop, inFor);
    case IfElse(_, t, f) =>
      GoodHasNoStray(t, inLoop, inFor);
      GoodHasNoStray(f, inLoop, inFor);
    case While(_, b) => GoodHasNoStray(b, true, inFor);
    case For(_, _, _, b) => GoodHasNoStray(b, true, true);
    case _ =>
  }

  lemma {:induction false} GoodHasNoneIn(ss: Stmts, inLoop: bool, inFor: bool)
    requires GoodStmts(ss, inLoop, inFor)
    ensures !StrayIn(ss, inLoop, inFor)
    decreases ss
  {
    match ss
    case Nil =>
    case Cons(s, t) =>
      GoodHasNoStray(s, inLoop, inFor);
      GoodHasNoneIn(t, inLoop, inFor);
  }

  lemma NextPositive(s: Stmt, next: nat, brk: nat, cont: nat)
    requires next > 0
    ensures StmtCode(s, next, brk, cont).next > 0
  {
    L.FreshStmt(s, next, brk, cont);
  }
}
