/** Where the pieces of compiled expressions and statements lie, construct by
    construct. */
module BcLayout {
  import opened Wrappers
  import opened BcSyntax
  import M = BcMachine
  import opened BcCompile
  import opened BcPlacement
  import opened BcCompose
  import opened BcComposeStmt
  import opened BcComposeLoop
  import opened DecimalText

  /** The items lie at addr and have n bytes. */
  ghost predicate Spans(code: M.Code, addr: nat, items: seq<Instr>, n: nat) { Placed(code, addr, items) && n == Bytes(items) }

  /** The code of s between the given exits. */
  function CodeOf(s: Stmt, next: nat, x: Exits): seq<Instr> { StmtCode(s, next, x.brk, x.cont).code }

  /** The code of e, with labels from next on, lies at addr and has n bytes. */
  ghost predicate ExprAt(code: M.Code, addr: nat, e: Expr, next: nat, n: nat) {
    forall k: nat {:trigger Exactly(k, next)} :: Exactly(k, next) ==> Spans(code, addr, ExprCode(e, k).code, n)
  }

  ghost predicate LValueAt(code: M.Code, addr: nat, lv: LValue, next: nat, n: nat) {
    forall k: nat {:trigger Exactly(k, next)} :: Exactly(k, next) ==> Spans(code, addr, LValueCode(lv, k).code, n)
  }

  ghost predicate ArgsAt(code: M.Code, addr: nat, args: Args, next: nat, n: nat) {
    forall k: nat {:trigger Exactly(k, next)} :: Exactly(k, next) ==> Spans(code, addr, ArgsCode(args, k).code, n)
  }

  ghost predicate StmtAt(code: M.Code, addr: nat, s: Stmt, next: nat, x: Exits, n: nat) {
    forall k: nat {:trigger Exactly(k, next)} :: Exactly(k, next) ==> Spans(code, addr, CodeOf(s, k, x), n)
  }

  ghost predicate StmtsAt(code: M.Code, addr: nat, ss: Stmts, next: nat, x: Exits, n: nat) {
    forall k: nat {:trigger Exactly(k, next)} :: Exactly(k, next) ==> Spans(code, addr, StmtsCode(ss, k, x.brk, x.cont).code, n)
  }

  /** Two pieces of code in a row. */
  lemma Split(code: M.Code, addr: nat, a: seq<Instr>, b: seq<Instr>, n: nat)
    requires Spans(code, addr, a + b, n)
    ensures Spans(code, addr, a, Bytes(a)) && Spans(code, addr + Bytes(a), b, Bytes(b)) && n == Bytes(a) + Bytes(b)
  {
    PlacedSplit(code, addr, a, b);
  }

  lemma Regroup3(a: seq<Instr>, b: seq<Instr>, c: seq<Instr>)
    ensures a + b + c == a + (b + c)
  {
  }

  lemma Split3(code: M.Code, addr: nat, a: seq<Instr>, b: seq<Instr>, d: seq<Instr>, n: nat)
    requires Spans(code, addr, a + b + d, n)
    ensures Spans(code, addr, a, Bytes(a)) && Spans(code, addr + Bytes(a), b, Bytes(b))
    ensures Spans(code, addr + Bytes(a) + Bytes(b), d, Bytes(d)) && n == Bytes(a) + Bytes(b) + Bytes(d)
  {
    var e := b + d;
    Regroup3(a, b, d);
    Split(code, addr, a, e, n);
    Split(code, addr + Bytes(a), b, d, Bytes(e));
  }

  lemma BytesPlain(c: char)
    ensures Bytes([Plain(c)]) == 1
  {
  }

  // ---------------------------------------------------------------------
  // Expressions.
  // ---------------------------------------------------------------------

  lemma ParenParts(code: M.Code, addr: nat, e: Expr, next: nat, n: nat)
    requires e.Paren? && ExprAt(code, addr, e, next, n)
    ensures ExprAt(code, addr, e.inner, next, n)
  {
    assert Exactly(next, next);
  }

  lemma IndexParts(code: M.Code, addr: nat, lv: LValue, next: nat, n: nat)
    requires LValueAt(code, addr, lv, next, n)
    ensures if lv.Simple? then n == 0 else ExprAt(code, addr, lv.index, next, n)
  {
    assert Exactly(next, next);
  }

  lemma LoadParts(code: M.Code, addr: nat, e: Expr, next: nat, n: nat) returns (a: nat)
    requires e.Load? && ExprAt(code, addr, e, next, n)
    ensures LValueAt(code, addr, e.lv, next, a) && Placed(code, addr + a, Loaded(e.lv)) && n == a + Bytes(Loaded(e.lv))
  {
    assert Exactly(next, next);
    var g := LValueCode(e.lv, next).code;
    Split(code, addr, g, Loaded(e.lv), n);
    a := Bytes(g);
  }

  lemma BumpParts(code: M.Code, addr: nat, e: Expr, next: nat, n: nat) returns (a: nat)
    requires e.Bump? && ExprAt(code, addr, e, next, n)
    ensures LValueAt(code, addr, e.lv, next, a) && Placed(code, addr + a, Bumped(e.lv, e.pre, e.up))
    ensures n == a + Bytes(Bumped(e.lv, e.pre, e.up))
  {
    assert Exactly(next, next);
    var g := LValueCode(e.lv, next).code;
    Split(code, addr, g, Bumped(e.lv, e.pre, e.up), n);
    a := Bytes(g);
  }

  function UnaryPart(e: Expr): Unary
    requires e.Negate? || e.Not? || e.Builtin?
  {
    if e.Negate? then Neg else if e.Not? then Inv else Func(e.which)
  }

  lemma UnaryParts(code: M.Code, addr: nat, e: Expr, next: nat, n: nat) returns (a: nat)
    requires (e.Negate? || e.Not? || e.Builtin?) && ExprAt(code, addr, e, next, n)
    ensures ExprAt(code, addr, e.arg, next, a) && Placed(code, addr + a, [UnaryInstr(UnaryPart(e))])
    ensures n == a + Bytes([UnaryInstr(UnaryPart(e))])
  {
    assert Exactly(next, next);
    var g := ExprCode(e.arg, next).code;
    assert ExprCode(e, next).code == g + [UnaryInstr(UnaryPart(e))];
    Split(code, addr, g, [UnaryInstr(UnaryPart(e))], n);
    a := Bytes(g);
  }

  lemma BinaryParts(code: M.Code, addr: nat, e: Expr, next: nat, n: nat) returns (a: nat, b: nat, mid: nat)
    requires (e.Binary? || e.Compare?) && ExprAt(code, addr, e, next, n)
    ensures ExprAt(code, addr, e.left, next, a) && ExprAt(code, addr + a, e.right, mid, b)
    ensures Placed(code, addr + a + b, [Plain(e.op)]) && n == a + b + 1
  {
    assert Exactly(next, next);
    var g := ExprCode(e.left, next);
    var h := ExprCode(e.right, g.next);
    assert ExprCode(e, next).code == g.code + h.code + [Plain(e.op)];
    Split3(code, addr, g.code, h.code, [Plain(e.op)], n);
    BytesPlain(e.op);
    a, b, mid := Bytes(g.code), Bytes(h.code), g.next;
  }

  lemma SetParts(code: M.Code, addr: nat, e: Expr, next: nat, n: nat) returns (a: nat, b: nat, mid: nat)
    requires e.Assign? && e.op == '=' && ExprAt(code, addr, e, next, n)
    ensures LValueAt(code, addr, e.target, next, a) && ExprAt(code, addr + a, e.rhs, mid, b)
    ensures Placed(code, addr + a + b, Stored(e.target)) && n == a + b + Bytes(Stored(e.target))
  {
    assert Exactly(next, next);
    var g := LValueCode(e.target, next);
    var h := ExprCode(e.rhs, g.next);
    assert ExprCode(e, next).code == g.code + h.code + Stored(e.target);
    Split3(code, addr, g.code, h.code, Stored(e.target), n);
    a, b, mid := Bytes(g.code), Bytes(h.code), g.next;
  }

  lemma UpdateShape(g: seq<Instr>, f: seq<Instr>, h: seq<Instr>, o: seq<Instr>, s: seq<Instr>)
    ensures g + f + h + o + s == g + (f + h + (o + s))
  {
  }

  lemma UpdateSpans(code: M.Code, addr: nat, f: seq<Instr>, h: seq<Instr>, op: char, s: seq<Instr>, n: nat)
    requires Spans(code, addr, f + h + ([Plain(op)] + s), n)
    ensures Spans(code, addr, f, Bytes(f)) && Spans(code, addr + Bytes(f), h, Bytes(h))
    ensures Placed(code, addr + Bytes(f) + Bytes(h), [Plain(op)] + s) && n == Bytes(f) + Bytes(h) + 1 + Bytes(s)
  {
    var e := [Plain(op)] + s;
    Split3(code, addr, f, h, e, n);
    BytesAppend([Plain(op)], s);
    BytesPlain(op);
  }

  lemma UpdateLayout(code: M.Code, addr: nat, f: seq<Instr>, h: seq<Instr>, lv: LValue, op: char, s: seq<Instr>, n: nat)
    requires f == Fetched(lv) && s == Stored(lv) && Spans(code, addr, f + h + ([Plain(op)] + s), n)
    ensures Spans(code, addr + Bytes(f), h, Bytes(h))
    ensures UpdateAt(code, addr, lv, op, Bytes(h)) && n == UpdateSize(lv, Bytes(h))
  {
    UpdateSpans(code, addr, f, h, op, s, n);
    UpdateIntro(code, addr, lv, op, Bytes(f), Bytes(h));
  }

  lemma UpdateIntro(code: M.Code, addr: nat, lv: LValue, op: char, f: nat, h: nat)
    requires f == Bytes(Fetched(lv)) && Placed(code, addr, Fetched(lv)) && Placed(code, addr + f + h, [Plain(op)] + Stored(lv))
    ensures UpdateAt(code, addr, lv, op, h)
  {
  }

  lemma UpdateParts(code: M.Code, addr: nat, e: Expr, next: nat, n: nat) returns (a: nat, b: nat, mid: nat)
    requires e.Assign? && e.op != '=' && ExprAt(code, addr, e, next, n)
    ensures LValueAt(code, addr, e.target, next, a) && ExprAt(code, addr + a + Bytes(Fetched(e.target)), e.rhs, mid, b)
    ensures UpdateAt(code, addr + a, e.target, e.op, b) && n == a + UpdateSize(e.target, b)
  {
    assert Exactly(next, next);
    var g := LValueCode(e.target, next);
    var h := ExprCode(e.rhs, g.next);
    var f, s := Fetched(e.target), Stored(e.target);
    a, b, mid := Bytes(g.code), Bytes(h.code), g.next;
    UpdateShape(g.code, f, h.code, [Plain(e.op)], s);
    Split(code, addr, g.code, f + h.code + ([Plain(e.op)] + s), n);
    UpdateLayout(code, addr + a, f, h.code, e.target, e.op, s, n - a);
  }

  lemma AndShape(l: Expr, r: Expr, next: nat)
    ensures var g := ExprCode(l, next);
            var h := ExprCode(r, g.next + 1);
            ExprCode(And(l, r), next).code == g.code + AndTestCode(g.next) + h.code + AndEndCode(g.next)
  {
    var lab := ExprCode(l, next).next;
    assert [Plain('D'), Jump('Z', lab), Plain('p'), Plain('1'), Label(lab)] == AndEndCode(lab);
  }

  lemma AndParts(code: M.Code, addr: nat, e: Expr, next: nat, n: nat) returns (a: nat, b: nat, lab: nat)
    requires e.And? && ExprAt(code, addr, e, next, n)
    ensures ExprAt(code, addr, e.left, next, a) && ExprAt(code, addr + a + 5, e.right, lab + 1, b)
    ensures AndAt(code, addr, a, b, lab) && n == a + b + 11
  {
    assert Exactly(next, next);
    var g := ExprCode(e.left, next);
    lab := g.next;
    var h := ExprCode(e.right, lab + 1).code;
    a, b := Bytes(g.code), Bytes(h);
    AndShape(e.left, e.right, next);
    AndPlaced(code, addr, g.code, h, lab);
  }

  lemma Regroup4(a: seq<Instr>, b: seq<Instr>, c: seq<Instr>, d: seq<Instr>)
    ensures a + b + c + d == a + (b + (c + d))
  {
  }

  lemma OrShape(l: Expr, r: Expr, next: nat)
    ensures var g := ExprCode(l, next);
            var h := ExprCode(r, g.next + 1);
            ExprCode(Or(l, r), next).code == OrCode(g.code, h.code, g.next, h.next)
  {
    var g := ExprCode(l, next);
    var h := ExprCode(r, g.next + 1);
    var lab, end := g.next, h.next;
    assert OrEndCode(lab, end) == [Jump('B', lab), Plain('0'), Jump('J', end), Label(lab), Plain('1'), Label(end)];
    Regroup4(g.code, [Jump('B', lab)], h.code, OrEndCode(lab, end));
  }

  lemma OrParts(code: M.Code, addr: nat, e: Expr, next: nat, n: nat) returns (a: nat, b: nat, lab: nat, end: nat)
    requires e.Or? && ExprAt(code, addr, e, next, n)
    ensures ExprAt(code, addr, e.left, next, a) && ExprAt(code, addr + a + 3, e.right, lab + 1, b)
    ensures OrAt(code, addr, a, b, lab, end) && n == a + b + 11
  {
    assert Exactly(next, next);
    var g := ExprCode(e.left, next);
    lab := g.next;
    var h := ExprCode(e.right, lab + 1);
    end := h.next;
    a, b := Bytes(g.code), Bytes(h.code);
    OrShape(e.left, e.right, next);
    OrPlaced(code, addr, g.code, h.code, lab, end);
  }

  lemma CallParts(code: M.Code, addr: nat, e: Expr, next: nat, n: nat) returns (a: nat)
    requires e.Call? && ExprAt(code, addr, e, next, n)
    ensures var i := Invoke(e.f, CallStr(e.args));
      ArgsAt(code, addr, e.args, next, a) && Placed(code, addr + a, [i]) && n == a + Bytes([i])
  {
    assert Exactly(next, next);
    var g := ArgsCode(e.args, next).code;
    Split(code, addr, g, [Invoke(e.f, CallStr(e.args))], n);
    a := Bytes(g);
  }

  lemma NoArgsParts(code: M.Code, addr: nat, next: nat, n: nat)
    requires ArgsAt(code, addr, NoArgs, next, n)
    ensures n == 0
  {
    assert Exactly(next, next);
  }

  lemma ArgParts(code: M.Code, addr: nat, args: Args, next: nat, n: nat) returns (a: nat, b: nat, mid: nat)
    requires args.Arg? && ArgsAt(code, addr, args, next, n)
    ensures ExprAt(code, addr, args.first, next, a) && ArgsAt(code, addr + a, args.others, mid, b) && n == a + b
  {
    assert Exactly(next, next);
    var g := ExprCode(args.first, next);
    var h := ArgsCode(args.others, g.next).code;
    Split(code, addr, g.code, h, n);
    a, b, mid := Bytes(g.code), Bytes(h), g.next;
  }

  lemma ArrayArgParts(code: M.Code, addr: nat, args: Args, next: nat, n: nat) returns (a: nat, b: nat)
    requires args.ArrayArg? && ArgsAt(code, addr, args, next, n)
    ensures Placed(code, addr, [Number(Decimal(args.a))]) && a == Bytes([Number(Decimal(args.a))])
    ensures ArgsAt(code, addr + a, args.others, next, b) && n == a + b
  {
    assert Exactly(next, next);
    var g, h := [Number(Decimal(args.a))], ArgsCode(args.others, next).code;
    Split(code, addr, g, h, n);
    a, b := Bytes(g), Bytes(h);
  }

  // ---------------------------------------------------------------------
  // Statements.
  // ---------------------------------------------------------------------

  lemma EvalParts(code: M.Code, addr: nat, s: Stmt, next: nat, x: Exits, n: nat) returns (a: nat)
    requires s.Eval? && StmtAt(code, addr, s, next, x, n)
    ensures ExprAt(code, addr, s.e, next, a) && n == a + 1
    ensures Placed(code, addr + a, [Plain(if Prints(s.e) then 'W' else 'p')])
  {
    assert Exactly(next, next);
    var g, c := ExprCode(s.e, next).code, if Prints(s.e) then 'W' else 'p';
    Split(code, addr, g, [Plain(c)], n);
    BytesPlain(c);
    a := Bytes(g);
  }

  lemma ReturnParts(code: M.Code, addr: nat, s: Stmt, next: nat, x: Exits, n: nat) returns (a: nat)
    requires s.Return? && StmtAt(code, addr, s, next, x, n)
    ensures ExprAt(code, addr, s.result, next, a) && n == a + 1 && Placed(code, addr + a, [Plain('R')])
  {
    assert Exactly(next, next);
    var g := ExprCode(s.result, next).code;
    Split(code, addr, g, [Plain('R')], n);
    BytesPlain('R');
    a := Bytes(g);
  }

  /** Statements that are a single instruction. */
  lemma SingleParts(code: M.Code, addr: nat, s: Stmt, next: nat, x: Exits, n: nat)
    requires (s.Text? || s.Break? || s.Continue?) && StmtAt(code, addr, s, next, x, n)
    ensures var i := if s.Text? then Show(s.s) else Jump('J', if s.Break? then x.brk else x.cont); Spans(code, addr, [i], n)
  {
    assert Exactly(next, next);
  }

  lemma BlockParts(code: M.Code, addr: nat, s: Stmt, next: nat, x: Exits, n: nat)
    requires s.Block? && StmtAt(code, addr, s, next, x, n)
    ensures StmtsAt(code, addr, s.body, next, x, n)
  {
    assert Exactly(next, next);
  }

  lemma StmtsParts(code: M.Code, addr: nat, ss: Stmts, next: nat, x: Exits, n: nat) returns (a: nat, b: nat, mid: nat)
    requires ss.Cons? && StmtsAt(code, addr, ss, next, x, n)
    ensures StmtAt(code, addr, ss.head, next, x, a) && StmtsAt(code, addr + a, ss.tail, mid, x, b) && n == a + b
  {
    assert Exactly(next, next);
    var g := StmtCode(ss.head, next, x.brk, x.cont);
    var h := StmtsCode(ss.tail, g.next, x.brk, x.cont).code;
    Split(code, addr, g.code, h, n);
    a, b, mid := Bytes(g.code), Bytes(h), g.next;
  }

  lemma NilParts(code: M.Code, addr: nat, next: nat, x: Exits, n: nat)
    requires StmtsAt(code, addr, Nil, next, x, n)
    ensures n == 0
  {
    assert Exactly(next, next);
  }

  lemma IfShape(s: Stmt, next: nat, x: Exits)
    requires s.If?
    ensures var g := ExprCode(s.cond, next);
            CodeOf(s, next, x) == IfCode(g.code, CodeOf(s.thn, g.next + 1, x), g.next)
  {
    var g := ExprCode(s.cond, next);
    Regroup4(g.code, [Jump('Z', g.next)], CodeOf(s.thn, g.next + 1, x), [Label(g.next)]);
  }

  lemma IfParts(code: M.Code, addr: nat, s: Stmt, next: nat, x: Exits, n: nat) returns (a: nat, b: nat, lab: nat)
    requires s.If? && StmtAt(code, addr, s, next, x, n)
    ensures ExprAt(code, addr, s.cond, next, a) && StmtAt(code, addr + a + 3, s.thn, lab + 1, x, b)
    ensures IfAt(code, addr, a, b, lab) && n == a + 3 + b
  {
    assert Exactly(next, next);
    var g := ExprCode(s.cond, next);
    lab := g.next;
    var h := CodeOf(s.thn, lab + 1, x);
    a, b := Bytes(g.code), Bytes(h);
    IfShape(s, next, x);
    IfPlaced(code, addr, g.code, h, lab);
  }

  lemma IfElseShape(s: Stmt, next: nat, x: Exits)
    requires s.IfElse?
    ensures var g := ExprCode(s.cond, next);
            var h := StmtCode(s.thn, g.next + 1, x.brk, x.cont);
            CodeOf(s, next, x) == IfElseCode(g.code, h.code, CodeOf(s.els, h.next + 1, x), g.next, h.next)
  {
    var g := ExprCode(s.cond, next);
    var h := StmtCode(s.thn, g.next + 1, x.brk, x.cont);
    var f := CodeOf(s.els, h.next + 1, x);
    assert [Jump('J', h.next), Label(g.next)] == [Jump('J', h.next)] + [Label(g.next)];
    Regroup6(g.code, [Jump('Z', g.next)], h.code, [Jump('J', h.next)], [Label(g.next)], f, [Label(h.next)]);
  }

  lemma Regroup6(a: seq<Instr>, b: seq<Instr>, c: seq<Instr>, d: seq<Instr>, e: seq<Instr>, f: seq<Instr>, g: seq<Instr>)
    ensures a + b + c + (d + e) + f + g == a + (b + (c + (d + (e + (f + g)))))
  {
  }

  lemma IfElseParts(code: M.Code, addr: nat, s: Stmt, next: nat, x: Exits, n: nat)
    returns (a: nat, b: nat, d: nat, lab: nat, end: nat)
    requires s.IfElse? && StmtAt(code, addr, s, next, x, n)
    ensures ExprAt(code, addr, s.cond, next, a) && StmtAt(code, addr + a + 3, s.thn, lab + 1, x, b)
    ensures StmtAt(code, addr + a + b + 6, s.els, end + 1, x, d)
    ensures IfElseAt(code, addr, a, b, d, lab, end) && n == a + b + d + 6
  {
    assert Exactly(next, next);
    var g := ExprCode(s.cond, next);
    var h := StmtCode(s.thn, g.next + 1, x.brk, x.cont);
    lab, end := g.next, h.next;
    var f := CodeOf(s.els, end + 1, x);
    a, b, d := Bytes(g.code), Bytes(h.code), Bytes(f);
    IfElseShape(s, next, x);
    IfElsePlaced(code, addr, g.code, h.code, f, lab, end);
  }

  lemma WhileShape(s: Stmt, next: nat, x: Exits)
    requires s.While?
    ensures var g := ExprCode(s.cond, next + 1);
            CodeOf(s, next, x) == WhileCode(g.code, CodeOf(s.loop, g.next + 1, InWhile(x, g.next)), next, g.next)
  {
    var g := ExprCode(s.cond, next + 1);
    var h := CodeOf(s.loop, g.next + 1, InWhile(x, g.next));
    assert [Jump('J', next), Label(g.next)] == [Jump('J', next)] + [Label(g.next)];
    Regroup5([Label(next)], g.code, [Jump('Z', g.next)], h, [Jump('J', next)], [Label(g.next)]);
  }

  lemma Regroup5(a: seq<Instr>, b: seq<Instr>, c: seq<Instr>, d: seq<Instr>, e: seq<Instr>, f: seq<Instr>)
    ensures a + b + c + d + (e + f) == a + (b + (c + (d + (e + f))))
  {
  }

  lemma WhileParts(code: M.Code, addr: nat, s: Stmt, next: nat, x: Exits, n: nat) returns (a: nat, b: nat, out: nat)
    requires s.While? && StmtAt(code, addr, s, next, x, n)
    ensures ExprAt(code, addr, s.cond, next + 1, a) && StmtAt(code, addr + a + 3, s.loop, out + 1, InWhile(x, out), b)
    ensures WhileAt(code, addr, a, b, next, out) && n == a + b + 6
  {
    assert Exactly(next, next);
    var g := ExprCode(s.cond, next + 1);
    out := g.next;
    var h := CodeOf(s.loop, out + 1, InWhile(x, out));
    a, b := Bytes(g.code), Bytes(h);
    WhileShape(s, next, x);
    WhilePlaced(code, addr, g.code, h, next, out);
  }

  lemma RegroupFor(g: seq<Instr>, h: seq<Instr>, k: seq<Instr>, l: seq<Instr>, z: ForLabels)
    ensures g + [Plain('p'), Label(z.test)] + h + [Jump('B', z.body), Jump('J', z.out), Label(z.again)]
          + k + [Plain('p'), Jump('J', z.test), Label(z.body)] + l + [Jump('J', z.again), Label(z.out)]
         == ForCode(g, h, k, l, z)
  {
    var l1 := l + [Jump('J', z.again), Label(z.out)];
    var k1 := k + ([Plain('p'), Jump('J', z.test), Label(z.body)] + l1);
    var h1 := h + ([Jump('B', z.body), Jump('J', z.out), Label(z.again)] + k1);
    assert l1 == l + ([Jump('J', z.again)] + [Label(z.out)]);
    assert k1 == UpdateCode(k, l, z);
    assert h1 == RoundsCode(h, k, l, z);
    assert ForCode(g, h, k, l, z) == g + ([Plain('p'), Label(z.test)] + h1);
  }

  /** The pieces of a for and its labels: initialisation, test, update, body. */
  datatype ForGens = ForGens(g: seq<Instr>, h: seq<Instr>, k: seq<Instr>, l: seq<Instr>, z: ForLabels, bodyFrom: nat)

  function GensOf(s: Stmt, next: nat): ForGens
    requires s.For?
  {
    var g := ExprCode(s.init, next + 1);
    var h := ExprCode(s.cond, g.next + 1);
    var k := ExprCode(s.update, h.next + 2);
    var z := ForLabels(g.next, h.next, h.next + 1, next);
    ForGens(g.code, h.code, k.code, CodeOf(s.loop, k.next, InFor(z)), z, k.next)
  }

  lemma ForShape(s: Stmt, next: nat, x: Exits)
    requires s.For?
    ensures var f := GensOf(s, next); CodeOf(s, next, x) == ForCode(f.g, f.h, f.k, f.l, f.z)
  {
    var f := GensOf(s, next);
    RegroupFor(f.g, f.h, f.k, f.l, f.z);
  }

  /** The rounds of the for s lie at p: test, update and body, and the jumps. */
  ghost predicate RoundsAt(code: M.Code, s: Stmt, z: ForLabels, p: ForAt, bodyFrom: nat)
    requires s.For?
  {
    && ForJumps(code, z, p) && ExprAt(code, p.test, s.cond, z.test + 1, p.h)
    && ExprAt(code, p.Again(), s.update, z.again + 1, p.k) && StmtAt(code, p.Body(), s.loop, bodyFrom, InFor(z), p.l)
  }

  lemma RoundsFold(code: M.Code, s: Stmt, next: nat, p: ForAt, f: ForGens)
    requires s.For? && f == GensOf(s, next) && Lies(code, f.h, f.k, f.l, f.z, p)
    ensures RoundsAt(code, s, f.z, p, f.bodyFrom)
  {
  }

  lemma ForParts(code: M.Code, addr: nat, s: Stmt, next: nat, x: Exits, n: nat)
    returns (a: nat, z: ForLabels, p: ForAt, bodyFrom: nat)
    requires s.For? && StmtAt(code, addr, s, next, x, n)
    ensures ExprAt(code, addr, s.init, next + 1, a) && Placed(code, addr + a, [Plain('p')])
    ensures RoundsAt(code, s, z, p, bodyFrom) && p.test == addr + a + 1 && p.Out() == addr + n
  {
    assert Exactly(next, next);
    var f := GensOf(s, next);
    a, z, bodyFrom := Bytes(f.g), f.z, f.bodyFrom;
    p := ForAt(addr + a + 1, Bytes(f.h), Bytes(f.k), Bytes(f.l));
    ForShape(s, next, x);
    ForPlaced(code, addr, f.g, f.h, f.k, f.l, f.z);
    RoundsFold(code, s, next, p, f);
  }
}
