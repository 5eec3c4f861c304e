/** The code that the semantic actions of bc.c emit, with its labels. */
module BcCompile {
  import opened BcSyntax
  import opened DecimalText

  /** An emitted item: an instruction, or the definition of a label. */
  datatype Instr =
    | Plain(c: char)
    | Named(c: char, n: nat)
    | Jump(c: char, lab: nat)
    | Label(lab: nat)
    | Number(text: seq<char>)
    | Special(c: char)
    | Invoke(f: nat, kinds: seq<char>)
    | Show(s: seq<char>)

  /** Emitted code and the next unused label. */
  datatype Gen = Gen(code: seq<Instr>, next: nat)

  function LValueCode(lv: LValue, next: nat): Gen
    decreases lv
  {
    match lv
    case Simple(_) => Gen([], next)
    case Element(_, index) => ExprCode(index, next)
  }

  /** Load the current value; a subscript stays below it for a later store. */
  function Fetched(lv: LValue): seq<Instr> {
    match lv
    case Simple(v) => [Named('l', v)]
    case Element(a, _) => [Plain('D'), Named('L', a)]
  }

  function Loaded(lv: LValue): seq<Instr> {
    match lv
    case Simple(v) => [Named('l', v)]
    case Element(a, _) => [Named('L', a)]
  }

  function Stored(lv: LValue): seq<Instr> {
    match lv
    case Simple(v) => [Named('s', v)]
    case Element(a, _) => [Named('S', a)]
  }

  function Bumped(lv: LValue, pre: bool, up: bool): seq<Instr> {
    match lv
    case Simple(v) =>
      var b := Named(if up then 'i' else 'd', v);
      if pre then [b, Named('l', v)] else [Named('l', v), b]
    case Element(a, _) =>
      var b := Named(if up then 'A' else 'M', a);
      if pre then [Plain('D'), b, Named('L', a)] else [Plain('D'), Named('L', a), Plain('x'), b]
  }

  function ExprCode(e: Expr, next: nat): Gen
    decreases e
  {
    match e
    case Const(text) =>
      Gen(if text == "0" then [Plain('0')] else if text == "1" then [Plain('1')] else [Number(text)], next)
    case Load(lv) =>
      var g := LValueCode(lv, next);
      Gen(g.code + Loaded(lv), g.next)
    case Paren(a) => ExprCode(a, next)
    case Assign(lv, op, rhs) =>
      var g := LValueCode(lv, next);
      var r := ExprCode(rhs, g.next);
      Gen(g.code + (if op == '=' then [] else Fetched(lv)) + r.code
          + (if op == '=' then [] else [Plain(op)]) + Stored(lv), r.next)
    case Binary(op, l, r) =>
      var g := ExprCode(l, next);
      var h := ExprCode(r, g.next);
      Gen(g.code + h.code + [Plain(op)], h.next)
    case Compare(op, l, r) =>
      var g := ExprCode(l, next);
      var h := ExprCode(r, g.next);
      Gen(g.code + h.code + [Plain(op)], h.next)
    case Negate(a) =>
      var g := ExprCode(a, next);
      Gen(g.code + [Plain('n')], g.next)
    case Not(a) =>
      var g := ExprCode(a, next);
      Gen(g.code + [Plain('!')], g.next)
    case And(l, r) =>
      var g := ExprCode(l, next);
      var lab := g.next;
      var h := ExprCode(r, lab + 1);
      Gen(g.code + [Plain('D'), Jump('Z', lab), Plain('p')]
          + h.code + [Plain('D'), Jump('Z', lab), Plain('p'), Plain('1'), Label(lab)], h.next)
    case Or(l, r) =>
      var g := ExprCode(l, next);
      var lab := g.next;
      var h := ExprCode(r, lab + 1);
      var end := h.next;
      Gen(g.code + [Jump('B', lab)]
          + h.code + [Jump('B', lab), Plain('0'), Jump('J', end), Label(lab), Plain('1'), Label(end)], end + 1)
    case Bump(pre, up, lv) =>
      var g := LValueCode(lv, next);
      Gen(g.code + Bumped(lv, pre, up), g.next)
    case Builtin(which, a) =>
      var g := ExprCode(a, next);
      Gen(g.code + [Special(which)], g.next)
    case Call(f, args) =>
      var g := ArgsCode(args, next);
      Gen(g.code + [Invoke(f, CallStr(args))], g.next)
  }

  function ArgsCode(args: Args, next: nat): Gen
    decreases args
  {
    match args
    case NoArgs => Gen([], next)
    case Arg(e, others) =>
      var g := ExprCode(e, next);
      var h := ArgsCode(others, g.next);
      Gen(g.code + h.code, h.next)
    case ArrayArg(a, others) =>
      var h := ArgsCode(others, next);
      Gen([Number(Decimal(a))] + h.code, h.next)
  }

  /** call_str: one character for each argument, the last one first. */
  function CallStr(args: Args): (r: seq<char>)
    ensures |r| == Count(args) && forall i :: 0 <= i < |r| ==> r[i] == '0' || r[i] == '1'
  {
    match args
    case NoArgs => ""
    case Arg(_, others) => CallStr(others) + "0"
    case ArrayArg(_, others) => CallStr(others) + "1"
  }

  /** brk and cont are the labels a break or continue jumps to; 0 means none. */
  function StmtCode(s: Stmt, next: nat, brk: nat, cont: nat): Gen
    decreases s
  {
    match s
    case Eval(e) =>
      var g := ExprCode(e, next);
      Gen(g.code + [Plain(if Prints(e) then 'W' else 'p')], g.next)
    case Text(t) => Gen([Show(t)], next)
    case Block(body) => StmtsCode(body, next, brk, cont)
    case If(c, t) =>
      var g := ExprCode(c, next);
      var lab := g.next;
      var h := StmtCode(t, lab + 1, brk, cont);
      Gen(g.code + [Jump('Z', lab)] + h.code + [Label(lab)], h.next)
    case IfElse(c, t, f) =>
      var g := ExprCode(c, next);
      var lab := g.next;
      var h := StmtCode(t, lab + 1, brk, cont);
      var end := h.next;
      var k := StmtCode(f, end + 1, brk, cont);
      Gen(g.code + [Jump('Z', lab)] + h.code + [Jump('J', end), Label(lab)] + k.code + [Label(end)], k.next)
    case While(c, b) =>
      var start := next;
      var g := ExprCode(c, start + 1);
      var out := g.next;
      var h := StmtCode(b, out + 1, out, cont);
      Gen([Label(start)] + g.code + [Jump('Z', out)] + h.code + [Jump('J', start), Label(out)], h.next)
    case For(i, c, u, b) =>
      var out := next;
      var g := ExprCode(i, out + 1);
      var test := g.next;
      var h := ExprCode(c, test + 1);
      var body, again := h.next, h.next + 1;
      var k := ExprCode(u, again + 1);
      var l := StmtCode(b, k.next, out, again);
      Gen(g.code + [Plain('p'), Label(test)] + h.code + [Jump('B', body), Jump('J', out), Label(again)]
          + k.code + [Plain('p'), Jump('J', test), Label(body)] + l.code + [Jump('J', again), Label(out)], l.next)
    case Break => Gen([Jump('J', brk)], next)
    case Continue => Gen([Jump('J', cont)], next)
    case Return(e) =>
      var g := ExprCode(e, next);
      Gen(g.code + [Plain('R')], g.next)
  }

  function StmtsCode(ss: Stmts, next: nat, brk: nat, cont: nat): Gen
    decreases ss
  {
    match ss
    case Nil => Gen([], next)
    case Cons(s, t) =>
      var g := StmtCode(s, next, brk, cont);
      var h := StmtsCode(t, g.next, brk, cont);
      Gen(g.code + h.code, h.next)
  }

  /** The code of a for in front of its body, and the labels it has taken. */
  function ForHead(s: Stmt, next: nat): seq<Instr>
    requires s.For?
  {
    var g := ExprCode(s.init, next + 1);
    var h := ExprCode(s.cond, g.next + 1);
    g.code + [Plain('p'), Label(g.next)] + h.code + [Jump('B', h.next), Jump('J', next), Label(h.next + 1)]
    + ExprCode(s.update, h.next + 2).code + [Plain('p'), Jump('J', g.next), Label(h.next)]
  }

  function ForAgain(s: Stmt, next: nat): nat
    requires s.For?
  {
    ExprCode(s.cond, ExprCode(s.init, next + 1).next + 1).next + 1
  }

  function ForBody(s: Stmt, next: nat): nat
    requires s.For?
  {
    ExprCode(s.update, ForAgain(s, next) + 1).next
  }

  /** A for is its head, its body, and the jump back to its update. */
  lemma ForIs(s: Stmt, next: nat, brk: nat, cont: nat)
    requires s.For?
    ensures var l := StmtCode(s.loop, ForBody(s, next), next, ForAgain(s, next));
      StmtCode(s, next, brk, cont) == Gen(ForHead(s, next) + l.code + [Jump('J', ForAgain(s, next)), Label(next)], l.next)
  {
  }
}
