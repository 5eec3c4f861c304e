/** Abstract syntax of bc programs, as the grammar of bc.c recognises it, and
    the attribute that decides whether an expression statement prints. */
module BcSyntax {

  datatype LValue = Simple(v: nat) | Element(a: nat, index: Expr)

  datatype Expr =
    | Const(text: seq<char>)
    | Load(lv: LValue)
    | Paren(inner: Expr)
    | Assign(target: LValue, op: char, rhs: Expr)
    | Binary(op: char, left: Expr, right: Expr)
    | Compare(op: char, left: Expr, right: Expr)
    | Negate(arg: Expr)
    | Not(arg: Expr)
    | And(left: Expr, right: Expr)
    | Or(left: Expr, right: Expr)
    | Bump(pre: bool, up: bool, lv: LValue)
    | Builtin(which: char, arg: Expr)
    | Call(f: nat, args: Args)

  /** Arguments: values, or whole arrays. */
  datatype Args = NoArgs | Arg(first: Expr, others: Args) | ArrayArg(a: nat, others: Args)

  datatype Stmt =
    | Eval(e: Expr)
    | Text(s: seq<char>)
    | Block(body: Stmts)
    | If(cond: Expr, thn: Stmt)
    | IfElse(cond: Expr, thn: Stmt, els: Stmt)
    | While(cond: Expr, loop: Stmt)
    | For(init: Expr, cond: Expr, update: Expr, loop: Stmt)
    | Break
    | Continue
    | Return(result: Expr)

  datatype Stmts = Nil | Cons(head: Stmt, tail: Stmts)

  /** A parameter: names below zero are arrays, names above zero simple
      variables; a variable array parameter shares the caller's array. */
  datatype Formal = Formal(name: int, byVar: bool)

  datatype FuncDef = FuncDef(formals: seq<Formal>, autos: seq<int>, body: Stmt)

  function NamesOf(fs: seq<Formal>): (r: seq<int>)
    ensures |r| == |fs|
  {
    seq(|fs|, i requires 0 <= i < |fs| => fs[i].name)
  }

  datatype Program = Program(funcs: map<nat, FuncDef>, main: Stmt)

  /** Bit 0 of the grammar attribute: the value is written when used as a statement. */
  predicate Prints(e: Expr) {
    match e
    case Const(_) => true
    case Load(_) => true
    case Paren(_) => true
    case Assign(_, _, _) => false
    case Binary(_, l, r) => Prints(l) || Prints(r)
    case Compare(_, _, _) => true
    case Negate(a) => Prints(a)
    case Not(a) => Prints(a)
    case And(l, r) => Prints(l) || Prints(r)
    case Or(l, r) => Prints(l) || Prints(r)
    case Bump(_, _, _) => true
    case Builtin(_, _) => true
    case Call(_, _) => true
  }

  function Count(args: Args): nat {
    match args
    case NoArgs => 0
    case Arg(_, others) => 1 + Count(others)
    case ArrayArg(_, others) => 1 + Count(others)
  }

  /** The arguments are as many as the parameters, and each is an array
      exactly if its parameter is one. */
  predicate Match(args: Args, fs: seq<Formal>) {
    match args
    case NoArgs => fs == []
    case Arg(_, others) => fs != [] && fs[0].name > 0 && Match(others, fs[1..])
    case ArrayArg(_, others) => fs != [] && fs[0].name < 0 && Match(others, fs[1..])
  }

  const MAX_STORE := 32767

  predicate ArithOp(c: char) { c == '+' || c == '-' || c == '*' || c == '/' || c == '%' || c == '^' }

  predicate CompareOp(c: char) { c == '=' || c == '#' || c == '<' || c == '{' || c == '>' || c == '}' }

  predicate ConstChar(c: char) { '0' <= c <= '9' || 'A' <= c <= 'F' || c == '.' }

  /** What the scanner, the grammar and the symbol table guarantee. */
  predicate GoodLValue(lv: LValue) {
    match lv
    case Simple(v) => v <= MAX_STORE
    case Element(a, index) => a <= MAX_STORE && GoodExpr(index)
  }

  predicate GoodExpr(e: Expr) {
    match e
    case Const(text) => |text| > 0 && forall i :: 0 <= i < |text| ==> ConstChar(text[i])
    case Load(lv) => GoodLValue(lv)
    case Paren(a) => GoodExpr(a)
    case Assign(lv, op, rhs) => GoodLValue(lv) && (op == '=' || ArithOp(op)) && GoodExpr(rhs)
    case Binary(op, l, r) => ArithOp(op) && GoodExpr(l) && GoodExpr(r)
    case Compare(op, l, r) => CompareOp(op) && GoodExpr(l) && GoodExpr(r)
    case Negate(a) => GoodExpr(a)
    case Not(a) => GoodExpr(a)
    case And(l, r) => GoodExpr(l) && GoodExpr(r)
    case Or(l, r) => GoodExpr(l) && GoodExpr(r)
    case Bump(_, _, lv) => GoodLValue(lv)
    case Builtin(which, a) => (which == 'L' || which == 'R' || which == 'S') && GoodExpr(a)
    case Call(f, args) => f <= MAX_STORE && GoodArgs(args)
  }

  predicate GoodArgs(args: Args) {
    match args
    case NoArgs => true
    case Arg(e, others) => GoodExpr(e) && GoodArgs(others)
    case ArrayArg(a, others) => 0 < a <= MAX_STORE && GoodArgs(others)
  }

  predicate Ascii(s: seq<char>) { forall i :: 0 <= i < |s| ==> s[i] as int < 128 }

  /** inLoop: a break has a loop to leave; inFor: a continue has a for to continue. */
  predicate GoodStmt(s: Stmt, inLoop: bool, inFor: bool) {
    match s
    case Eval(e) => GoodExpr(e)
    case Text(t) => '"' !in t && Ascii(t)
    case Block(body) => GoodStmts(body, inLoop, inFor)
    case If(c, t) => GoodExpr(c) && GoodStmt(t, inLoop, inFor)
    case IfElse(c, t, f) => GoodExpr(c) && GoodStmt(t, inLoop, inFor) && GoodStmt(f, inLoop, inFor)
    case While(c, b) => GoodExpr(c) && GoodStmt(b, true, inFor)
    case For(i, c, u, b) => GoodExpr(i) && GoodExpr(c) && GoodExpr(u) && GoodStmt(b, true, true)
    case Break => inLoop
    case Continue => inFor
    case Return(e) => GoodExpr(e)
  }

  predicate GoodStmts(ss: Stmts, inLoop: bool, inFor: bool) {
    match ss
    case Nil => true
    case Cons(s, t) => GoodStmt(s, inLoop, inFor) && GoodStmts(t, inLoop, inFor)
  }
}
