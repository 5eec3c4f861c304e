/** The meaning of bc programs, by direct evaluation of the syntax.  Fuel
    bounds loop rounds and nested calls; running out of it is an outcome. */
module BcSemantics {
  import opened Wrappers
  import opened Numbers
  import opened BcSyntax
  import opened BcStore
  import opened DecimalText
  import M = BcMachine

  datatype Value = Val(v: Num, st: Store) | Err(st: Store) | OutOfFuel

  datatype Values = Vals(vs: seq<Num>, st: Store) | ErrVals(st: Store) | NoFuelVals

  datatype Outcome =
    | Normal(st: Store)
    | Broke(st: Store)
    | Continued(st: Store)
    | Returned(v: Num, st: Store)
    | Failed(st: Store)
    | NoFuel

  /** What does not change during a run: arithmetic and function definitions. */
  datatype World = World(ar: Arith, funcs: map<nat, FuncDef>)

  /** The base constants are read in: the caller's ibase at the time of the
      innermost call, or the current ibase in the main program. */
  function BaseOf(st: Store, base: Option<nat>): nat {
    match base
    case None => st.ibase
    case Some(b) => b
  }

  function ConstByte(c: char): int { if c == '.' then '.' as int else if c >= 'A' then c as int - 55 else c as int - 48 }

  function ConstBytes(text: seq<char>): seq<int> { seq(|text|, i requires 0 <= i < |text| => ConstByte(text[i])) }

  function ConstValue(w: World, text: seq<char>, b: nat): Num {
    if text == "0" then ZERO else if text == "1" then ONE else w.ar.constant(ConstBytes(text), b)
  }

  function ReadCell(a: nat, index: Num, st: Store): Value {
    match Subscript(index)
    case Some(i) => Val(GetCell(st, a, i), st)
    case None => Err(st)
  }

  function WriteCell(a: nat, index: Num, n: Num, st: Store): Value {
    match Subscript(index)
    case Some(i) => Val(n, SetCell(st, a, i, n))
    case None => Err(st)
  }

  function BumpCell(w: World, a: nat, index: Num, pre: bool, up: bool, st: Store): Value {
    match Subscript(index)
    case None => Err(st)
    case Some(i) =>
      var before := GetCell(st, a, i);
      var st' := SetCell(st, a, i, Sum(w.ar, before, up));
      Val(if pre then GetCell(st', a, i) else before, st')
  }

  function BumpSimple(w: World, v: nat, pre: bool, up: bool, st: Store): Value {
    var st' := BumpVar(w.ar, st, v, up);
    Val(GetVar(w.ar, if pre then st' else st, v), st')
  }

  function Combine(w: World, op: char, x: Num, y: Num, st: Store): Value {
    match w.ar.binary(op, x, y, st.scale)
    case Some(r) => Val(r, st)
    case None => Err(st)
  }

  function ApplyBuiltin(w: World, which: char, x: Num, st: Store): Value {
    if which == 'L' then
      Val(w.ar.fromInt(if x.Len() == 1 && x.Scale() != 0 && x.whole[0] == 0 then x.Scale()
                       else x.Len() + x.Scale()), st)
    else if which == 'S' then Val(w.ar.fromInt(x.Scale()), st)
    else
      match w.ar.sqrt(x, st.scale)
      case Some(r) => Val(r, st)
      case None => Err(st)
  }

  /** Bind the n-th actual to the n-th formal, the last one first. */
  function BindAll(st: Store, formals: seq<Formal>, vs: seq<Num>): Store
    requires |formals| == |vs|
    decreases |formals|
  {
    var k := |formals| - 1;
    if k < 0 then st else BindAll(BindOne(st, formals[k], vs[k]), formals[..k], vs[..k])
  }

  function Enter(st: Store, d: FuncDef, vs: seq<Num>): Store
    requires |d.formals| == |vs|
  {
    PushAutos(BindAll(st, d.formals, vs), d.autos)
  }

  function Leave(st: Store, d: FuncDef): Store {
    PopNames(PopNames(st, d.autos), NamesOf(d.formals))
  }

  /** What an array argument is passed as: its number, read as a constant. */
  function ArrayValue(w: World, a: nat, b: nat): Num { w.ar.constant(ConstBytes(Decimal(a)), b) }

  function EvalIndex(w: World, lv: LValue, st: Store, base: Option<nat>, fuel: nat): Value
    decreases fuel, lv
  {
    match lv
    case Simple(_) => Val(ZERO, st)
    case Element(_, index) => EvalExpr(w, index, st, base, fuel)
  }

  function EvalExpr(w: World, e: Expr, st: Store, base: Option<nat>, fuel: nat): Value
    decreases fuel, e
  {
    match e
    case Const(text) => Val(ConstValue(w, text, BaseOf(st, base)), st)
    case Paren(a) => EvalExpr(w, a, st, base, fuel)
    case Load(lv) => (
      match EvalIndex(w, lv, st, base, fuel)
      case Val(x, st1) =>
        if lv.Simple? then Val(GetVar(w.ar, st1, lv.v), st1) else ReadCell(lv.a, x, st1)
      case r => r)
    case Assign(lv, op, rhs) => (
      match EvalIndex(w, lv, st, base, fuel)
      case Val(x, st1) => (
        var cur := if op == '=' then Val(ZERO, st1)
                   else if lv.Simple? then Val(GetVar(w.ar, st1, lv.v), st1) else ReadCell(lv.a, x, st1);
        match cur
        case Val(was, st2) => (
          match EvalExpr(w, rhs, st2, base, fuel)
          case Val(y, st3) => (
            match if op == '=' then Val(y, st3) else Combine(w, op, was, y, st3)
            case Val(z, st4) =>
              if lv.Simple? then Val(z, SetVar(st4, lv.v, z)) else WriteCell(lv.a, x, z, st4)
            case r => r)
          case r => r)
        case r => r)
      case r => r)
    case Binary(op, l, r) => (
      match EvalExpr(w, l, st, base, fuel)
      case Val(x, st1) => (
        match EvalExpr(w, r, st1, base, fuel)
        case Val(y, st2) => Combine(w, op, x, y, st2)
        case q => q)
      case q => q)
    case Compare(op, l, r) => (
      match EvalExpr(w, l, st, base, fuel)
      case Val(x, st1) => (
        match EvalExpr(w, r, st1, base, fuel)
        case Val(y, st2) => Val(M.Truth(M.Holds(w.ar.order(x, y), op)), st2)
        case q => q)
      case q => q)
    case Negate(a) => (
      match EvalExpr(w, a, st, base, fuel)
      case Val(x, st1) => Val(w.ar.negate(x), st1)
      case r => r)
    case Not(a) => (
      match EvalExpr(w, a, st, base, fuel)
      case Val(x, st1) => Val(M.Truth(!M.IsTrue(x)), st1)
      case r => r)
    case And(l, r) => (
      match EvalExpr(w, l, st, base, fuel)
      case Val(x, st1) =>
        if !M.IsTrue(x) then Val(x, st1)
        else (
          match EvalExpr(w, r, st1, base, fuel)
          case Val(y, st2) => Val(if M.IsTrue(y) then ONE else y, st2)
          case q => q)
      case q => q)
    case Or(l, r) => (
      match EvalExpr(w, l, st, base, fuel)
      case Val(x, st1) =>
        if M.IsTrue(x) then Val(ONE, st1)
        else (
          match EvalExpr(w, r, st1, base, fuel)
          case Val(y, st2) => Val(M.Truth(M.IsTrue(y)), st2)
          case q => q)
      case q => q)
    case Bump(pre, up, lv) => (
      match EvalIndex(w, lv, st, base, fuel)
      case Val(x, st1) =>
        if lv.Simple? then BumpSimple(w, lv.v, pre, up, st1) else BumpCell(w, lv.a, x, pre, up, st1)
      case r => r)
    case Builtin(which, a) => (
      match EvalExpr(w, a, st, base, fuel)
      case Val(x, st1) => ApplyBuiltin(w, which, x, st1)
      case r => r)
    case Call(f, args) => (
      match EvalArgs(w, args, st, base, fuel)
      case Vals(vs, st1) => CallFunction(w, e, vs, st1, fuel)
      case ErrVals(st1) => Err(st1)
      case NoFuelVals => OutOfFuel)
  }

  function EvalArgs(w: World, args: Args, st: Store, base: Option<nat>, fuel: nat): (r: Values)
    ensures r.Vals? ==> |r.vs| == Count(args)
    decreases fuel, args
  {
    match args
    case NoArgs => Vals([], st)
    case Arg(e, others) => (
      match EvalExpr(w, e, st, base, fuel)
      case Val(x, st1) => (
        match EvalArgs(w, others, st1, base, fuel)
        case Vals(vs, st2) => Vals([x] + vs, st2)
        case r => r)
      case Err(st1) => ErrVals(st1)
      case OutOfFuel => NoFuelVals)
    case ArrayArg(a, others) =>
      match EvalArgs(w, others, st, base, fuel)
      case Vals(vs, st1) => Vals([ArrayValue(w, a, BaseOf(st, base))] + vs, st1)
      case r => r
  }

  /** A call: bind, run the body, unbind; falling off the end returns zero. */
  function CallFunction(w: World, call: Expr, vs: seq<Num>, st: Store, fuel: nat): Value
    requires call.Call?
    decreases fuel, call, 0
  {
    var f := call.f;
    if f !in w.funcs || !Match(call.args, w.funcs[f].formals) || |w.funcs[f].formals| != |vs| then Err(st)
    else if fuel == 0 then OutOfFuel
    else
      var d := w.funcs[f];
      match ExecStmt(w, d.body, Enter(st, d, vs), Some(st.ibase), fuel - 1)
      case Normal(st1) => Val(ZERO, Leave(st1, d))
      case Returned(v, st1) => Val(v, Leave(st1, d))
      case Failed(st1) => Err(st1)
      case NoFuel => OutOfFuel
      case Broke(st1) => Err(st1)
      case Continued(st1) => Err(st1)
  }

  function Written(st: Store, e: Expr, x: Num): Store {
    if Prints(e) then M.Written(st, x, true) else st
  }

  function ExecStmt(w: World, s: Stmt, st: Store, base: Option<nat>, fuel: nat): Outcome
    decreases fuel, s
  {
    match s
    case Eval(e) => (
      match EvalExpr(w, e, st, base, fuel)
      case Val(x, st1) => Normal(Written(st1, e, x))
      case Err(st1) => Failed(st1)
      case OutOfFuel => NoFuel)
    case Text(t) => Normal(st.(out := st.out + [Shown(t)]))
    case Block(body) => ExecStmts(w, body, st, base, fuel)
    case If(c, t) => (
      match EvalExpr(w, c, st, base, fuel)
      case Val(x, st1) => if M.IsTrue(x) then ExecStmt(w, t, st1, base, fuel) else Normal(st1)
      case Err(st1) => Failed(st1)
      case OutOfFuel => NoFuel)
    case IfElse(c, t, f) => (
      match EvalExpr(w, c, st, base, fuel)
      case Val(x, st1) => ExecStmt(w, if M.IsTrue(x) then t else f, st1, base, fuel)
      case Err(st1) => Failed(st1)
      case OutOfFuel => NoFuel)
    case While(c, b) => (
      match EvalExpr(w, c, st, base, fuel)
      case Val(x, st1) =>
        if !M.IsTrue(x) then Normal(st1)
        else (
          match ExecStmt(w, b, st1, base, fuel)
          case Normal(st2) => if fuel == 0 then NoFuel else ExecStmt(w, s, st2, base, fuel - 1)
          case Broke(st2) => Normal(st2)
          case r => r)
      case Err(st1) => Failed(st1)
      case OutOfFuel => NoFuel)
    case For(i, c, u, b) => (
      match EvalExpr(w, i, st, base, fuel)
      case Val(_, st1) => ExecFor(w, s, st1, base, fuel)
      case Err(st1) => Failed(st1)
      case OutOfFuel => NoFuel)
    case Break => Broke(st)
    case Continue => Continued(st)
    case Return(e) => (
      match EvalExpr(w, e, st, base, fuel)
      case Val(x, st1) => Returned(x, st1)
      case Err(st1) => Failed(st1)
      case OutOfFuel => NoFuel)
  }

  /** The rounds of a for loop: test, body, update. */
  function ExecFor(w: World, s: Stmt, st: Store, base: Option<nat>, fuel: nat): Outcome
    requires s.For?
    decreases fuel, s, 1
  {
    match EvalExpr(w, s.cond, st, base, fuel)
    case Val(x, st1) =>
      if !M.IsTrue(x) then Normal(st1)
      else (
        match ExecStmt(w, s.loop, st1, base, fuel)
        case Normal(st2) => ForUpdate(w, s, st2, base, fuel)
        case Continued(st2) => ForUpdate(w, s, st2, base, fuel)
        case Broke(st2) => Normal(st2)
        case r => r)
    case Err(st1) => Failed(st1)
    case OutOfFuel => NoFuel
  }

  function ForUpdate(w: World, s: Stmt, st: Store, base: Option<nat>, fuel: nat): Outcome
    requires s.For?
    decreases fuel, s, 0
  {
    match EvalExpr(w, s.update, st, base, fuel)
    case Val(_, st1) => if fuel == 0 then NoFuel else ExecFor(w, s, st1, base, fuel - 1)
    case Err(st1) => Failed(st1)
    case OutOfFuel => NoFuel
  }

  function ExecStmts(w: World, ss: Stmts, st: Store, base: Option<nat>, fuel: nat): Outcome
    decreases fuel, ss
  {
    match ss
    case Nil => Normal(st)
    case Cons(s, t) =>
      match ExecStmt(w, s, st, base, fuel)
      case Normal(st1) => ExecStmts(w, t, st1, base, fuel)
      case r => r
  }
}
