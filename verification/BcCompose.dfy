/** How the runs of adjacent pieces of code combine: one lemma for each
    shape of expression code, over arbitrary operand code. */
module BcCompose {
  import opened Numbers
  import opened BcSyntax
  import opened BcStore
  import M = BcMachine
  import opened BcCompile
  import opened BcSemantics
  import opened BcPlacement
  import opened BcCalls
  import opened BcSimulation

  /** The machine is about to run this code. */
  ghost predicate Starts(im: M.Image, m: M.Machine, code: seq<Instr>) {
    Live(im, m) && Placed(im[m.func], m.addr, code)
  }

  /** The front part of code that starts at m starts at m. */
  lemma StartsFirst(im: M.Image, m: M.Machine, a: seq<Instr>, b: seq<Instr>)
    requires Starts(im, m, a + b)
    ensures Starts(im, m, a) && Bytes(a + b) == Bytes(a) + Bytes(b)
  {
    PlacedSplit(im[m.func], m.addr, a, b);
  }

  /** The rest of the code starts where the front part ends. */
  lemma StartsRest(im: M.Image, m: M.Machine, a: seq<Instr>, b: seq<Instr>, stack: Stack, st: Store)
    requires Starts(im, m, a + b)
    ensures Starts(im, Behind(m, Bytes(a)).(stack := stack, store := st), b)
  {
    PlacedSplit(im[m.func], m.addr, a, b);
  }

  /** An expression's run followed by what its value is used for. */
  lemma Chain(ar: Arith, im: M.Image, m: M.Machine, n: nat, r: Value, b: M.Machine, k: nat, full: Value,
              goal: M.Machine, fuel: nat) returns (t: nat)
    requires Yields(ar, im, m, n, r, b, fuel)
    requires if r.Val? then Yields(ar, im, With(b, r.v, r.st), k, full, goal, fuel) else full == r
    ensures Yields(ar, im, m, t, full, goal, fuel)
  {
    t := n;
    if r.Val? {
      YieldsThen(ar, im, m, n, With(b, r.v, r.st), k, full, goal, fuel);
      t := n + k;
    }
  }

  // ---------------------------------------------------------------------
  // Unary and binary operators.
  // ---------------------------------------------------------------------

  datatype Unary = Neg | Inv | Func(which: char)

  function UnaryInstr(u: Unary): Instr {
    match u
    case Neg => Plain('n')
    case Inv => Plain('!')
    case Func(which) => Special(which)
  }

  function UnaryResult(w: World, u: Unary, x: Num, st: Store): Value {
    match u
    case Neg => Val(w.ar.negate(x), st)
    case Inv => Val(M.Truth(!M.IsTrue(x)), st)
    case Func(which) => ApplyBuiltin(w, which, x, st)
  }

  function UnaryOf(w: World, u: Unary, r: Value): Value { if r.Val? then UnaryResult(w, u, r.v, r.st) else r }

  lemma EndUnary(w: World, im: M.Image, m: M.Machine, u: Unary, x: Num, below: Stack, fuel: nat)
    requires Starts(im, m, [UnaryInstr(u)]) && m.stack == Push(x, below)
    requires u.Func? ==> u.which == 'L' || u.which == 'S' || u.which == 'R'
    ensures Yields(w.ar, im, m, 1, UnaryResult(w, u, x, m.store), Behind(m, Bytes([UnaryInstr(u)])).(stack := below), fuel)
  {
    Placed1(im[m.func], m.addr, UnaryInstr(u));
    LastStep(w.ar, im, m, UnaryInstr(u), UnaryResult(w, u, x, m.store), Past(m, UnaryInstr(u)).(stack := below), fuel);
  }

  /** An operand of a bytes and a unary operator behind it. */
  lemma ComposeUnary(w: World, im: M.Image, m: M.Machine, a: nat, u: Unary, n: nat, r: Value, fuel: nat)
    returns (t: nat)
    requires Live(im, m) && Placed(im[m.func], m.addr + a, [UnaryInstr(u)])
    requires u.Func? ==> u.which == 'L' || u.which == 'S' || u.which == 'R'
    requires Yields(w.ar, im, m, n, r, Behind(m, a), fuel)
    ensures Yields(w.ar, im, m, t, UnaryOf(w, u, r), Behind(m, a + Bytes([UnaryInstr(u)])), fuel)
  {
    var b, full, goal := Behind(m, a), UnaryOf(w, u, r), Behind(m, a + Bytes([UnaryInstr(u)]));
    if r.Val? {
      EndUnary(w, im, With(b, r.v, r.st), u, r.v, m.stack, fuel);
    }
    t := Chain(w.ar, im, m, n, r, b, 1, full, goal, fuel);
  }

  function BinaryResult(w: World, op: char, x: Num, y: Num, st: Store): Value {
    if CompareOp(op) then Val(M.Truth(M.Holds(w.ar.order(x, y), op)), st) else BcSemantics.Combine(w, op, x, y, st)
  }

  function BinaryOf(w: World, op: char, r: Value, q: Value): Value {
    if !r.Val? then r else if !q.Val? then q else BinaryResult(w, op, r.v, q.v, q.st)
  }

  lemma EndBinary(w: World, im: M.Image, m: M.Machine, op: char, x: Num, y: Num, below: Stack, fuel: nat)
    requires Starts(im, m, [Plain(op)]) && (ArithOp(op) || CompareOp(op)) && m.stack == Push(y, Push(x, below))
    ensures Yields(w.ar, im, m, 1, BinaryResult(w, op, x, y, m.store), Behind(m, 1).(stack := below), fuel)
  {
    Placed1(im[m.func], m.addr, Plain(op));
    if CompareOp(op) {
      StepCompare(w.ar, im, m, op, x, y, below);
    } else {
      StepArith(w.ar, im, m, op, x, y, below);
    }
  }

  /** Operands of a and h bytes and a binary operator behind them. */
  lemma ComposeBinary(w: World, im: M.Image, m: M.Machine, a: nat, h: nat, op: char,
                      n: nat, r: Value, m1: M.Machine, k: nat, q: Value, fuel: nat) returns (t: nat)
    requires (ArithOp(op) || CompareOp(op)) && Live(im, m) && Placed(im[m.func], m.addr + a + h, [Plain(op)])
    requires Yields(w.ar, im, m, n, r, Behind(m, a), fuel)
    requires r.Val? ==> m1 == With(Behind(m, a), r.v, r.st) && Yields(w.ar, im, m1, k, q, Behind(m1, h), fuel)
    ensures Yields(w.ar, im, m, t, BinaryOf(w, op, r, q), Behind(m, a + h + 1), fuel)
  {
    var full, goal := BinaryOf(w, op, r, q), Behind(m, a + h + 1);
    t := 0;
    if r.Val? {
      var c := Behind(m1, h);
      if q.Val? {
        EndBinary(w, im, With(c, q.v, q.st), op, r.v, q.v, m.stack, fuel);
      }
      t := Chain(w.ar, im, m1, k, q, c, 1, full, goal, fuel);
    }
    t := Chain(w.ar, im, m, n, r, Behind(m, a), t, full, goal, fuel);
  }

  // ---------------------------------------------------------------------
  // Variables and array elements.
  // ---------------------------------------------------------------------

  /** The subscript of lv, if it has one, has been pushed. */
  function Located(b: M.Machine, lv: LValue, x: Num, st: Store): M.Machine {
    b.(stack := Indexed(lv, x, b.stack), store := st)
  }

  ghost predicate Locates(ar: Arith, im: M.Image, m: M.Machine, n: nat, lv: LValue, r: Value, b: M.Machine, fuel: nat) {
    match r
    case Val(x, st) => M.Reaches(ar, im, m, n, Located(b, lv, x, st))
    case Err(st) => ReachesError(ar, im, m, n, st)
    case OutOfFuel => n >= fuel && StillRunning(ar, im, m, n)
  }

  lemma ChainLocated(ar: Arith, im: M.Image, m: M.Machine, n: nat, lv: LValue, r: Value, b: M.Machine, k: nat,
                     full: Value, goal: M.Machine, fuel: nat) returns (t: nat)
    requires Locates(ar, im, m, n, lv, r, b, fuel)
    requires if r.Val? then Yields(ar, im, Located(b, lv, r.v, r.st), k, full, goal, fuel) else full == r
    ensures Yields(ar, im, m, t, full, goal, fuel)
  {
    t := n;
    if r.Val? {
      YieldsThen(ar, im, m, n, Located(b, lv, r.v, r.st), k, full, goal, fuel);
      t := n + k;
    }
  }

  function LoadOf(w: World, lv: LValue, r: Value): Value { if r.Val? then LoadValue(w, lv, r.v, r.st) else r }

  lemma ComposeLoad(w: World, im: M.Image, m: M.Machine, a: nat, lv: LValue, n: nat, r: Value, fuel: nat)
    returns (t: nat)
    requires Live(im, m) && Placed(im[m.func], m.addr + a, Loaded(lv)) && Locates(w.ar, im, m, n, lv, r, Behind(m, a), fuel)
    ensures Yields(w.ar, im, m, t, LoadOf(w, lv, r), Behind(m, a + Bytes(Loaded(lv))), fuel)
  {
    var b, full, goal := Behind(m, a), LoadOf(w, lv, r), Behind(m, a + Bytes(Loaded(lv)));
    if r.Val? {
      SimLoaded(w, im, lv, Located(b, lv, r.v, r.st), r.v, m.stack, fuel);
    }
    t := ChainLocated(w.ar, im, m, n, lv, r, b, 1, full, goal, fuel);
  }

  function BumpOf(w: World, lv: LValue, pre: bool, up: bool, r: Value): Value {
    if r.Val? then BumpValue(w, lv, r.v, pre, up, r.st) else r
  }

  lemma ComposeBump(w: World, im: M.Image, m: M.Machine, a: nat, lv: LValue, pre: bool, up: bool,
                    n: nat, r: Value, fuel: nat) returns (t: nat)
    requires Live(im, m) && Placed(im[m.func], m.addr + a, Bumped(lv, pre, up))
    requires Locates(w.ar, im, m, n, lv, r, Behind(m, a), fuel)
    ensures Yields(w.ar, im, m, t, BumpOf(w, lv, pre, up, r), Behind(m, a + Bytes(Bumped(lv, pre, up))), fuel)
  {
    var b, full, goal := Behind(m, a), BumpOf(w, lv, pre, up, r), Behind(m, a + Bytes(Bumped(lv, pre, up)));
    t := 0;
    if r.Val? {
      t := SimBumped(w, im, lv, pre, up, Located(b, lv, r.v, r.st), r.v, m.stack, fuel);
    }
    t := ChainLocated(w.ar, im, m, n, lv, r, b, t, full, goal, fuel);
  }

  /** The value of lv := q, once the subscript evaluated to r. */
  function SetOf(lv: LValue, r: Value, q: Value): Value {
    if !r.Val? then r else if !q.Val? then q else StoreValue(lv, r.v, q.v, q.st)
  }

  /** A subscript of a bytes, a value of h bytes and the store behind them. */
  lemma ComposeSet(w: World, im: M.Image, m: M.Machine, a: nat, h: nat, lv: LValue,
                   n: nat, r: Value, m1: M.Machine, k: nat, q: Value, fuel: nat) returns (t: nat)
    requires Live(im, m) && Placed(im[m.func], m.addr + a + h, Stored(lv))
    requires Locates(w.ar, im, m, n, lv, r, Behind(m, a), fuel)
    requires r.Val? ==> m1 == Located(Behind(m, a), lv, r.v, r.st) && Yields(w.ar, im, m1, k, q, Behind(m1, h), fuel)
    ensures Yields(w.ar, im, m, t, SetOf(lv, r, q), Behind(m, a + h + Bytes(Stored(lv))), fuel)
  {
    var full, goal := SetOf(lv, r, q), Behind(m, a + h + Bytes(Stored(lv)));
    t := 0;
    if r.Val? {
      var c := Behind(m1, h);
      if q.Val? {
        SimStored(w, im, lv, With(c, q.v, q.st), r.v, q.v, m.stack, fuel);
      }
      t := Chain(w.ar, im, m1, k, q, c, 1, full, goal, fuel);
    }
    t := ChainLocated(w.ar, im, m, n, lv, r, Behind(m, a), t, full, goal, fuel);
  }

  /** The end of lv op= e: combine with the old value and store. */
  function UpdateEnd(w: World, lv: LValue, op: char, x: Num, was: Num, q: Value): Value {
    if !q.Val? then q
    else
      var z := BinaryResult(w, op, was, q.v, q.st);
      if !z.Val? then z else StoreValue(lv, x, z.v, z.st)
  }

  lemma EndUpdate(w: World, im: M.Image, m: M.Machine, lv: LValue, op: char, x: Num, was: Num, y: Num, below: Stack,
                  fuel: nat) returns (t: nat)
    requires ArithOp(op) && Starts(im, m, [Plain(op)] + Stored(lv))
    requires m.stack == Push(y, Push(was, Indexed(lv, x, below)))
    ensures Yields(w.ar, im, m, t, UpdateEnd(w, lv, op, x, was, Val(y, m.store)),
                   Behind(m, 1 + Bytes(Stored(lv))).(stack := below), fuel)
  {
    var s, z := Stored(lv), BinaryResult(w, op, was, y, m.store);
    var full, goal := UpdateEnd(w, lv, op, x, was, Val(y, m.store)), Behind(m, 1 + Bytes(s)).(stack := below);
    var b := Behind(m, 1).(stack := Indexed(lv, x, below));
    StartsFirst(im, m, [Plain(op)], s);
    EndBinary(w, im, m, op, was, y, b.stack, fuel);
    if z.Val? {
      var m1 := With(b, z.v, z.st);
      StartsRest(im, m, [Plain(op)], s, m1.stack, m1.store);
      assert Bytes([Plain(op)]) == 1;
      SimStored(w, im, lv, m1, x, z.v, below, fuel);
    }
    t := Chain(w.ar, im, m, 1, z, b, 1, full, goal, fuel);
  }

  /** The state in which the right-hand side of lv op= e is evaluated. */
  function Updating(b: M.Machine, lv: LValue, x: Num, was: Num, st: Store): M.Machine {
    With(Behind(Located(b, lv, x, st), Bytes(Fetched(lv))), was, st)
  }

  /** Where the parts of lv op= e lie behind the subscript, with e of h bytes. */
  ghost predicate UpdateAt(code: M.Code, addr: nat, lv: LValue, op: char, h: nat) {
    Placed(code, addr, Fetched(lv)) && Placed(code, addr + Bytes(Fetched(lv)) + h, [Plain(op)] + Stored(lv))
  }

  function UpdateSize(lv: LValue, h: nat): nat { Bytes(Fetched(lv)) + h + 1 + Bytes(Stored(lv)) }

  /** From the subscript on: fetch, evaluate, combine, store. */
  lemma TailUpdate(w: World, im: M.Image, m: M.Machine, h: nat, lv: LValue, op: char, x: Num, below: Stack,
                   m1: M.Machine, k: nat, q: Value, fuel: nat) returns (t: nat)
    requires ArithOp(op) && Live(im, m) && UpdateAt(im[m.func], m.addr, lv, op, h) && m.stack == Indexed(lv, x, below)
    requires var was := LoadValue(w, lv, x, m.store);
      was.Val? ==> m1 == With(Behind(m, Bytes(Fetched(lv))), was.v, was.st) && Yields(w.ar, im, m1, k, q, Behind(m1, h), fuel)
    ensures var was := LoadValue(w, lv, x, m.store);
      Yields(w.ar, im, m, t, if was.Val? then UpdateEnd(w, lv, op, x, was.v, q) else was,
             Behind(m, UpdateSize(lv, h)).(stack := below), fuel)
  {
    var was, b, goal := LoadValue(w, lv, x, m.store), Behind(m, Bytes(Fetched(lv))), Behind(m, UpdateSize(lv, h)).(stack := below);
    var full, u := if was.Val? then UpdateEnd(w, lv, op, x, was.v, q) else was, 0;
    t := SimFetched(w, im, lv, m, x, below, fuel);
    if was.Val? {
      var c := Behind(m1, h);
      if q.Val? {
        u := EndUpdate(w, im, With(c, q.v, q.st), lv, op, x, was.v, q.v, below, fuel);
      }
      u := Chain(w.ar, im, m1, k, q, c, u, full, goal, fuel);
    }
    t := Chain(w.ar, im, m, t, was, b, u, full, goal, fuel);
  }

  function UpdateOf(w: World, lv: LValue, op: char, r: Value, q: Value): Value {
    if !r.Val? then r
    else
      var was := LoadValue(w, lv, r.v, r.st);
      if was.Val? then UpdateEnd(w, lv, op, r.v, was.v, q) else was
  }

  lemma ComposeUpdate(w: World, im: M.Image, m: M.Machine, a: nat, h: nat, lv: LValue, op: char,
                      n: nat, r: Value, m1: M.Machine, k: nat, q: Value, fuel: nat) returns (t: nat)
    requires ArithOp(op) && Live(im, m) && UpdateAt(im[m.func], m.addr + a, lv, op, h)
    requires Locates(w.ar, im, m, n, lv, r, Behind(m, a), fuel)
    requires r.Val? && LoadValue(w, lv, r.v, r.st).Val? ==>
      && m1 == Updating(Behind(m, a), lv, r.v, LoadValue(w, lv, r.v, r.st).v, r.st)
      && Yields(w.ar, im, m1, k, q, Behind(m1, h), fuel)
    ensures Yields(w.ar, im, m, t, UpdateOf(w, lv, op, r, q), Behind(m, a + UpdateSize(lv, h)), fuel)
  {
    var b, full, goal := Behind(m, a), UpdateOf(w, lv, op, r, q), Behind(m, a + UpdateSize(lv, h));
    t := 0;
    if r.Val? {
      t := TailUpdate(w, im, Located(b, lv, r.v, r.st), h, lv, op, r.v, m.stack, m1, k, q, fuel);
    }
    t := ChainLocated(w.ar, im, m, n, lv, r, b, t, full, goal, fuel);
  }

  // ---------------------------------------------------------------------
  // && and ||.
  // ---------------------------------------------------------------------

  function AndTestCode(lab: nat): seq<Instr> { [Plain('D'), Jump('Z', lab), Plain('p')] }

  /** Duplicate, jump to lab keeping the value if it is zero, else drop it. */
  lemma AndTest(ar: Arith, im: M.Image, m: M.Machine, lab: nat, x: Num, below: Stack) returns (t: nat)
    requires Starts(im, m, AndTestCode(lab)) && m.stack == Push(x, below) && lab in im[m.func].labels
    ensures M.Reaches(ar, im, m, t, if M.IsTrue(x) then Behind(m, 5).(stack := below) else m.(addr := im[m.func].labels[lab]))
  {
    var code := im[m.func];
    assert AndTestCode(lab) == [Plain('D')] + ([Jump('Z', lab)] + [Plain('p')]);
    PlacedCons(code, m.addr, Plain('D'), [Jump('Z', lab)] + [Plain('p')]);
    PlacedCons(code, m.addr + 1, Jump('Z', lab), [Plain('p')]);
    Placed1(code, m.addr + 4, Plain('p'));
    var m1 := Behind(m, 1).(stack := Push(x, m.stack));
    StepDup(ar, im, m);
    StepBranch(ar, im, m1, 'Z', lab);
    if M.IsTrue(x) {
      M.ReachesThen(ar, im, m, 1, m1, 1, Behind(m, 4));
      StepPop(ar, im, Behind(m, 4));
      M.ReachesThen(ar, im, m, 2, Behind(m, 4), 1, Behind(m, 5).(stack := below));
      t := 3;
    } else {
      M.ReachesThen(ar, im, m, 1, m1, 1, m.(addr := code.labels[lab]));
      t := 2;
    }
  }

  function AndEndCode(lab: nat): seq<Instr> { AndTestCode(lab) + ([Plain('1')] + [Label(lab)]) }

  lemma AndEndPlaced(im: M.Image, m: M.Machine, lab: nat)
    requires Starts(im, m, AndEndCode(lab))
    ensures Starts(im, m, AndTestCode(lab)) && PlacedOne(im[m.func], m.addr + 5, Plain('1'))
    ensures PlacedOne(im[m.func], m.addr + 6, Label(lab)) && Bytes(AndEndCode(lab)) == 6 && Bytes(AndTestCode(lab)) == 5
  {
    assert AndTestCode(lab) == [Plain('D')] + ([Jump('Z', lab)] + [Plain('p')]);
    BytesAppend([Plain('D')], [Jump('Z', lab)] + [Plain('p')]);
    BytesAppend([Jump('Z', lab)], [Plain('p')]);
    BytesAppend([Plain('1')], [Label(lab)]);
    assert Bytes([Plain('D')]) == 1 && Bytes([Jump('Z', lab)]) == 3 && Bytes([Plain('p')]) == 1;
    PlacedSplit(im[m.func], m.addr, AndTestCode(lab), [Plain('1')] + [Label(lab)]);
    PlacedCons(im[m.func], m.addr + 5, Plain('1'), [Label(lab)]);
    Placed1(im[m.func], m.addr + 6, Label(lab));
  }

  lemma AndEnd(ar: Arith, im: M.Image, m: M.Machine, lab: nat, y: Num, below: Stack, fuel: nat) returns (t: nat)
    requires Starts(im, m, AndEndCode(lab)) && m.stack == Push(y, below)
    ensures Yields(ar, im, m, t, Val(if M.IsTrue(y) then ONE else y, m.store), Behind(m, 6).(stack := below), fuel)
  {
    AndEndPlaced(im, m, lab);
    t := AndTest(ar, im, m, lab, y, below);
    if M.IsTrue(y) {
      var m1 := Behind(m, 5).(stack := below);
      StepOne(ar, im, m1, true);
      M.ReachesThen(ar, im, m, t, m1, 1, Behind(m, 6).(stack := Push(ONE, below)));
      t := t + 1;
    }
  }

  function AndOf(r: Value, q: Value): Value {
    if !r.Val? || !M.IsTrue(r.v) then r else if !q.Val? then q else Val(if M.IsTrue(q.v) then ONE else q.v, q.st)
  }

  /** Where the parts of a && with operands of g and h bytes lie. */
  ghost predicate AndAt(code: M.Code, addr: nat, g: nat, h: nat, lab: nat) {
    Placed(code, addr + g, AndTestCode(lab)) && Placed(code, addr + g + 5 + h, AndEndCode(lab))
  }

  lemma AndTestBytes(lab: nat)
    ensures Bytes(AndTestCode(lab)) == 5
  {
    assert AndTestCode(lab) == [Plain('D')] + ([Jump('Z', lab)] + [Plain('p')]);
    BytesAppend([Plain('D')], [Jump('Z', lab)] + [Plain('p')]);
    BytesAppend([Jump('Z', lab)], [Plain('p')]);
  }

  lemma AndEndBytes(lab: nat)
    ensures Bytes(AndEndCode(lab)) == 6
  {
    AndTestBytes(lab);
    BytesAppend(AndTestCode(lab), [Plain('1')] + [Label(lab)]);
    BytesAppend([Plain('1')], [Label(lab)]);
  }

  lemma AndPlaced(code: M.Code, addr: nat, g: seq<Instr>, h: seq<Instr>, lab: nat)
    requires Placed(code, addr, g + AndTestCode(lab) + h + AndEndCode(lab))
    ensures Placed(code, addr, g) && Placed(code, addr + Bytes(g) + 5, h)
    ensures AndAt(code, addr, Bytes(g), Bytes(h), lab)
    ensures Bytes(g + AndTestCode(lab) + h + AndEndCode(lab)) == Bytes(g) + Bytes(h) + 11
  {
    var a := AndTestCode(lab);
    AndTestBytes(lab);
    AndEndBytes(lab);
    PlacedSplit(code, addr, g + a + h, AndEndCode(lab));
    PlacedSplit(code, addr, g + a, h);
    PlacedSplit(code, addr, g, a);
  }

  /** From the first test of a && on, with the first operand on the stack. */
  lemma AndFirst(w: World, im: M.Image, m: M.Machine, h: nat, lab: nat, x: Num, below: Stack,
                 m1: M.Machine, k: nat, q: Value, c1: M.Machine, fuel: nat) returns (t: nat)
    requires Live(im, m) && AndAt(im[m.func], m.addr, 0, h, lab) && m.stack == Push(x, below)
    requires M.IsTrue(x) ==>
      m1 == Behind(m, 5).(stack := below) && c1 == Behind(m1, h) && Yields(w.ar, im, m1, k, q, c1, fuel)
    ensures Yields(w.ar, im, m, t, AndOf(Val(x, m.store), q), Behind(m, h + 11).(stack := below), fuel)
  {
    AndEndPlaced(im, m.(addr := m.addr + 5 + h), lab);
    t := AndTest(w.ar, im, m, lab, x, below);
    if M.IsTrue(x) {
      var full, goal := AndOf(Val(x, m.store), q), Behind(m, h + 11).(stack := below);
      var u := 0;
      if q.Val? {
        u := AndEnd(w.ar, im, With(c1, q.v, q.st), lab, q.v, below, fuel);
      }
      u := Chain(w.ar, im, m1, k, q, c1, u, full, goal, fuel);
      YieldsThen(w.ar, im, m, t, m1, u, full, goal, fuel);
      t := t + u;
    }
  }

  lemma ComposeAnd(w: World, im: M.Image, m: M.Machine, g: nat, h: nat, lab: nat, n: nat, r: Value, c: M.Machine,
                   m1: M.Machine, k: nat, q: Value, c1: M.Machine, goal: M.Machine, fuel: nat) returns (t: nat)
    requires Live(im, m) && AndAt(im[m.func], m.addr, g, h, lab) && goal == Behind(m, g + h + 11)
    requires Yields(w.ar, im, m, n, r, c, fuel) && c == Behind(m, g)
    requires r.Val? && M.IsTrue(r.v) ==>
      m1 == Behind(m, g + 5).(store := r.st) && c1 == Behind(m1, h) && Yields(w.ar, im, m1, k, q, c1, fuel)
    ensures Yields(w.ar, im, m, t, AndOf(r, q), goal, fuel)
  {
    t := 0;
    if r.Val? {
      t := AndFirst(w, im, With(c, r.v, r.st), h, lab, r.v, m.stack, m1, k, q, c1, fuel);
    }
    t := Chain(w.ar, im, m, n, r, c, t, AndOf(r, q), goal, fuel);
  }

  function OrEndCode(lab: nat, end: nat): seq<Instr> {
    [Jump('B', lab)] + ([Plain('0')] + ([Jump('J', end)] + ([Label(lab)] + ([Plain('1')] + [Label(end)]))))
  }

  lemma OrEndPlaced(code: M.Code, addr: nat, lab: nat, end: nat)
    requires Placed(code, addr, OrEndCode(lab, end))
    ensures PlacedOne(code, addr, Jump('B', lab)) && PlacedOne(code, addr + 3, Plain('0'))
    ensures PlacedOne(code, addr + 4, Jump('J', end)) && PlacedOne(code, addr + 7, Plain('1'))
    ensures lab in code.labels && code.labels[lab] == addr + 7
    ensures end in code.labels && code.labels[end] == addr + 8
    ensures Bytes(OrEndCode(lab, end)) == 8
  {
    var r4 := [Plain('1')] + [Label(end)];
    var r3 := [Label(lab)] + r4;
    var r2 := [Jump('J', end)] + r3;
    PlacedCons(code, addr, Jump('B', lab), [Plain('0')] + r2);
    PlacedCons(code, addr + 3, Plain('0'), r2);
    PlacedCons(code, addr + 4, Jump('J', end), r3);
    PlacedCons(code, addr + 7, Label(lab), r4);
    PlacedCons(code, addr + 7, Plain('1'), [Label(end)]);
    Placed1(code, addr + 8, Label(end));
  }

  /** At the label of a || that holds: push one. */
  lemma OrShort(ar: Arith, im: M.Image, m: M.Machine, lab: nat, end: nat, at: nat, fuel: nat)
    requires Live(im, m) && Placed(im[m.func], at, OrEndCode(lab, end)) && m.addr == at + 7
    ensures Yields(ar, im, m, 1, Val(ONE, m.store), m.(addr := at + 8), fuel)
  {
    OrEndPlaced(im[m.func], at, lab, end);
    StepOne(ar, im, m, true);
  }

  lemma OrEnd(ar: Arith, im: M.Image, m: M.Machine, lab: nat, end: nat, y: Num, below: Stack, fuel: nat) returns (t: nat)
    requires Starts(im, m, OrEndCode(lab, end)) && m.stack == Push(y, below)
    ensures Yields(ar, im, m, t, Val(M.Truth(M.IsTrue(y)), m.store), Behind(m, 8).(stack := below), fuel)
  {
    OrEndPlaced(im[m.func], m.addr, lab, end);
    StepBranch(ar, im, m, 'B', lab);
    var goal, full := Behind(m, 8).(stack := below), Val(M.Truth(M.IsTrue(y)), m.store);
    if M.IsTrue(y) {
      var m1 := Behind(m, 7).(stack := below);
      OrShort(ar, im, m1, lab, end, m.addr, fuel);
      YieldsThen(ar, im, m, 1, m1, 1, full, goal, fuel);
      t := 2;
    } else {
      var m1 := Behind(m, 3).(stack := below);
      var m2 := Behind(m, 4).(stack := Push(ZERO, below));
      StepOne(ar, im, m1, false);
      StepGoto(ar, im, m2, end);
      M.ReachesThen(ar, im, m1, 1, m2, 1, With(goal, ZERO, m.store));
      YieldsThen(ar, im, m, 1, m1, 2, full, goal, fuel);
      t := 3;
    }
  }

  function OrOf(r: Value, q: Value): Value {
    if !r.Val? then r else if M.IsTrue(r.v) then Val(ONE, r.st) else if !q.Val? then q
    else Val(M.Truth(M.IsTrue(q.v)), q.st)
  }

  /** The second operand and the end of a ||. */
  lemma OrSecond(w: World, im: M.Image, m: M.Machine, lab: nat, end: nat, k: nat, q: Value, c: M.Machine, fuel: nat)
    returns (t: nat)
    requires Starts(im, c, OrEndCode(lab, end)) && Yields(w.ar, im, m, k, q, c, fuel)
    ensures Yields(w.ar, im, m, t, if q.Val? then Val(M.Truth(M.IsTrue(q.v)), q.st) else q, Behind(c, 8), fuel)
  {
    var full := if q.Val? then Val(M.Truth(M.IsTrue(q.v)), q.st) else q;
    t := 0;
    if q.Val? {
      t := OrEnd(w.ar, im, With(c, q.v, q.st), lab, end, q.v, c.stack, fuel);
    }
    t := Chain(w.ar, im, m, k, q, c, t, full, Behind(c, 8), fuel);
  }

  function OrCode(g: seq<Instr>, h: seq<Instr>, lab: nat, end: nat): seq<Instr> {
    g + ([Jump('B', lab)] + (h + OrEndCode(lab, end)))
  }

  lemma OrBytes(h: seq<Instr>, lab: nat, end: nat)
    ensures Bytes([Jump('B', lab)] + (h + OrEndCode(lab, end))) == Bytes(h) + 11
  {
    var r4 := [Plain('1')] + [Label(end)];
    var r2 := [Jump('J', end)] + ([Label(lab)] + r4);
    BytesAppend([Jump('B', lab)], h + OrEndCode(lab, end));
    BytesAppend(h, OrEndCode(lab, end));
    BytesAppend([Jump('B', lab)], [Plain('0')] + r2);
    BytesAppend([Plain('0')], r2);
    BytesAppend([Jump('J', end)], [Label(lab)] + r4);
    BytesAppend([Label(lab)], r4);
    BytesAppend([Plain('1')], [Label(end)]);
  }

  /** Where the parts of a || with operands of g and h bytes lie. */
  ghost predicate OrAt(code: M.Code, addr: nat, g: nat, h: nat, lab: nat, end: nat) {
    Placed(code, addr + g, [Jump('B', lab)]) && Placed(code, addr + g + 3 + h, OrEndCode(lab, end))
  }

  lemma OrPlaced(code: M.Code, addr: nat, g: seq<Instr>, h: seq<Instr>, lab: nat, end: nat)
    requires Placed(code, addr, OrCode(g, h, lab, end))
    ensures Placed(code, addr, g) && Placed(code, addr + Bytes(g) + 3, h)
    ensures OrAt(code, addr, Bytes(g), Bytes(h), lab, end) && Bytes(OrCode(g, h, lab, end)) == Bytes(g) + Bytes(h) + 11
  {
    var e, a := OrEndCode(lab, end), addr + Bytes(g);
    PlacedSplit(code, addr, g, [Jump('B', lab)] + (h + e));
    PlacedSplit(code, a, [Jump('B', lab)], h + e);
    assert Bytes([Jump('B', lab)]) == 3;
    PlacedSplit(code, a + 3, h, e);
    OrBytes(h, lab, end);
  }

  /** From the first test of a || on, with the first operand on the stack. */
  lemma OrFirst(w: World, im: M.Image, m: M.Machine, h: nat, lab: nat, end: nat, x: Num, below: Stack,
                m1: M.Machine, k: nat, q: Value, c1: M.Machine, fuel: nat) returns (t: nat)
    requires Live(im, m) && OrAt(im[m.func], m.addr, 0, h, lab, end) && m.stack == Push(x, below)
    requires !M.IsTrue(x) ==>
      m1 == Behind(m, 3).(stack := below) && c1 == Behind(m1, h) && Yields(w.ar, im, m1, k, q, c1, fuel)
    ensures Yields(w.ar, im, m, t, OrOf(Val(x, m.store), q), Behind(m, h + 11).(stack := below), fuel)
  {
    var at, full, goal := m.addr + 3 + h, OrOf(Val(x, m.store), q), Behind(m, h + 11).(stack := below);
    Placed1(im[m.func], m.addr, Jump('B', lab));
    OrEndPlaced(im[m.func], at, lab, end);
    StepBranch(w.ar, im, m, 'B', lab);
    if M.IsTrue(x) {
      var m2 := m.(addr := at + 7, stack := below);
      OrShort(w.ar, im, m2, lab, end, at, fuel);
      YieldsThen(w.ar, im, m, 1, m2, 1, full, goal, fuel);
      t := 2;
    } else {
      t := OrSecond(w, im, m1, lab, end, k, q, c1, fuel);
      YieldsThen(w.ar, im, m, 1, m1, t, full, goal, fuel);
      t := 1 + t;
    }
  }

  lemma ComposeOr(w: World, im: M.Image, m: M.Machine, g: nat, h: nat, lab: nat, end: nat, n: nat, r: Value, c: M.Machine,
                  m1: M.Machine, k: nat, q: Value, c1: M.Machine, goal: M.Machine, fuel: nat) returns (t: nat)
    requires Live(im, m) && OrAt(im[m.func], m.addr, g, h, lab, end) && goal == Behind(m, g + h + 11)
    requires Yields(w.ar, im, m, n, r, c, fuel) && c == Behind(m, g)
    requires r.Val? && !M.IsTrue(r.v) ==>
      m1 == Behind(m, g + 3).(store := r.st) && c1 == Behind(m1, h) && Yields(w.ar, im, m1, k, q, c1, fuel)
    ensures Yields(w.ar, im, m, t, OrOf(r, q), goal, fuel)
  {
    t := 0;
    if r.Val? {
      t := OrFirst(w, im, With(c, r.v, r.st), h, lab, end, r.v, m.stack, m1, k, q, c1, fuel);
    }
    t := Chain(w.ar, im, m, n, r, c, t, OrOf(r, q), goal, fuel);
  }

  // ---------------------------------------------------------------------
  // Arguments and calls.
  // ---------------------------------------------------------------------

  ghost predicate YieldsAll(ar: Arith, im: M.Image, m: M.Machine, n: nat, r: Values, b: M.Machine, fuel: nat) {
    match r
    case Vals(vs, st) => M.Reaches(ar, im, m, n, b.(stack := PushAll(b.stack, vs), store := st))
    case ErrVals(st) => ReachesError(ar, im, m, n, st)
    case NoFuelVals => n >= fuel && StillRunning(ar, im, m, n)
  }

  function ArgsOf(r: Value, q: Values): Values {
    match r
    case Err(st) => ErrVals(st)
    case OutOfFuel => NoFuelVals
    case Val(x, _) => if q.Vals? then Vals([x] + q.vs, q.st) else q
  }

  lemma ComposeArgs(ar: Arith, im: M.Image, m: M.Machine, n: nat, r: Value, b: M.Machine, k: nat, q: Values,
                    goal: M.Machine, fuel: nat) returns (t: nat)
    requires Yields(ar, im, m, n, r, b, fuel)
    requires r.Val? ==> YieldsAll(ar, im, With(b, r.v, r.st), k, q, goal.(stack := Push(r.v, b.stack)), fuel)
    requires goal.stack == b.stack
    ensures YieldsAll(ar, im, m, t, ArgsOf(r, q), goal, fuel)
  {
    t := n;
    if r.Val? {
      var m1 := With(b, r.v, r.st);
      t := n + k;
      match q
      case Vals(vs, st) =>
        assert ([r.v] + vs)[1..] == vs;
        M.ReachesThen(ar, im, m, n, m1, k, goal.(stack := PushAll(m1.stack, vs), store := st));
      case ErrVals(st) => ErrorThen(ar, im, m, n, m1, k, st);
      case NoFuelVals => RunningThen(ar, im, m, n, m1, k);
    }
  }
}
