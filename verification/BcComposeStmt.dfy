/** How the runs of adjacent pieces of code combine: statements. */
module BcComposeStmt {
  import opened Numbers
  import opened BcSyntax
  import opened BcStore
  import M = BcMachine
  import opened BcCompile
  import opened BcSemantics
  import opened BcPlacement
  import opened BcSimulation
  import opened BcCompose

  /** Where break and continue lead, and whether they may occur. */
  datatype Exits = Exits(brk: nat, cont: nat, inLoop: bool, inFor: bool)

  ghost predicate Known(im: M.Image, m: M.Machine, x: Exits) {
    && m.func in im && (x.inLoop ==> x.brk in im[m.func].labels) && (x.inFor ==> x.cont in im[m.func].labels)
  }

  /** m jumped to a label. */
  function AtLabel(im: M.Image, m: M.Machine, lab: nat): M.Machine {
    if m.func in im && lab in im[m.func].labels then m.(addr := im[m.func].labels[lab]) else m
  }

  /** A return instruction is next, its value pushed. */
  ghost predicate ReachesReturn(ar: Arith, im: M.Image, m: M.Machine, n: nat, b: M.Machine, v: Num, st: Store) {
    exists a: nat :: b.func in im && Placed(im[b.func], a, [Plain('R')]) && M.Reaches(ar, im, m, n, With(b, v, st).(addr := a))
  }

  /** n steps from m do what executing a statement with outcome r says; b is
      the state behind the statement, but for its store. */
  ghost predicate Ends(ar: Arith, im: M.Image, m: M.Machine, n: nat, r: Outcome, b: M.Machine, x: Exits, fuel: nat) {
    match r
    case Normal(st) => M.Reaches(ar, im, m, n, b.(store := st))
    case Broke(st) => x.inLoop && M.Reaches(ar, im, m, n, AtLabel(im, b.(store := st), x.brk))
    case Continued(st) => x.inFor && M.Reaches(ar, im, m, n, AtLabel(im, b.(store := st), x.cont))
    case Returned(v, st) => ReachesReturn(ar, im, m, n, b, v, st)
    case Failed(st) => ReachesError(ar, im, m, n, st)
    case NoFuel => n >= fuel && StillRunning(ar, im, m, n)
  }

  lemma ReturnThen(ar: Arith, im: M.Image, m: M.Machine, a: nat, m1: M.Machine, n: nat, b: M.Machine, v: Num, st: Store)
    requires M.Reaches(ar, im, m, a, m1) && ReachesReturn(ar, im, m1, n, b, v, st)
    ensures ReachesReturn(ar, im, m, a + n, b, v, st)
  {
    var p: nat :| b.func in im && Placed(im[b.func], p, [Plain('R')]) && M.Reaches(ar, im, m1, n, With(b, v, st).(addr := p));
    M.ReachesThen(ar, im, m, a, m1, n, With(b, v, st).(addr := p));
  }

  lemma EndsThen(ar: Arith, im: M.Image, m: M.Machine, a: nat, m1: M.Machine, n: nat, r: Outcome, b: M.Machine,
                 x: Exits, fuel: nat)
    requires M.Reaches(ar, im, m, a, m1) && Ends(ar, im, m1, n, r, b, x, fuel)
    ensures Ends(ar, im, m, a + n, r, b, x, fuel)
  {
    match r
    case Normal(st) => M.ReachesThen(ar, im, m, a, m1, n, b.(store := st));
    case Broke(st) => M.ReachesThen(ar, im, m, a, m1, n, AtLabel(im, b.(store := st), x.brk));
    case Continued(st) => M.ReachesThen(ar, im, m, a, m1, n, AtLabel(im, b.(store := st), x.cont));
    case Returned(v, st) => ReturnThen(ar, im, m, a, m1, n, b, v, st);
    case Failed(st) => ErrorThen(ar, im, m, a, m1, n, st);
    case NoFuel => RunningThen(ar, im, m, a, m1, n);
  }

  /** The same, with at least one step less of fuel needed. */
  lemma EndsLater(ar: Arith, im: M.Image, m: M.Machine, a: nat, m1: M.Machine, n: nat, r: Outcome, b: M.Machine,
                  x: Exits, fuel: nat)
    requires a > 0 && fuel > 0 && M.Reaches(ar, im, m, a, m1) && Ends(ar, im, m1, n, r, b, x, fuel - 1)
    ensures Ends(ar, im, m, a + n, r, b, x, fuel)
  {
    EndsThen(ar, im, m, a, m1, n, r, b, x, fuel - 1);
  }

  /** The outcome of a statement that starts with an expression. */
  function After(r: Value, o: Outcome): Outcome {
    match r
    case Val(_, _) => o
    case Err(st) => Failed(st)
    case OutOfFuel => NoFuel
  }

  lemma ChainEnds(ar: Arith, im: M.Image, m: M.Machine, n: nat, r: Value, c: M.Machine, k: nat, o: Outcome,
                  b: M.Machine, x: Exits, fuel: nat) returns (t: nat)
    requires Yields(ar, im, m, n, r, c, fuel)
    requires r.Val? ==> Ends(ar, im, With(c, r.v, r.st), k, o, b, x, fuel)
    ensures Ends(ar, im, m, t, After(r, o), b, x, fuel)
  {
    t := n;
    if r.Val? {
      EndsThen(ar, im, m, n, With(c, r.v, r.st), k, o, b, x, fuel);
      t := n + k;
    }
  }

  // ---------------------------------------------------------------------
  // Simple statements.
  // ---------------------------------------------------------------------

  lemma EndEval(ar: Arith, im: M.Image, m: M.Machine, write: bool, v: Num, below: Stack, x: Exits, fuel: nat)
    requires Starts(im, m, [Plain(if write then 'W' else 'p')]) && m.stack == Push(v, below)
    ensures Ends(ar, im, m, 1, Normal(if write then M.Written(m.store, v, true) else m.store),
                 Behind(m, 1).(stack := below), x, fuel)
  {
    var i := Plain(if write then 'W' else 'p');
    Placed1(im[m.func], m.addr, i);
    OneStep(ar, im, m, i);
  }

  function EvalOf(r: Value, write: bool): Outcome {
    After(r, if r.Val? then Normal(if write then M.Written(r.st, r.v, true) else r.st) else NoFuel)
  }

  lemma ComposeEval(w: World, im: M.Image, m: M.Machine, a: nat, write: bool, n: nat, r: Value, x: Exits, fuel: nat)
    returns (t: nat)
    requires Live(im, m) && Placed(im[m.func], m.addr + a, [Plain(if write then 'W' else 'p')])
    requires Yields(w.ar, im, m, n, r, Behind(m, a), fuel)
    ensures Ends(w.ar, im, m, t, EvalOf(r, write), Behind(m, a + 1), x, fuel)
  {
    var b, goal, o := Behind(m, a), Behind(m, a + 1), NoFuel;
    if r.Val? {
      o := Normal(if write then M.Written(r.st, r.v, true) else r.st);
      EndEval(w.ar, im, With(b, r.v, r.st), write, r.v, m.stack, x, fuel);
    }
    t := ChainEnds(w.ar, im, m, n, r, b, 1, o, goal, x, fuel);
  }

  lemma SimText(ar: Arith, im: M.Image, m: M.Machine, s: seq<char>, x: Exits, fuel: nat)
    requires Starts(im, m, [Show(s)]) && Ascii(s)
    ensures Ends(ar, im, m, 1, Normal(m.store.(out := m.store.out + [Shown(s)])), Behind(m, Bytes([Show(s)])), x, fuel)
  {
    Placed1(im[m.func], m.addr, Show(s));
    OneStep(ar, im, m, Show(s));
    assert M.ToChars(CharBytes(s)) == s;
  }

  lemma SimGoto(ar: Arith, im: M.Image, m: M.Machine, lab: nat)
    requires Starts(im, m, [Jump('J', lab)]) && lab in im[m.func].labels
    ensures M.Reaches(ar, im, m, 1, AtLabel(im, m, lab)) && !M.Halted(im, m)
  {
    Placed1(im[m.func], m.addr, Jump('J', lab));
    StepGoto(ar, im, m, lab);
  }

  function ReturnOf(r: Value): Outcome { After(r, if r.Val? then Returned(r.v, r.st) else NoFuel) }

  lemma ComposeReturn(ar: Arith, im: M.Image, m: M.Machine, a: nat, n: nat, r: Value, x: Exits, fuel: nat)
    requires Live(im, m) && Placed(im[m.func], m.addr + a, [Plain('R')]) && Yields(ar, im, m, n, r, Behind(m, a), fuel)
    ensures Ends(ar, im, m, n, ReturnOf(r), Behind(m, a + 1), x, fuel)
  {
    if r.Val? {
      var b := Behind(m, a + 1);
      assert Placed(im[b.func], m.addr + a, [Plain('R')]);
      assert With(b, r.v, r.st).(addr := m.addr + a) == With(Behind(m, a), r.v, r.st);
    }
  }

  /** A statement and the statements after it. */
  lemma ComposeStmts(ar: Arith, im: M.Image, m: M.Machine, n: nat, r: Outcome, c: M.Machine, k: nat, q: Outcome,
                     b: M.Machine, x: Exits, fuel: nat) returns (t: nat)
    requires Ends(ar, im, m, n, r, c, x, fuel) && b == c.(addr := b.addr)
    requires r.Normal? ==> Ends(ar, im, c.(store := r.st), k, q, b, x, fuel)
    requires Known(im, c, x)
    ensures Ends(ar, im, m, t, if r.Normal? then q else r, b, x, fuel)
  {
    t := n;
    if r.Normal? {
      EndsThen(ar, im, m, n, c.(store := r.st), k, q, b, x, fuel);
      t := n + k;
    } else {
      ElsewhereEnds(ar, im, m, n, r, c, b, x, fuel);
    }
  }

  /** What leaves a statement does not depend on where the statement ends. */
  lemma ElsewhereEnds(ar: Arith, im: M.Image, m: M.Machine, n: nat, r: Outcome, c: M.Machine, b: M.Machine, x: Exits, fuel: nat)
    requires Ends(ar, im, m, n, r, c, x, fuel) && b == c.(addr := b.addr) && Known(im, c, x) && !r.Normal?
    ensures Ends(ar, im, m, n, r, b, x, fuel)
  {
    match r
    case Broke(st) => assert AtLabel(im, b.(store := st), x.brk) == AtLabel(im, c.(store := st), x.brk);
    case Continued(st) => assert AtLabel(im, b.(store := st), x.cont) == AtLabel(im, c.(store := st), x.cont);
    case Returned(v, st) =>
      var p: nat :| c.func in im && Placed(im[c.func], p, [Plain('R')]) && M.Reaches(ar, im, m, n, With(c, v, st).(addr := p));
      assert With(b, v, st).(addr := p) == With(c, v, st).(addr := p);
    case Failed(_) =>
    case NoFuel =>
  }

  // ---------------------------------------------------------------------
  // Branches.
  // ---------------------------------------------------------------------

  lemma LabelAt(code: M.Code, addr: nat, lab: nat)
    requires Placed(code, addr, [Label(lab)])
    ensures lab in code.labels && code.labels[lab] == addr
  {
    Placed1(code, addr, Label(lab));
  }

  lemma SimTest(ar: Arith, im: M.Image, m: M.Machine, c: char, lab: nat, v: Num, below: Stack)
    requires Starts(im, m, [Jump(c, lab)]) && (c == 'Z' || c == 'B') && m.stack == Push(v, below)
    requires lab in im[m.func].labels
    ensures M.Reaches(ar, im, m, 1, if (c == 'B') == M.IsTrue(v) then AtLabel(im, m.(stack := below), lab)
                                    else Behind(m, 3).(stack := below))
  {
    Placed1(im[m.func], m.addr, Jump(c, lab));
    StepBranch(ar, im, m, c, lab);
  }

  lemma SimPop(ar: Arith, im: M.Image, m: M.Machine, v: Num, below: Stack)
    requires Starts(im, m, [Plain('p')]) && m.stack == Push(v, below)
    ensures M.Reaches(ar, im, m, 1, Behind(m, 1).(stack := below))
  {
    Placed1(im[m.func], m.addr, Plain('p'));
    StepPop(ar, im, m);
  }

  function IfCode(g: seq<Instr>, h: seq<Instr>, lab: nat): seq<Instr> { g + ([Jump('Z', lab)] + (h + [Label(lab)])) }

  /** Where the parts of an if lie: a condition of g bytes, then a statement of h bytes. */
  ghost predicate IfAt(code: M.Code, addr: nat, g: nat, h: nat, lab: nat) {
    && Placed(code, addr + g, [Jump('Z', lab)]) && lab in code.labels && code.labels[lab] == addr + g + 3 + h
  }

  lemma IfPlaced(code: M.Code, addr: nat, g: seq<Instr>, h: seq<Instr>, lab: nat)
    requires Placed(code, addr, IfCode(g, h, lab))
    ensures Placed(code, addr, g) && Placed(code, addr + Bytes(g) + 3, h) && IfAt(code, addr, Bytes(g), Bytes(h), lab)
    ensures Bytes(IfCode(g, h, lab)) == Bytes(g) + 3 + Bytes(h)
  {
    var a, e := addr + Bytes(g), h + [Label(lab)];
    PlacedSplit(code, addr, g, [Jump('Z', lab)] + e);
    PlacedSplit(code, a, [Jump('Z', lab)], e);
    assert Bytes([Jump('Z', lab)]) == 3;
    PlacedSplit(code, a + 3, h, [Label(lab)]);
    LabelAt(code, a + 3 + Bytes(h), lab);
  }

  function IfOf(r: Value, o: Outcome): Outcome { After(r, if r.Val? && !M.IsTrue(r.v) then Normal(r.st) else o) }

  lemma ComposeIf(w: World, im: M.Image, m: M.Machine, g: nat, h: nat, lab: nat, n: nat, r: Value, c: M.Machine,
                  m2: M.Machine, k: nat, o: Outcome, c2: M.Machine, goal: M.Machine, x: Exits, fuel: nat) returns (t: nat)
    requires Live(im, m) && IfAt(im[m.func], m.addr, g, h, lab) && goal == Behind(m, g + 3 + h)
    requires Yields(w.ar, im, m, n, r, c, fuel) && c == Behind(m, g)
    requires r.Val? && M.IsTrue(r.v) ==>
      && m2 == Behind(m, g + 3).(store := r.st) && c2 == Behind(m2, h) && Ends(w.ar, im, m2, k, o, c2, x, fuel)
    ensures Ends(w.ar, im, m, t, IfOf(r, o), goal, x, fuel)
  {
    t := 0;
    var q := NoFuel;
    if r.Val? {
      var m1 := With(c, r.v, r.st);
      SimTest(w.ar, im, m1, 'Z', lab, r.v, m.stack);
      t := 1;
      if M.IsTrue(r.v) {
        q := o;
        EndsStore(w.ar, im, m2, k, o, c2, goal, x, fuel);
        EndsThen(w.ar, im, m1, 1, m2, k, o, goal, x, fuel);
        t := 1 + k;
      } else {
        q := Normal(r.st);
      }
    }
    t := ChainEnds(w.ar, im, m, n, r, c, t, q, goal, x, fuel);
  }

  function IfElseCode(g: seq<Instr>, h: seq<Instr>, f: seq<Instr>, lab: nat, end: nat): seq<Instr> {
    g + ([Jump('Z', lab)] + (h + ([Jump('J', end)] + ([Label(lab)] + (f + [Label(end)])))))
  }

  lemma ElsePlaced(code: M.Code, b: nat, f: seq<Instr>, lab: nat, end: nat)
    requires Placed(code, b, [Jump('J', end)] + ([Label(lab)] + (f + [Label(end)])))
    ensures Placed(code, b, [Jump('J', end)]) && Placed(code, b + 3, f)
    ensures lab in code.labels && code.labels[lab] == b + 3
    ensures end in code.labels && code.labels[end] == b + 3 + Bytes(f)
    ensures Bytes([Jump('J', end)] + ([Label(lab)] + (f + [Label(end)]))) == 3 + Bytes(f)
  {
    PlacedSplit(code, b, [Jump('J', end)], [Label(lab)] + (f + [Label(end)]));
    assert Bytes([Jump('J', end)]) == 3;
    PlacedSplit(code, b + 3, [Label(lab)], f + [Label(end)]);
    PlacedSplit(code, b + 3, f, [Label(end)]);
    LabelAt(code, b + 3, lab);
    LabelAt(code, b + 3 + Bytes(f), end);
  }

  ghost predicate IfElseAt(code: M.Code, addr: nat, g: nat, h: nat, f: nat, lab: nat, end: nat) {
    && Placed(code, addr + g, [Jump('Z', lab)]) && Placed(code, addr + g + 3 + h, [Jump('J', end)])
    && lab in code.labels && code.labels[lab] == addr + g + h + 6
    && end in code.labels && code.labels[end] == addr + g + h + f + 6
  }

  lemma IfElsePlaced(code: M.Code, addr: nat, g: seq<Instr>, h: seq<Instr>, f: seq<Instr>, lab: nat, end: nat)
    requires Placed(code, addr, IfElseCode(g, h, f, lab, end))
    ensures Placed(code, addr, g) && Placed(code, addr + Bytes(g) + 3, h) && Placed(code, addr + Bytes(g) + Bytes(h) + 6, f)
    ensures IfElseAt(code, addr, Bytes(g), Bytes(h), Bytes(f), lab, end)
    ensures Bytes(IfElseCode(g, h, f, lab, end)) == Bytes(g) + Bytes(h) + Bytes(f) + 6
  {
    var e := [Jump('J', end)] + ([Label(lab)] + (f + [Label(end)]));
    var a := addr + Bytes(g);
    PlacedSplit(code, addr, g, [Jump('Z', lab)] + (h + e));
    PlacedSplit(code, a, [Jump('Z', lab)], h + e);
    assert Bytes([Jump('Z', lab)]) == 3;
    PlacedSplit(code, a + 3, h, e);
    ElsePlaced(code, a + 3 + Bytes(h), f, lab, end);
    assert a + 3 + Bytes(h) + 3 == addr + Bytes(g) + Bytes(h) + 6;
  }

  /** Code that, when it ends normally, is followed by a jump to lab. */
  lemma EndsGoto(ar: Arith, im: M.Image, m: M.Machine, k: nat, o: Outcome, c: M.Machine, lab: nat, goal: M.Machine,
                 x: Exits, fuel: nat) returns (t: nat)
    requires Ends(ar, im, m, k, o, c, x, fuel) && Known(im, c, x)
    requires Starts(im, c, [Jump('J', lab)]) && lab in im[c.func].labels
    requires goal == c.(addr := im[c.func].labels[lab])
    ensures Ends(ar, im, m, t, o, goal, x, fuel)
  {
    t := k;
    if o.Normal? {
      var c1 := c.(store := o.st);
      SimGoto(ar, im, c1, lab);
      EndsThen(ar, im, m, k, c1, 1, o, goal, x, fuel);
      t := k + 1;
    } else {
      ElsewhereEnds(ar, im, m, k, o, c, goal, x, fuel);
    }
  }

  lemma ComposeIfElse(w: World, im: M.Image, m: M.Machine, g: nat, h: nat, f: nat, lab: nat, end: nat,
                      n: nat, r: Value, c: M.Machine, m2: M.Machine, k: nat, o: Outcome, c2: M.Machine,
                      goal: M.Machine, x: Exits, fuel: nat) returns (t: nat)
    requires Live(im, m) && IfElseAt(im[m.func], m.addr, g, h, f, lab, end) && Known(im, m, x)
    requires goal == Behind(m, g + h + f + 6) && Yields(w.ar, im, m, n, r, c, fuel) && c == Behind(m, g)
    requires r.Val? ==>
      && m2 == Behind(m, if M.IsTrue(r.v) then g + 3 else g + h + 6).(store := r.st)
      && c2 == Behind(m2, if M.IsTrue(r.v) then h else f) && Ends(w.ar, im, m2, k, o, c2, x, fuel)
    ensures Ends(w.ar, im, m, t, After(r, o), goal, x, fuel)
  {
    t := k;
    if r.Val? {
      var m1, goal1 := With(c, r.v, r.st), goal.(store := r.st);
      SimTest(w.ar, im, m1, 'Z', lab, r.v, m.stack);
      if M.IsTrue(r.v) {
        t := EndsGoto(w.ar, im, m2, k, o, c2, end, goal1, x, fuel);
      }
      EndsStore(w.ar, im, m2, t, o, goal1, goal, x, fuel);
      EndsThen(w.ar, im, m1, 1, m2, t, o, goal, x, fuel);
      t := 1 + t;
    }
    t := ChainEnds(w.ar, im, m, n, r, c, t, o, goal, x, fuel);
  }

  /** The store of the final state's description does not matter. */
  lemma EndsStore(ar: Arith, im: M.Image, m: M.Machine, n: nat, r: Outcome, c: M.Machine, b: M.Machine, x: Exits, fuel: nat)
    requires Ends(ar, im, m, n, r, c, x, fuel) && b == c.(store := b.store)
    ensures Ends(ar, im, m, n, r, b, x, fuel)
  {
    match r
    case Normal(st) => assert b.(store := st) == c.(store := st);
    case Broke(st) => assert b.(store := st) == c.(store := st);
    case Continued(st) => assert b.(store := st) == c.(store := st);
    case Returned(v, st) =>
      var p: nat :| c.func in im && Placed(im[c.func], p, [Plain('R')]) && M.Reaches(ar, im, m, n, With(c, v, st).(addr := p));
      assert With(b, v, st).(addr := p) == With(c, v, st).(addr := p);
    case Failed(_) =>
    case NoFuel =>
  }
}
