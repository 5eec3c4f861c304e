/** How the runs of adjacent pieces of code combine: while and for. */
module BcComposeLoop {
  import opened Numbers
  import opened BcStore
  import M = BcMachine
  import opened BcCompile
  import opened BcSemantics
  import opened BcPlacement
  import opened BcSimulation
  import opened BcCompose
  import opened BcComposeStmt

  // ---------------------------------------------------------------------
  // while.
  // ---------------------------------------------------------------------

  function WhileCode(g: seq<Instr>, h: seq<Instr>, start: nat, out: nat): seq<Instr> {
    [Label(start)] + (g + ([Jump('Z', out)] + (h + ([Jump('J', start)] + [Label(out)]))))
  }

  /** The end of a loop body: a jump back and the label behind it. */
  lemma LoopEndPlaced(code: M.Code, at: nat, h: seq<Instr>, back: nat, out: nat)
    requires Placed(code, at, h + ([Jump('J', back)] + [Label(out)]))
    ensures Placed(code, at, h) && Placed(code, at + Bytes(h), [Jump('J', back)])
    ensures out in code.labels && code.labels[out] == at + Bytes(h) + 3
    ensures Bytes(h + ([Jump('J', back)] + [Label(out)])) == Bytes(h) + 3
  {
    PlacedSplit(code, at, h, [Jump('J', back)] + [Label(out)]);
    PlacedSplit(code, at + Bytes(h), [Jump('J', back)], [Label(out)]);
    assert Bytes([Jump('J', back)]) == 3;
    LabelAt(code, at + Bytes(h) + 3, out);
  }

  ghost predicate WhileAt(code: M.Code, addr: nat, g: nat, h: nat, start: nat, out: nat) {
    && Placed(code, addr + g, [Jump('Z', out)]) && Placed(code, addr + g + 3 + h, [Jump('J', start)])
    && start in code.labels && code.labels[start] == addr
    && out in code.labels && code.labels[out] == addr + g + h + 6
  }

  lemma WhilePlaced(code: M.Code, addr: nat, g: seq<Instr>, h: seq<Instr>, start: nat, out: nat)
    requires Placed(code, addr, WhileCode(g, h, start, out))
    ensures Placed(code, addr, g) && Placed(code, addr + Bytes(g) + 3, h)
    ensures WhileAt(code, addr, Bytes(g), Bytes(h), start, out)
    ensures Bytes(WhileCode(g, h, start, out)) == Bytes(g) + Bytes(h) + 6
  {
    var e := h + ([Jump('J', start)] + [Label(out)]);
    var a := addr + Bytes(g);
    PlacedSplit(code, addr, [Label(start)], g + ([Jump('Z', out)] + e));
    LabelAt(code, addr, start);
    PlacedSplit(code, addr, g, [Jump('Z', out)] + e);
    PlacedSplit(code, a, [Jump('Z', out)], e);
    assert Bytes([Jump('Z', out)]) == 3;
    LoopEndPlaced(code, a + 3, h, start, out);
  }

  /** The outcome after one round of a while whose condition held. */
  function WhileRound(o: Outcome, next: Outcome, fuel: nat): Outcome {
    match o
    case Normal(_) => if fuel == 0 then NoFuel else next
    case Broke(st) => Normal(st)
    case _ => o
  }

  function WhileOf(r: Value, o: Outcome, next: Outcome, fuel: nat): Outcome {
    After(r, if r.Val? && !M.IsTrue(r.v) then Normal(r.st) else WhileRound(o, next, fuel))
  }

  /** Inside a while, break leaves it; continue belongs to an enclosing for. */
  function InWhile(x: Exits, out: nat): Exits { Exits(out, x.cont, true, x.inFor) }

  /** The end of a loop body in the middle of round: jump back, or leave. */
  lemma LoopBack(ar: Arith, im: M.Image, m: M.Machine, k: nat, o: Outcome, c: M.Machine, back: nat,
                 j: nat, next: Outcome, goal: M.Machine, x: Exits, fuel: nat) returns (t: nat)
    requires Ends(ar, im, m, k, o, c, x, fuel) && o.Normal?
    requires Starts(im, c, [Jump('J', back)]) && back in im[c.func].labels
    requires fuel > 0 ==> Ends(ar, im, AtLabel(im, c.(store := o.st), back), j, next, goal, x, fuel - 1)
    ensures Ends(ar, im, m, t, if fuel == 0 then NoFuel else next, goal, x, fuel)
  {
    var c1 := c.(store := o.st);
    SimGoto(ar, im, c1, back);
    if fuel == 0 {
      t := k;
    } else {
      EndsLater(ar, im, c1, 1, AtLabel(im, c1, back), j, next, goal, x, fuel);
      EndsThen(ar, im, m, k, c1, 1 + j, next, goal, x, fuel);
      t := k + 1 + j;
    }
  }

  /** A description of leaving a while fits its surroundings. */
  lemma LeaveWhile(ar: Arith, im: M.Image, m: M.Machine, k: nat, o: Outcome, c: M.Machine, out: nat,
                   goal: M.Machine, x: Exits, fuel: nat)
    requires Ends(ar, im, m, k, o, c, InWhile(x, out), fuel) && !o.Normal? && Known(im, c, x)
    requires c.func in im && out in im[c.func].labels && goal == c.(addr := im[c.func].labels[out])
    ensures Ends(ar, im, m, k, WhileRound(o, NoFuel, fuel), goal, x, fuel)
  {
    if !o.Broke? {
      assert Ends(ar, im, m, k, o, c, x, fuel);
      ElsewhereEnds(ar, im, m, k, o, c, goal, x, fuel);
    }
  }

  /** One round of a while, from the body on. */
  lemma WhileBody(w: World, im: M.Image, m: M.Machine, g: nat, h: nat, start: nat, out: nat,
                  m2: M.Machine, k: nat, o: Outcome, c2: M.Machine, j: nat, next: Outcome,
                  goal: M.Machine, x: Exits, fuel: nat) returns (t: nat)
    requires Live(im, m) && WhileAt(im[m.func], m.addr, g, h, start, out) && Known(im, m, x)
    requires goal == Behind(m, g + h + 6)
    requires m2 == Behind(m, g + 3).(store := m2.store) && c2 == Behind(m2, h)
    requires Ends(w.ar, im, m2, k, o, c2, InWhile(x, out), fuel)
    requires o.Normal? && fuel > 0 ==> Ends(w.ar, im, m.(store := o.st), j, next, goal, x, fuel - 1)
    ensures Ends(w.ar, im, m2, t, WhileRound(o, next, fuel), goal, x, fuel)
  {
    if o.Normal? {
      assert AtLabel(im, c2.(store := o.st), start) == m.(store := o.st);
      t := LoopBack(w.ar, im, m2, k, o, c2, start, j, next, goal, x, fuel);
    } else {
      var goal1 := goal.(store := m2.store);
      LeaveWhile(w.ar, im, m2, k, o, c2, out, goal1, x, fuel);
      EndsStore(w.ar, im, m2, k, WhileRound(o, NoFuel, fuel), goal1, goal, x, fuel);
      t := k;
    }
  }

  lemma ComposeWhile(w: World, im: M.Image, m: M.Machine, g: nat, h: nat, start: nat, out: nat,
                     n: nat, r: Value, c: M.Machine, m2: M.Machine, k: nat, o: Outcome, c2: M.Machine,
                     j: nat, next: Outcome, goal: M.Machine, x: Exits, fuel: nat) returns (t: nat)
    requires Live(im, m) && WhileAt(im[m.func], m.addr, g, h, start, out) && Known(im, m, x)
    requires goal == Behind(m, g + h + 6) && Yields(w.ar, im, m, n, r, c, fuel) && c == Behind(m, g)
    requires r.Val? && M.IsTrue(r.v) ==>
      && m2 == Behind(m, g + 3).(store := r.st) && c2 == Behind(m2, h)
      && Ends(w.ar, im, m2, k, o, c2, InWhile(x, out), fuel)
    requires r.Val? && M.IsTrue(r.v) && o.Normal? && fuel > 0 ==>
      Ends(w.ar, im, m.(store := o.st), j, next, goal, x, fuel - 1)
    ensures Ends(w.ar, im, m, t, WhileOf(r, o, next, fuel), goal, x, fuel)
  {
    var q := NoFuel;
    t := k;
    if r.Val? {
      var m1 := With(c, r.v, r.st);
      SimTest(w.ar, im, m1, 'Z', out, r.v, m.stack);
      if M.IsTrue(r.v) {
        q := WhileRound(o, next, fuel);
        t := WhileBody(w, im, m, g, h, start, out, m2, k, o, c2, j, next, goal, x, fuel);
        EndsThen(w.ar, im, m1, 1, m2, t, q, goal, x, fuel);
        t := 1 + t;
      } else {
        q := Normal(r.st);
        t := 1;
      }
    }
    t := ChainEnds(w.ar, im, m, n, r, c, t, q, goal, x, fuel);
  }

  // ---------------------------------------------------------------------
  // for.
  // ---------------------------------------------------------------------

  datatype ForLabels = ForLabels(test: nat, body: nat, again: nat, out: nat)

  function UpdateCode(k: seq<Instr>, l: seq<Instr>, z: ForLabels): seq<Instr> {
    k + ([Plain('p')] + ([Jump('J', z.test)] + ([Label(z.body)] + (l + ([Jump('J', z.again)] + [Label(z.out)])))))
  }

  function RoundsCode(h: seq<Instr>, k: seq<Instr>, l: seq<Instr>, z: ForLabels): seq<Instr> {
    h + ([Jump('B', z.body)] + ([Jump('J', z.out)] + ([Label(z.again)] + UpdateCode(k, l, z))))
  }

  function ForCode(g: seq<Instr>, h: seq<Instr>, k: seq<Instr>, l: seq<Instr>, z: ForLabels): seq<Instr> {
    g + ([Plain('p')] + ([Label(z.test)] + RoundsCode(h, k, l, z)))
  }

  /** Where the parts of a for lie, counted from its test. */
  datatype ForAt = ForAt(test: nat, h: nat, k: nat, l: nat) {
    function Branch(): nat { test + h }
    function Again(): nat { test + h + 6 }
    function Drop(): nat { Again() + k }
    function Body(): nat { Again() + k + 4 }
    function Out(): nat { Body() + l + 3 }
  }

  /** The jumps and labels of a for, between its test, update and body. */
  ghost predicate ForJumps(code: M.Code, z: ForLabels, p: ForAt) {
    && Placed(code, p.Branch(), [Jump('B', z.body)]) && Placed(code, p.Branch() + 3, [Jump('J', z.out)])
    && Placed(code, p.Drop(), [Plain('p')]) && Placed(code, p.Drop() + 1, [Jump('J', z.test)])
    && Placed(code, p.Body() + p.l, [Jump('J', z.again)])
    && z.test in code.labels && code.labels[z.test] == p.test
    && z.body in code.labels && code.labels[z.body] == p.Body()
    && z.again in code.labels && code.labels[z.again] == p.Again()
    && z.out in code.labels && code.labels[z.out] == p.Out()
  }

  /** The rounds of a for lie at p: test h, update k and body l, and the jumps. */
  ghost predicate Lies(code: M.Code, h: seq<Instr>, k: seq<Instr>, l: seq<Instr>, z: ForLabels, p: ForAt) {
    && p.h == Bytes(h) && p.k == Bytes(k) && p.l == Bytes(l) && ForJumps(code, z, p)
    && Placed(code, p.test, h) && Placed(code, p.Again(), k) && Placed(code, p.Body(), l)
  }

  lemma UpdatePlaced(code: M.Code, at: nat, k: seq<Instr>, l: seq<Instr>, z: ForLabels)
    requires Placed(code, at, UpdateCode(k, l, z))
    ensures var a := at + Bytes(k);
      && Placed(code, at, k) && Placed(code, a, [Plain('p')]) && Placed(code, a + 1, [Jump('J', z.test)])
      && Placed(code, a + 4, l) && Placed(code, a + 4 + Bytes(l), [Jump('J', z.again)])
      && z.body in code.labels && code.labels[z.body] == a + 4
      && z.out in code.labels && code.labels[z.out] == a + 7 + Bytes(l)
      && Bytes(UpdateCode(k, l, z)) == Bytes(k) + Bytes(l) + 7
  {
    var e3 := l + ([Jump('J', z.again)] + [Label(z.out)]);
    var e2 := [Label(z.body)] + e3;
    var a := at + Bytes(k);
    PlacedSplit(code, at, k, [Plain('p')] + ([Jump('J', z.test)] + e2));
    PlacedSplit(code, a, [Plain('p')], [Jump('J', z.test)] + e2);
    assert Bytes([Plain('p')]) == 1 && Bytes([Jump('J', z.test)]) == 3;
    PlacedSplit(code, a + 1, [Jump('J', z.test)], e2);
    BodyPlaced(code, a + 4, l, z);
  }

  lemma BodyPlaced(code: M.Code, at: nat, l: seq<Instr>, z: ForLabels)
    requires Placed(code, at, [Label(z.body)] + (l + ([Jump('J', z.again)] + [Label(z.out)])))
    ensures Placed(code, at, l) && Placed(code, at + Bytes(l), [Jump('J', z.again)])
    ensures z.body in code.labels && code.labels[z.body] == at
    ensures z.out in code.labels && code.labels[z.out] == at + 3 + Bytes(l)
    ensures Bytes([Label(z.body)] + (l + ([Jump('J', z.again)] + [Label(z.out)]))) == Bytes(l) + 3
  {
    PlacedSplit(code, at, [Label(z.body)], l + ([Jump('J', z.again)] + [Label(z.out)]));
    LabelAt(code, at, z.body);
    LoopEndPlaced(code, at, l, z.again, z.out);
  }

  lemma TestPlaced(code: M.Code, a: nat, rest: seq<Instr>, z: ForLabels)
    requires Placed(code, a, [Jump('B', z.body)] + ([Jump('J', z.out)] + ([Label(z.again)] + rest)))
    ensures Placed(code, a, [Jump('B', z.body)]) && Placed(code, a + 3, [Jump('J', z.out)]) && Placed(code, a + 6, rest)
    ensures z.again in code.labels && code.labels[z.again] == a + 6
    ensures Bytes([Jump('B', z.body)] + ([Jump('J', z.out)] + ([Label(z.again)] + rest))) == 6 + Bytes(rest)
  {
    PlacedSplit(code, a, [Jump('B', z.body)], [Jump('J', z.out)] + ([Label(z.again)] + rest));
    assert Bytes([Jump('B', z.body)]) == 3 && Bytes([Jump('J', z.out)]) == 3;
    PlacedSplit(code, a + 3, [Jump('J', z.out)], [Label(z.again)] + rest);
    PlacedSplit(code, a + 6, [Label(z.again)], rest);
    LabelAt(code, a + 6, z.again);
  }

  lemma RoundsPlaced(code: M.Code, at: nat, h: seq<Instr>, k: seq<Instr>, l: seq<Instr>, z: ForLabels)
    requires Placed(code, at, RoundsCode(h, k, l, z)) && z.test in code.labels && code.labels[z.test] == at
    ensures Lies(code, h, k, l, z, ForAt(at, Bytes(h), Bytes(k), Bytes(l)))
    ensures Bytes(RoundsCode(h, k, l, z)) == Bytes(h) + Bytes(k) + Bytes(l) + 13
  {
    var u, a, p := UpdateCode(k, l, z), at + Bytes(h), ForAt(at, Bytes(h), Bytes(k), Bytes(l));
    PlacedSplit(code, at, h, [Jump('B', z.body)] + ([Jump('J', z.out)] + ([Label(z.again)] + u)));
    TestPlaced(code, a, u, z);
    assert p.Branch() == a && p.Again() == a + 6;
    UpdateLies(code, p, k, l, z);
  }

  lemma UpdateLies(code: M.Code, p: ForAt, k: seq<Instr>, l: seq<Instr>, z: ForLabels)
    requires Placed(code, p.Again(), UpdateCode(k, l, z)) && p.k == Bytes(k) && p.l == Bytes(l)
    ensures Placed(code, p.Again(), k) && Placed(code, p.Body(), l)
    ensures Placed(code, p.Drop(), [Plain('p')]) && Placed(code, p.Drop() + 1, [Jump('J', z.test)])
    ensures Placed(code, p.Body() + p.l, [Jump('J', z.again)])
    ensures z.body in code.labels && code.labels[z.body] == p.Body()
    ensures z.out in code.labels && code.labels[z.out] == p.Out()
    ensures Bytes(UpdateCode(k, l, z)) == Bytes(k) + Bytes(l) + 7
  {
    UpdatePlaced(code, p.Again(), k, l, z);
    var b := p.Drop();
    assert b == p.Again() + Bytes(k) && b + 4 == p.Body();
  }

  lemma ForPlaced(code: M.Code, addr: nat, g: seq<Instr>, h: seq<Instr>, k: seq<Instr>, l: seq<Instr>, z: ForLabels)
    requires Placed(code, addr, ForCode(g, h, k, l, z))
    ensures var p := ForAt(addr + Bytes(g) + 1, Bytes(h), Bytes(k), Bytes(l));
      && Placed(code, addr, g) && Placed(code, addr + Bytes(g), [Plain('p')])
      && Lies(code, h, k, l, z, p) && p.Out() == addr + Bytes(ForCode(g, h, k, l, z))
  {
    var e, a := RoundsCode(h, k, l, z), addr + Bytes(g);
    PlacedSplit(code, addr, g, [Plain('p')] + ([Label(z.test)] + e));
    PlacedSplit(code, a, [Plain('p')], [Label(z.test)] + e);
    assert Bytes([Plain('p')]) == 1;
    PlacedSplit(code, a + 1, [Label(z.test)], e);
    LabelAt(code, a + 1, z.test);
    RoundsPlaced(code, a + 1, h, k, l, z);
  }

  /** Inside a for, break leaves it and continue goes on to its update. */
  function InFor(z: ForLabels): Exits { Exits(z.out, z.again, true, true) }

  function UpdateOutcome(u: Value, next: Outcome, fuel: nat): Outcome { After(u, if fuel == 0 then NoFuel else next) }

  /** The update, the jump back to the test, and the remaining rounds. */
  lemma ComposeForUpdate(w: World, im: M.Image, m: M.Machine, z: ForLabels, p: ForAt, n: nat, u: Value, c: M.Machine,
                         j: nat, next: Outcome, goal: M.Machine, x: Exits, fuel: nat) returns (t: nat)
    requires Live(im, m) && ForJumps(im[m.func], z, p) && m.addr == p.Again()
    requires Yields(w.ar, im, m, n, u, c, fuel) && c == Behind(m, p.k)
    requires u.Val? && fuel > 0 ==> Ends(w.ar, im, m.(addr := p.test, store := u.st), j, next, goal, x, fuel - 1)
    ensures Ends(w.ar, im, m, t, UpdateOutcome(u, next, fuel), goal, x, fuel)
  {
    t := 0;
    if u.Val? {
      var m1 := With(c, u.v, u.st);
      var m2 := Behind(c, 1).(store := u.st);
      SimPop(w.ar, im, m1, u.v, m.stack);
      assert Ends(w.ar, im, m1, 1, Normal(u.st), m2, x, fuel);
      t := LoopBack(w.ar, im, m1, 1, Normal(u.st), m2, z.test, j, next, goal, x, fuel);
    }
    t := ChainEnds(w.ar, im, m, n, u, c, t, if fuel == 0 then NoFuel else next, goal, x, fuel);
  }

  /** The outcome of a round whose condition held; upd is the outcome from the update on. */
  function ForRound(o: Outcome, upd: Outcome): Outcome {
    match o
    case Normal(_) => upd
    case Continued(_) => upd
    case Broke(st) => Normal(st)
    case _ => o
  }

  /** Both ways to the update lead to its label. */
  lemma ForAgain(ar: Arith, im: M.Image, m: M.Machine, z: ForLabels, p: ForAt, n: nat, o: Outcome, c: M.Machine, fuel: nat)
    returns (t: nat)
    requires Live(im, c) && ForJumps(im[c.func], z, p) && c.addr == p.Body() + p.l
    requires Ends(ar, im, m, n, o, c, InFor(z), fuel) && (o.Normal? || o.Continued?)
    ensures M.Reaches(ar, im, m, t, c.(addr := p.Again(), store := o.st))
  {
    var c1 := c.(store := o.st);
    t := n;
    if o.Normal? {
      SimGoto(ar, im, c1, z.again);
      M.ReachesThen(ar, im, m, n, c1, 1, c1.(addr := p.Again()));
      t := n + 1;
    }
  }

  /** The body of a round and what follows it. */
  lemma ForBody(w: World, im: M.Image, m: M.Machine, z: ForLabels, p: ForAt, n: nat, o: Outcome, c: M.Machine,
                j: nat, upd: Outcome, goal: M.Machine, x: Exits, fuel: nat) returns (t: nat)
    requires Live(im, m) && ForJumps(im[m.func], z, p) && m.addr == p.Body() && c == Behind(m, p.l)
    requires Ends(w.ar, im, m, n, o, c, InFor(z), fuel)
    requires o.Normal? || o.Continued? ==> Ends(w.ar, im, m.(addr := p.Again(), store := o.st), j, upd, goal, x, fuel)
    requires goal == m.(addr := p.Out(), store := goal.store)
    ensures Ends(w.ar, im, m, t, ForRound(o, upd), goal, x, fuel)
  {
    if o.Normal? || o.Continued? {
      t := ForAgain(w.ar, im, m, z, p, n, o, c, fuel);
      EndsThen(w.ar, im, m, t, c.(addr := p.Again(), store := o.st), j, upd, goal, x, fuel);
      t := t + j;
    } else {
      t := n;
      if !o.Broke? {
        var y := Exits(0, 0, false, false);
        assert Ends(w.ar, im, m, n, o, c, y, fuel);
        ElsewhereEnds(w.ar, im, m, n, o, c, goal.(store := m.store), y, fuel);
        EndsStore(w.ar, im, m, n, o, goal.(store := m.store), goal, y, fuel);
      }
    }
  }

  function RoundOf(r: Value, o: Outcome, upd: Outcome): Outcome {
    After(r, if r.Val? && !M.IsTrue(r.v) then Normal(r.st) else ForRound(o, upd))
  }

  /** The test of a for: into the body, or out. */
  lemma ForTest(ar: Arith, im: M.Image, m: M.Machine, z: ForLabels, p: ForAt, v: Num, below: Stack) returns (t: nat)
    requires Live(im, m) && ForJumps(im[m.func], z, p) && m.addr == p.Branch() && m.stack == Push(v, below)
    ensures M.Reaches(ar, im, m, t, m.(addr := if M.IsTrue(v) then p.Body() else p.Out(), stack := below))
  {
    SimTest(ar, im, m, 'B', z.body, v, below);
    t := 1;
    if !M.IsTrue(v) {
      var m1 := Behind(m, 3).(stack := below);
      SimGoto(ar, im, m1, z.out);
      M.ReachesThen(ar, im, m, 1, m1, 1, m1.(addr := p.Out()));
      t := 2;
    }
  }

  lemma ComposeRound(w: World, im: M.Image, m: M.Machine, z: ForLabels, p: ForAt, n: nat, r: Value, c: M.Machine,
                     m2: M.Machine, i: nat, o: Outcome, c2: M.Machine, j: nat, upd: Outcome,
                     goal: M.Machine, x: Exits, fuel: nat) returns (t: nat)
    requires Live(im, m) && ForJumps(im[m.func], z, p) && m.addr == p.test && goal == m.(addr := p.Out(), store := goal.store)
    requires Yields(w.ar, im, m, n, r, c, fuel) && c == Behind(m, p.h)
    requires r.Val? && M.IsTrue(r.v) ==>
      && m2 == m.(addr := p.Body(), store := r.st) && c2 == Behind(m2, p.l)
      && Ends(w.ar, im, m2, i, o, c2, InFor(z), fuel)
    requires r.Val? && M.IsTrue(r.v) && (o.Normal? || o.Continued?) ==>
      Ends(w.ar, im, m.(addr := p.Again(), store := o.st), j, upd, goal, x, fuel)
    ensures Ends(w.ar, im, m, t, RoundOf(r, o, upd), goal, x, fuel)
  {
    var q := NoFuel;
    t := 0;
    if r.Val? {
      var m1 := With(c, r.v, r.st);
      q := if M.IsTrue(r.v) then ForRound(o, upd) else Normal(r.st);
      t := ForTest(w.ar, im, m1, z, p, r.v, m.stack);
      if M.IsTrue(r.v) {
        var b := ForBody(w, im, m2, z, p, i, o, c2, j, upd, goal, x, fuel);
        EndsThen(w.ar, im, m1, t, m2, b, q, goal, x, fuel);
        t := t + b;
      }
    }
    t := ChainEnds(w.ar, im, m, n, r, c, t, q, goal, x, fuel);
  }

  /** The initialisation, then the rounds. */
  lemma ComposeFor(w: World, im: M.Image, m: M.Machine, n: nat, r: Value, c: M.Machine, k: nat, o: Outcome,
                   goal: M.Machine, x: Exits, fuel: nat) returns (t: nat)
    requires Live(im, c) && Placed(im[c.func], c.addr, [Plain('p')])
    requires Yields(w.ar, im, m, n, r, c, fuel)
    requires r.Val? ==> Ends(w.ar, im, Behind(c, 1).(store := r.st), k, o, goal, x, fuel)
    ensures Ends(w.ar, im, m, t, After(r, o), goal, x, fuel)
  {
    t := 0;
    if r.Val? {
      var m1, m2 := With(c, r.v, r.st), Behind(c, 1).(store := r.st);
      SimPop(w.ar, im, m1, r.v, c.stack);
      EndsThen(w.ar, im, m1, 1, m2, k, o, goal, x, fuel);
      t := 1 + k;
    }
    t := ChainEnds(w.ar, im, m, n, r, c, t, o, goal, x, fuel);
  }
}
