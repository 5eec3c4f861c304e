/** bc from end to end: the actions generate text, the loader turns it into
    code, the machine runs it, and what it does is what the source means. */
module BcSystem {
  import opened BcStore
  import opened BcSemantics
  import opened BcFunctions
  import opened BcText
  import opened BcProgram
  import opened BcCompile
  import opened DecimalText
  import G = BcGenerator
  import L = BcLoader
  import M = BcMachine
  import A = BcActual
  import opened BcArith

  /** Everything that is emitted for a program. */
  method Generate(p: Source) returns (text: seq<char>)
    requires GoodSource(p)
    ensures text == ProgramText(p)
  {
    var gen := new G.Generator();
    var k := 0;
    while k < |p.defs|
      invariant 0 <= k <= |p.defs| && gen.Valid() && gen.text + DefsText(p.defs[k..]) == DefsText(p.defs)
      invariant gen.Restored(0, 0, gen.ifLabel) && gen.nextLabel == 1 && !gen.hadError && fresh(gen)
      invariant gen.items == [] && gen.front == gen.text
    {
      var f, d := p.defs[k].0, p.defs[k].1;
      assert GoodEntry(p.defs[k]);
      G.GoodHasNoStray(d.body, false, false);
      assert p.defs[k..][1..] == p.defs[k + 1..];
      Join(gen.text, FuncText(f, d), DefsText(p.defs[k + 1..]));
      gen.GenDef(f, d);
      k := k + 1;
    }
    assert p.defs[k..] == [] && gen.text + [] == gen.text;
    G.GoodHasNoStray(p.main, false, false);
    gen.GenStmt(p.main);
    assert gen.items == StmtCode(p.main, 1, 0, 0).code;
    G.WholeText(gen.text, gen.front, gen.items);
    text := gen.text;
  }

  /** The loaded program, started in st, has stopped after n instructions. */
  ghost predicate StopsWithin(ar: Arith, p: Source, st: Store, n: nat) {
    var im := ImageOf(LoadCode(START, ProgramText(p)));
    M.Halted(im, M.Run(ar, im, Initial(st), n))
  }

  /** The source comes to an end. */
  ghost predicate Terminates(ar: Arith, p: Source, st: Store) {
    var w := World(ar, FuncsOf(p.defs, map[]));
    exists st' :: Means(w, p.main, st, Normal(st')) || MeansError(w, p.main, st, st')
  }

  /** A program stops after some number of instructions exactly if its source
      comes to an end. */
  lemma StopsIff(ar: Arith, p: Source, st: Store)
    requires GoodSource(p)
    ensures (exists n: nat :: StopsWithin(ar, p, st, n)) <==> Terminates(ar, p, st)
  {
    var w, l := World(ar, FuncsOf(p.defs, map[])), LoadCode(START, ProgramText(p));
    if n: nat :| StopsWithin(ar, p, st, n) {
      StoppedMeans(ar, p, st, n);
    }
    if Terminates(ar, p, st) {
      var st' :| Means(w, p.main, st, Normal(st')) || MeansError(w, p.main, st, st');
      HaltsIff(ar, p, l, st, st');
      FailsIff(ar, p, l, st, st');
      if Stops(ar, ImageOf(l), Initial(st), Final(p, st')) {
        StopsAfter(ar, p, st, Final(p, st'));
      } else {
        var m' :| Stops(ar, ImageOf(l), Initial(st), m') && m'.error && m'.store == st';
        StopsAfter(ar, p, st, m');
      }
    }
  }

  lemma StopsAfter(ar: Arith, p: Source, st: Store, m: M.Machine)
    requires Stops(ar, ImageOf(LoadCode(START, ProgramText(p))), Initial(st), m)
    ensures exists n: nat :: StopsWithin(ar, p, st, n)
  {
    var im := ImageOf(LoadCode(START, ProgramText(p)));
    var n: nat :| M.Run(ar, im, Initial(st), n) == m && M.Halted(im, m);
    assert StopsWithin(ar, p, st, n);
  }

  /** What a machine that has stopped says about the source. */
  lemma StoppedMeans(ar: Arith, p: Source, st: Store, n: nat)
    requires GoodSource(p) && StopsWithin(ar, p, st, n)
    ensures var w, m := World(ar, FuncsOf(p.defs, map[])), M.Run(ar, ImageOf(LoadCode(START, ProgramText(p))), Initial(st), n);
      if m.error then MeansError(w, p.main, st, m.store) else m == Final(p, m.store) && Means(w, p.main, st, Normal(m.store))
  {
    var l := LoadCode(START, ProgramText(p));
    var m := M.Run(ar, ImageOf(l), Initial(st), n);
    var o := SourceEnds(ar, p, l, st, m);
  }

  /** Compile, load and run a program, for at most `limit` instructions.  If it
      stops normally, the source ends normally in the same store, and the value
      and call stacks are empty; if it stops in an error, the source fails with
      the same store. */
  method RunSource(ar: Arith, p: Source, st: Store, limit: nat) returns (m: M.Machine, stopped: bool)
    requires GoodSource(p)
    ensures stopped <==> StopsWithin(ar, p, st, limit)
    ensures stopped && !m.error ==>
      m == Final(p, m.store) && Means(World(ar, FuncsOf(p.defs, map[])), p.main, st, Normal(m.store))
    ensures stopped && m.error ==> MeansError(World(ar, FuncsOf(p.defs, map[])), p.main, st, m.store)
  {
    var text := Generate(p);
    var loader := new L.Loader();
    loader.LoadCode(text);
    var im := ImageOf(loader.state);
    var n;
    m, n := M.Execute(ar, im, Initial(st), limit);
    stopped := M.Halted(im, m);
    if stopped {
      StoppedMeans(ar, p, st, limit);
    }
  }

  /** The same with the routines of number.c as its arithmetic.  Started with
      proper numbers, which a fresh store has, the machine only ever calls them
      on proper numbers, negative zeros among them. */
  method RunActual(p: Source, st: Store, limit: nat) returns (m: M.Machine, stopped: bool)
    requires GoodSource(p) && A.ProperStore(st)
    ensures stopped <==> StopsWithin(ACTUAL, p, st, limit)
    ensures stopped && !m.error ==>
      m == Final(p, m.store) && Means(World(ACTUAL, FuncsOf(p.defs, map[])), p.main, st, Normal(m.store))
    ensures stopped && m.error ==> MeansError(World(ACTUAL, FuncsOf(p.defs, map[])), p.main, st, m.store)
    ensures A.ProperMachine(m)
  {
    var text := Generate(p);
    var loader := new L.Loader();
    loader.LoadCode(text);
    var im := ImageOf(loader.state);
    m := A.ActualExecute(im, Initial(st), limit);
    stopped := M.Halted(im, m);
    if stopped {
      StoppedMeans(ACTUAL, p, st, limit);
    }
  }
}
