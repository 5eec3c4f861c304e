/** The machine with the arithmetic of number.c: all its numbers are proper, and
    every instruction is performed by the routines themselves. */
module BcActual {
  import opened Wrappers
  import opened Numbers
  import opened SquareRoot
  import opened BcSyntax
  import opened BcStore
  import opened BcArith
  import M = BcMachine

  // ---------------------------------------------------------------------
  // Proper numbers everywhere.
  // ---------------------------------------------------------------------

  predicate ProperStack(s: Stack) { s.Push? ==> s.top.Proper() && ProperStack(s.rest) }

  ghost predicate ProperVars(vars: map<nat, Stack>) { forall v :: v in vars ==> ProperStack(vars[v]) }

  ghost predicate ProperCells(c: map<nat, Num>) { forall i :: i in c ==> c[i].Proper() }

  ghost predicate ProperHeap(heap: seq<map<nat, Num>>) { forall r :: 0 <= r < |heap| ==> ProperCells(heap[r]) }

  predicate GoodBase(base: nat) { 2 <= base <= 16 }

  ghost predicate ProperStore(st: Store) { ProperVars(st.vars) && ProperHeap(st.heap) && GoodBase(st.ibase) }

  predicate ProperFrames(f: M.Frames) { f.Frame? ==> GoodBase(f.ibase) && ProperFrames(f.outer) }

  ghost predicate ProperMachine(m: M.Machine) { ProperStack(m.stack) && ProperStore(m.store) && ProperFrames(m.frames) }

  /** Every operation yields a proper number. */
  ghost predicate Keeps(ar: Arith) {
    && (forall op, x: Num, y: Num, scale: nat :: x.Proper() && y.Proper() && ar.binary(op, x, y, scale).Some? ==>
          ar.binary(op, x, y, scale).value.Proper())
    && (forall x: Num, scale: nat :: ar.sqrt(x, scale).Some? ==> ar.sqrt(x, scale).value.Proper())
    && (forall x: Num :: ar.negate(x).Proper())
    && (forall s, base: nat :: ar.constant(s, base).Proper())
    && (forall v :: ar.fromInt(v).Proper())
  }

  lemma BinaryProper(op: char, x: Num, y: Num, scale: nat)
    requires x.Proper() && y.Proper()
    ensures var r := BinaryOf(op, x, y, scale); r.Some? ==> r.value.Proper()
  {
    match op
    case '+' => SumsProper(x, y);
    case '-' => SumsProper(x, y);
    case '*' =>
    case '/' =>
    case '%' =>
      if y.Mag() != 0 {
        ModProper(x, y, scale);
      }
    case _ => PowerProper(x, y, scale);
  }

  lemma SumsProper(x: Num, y: Num)
    ensures AddOf(x, y).Proper() && SubOf(x, y).Proper()
  {
  }

  lemma ModProper(x: Num, y: Num, scale: nat)
    requires y.Mag() != 0
    ensures ModOf(x, y, scale).Proper()
  {
  }

  lemma PowerProper(x: Num, y: Num, scale: nat)
    ensures PowOf(x, y, scale).Some? ==> PowOf(x, y, scale).value.Proper()
  {
  }

  lemma ActualKeeps()
    ensures Keeps(ACTUAL)
  {
    forall op, x: Num, y: Num, scale: nat | x.Proper() && y.Proper() && ACTUAL.binary(op, x, y, scale).Some?
      ensures ACTUAL.binary(op, x, y, scale).value.Proper() {
      BinaryProper(op, x, y, scale);
    }
  }

  lemma SumProper(ar: Arith, n: Num, up: bool)
    requires Keeps(ar) && n.Proper()
    ensures Sum(ar, n, up).Proper()
  {
    assert ONE.Proper();
  }

  // ---------------------------------------------------------------------
  // The store keeps them.
  // ---------------------------------------------------------------------

  lemma VarsProper(st: Store, v: nat)
    requires ProperStore(st)
    ensures ProperStack(Vars(st, v)) && ProperStack(Rest(Vars(st, v))) && Top(Vars(st, v)).Proper()
  {
  }

  lemma CellProper(st: Store, a: nat, i: nat)
    requires ProperStore(st)
    ensures GetCell(st, a, i).Proper()
  {
  }

  lemma SetVarProper(st: Store, v: nat, n: Num)
    requires ProperStore(st) && n.Proper()
    ensures ProperStore(SetVar(st, v, n))
  {
    if v > 3 {
      PutTopProper(st, v, n);
    }
  }

  lemma PutTopProper(st: Store, v: nat, n: Num)
    requires ProperStore(st) && n.Proper()
    ensures ProperStore(PutTop(st, v, n))
  {
    VarsProper(st, v);
  }

  lemma BumpVarProper(ar: Arith, st: Store, v: nat, up: bool)
    requires Keeps(ar) && ProperStore(st)
    ensures ProperStore(BumpVar(ar, st, v, up))
  {
    VarsProper(st, v);
    if v > 2 {
      SumProper(ar, Top(Vars(st, v)), up);
      PutTopProper(st, v, Sum(ar, Top(Vars(st, v)), up));
    }
  }

  lemma TouchProper(st: Store, a: nat)
    requires ProperStore(st)
    ensures ProperStore(Touch(st, a))
  {
  }

  lemma SetCellProper(st: Store, a: nat, i: nat, n: Num)
    requires ProperStore(st) && n.Proper()
    ensures ProperStore(SetCell(st, a, i, n))
  {
    TouchProper(st, a);
  }

  lemma PushAutoProper(st: Store, name: int)
    requires ProperStore(st)
    ensures ProperStore(PushAuto(st, name))
  {
    if name > 0 {
      VarsProper(st, name);
    }
  }

  lemma {:induction false} PushAutosProper(st: Store, names: seq<int>)
    requires ProperStore(st)
    ensures ProperStore(PushAutos(st, names))
    decreases |names|
  {
    if names != [] {
      PushAutoProper(st, names[0]);
      PushAutosProper(PushAuto(st, names[0]), names[1..]);
    }
  }

  lemma PopNameProper(st: Store, name: int)
    requires ProperStore(st)
    ensures ProperStore(PopName(st, name))
  {
    if name > 0 {
      VarsProper(st, name);
    }
  }

  lemma {:induction false} PopNamesProper(st: Store, names: seq<int>)
    requires ProperStore(st)
    ensures ProperStore(PopNames(st, names))
    decreases |names|
  {
    if names != [] {
      PopNameProper(st, names[0]);
      PopNamesProper(PopName(st, names[0]), names[1..]);
    }
  }

  lemma PassArrayProper(st: Store, src: nat, dest: nat, byVar: bool)
    requires ProperStore(st)
    ensures ProperStore(PassArray(st, src, dest, byVar))
  {
    TouchProper(st, src);
    PushAutoProper(Touch(st, src), 0 - dest);
  }

  lemma PushParamProper(st: Store, v: nat, n: Num)
    requires ProperStore(st) && n.Proper()
    ensures ProperStore(PushParam(st, v, n))
  {
    VarsProper(st, v);
  }

  lemma {:induction false} BindProper(stack: Stack, st: Store, params: seq<Formal>, kinds: seq<int>)
    requires ProperStack(stack) && ProperStore(st)
    ensures var r := M.BindParams(stack, st, params, kinds); r.Some? ==> ProperStack(r.value.0) && ProperStore(r.value.1)
    decreases |kinds|
  {
    if kinds != [] && params != [] && stack.Push? {
      if kinds[0] == '0' as int && params[0].name > 0 {
        PushParamProper(st, params[0].name, stack.top);
        BindProper(stack.rest, PushParam(st, params[0].name, stack.top), params[1..], kinds[1..]);
      } else if kinds[0] == '1' as int && params[0].name < 0 {
        PassArrayProper(st, ArrayOf(stack.top), -params[0].name, params[0].byVar);
        BindProper(stack.rest, PassArray(st, ArrayOf(stack.top), -params[0].name, params[0].byVar), params[1..], kinds[1..]);
      }
    }
  }

  // ---------------------------------------------------------------------
  // Every instruction keeps them.
  // ---------------------------------------------------------------------

  lemma ReturnProper(im: M.Image, m: M.Machine)
    requires ProperMachine(m) && m.frames.Frame? && m.func in im
    ensures ProperStore(PopNames(PopNames(m.store, im[m.func].autos), NamesOf(im[m.func].params)))
  {
    PopNamesProper(m.store, im[m.func].autos);
    PopNamesProper(PopNames(m.store, im[m.func].autos), NamesOf(im[m.func].params));
  }

  lemma PlainProper(ar: Arith, im: M.Image, m: M.Machine, c: char)
    requires Keeps(ar) && ProperMachine(m)
    ensures ProperMachine(M.StepPlain(ar, im, m, c))
  {
    if m.stack.Push? && c != '0' && c != '1' {
      var x, below := m.stack.top, m.stack.rest;
      assert x.Proper() && ProperStack(below);
      if c == 'W' || c == 'P' {
        SetVarProper(m.store.(out := m.store.out + [Event.Written(x, m.store.obase, c == 'W')]), 4, x);
      } else if c == 'R' {
        if m.frames.Frame? && m.func in im {
          ReturnProper(im, m);
        }
      } else if below.Push? {
        assert below.top.Proper() && ProperStack(below.rest);
      }
    }
  }

  lemma NamedProper(ar: Arith, m: M.Machine, c: char, n: nat)
    requires Keeps(ar) && ProperMachine(m)
    ensures ProperMachine(M.StepNamed(ar, m, c, n))
  {
    if c == 'l' {
      VarsProper(m.store, n);
    } else if c == 'i' || c == 'd' {
      BumpVarProper(ar, m.store, n, c == 'i');
    } else if m.stack.Push? {
      var x, below := m.stack.top, m.stack.rest;
      assert x.Proper() && ProperStack(below);
      if c == 's' {
        SetVarProper(m.store, n, x);
      } else if c == 'S' {
        StoreProper(m, n);
      } else if Subscript(x).Some? {
        var i := Subscript(x).value;
        CellProper(m.store, n, i);
        SumProper(ar, GetCell(m.store, n, i), c == 'A');
        SetCellProper(m.store, n, i, Sum(ar, GetCell(m.store, n, i), c == 'A'));
      }
    }
  }

  lemma StoreProper(m: M.Machine, n: nat)
    requires ProperMachine(m) && m.stack.Push?
    ensures var below := m.stack.rest; below.Push? && Subscript(below.top).Some? ==>
      ProperStack(below.rest) && ProperStore(SetCell(m.store, n, Subscript(below.top).value, m.stack.top))
  {
    var below := m.stack.rest;
    assert ProperStack(below);
    if below.Push? && Subscript(below.top).Some? {
      SetCellProper(m.store, n, Subscript(below.top).value, m.stack.top);
    }
  }

  lemma InvokeProper(im: M.Image, m: M.Machine, f: nat, kinds: seq<int>)
    requires ProperMachine(m)
    ensures ProperMachine(M.StepInvoke(im, m, f, kinds))
  {
    if f in im && f != 0 {
      BindProper(m.stack, m.store, im[f].params, kinds);
      var r := M.BindParams(m.stack, m.store, im[f].params, kinds);
      if r.Some? {
        PushAutosProper(r.value.1, im[f].autos);
      }
    }
  }

  lemma PerformProper(ar: Arith, im: M.Image, m: M.Machine, op: M.Op)
    requires Keeps(ar) && ProperMachine(m) && m.func in im
    ensures ProperMachine(M.Perform(ar, im, m, op))
  {
    match op
    case Plain(c) => PlainProper(ar, im, m, c);
    case Named(c, n) => NamedProper(ar, m, c, n);
    case Invoke(f, kinds) => InvokeProper(im, m, f, kinds);
    case _ =>
  }

  /** No step of a run ever leaves the numbers that the routines accept. */
  lemma {:induction false} RunProper(ar: Arith, im: M.Image, m: M.Machine, n: nat)
    requires Keeps(ar) && ProperMachine(m)
    ensures ProperMachine(M.Run(ar, im, m, n))
    decreases n
  {
    if n > 0 {
      StepProper(ar, im, m);
      RunProper(ar, im, M.Step(ar, im, m), n - 1);
    }
  }

  lemma StepProper(ar: Arith, im: M.Image, m: M.Machine)
    requires Keeps(ar) && ProperMachine(m)
    ensures ProperMachine(M.Step(ar, im, m))
  {
    if !M.Halted(im, m) {
      var (op, next) := M.Fetch(im[m.func].bytes, m.addr);
      PerformProper(ar, im, m.(addr := next), op);
    }
  }

  // ---------------------------------------------------------------------
  // The instructions, performed by the routines.
  // ---------------------------------------------------------------------

  method FromInt(v: nat) returns (n: Num)
    ensures n == ACTUAL.fromInt(v)
  {
    n := Int2Num(v);
    IsCanon(n, v, 0);
  }

  /** incr_var, decr_var and their array forms: bc_add or bc_sub with one. */
  method Bumped(n: Num, up: bool) returns (r: Num)
    requires n.Proper()
    ensures r == Sum(ACTUAL, n, up)
  {
    var s := Arithmetic(if up then '+' else '-', n, ONE, 0);
    r := s.value;
  }

  method ActualPlain(im: M.Image, m: M.Machine, c: char) returns (r: M.Machine)
    requires ProperMachine(m)
    ensures r == M.StepPlain(ACTUAL, im, m, c)
  {
    if m.stack.Push? && c == 'n' {
      var n := Negation(m.stack.top);
      r := m.(stack := Push(n, m.stack.rest));
    } else if m.stack.Push? && m.stack.rest.Push? && (CompareOp(c) || ArithOp(c)) {
      r := ActualBinary(m, c);
      PlainBinary(ACTUAL, im, m, c);
    } else {
      r := M.StepPlain(ACTUAL, im, m, c);
    }
  }

  /** What a binary instruction makes of the two topmost values. */
  function BinaryStep(ar: Arith, m: M.Machine, c: char): M.Machine
    requires m.stack.Push? && m.stack.rest.Push?
  {
    var x, y, deep := m.stack.top, m.stack.rest.top, m.stack.rest.rest;
    if CompareOp(c) then m.(stack := Push(M.Truth(M.Holds(ar.order(y, x), c)), deep))
    else
      match ar.binary(c, y, x, m.store.scale)
      case Some(r) => m.(stack := Push(r, deep))
      case None => M.Fail(m)
  }

  lemma PlainBinary(ar: Arith, im: M.Image, m: M.Machine, c: char)
    requires m.stack.Push? && m.stack.rest.Push? && (CompareOp(c) || ArithOp(c))
    ensures M.StepPlain(ar, im, m, c) == BinaryStep(ar, m, c)
  {
  }

  method ActualBinary(m: M.Machine, c: char) returns (r: M.Machine)
    requires ProperMachine(m) && m.stack.Push? && m.stack.rest.Push? && (CompareOp(c) || ArithOp(c))
    ensures r == BinaryStep(ACTUAL, m, c)
  {
    var x, below := m.stack.top, m.stack.rest;
    assert ProperStack(below);
    var y, deep := below.top, below.rest;
    if CompareOp(c) {
      var o := Ordering(y, x);
      r := m.(stack := Push(M.Truth(M.Holds(o, c)), deep));
    } else {
      var z := Arithmetic(c, y, x, m.store.scale);
      r := if z.Some? then m.(stack := Push(z.value, deep)) else M.Fail(m);
    }
  }

  method ActualBump(st: Store, v: nat, up: bool) returns (r: Store)
    requires ProperStore(st)
    ensures r == BumpVar(ACTUAL, st, v, up)
  {
    if v <= 2 {
      r := BumpVar(ACTUAL, st, v, up);
    } else {
      VarsProper(st, v);
      var n := Bumped(Top(Vars(st, v)), up);
      r := PutTop(st, v, n);
    }
  }

  method ActualLoad(st: Store, v: nat) returns (n: Num)
    ensures n == GetVar(ACTUAL, st, v)
  {
    if v == 0 { n := FromInt(st.ibase); }
    else if v == 1 { n := FromInt(st.obase); }
    else if v == 2 { n := FromInt(st.scale); }
    else { n := Top(Vars(st, v)); }
  }

  method ActualNamed(m: M.Machine, c: char, n: nat) returns (r: M.Machine)
    requires ProperMachine(m)
    ensures r == M.StepNamed(ACTUAL, m, c, n)
  {
    if c == 'l' {
      var v := ActualLoad(m.store, n);
      r := m.(stack := Push(v, m.stack));
    } else if c == 'i' || c == 'd' {
      var st := ActualBump(m.store, n, c == 'i');
      r := m.(store := st);
    } else if c != 's' && c != 'L' && c != 'S' && m.stack.Push? && Subscript(m.stack.top).Some? {
      var i := Subscript(m.stack.top).value;
      CellProper(m.store, n, i);
      var v := Bumped(GetCell(m.store, n, i), c == 'A');
      r := m.(stack := m.stack.rest, store := SetCell(m.store, n, i, v));
    } else {
      r := M.StepNamed(ACTUAL, m, c, n);
    }
  }

  method ActualSpecial(m: M.Machine, c: char) returns (r: M.Machine)
    requires ProperMachine(m)
    ensures r == M.StepSpecial(ACTUAL, m, c)
  {
    if m.stack.Bottom? {
      return M.Fail(m);
    }
    var x, below := m.stack.top, m.stack.rest;
    if c == 'L' {
      var n := FromInt(if x.Len() == 1 && x.Scale() != 0 && x.whole[0] == 0 then x.Scale() else x.Len() + x.Scale());
      r := m.(stack := Push(n, below));
    } else if c == 'S' {
      var n := FromInt(x.Scale());
      r := m.(stack := Push(n, below));
    } else if c == 'R' {
      var s := Root(x, m.store.scale);
      r := if s.Some? then m.(stack := Push(s.value, below)) else M.Fail(m);
    } else {
      r := m;
    }
  }

  /** 'K', for the constants that the scanner produces. */
  method ActualNumber(m: M.Machine, ds: seq<int>) returns (n: Num)
    requires ProperMachine(m)
    ensures n == ACTUAL.constant(ds, M.ConstBase(m))
  {
    if (forall i :: 0 <= i < |ds| ==> ds[i] >= 0) && Scanned(Codes(ds)) {
      assert Codes(ds) == ds;
      n := ReadConstant(Codes(ds), M.ConstBase(m));
    } else {
      n := ACTUAL.constant(ds, M.ConstBase(m));
    }
  }

  method ActualPerform(im: M.Image, m: M.Machine, op: M.Op) returns (r: M.Machine)
    requires ProperMachine(m) && m.func in im
    ensures r == M.Perform(ACTUAL, im, m, op)
  {
    match op
    case Plain(c) => r := ActualPlain(im, m, c);
    case Named(c, n) => r := ActualNamed(m, c, n);
    case Special(c) => r := ActualSpecial(m, c);
    case Number(ds) =>
      var n := ActualNumber(m, ds);
      r := m.(stack := Push(n, m.stack));
    case _ => r := M.Perform(ACTUAL, im, m, op);
  }

  /** The loop of execute on the routines of number.c. */
  method ActualExecute(im: M.Image, start: M.Machine, limit: nat) returns (m: M.Machine)
    requires ProperMachine(start)
    ensures m == M.Run(ACTUAL, im, start, limit) && ProperMachine(m)
  {
    ActualKeeps();
    m := start;
    var n := 0;
    while n < limit && !M.Halted(im, m)
      invariant n <= limit && m == M.Run(ACTUAL, im, start, n) && ProperMachine(m)
    {
      M.RunStep(ACTUAL, im, start, n);
      StepProper(ACTUAL, im, m);
      var (op, next) := M.Fetch(im[m.func].bytes, m.addr);
      m := ActualPerform(im, m.(addr := next), op);
      n := n + 1;
    }
    M.RunSplit(ACTUAL, im, start, n, limit - n);
    if n < limit {
      M.RunHalted(ACTUAL, im, m, limit - n);
    }
  }
}
