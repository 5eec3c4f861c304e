/** What every evaluation keeps: below the top, no variable's or array's
    stack ever changes, arrays nobody can see keep their numbers, and a call
    gives all its names back their old stacks. */
module BcConservation {
  import opened Wrappers
  import opened Numbers
  import opened BcSyntax
  import opened BcStore
  import opened BcSemantics
  import opened BcCalls
  import opened BcSimulation
  import opened BcArrayParams
  import M = BcMachine

  /** Some name refers to array r. */
  ghost predicate Visible(st: Store, r: nat) { exists n: nat :: Ref(st, n) == Some(r) }

  /** Hidden arrays keep their numbers. */
  ghost predicate HiddenKept(a: Store, b: Store) {
    |a.heap| <= |b.heap| && forall r: nat :: r < |a.heap| && !Visible(a, r) ==> b.heap[r] == a.heap[r]
  }

  /** All stacks agree below their tops, names keep their arrays, and hidden
      arrays their numbers. */
  ghost predicate Conserves(a: Store, b: Store) {
    && Sound(a) && Sound(b) && HiddenKept(a, b)
    && (forall v: nat :: Rest(Vars(a, v)) == Rest(Vars(b, v)))
    && (forall n: nat :: StackKept(a, b, Arrays(b, n), n))
  }

  lemma VisibleBefore(a: Store, b: Store, r: nat)
    requires (forall n: nat :: StackKept(a, b, Arrays(b, n), n)) && r < |a.heap| && Visible(b, r)
    ensures Visible(a, r)
  {
    var n: nat :| Ref(b, n) == Some(r);
    assert StackKept(a, b, Arrays(b, n), n);
    assert Ref(a, n) == Some(r);
  }

  lemma HiddenThen(a: Store, b: Store, c: Store)
    requires (forall n: nat :: StackKept(a, b, Arrays(b, n), n)) && HiddenKept(a, b) && HiddenKept(b, c)
    ensures HiddenKept(a, c)
  {
    forall r: nat | r < |a.heap| && !Visible(a, r) ensures c.heap[r] == a.heap[r] {
      if Visible(b, r) {
        VisibleBefore(a, b, r);
      }
    }
  }

  lemma ConservesThen(a: Store, b: Store, c: Store)
    requires Conserves(a, b) && Conserves(b, c)
    ensures Conserves(a, c)
  {
    HiddenThen(a, b, c);
    forall n: nat ensures StackKept(a, c, Arrays(c, n), n) {
      assert StackKept(a, b, Arrays(b, n), n) && StackKept(b, c, Arrays(c, n), n);
      StackKeptThen(a, b, c, Arrays(c, n), n);
    }
  }

  /** What does not touch arrays. */
  lemma VarsOnly(a: Store, b: Store)
    requires Sound(a) && b.arrays == a.arrays && b.heap == a.heap
    requires forall v: nat :: Rest(Vars(a, v)) == Rest(Vars(b, v))
    ensures Conserves(a, b)
  {
    forall n: nat ensures SoundStack(Arrays(b, n), |b.heap|) && StackKept(a, b, Arrays(b, n), n) {
      assert Arrays(b, n) == Arrays(a, n) && SoundStack(Arrays(a, n), |a.heap|);
    }
  }

  lemma SetVarKeeps(st: Store, v: nat, n: Num)
    requires Sound(st)
    ensures Conserves(st, SetVar(st, v, n))
  {
    VarsOnly(st, SetVar(st, v, n));
  }

  lemma BumpVarKeeps(ar: Arith, st: Store, v: nat, up: bool)
    requires Sound(st)
    ensures Conserves(st, BumpVar(ar, st, v, up))
  {
    VarsOnly(st, BumpVar(ar, st, v, up));
  }

  lemma TouchKeeps(st: Store, a: nat)
    requires Sound(st)
    ensures Conserves(st, Touch(st, a))
  {
    var t := Touch(st, a);
    TouchEffect(st, a);
    forall n: nat ensures StackKept(st, t, Arrays(t, n), n) {
      if n != a {
        assert Arrays(t, n) == Arrays(st, n) && SoundStack(Arrays(st, n), |st.heap|);
      }
    }
  }

  lemma PutKeeps(st: Store, a: nat, i: nat, n: Num)
    requires Sound(st) && Ref(st, a).Some?
    ensures Conserves(st, st.(heap := PutAt(st.heap, Ref(st, a), i, n)))
  {
    var b := st.(heap := PutAt(st.heap, Ref(st, a), i, n));
    forall k: nat ensures SoundStack(Arrays(b, k), |b.heap|) && StackKept(st, b, Arrays(b, k), k) {
      assert Arrays(b, k) == Arrays(st, k) && SoundStack(Arrays(st, k), |st.heap|);
    }
    forall r: nat | r < |st.heap| && !Visible(st, r) ensures b.heap[r] == st.heap[r] {
      assert Ref(st, a) != Some(r);
    }
  }

  lemma SetCellKeeps(st: Store, a: nat, i: nat, n: Num)
    requires Sound(st)
    ensures Conserves(st, SetCell(st, a, i, n))
  {
    TouchKeeps(st, a);
    TouchEffect(st, a);
    PutKeeps(Touch(st, a), a, i, n);
    ConservesThen(st, Touch(st, a), SetCell(st, a, i, n));
  }

  lemma WrittenKeeps(st: Store, e: Expr, x: Num)
    requires Sound(st)
    ensures Conserves(st, BcSemantics.Written(st, e, x))
  {
    VarsOnly(st, BcSemantics.Written(st, e, x));
  }

  // ---------------------------------------------------------------------
  // Entering and leaving a function.
  // ---------------------------------------------------------------------

  /** Parameter i is the simple variable v. */
  predicate IsSimple(fs: seq<Formal>, i: int, v: nat) { 0 <= i < |fs| && v > 0 && fs[i].name == v }

  lemma SimpleOnce(fs: seq<Formal>, i: int, j: int, v: nat)
    requires GoodFormals(fs) && IsSimple(fs, i, v) && IsSimple(fs, j, v)
    ensures i == j
  {
    assert NamesOf(fs)[i] == NamesOf(fs)[j];
  }

  lemma SimpleIsBound(fs: seq<Formal>, i: int, v: nat)
    requires IsSimple(fs, i, v)
    ensures v in NamesOf(fs)
  {
    assert NamesOf(fs)[i] == v;
  }

  /** The n-th simple parameter has the n-th value on top of its old stack. */
  lemma {:induction false} BindAllVars(st: Store, fs: seq<Formal>, vs: seq<Num>, v: nat)
    requires GoodFormals(fs) && |fs| == |vs|
    ensures forall i :: IsSimple(fs, i, v) ==> Vars(BindAll(st, fs, vs), v) == Push(vs[i], Vars(st, v))
    ensures (forall i :: !IsSimple(fs, i, v)) ==> Vars(BindAll(st, fs, vs), v) == Vars(st, v)
    decreases |fs|
  {
    if fs != [] {
      var n := |fs| - 1;
      var st1 := BindOne(st, fs[n], vs[n]);
      LastParam(fs, 0);
      BindAllVars(st1, fs[..n], vs[..n], v);
      forall i | IsSimple(fs, i, v) ensures Vars(BindAll(st, fs, vs), v) == Push(vs[i], Vars(st, v)) {
        if i == n {
          forall j ensures !IsSimple(fs[..n], j, v) {
            if IsSimple(fs[..n], j, v) {
              SimpleOnce(fs, j, n, v);
            }
          }
        } else {
          assert NamesOf(fs)[i] != NamesOf(fs)[n];
          assert IsSimple(fs[..n], i, v);
        }
      }
      if forall i :: !IsSimple(fs, i, v) {
        assert !IsSimple(fs, n, v);
        forall j ensures !IsSimple(fs[..n], j, v) {
          assert !IsSimple(fs, j, v);
        }
      }
    }
  }

  lemma {:induction false} PushAutosStacks(st: Store, ns: seq<int>)
    requires Distinct(ns) && forall i :: 0 <= i < |ns| ==> ns[i] != 0
    ensures forall v: nat :: Vars(PushAutos(st, ns), v) == if v > 0 && v in ns then Push(ZERO, Vars(st, v)) else Vars(st, v)
    ensures forall a: nat :: Arrays(PushAutos(st, ns), a) == if a > 0 && ArrayName(a) in ns then PushArray(None, Arrays(st, a)) else Arrays(st, a)
    ensures PushAutos(st, ns).heap == st.heap
    decreases |ns|
  {
    if ns != [] {
      assert ns[0] !in ns[1..];
      PushAutosStacks(PushAuto(st, ns[0]), ns[1..]);
    }
  }

  lemma {:induction false} PopNamesStacks(st: Store, ns: seq<int>)
    requires Distinct(ns) && forall i :: 0 <= i < |ns| ==> ns[i] != 0
    ensures forall v: nat :: Vars(PopNames(st, ns), v) == if v > 0 && v in ns then Rest(Vars(st, v)) else Vars(st, v)
    ensures forall a: nat :: Arrays(PopNames(st, ns), a) == if a > 0 && ArrayName(a) in ns then Below(Arrays(st, a)) else Arrays(st, a)
    ensures PopNames(st, ns).heap == st.heap
    decreases |ns|
  {
    if ns != [] {
      assert ns[0] !in ns[1..];
      PopNamesStacks(PopName(st, ns[0]), ns[1..]);
    }
  }

  /** Arrays are named by negative numbers. */
  function ArrayName(a: nat): int { -(a as int) }

  /** The names a call of d binds. */
  predicate Bound(d: FuncDef, name: int) { name in NamesOf(d.formals) || name in d.autos }

  lemma GoodNames(d: FuncDef)
    requires GoodDef(d)
    ensures GoodFormals(d.formals) && forall i :: 0 <= i < |d.formals| ==> NamesOf(d.formals)[i] != 0
    ensures forall n :: n in NamesOf(d.formals) ==> n !in d.autos
  {
    forall i | 0 <= i < |d.formals| ensures d.formals[i].name != 0 {
      assert GoodFormal(d.formals[i]);
    }
    forall n | n in NamesOf(d.formals) ensures n !in d.autos {
      var i :| 0 <= i < |d.formals| && NamesOf(d.formals)[i] == n;
      assert d.formals[i].name == n;
    }
  }

  /** The stacks of variables inside a function. */
  lemma EnterVars(d: FuncDef, st: Store, vs: seq<Num>, v: nat)
    requires GoodDef(d) && |d.formals| == |vs|
    ensures if v > 0 && Bound(d, v) then Rest(Vars(Enter(st, d, vs), v)) == Vars(st, v) else Vars(Enter(st, d, vs), v) == Vars(st, v)
  {
    var b := BindAll(st, d.formals, vs);
    GoodNames(d);
    BindAllVars(st, d.formals, vs, v);
    PushAutosStacks(b, d.autos);
    if v in NamesOf(d.formals) {
      var i :| 0 <= i < |d.formals| && NamesOf(d.formals)[i] == v;
      assert v > 0 ==> IsSimple(d.formals, i, v);
    } else if i :| IsSimple(d.formals, i, v) {
      SimpleIsBound(d.formals, i, v);
    }
  }

  lemma LeaveVars(d: FuncDef, st: Store, v: nat)
    requires GoodDef(d)
    ensures Vars(Leave(st, d), v) == if v > 0 && Bound(d, v) then Rest(Vars(st, v)) else Vars(st, v)
  {
    GoodNames(d);
    PopNamesStacks(st, d.autos);
    PopNamesStacks(PopNames(st, d.autos), NamesOf(d.formals));
  }

  lemma CallKeepsVars(d: FuncDef, st: Store, vs: seq<Num>, st1: Store, v: nat)
    requires GoodDef(d) && |d.formals| == |vs| && Conserves(Enter(st, d, vs), st1)
    ensures if v > 0 && Bound(d, v) then Vars(Leave(st1, d), v) == Vars(st, v) else Rest(Vars(Leave(st1, d), v)) == Rest(Vars(st, v))
  {
    EnterVars(d, st, vs, v);
    LeaveVars(d, st1, v);
    assert Rest(Vars(Enter(st, d, vs), v)) == Rest(Vars(st1, v));
  }

  lemma ParamIsBound(d: FuncDef, a: nat)
    requires GoodDef(d)
    ensures a > 0 && ArrayName(a) in NamesOf(d.formals) <==> IsParam(d.formals, a)
  {
    if a > 0 && ArrayName(a) in NamesOf(d.formals) {
      var i :| 0 <= i < |d.formals| && NamesOf(d.formals)[i] == ArrayName(a);
      assert d.formals[i].name < 0 && Dest(d.formals[i]) == a;
    }
    if IsParam(d.formals, a) {
      var i :| 0 <= i < |d.formals| && d.formals[i].name < 0 && Dest(d.formals[i]) == a;
      assert NamesOf(d.formals)[i] == ArrayName(a);
    }
  }

  /** The stack of an array inside a function: under a parameter or auto of
      its name lies what the caller had. */
  lemma EnterArrays(d: FuncDef, st: Store, vs: seq<Num>, a: nat)
    requires Sound(st) && GoodDef(d) && |d.formals| == |vs|
    ensures var e := Enter(st, d, vs);
      && Grows(st, e) && SoundStack(Arrays(e, a), |e.heap|)
      && StackKept(st, e, if a > 0 && Bound(d, ArrayName(a)) then Below(Arrays(e, a)) else Arrays(e, a), a)
  {
    var b := BindAll(st, d.formals, vs);
    GoodNames(d);
    ParamIsBound(d, a);
    BindOuter(st, d.formals, vs, a);
    PushAutosStacks(b, d.autos);
    assert SoundStack(Arrays(b, a), |b.heap|);
  }

  lemma LeaveArrays(d: FuncDef, st: Store, a: nat)
    requires GoodDef(d)
    ensures Arrays(Leave(st, d), a) == if a > 0 && Bound(d, ArrayName(a)) then Below(Arrays(st, a)) else Arrays(st, a)
    ensures Leave(st, d).heap == st.heap
  {
    GoodNames(d);
    PopNamesStacks(st, d.autos);
    PopNamesStacks(PopNames(st, d.autos), NamesOf(d.formals));
  }

  lemma CallKeepsArrays(d: FuncDef, st: Store, vs: seq<Num>, st1: Store, a: nat)
    requires Sound(st) && GoodDef(d) && |d.formals| == |vs| && Conserves(Enter(st, d, vs), st1)
    ensures StackKept(st, Leave(st1, d), Arrays(Leave(st1, d), a), a)
    ensures SoundStack(Arrays(Leave(st1, d), a), |Leave(st1, d).heap|)
  {
    var e := Enter(st, d, vs);
    EnterArrays(d, st, vs, a);
    LeaveArrays(d, st1, a);
    assert StackKept(e, st1, Arrays(st1, a), a) && SoundStack(Arrays(st1, a), |st1.heap|);
    if !(a > 0 && Bound(d, ArrayName(a))) {
      StackKeptThen(st, e, st1, Arrays(st1, a), a);
    }
  }

  /** What is visible inside a function was visible to its caller, or is new. */
  lemma EnterVisible(d: FuncDef, st: Store, vs: seq<Num>, r: nat)
    requires Sound(st) && GoodDef(d) && |d.formals| == |vs| && r < |st.heap| && Visible(Enter(st, d, vs), r)
    ensures Visible(st, r)
  {
    var b, fs := BindAll(st, d.formals, vs), d.formals;
    var a: nat :| Ref(Enter(st, d, vs), a) == Some(r);
    GoodNames(d);
    PushAutosStacks(b, d.autos);
    assert Ref(b, a) == Some(r);
    ParamIsBound(d, a);
    if IsParam(fs, a) {
      var k :| 0 <= k < |fs| && fs[k].name < 0 && Dest(fs[k]) == a;
      BindContents(st, fs, vs, k);
      var e := Source(fs, ArraysOf(vs), k).0;
      BindOuter(st, fs, vs, e);
      assert Ref(st, e) == Some(r);
    } else {
      BindOuter(st, fs, vs, a);
      assert Ref(st, a) == Some(r);
    }
  }

  lemma CallKeepsHidden(d: FuncDef, st: Store, vs: seq<Num>, st1: Store)
    requires Sound(st) && GoodDef(d) && |d.formals| == |vs| && Conserves(Enter(st, d, vs), st1)
    ensures HiddenKept(st, Leave(st1, d))
  {
    var e := Enter(st, d, vs);
    EnterArrays(d, st, vs, 0);
    LeaveArrays(d, st1, 0);
    forall r: nat | r < |st.heap| && !Visible(st, r) ensures st1.heap[r] == st.heap[r] {
      if Visible(e, r) {
        EnterVisible(d, st, vs, r);
      }
    }
  }

  lemma EnterSound(d: FuncDef, st: Store, vs: seq<Num>)
    requires Sound(st) && GoodDef(d) && |d.formals| == |vs|
    ensures Sound(Enter(st, d, vs))
  {
    forall a: nat ensures SoundStack(Arrays(Enter(st, d, vs), a), |Enter(st, d, vs).heap|) {
      EnterArrays(d, st, vs, a);
    }
  }

  /** If the body conserves the store it starts with, so does the call. */
  lemma CallConserves(d: FuncDef, st: Store, vs: seq<Num>, st1: Store)
    requires Sound(st) && GoodDef(d) && |d.formals| == |vs| && Conserves(Enter(st, d, vs), st1)
    ensures Conserves(st, Leave(st1, d))
  {
    CallKeepsHidden(d, st, vs, st1);
    forall v: nat ensures Rest(Vars(st, v)) == Rest(Vars(Leave(st1, d), v)) {
      CallKeepsVars(d, st, vs, st1, v);
    }
    forall a: nat ensures StackKept(st, Leave(st1, d), Arrays(Leave(st1, d), a), a) && SoundStack(Arrays(Leave(st1, d), a), |Leave(st1, d).heap|) {
      CallKeepsArrays(d, st, vs, st1, a);
    }
  }

  // ---------------------------------------------------------------------
  // Every evaluation and every statement.
  // ---------------------------------------------------------------------

  ghost predicate GoodWorld(w: World) { forall f :: f in w.funcs ==> GoodDef(w.funcs[f]) }

  ghost predicate KeptBy(st: Store, r: Value) { r.Val? ==> Conserves(st, r.st) }

  /** An outcome other than an error or running out of fuel conserves the store. */
  ghost predicate Kept(st: Store, o: Outcome) {
    (o.Normal? || o.Broke? || o.Continued? || o.Returned?) ==> Conserves(st, o.st)
  }

  lemma KeptThen(a: Store, b: Store, r: Value)
    requires Conserves(a, b) && KeptBy(b, r)
    ensures KeptBy(a, r)
  {
    if r.Val? {
      ConservesThen(a, b, r.st);
    }
  }

  lemma OutcomeThen(a: Store, b: Store, o: Outcome)
    requires Conserves(a, b) && Kept(b, o)
    ensures Kept(a, o)
  {
    if o.Normal? || o.Broke? || o.Continued? || o.Returned? {
      ConservesThen(a, b, o.st);
    }
  }

  lemma {:induction false} IndexKeeps(w: World, lv: LValue, st: Store, base: Option<nat>, fuel: nat)
    requires GoodWorld(w) && Sound(st)
    ensures KeptBy(st, EvalIndex(w, lv, st, base, fuel))
    decreases fuel, lv, 2
  {
    if lv.Element? {
      ExprKeeps(w, lv.index, st, base, fuel);
    }
  }

  lemma {:induction false} ExprKeeps(w: World, e: Expr, st: Store, base: Option<nat>, fuel: nat)
    requires GoodWorld(w) && Sound(st)
    ensures KeptBy(st, EvalExpr(w, e, st, base, fuel))
    decreases fuel, e, 2
  {
    match e
    case Const(_) =>
    case Paren(a) => ExprKeeps(w, a, st, base, fuel);
    case Load(lv) => IndexKeeps(w, lv, st, base, fuel);
    case Assign(_, _, _) => AssignKeeps(w, e, st, base, fuel);
    case Binary(_, l, r) => PairKeeps(w, e, l, r, st, base, fuel);
    case Compare(_, l, r) => PairKeeps(w, e, l, r, st, base, fuel);
    case Negate(a) => ExprKeeps(w, a, st, base, fuel);
    case Not(a) => ExprKeeps(w, a, st, base, fuel);
    case And(l, r) => PairKeeps(w, e, l, r, st, base, fuel);
    case Or(l, r) => PairKeeps(w, e, l, r, st, base, fuel);
    case Bump(_, _, _) => BumpKeeps(w, e, st, base, fuel);
    case Builtin(_, a) => ExprKeeps(w, a, st, base, fuel);
    case Call(_, _) => CallKeeps(w, e, st, base, fuel);
  }

  lemma {:induction false} PairKeeps(w: World, e: Expr, l: Expr, r: Expr, st: Store, base: Option<nat>, fuel: nat)
    requires GoodWorld(w) && Sound(st) && (e.Binary? || e.Compare? || e.And? || e.Or?) && l == e.left && r == e.right
    ensures KeptBy(st, EvalExpr(w, e, st, base, fuel))
    decreases fuel, e, 1
  {
    ExprKeeps(w, l, st, base, fuel);
    var x := EvalExpr(w, l, st, base, fuel);
    if x.Val? {
      ExprKeeps(w, r, x.st, base, fuel);
      KeptThen(st, x.st, EvalExpr(w, r, x.st, base, fuel));
    }
  }

  lemma {:induction false} BumpKeeps(w: World, e: Expr, st: Store, base: Option<nat>, fuel: nat)
    requires GoodWorld(w) && Sound(st) && e.Bump?
    ensures KeptBy(st, EvalExpr(w, e, st, base, fuel))
    decreases fuel, e, 1
  {
    IndexKeeps(w, e.lv, st, base, fuel);
    var x := EvalIndex(w, e.lv, st, base, fuel);
    if x.Val? {
      var r := BumpValue(w, e.lv, x.v, e.pre, e.up, x.st);
      if e.lv.Simple? {
        BumpVarKeeps(w.ar, x.st, e.lv.v, e.up);
      } else if Subscript(x.v).Some? {
        SetCellKeeps(x.st, e.lv.a, Subscript(x.v).value, Sum(w.ar, GetCell(x.st, e.lv.a, Subscript(x.v).value), e.up));
      }
      KeptThen(st, x.st, r);
    }
  }

  lemma StoreKeeps(lv: LValue, x: Num, z: Num, st: Store)
    requires Sound(st)
    ensures KeptBy(st, StoreValue(lv, x, z, st))
  {
    if lv.Simple? {
      SetVarKeeps(st, lv.v, z);
    } else if Subscript(x).Some? {
      SetCellKeeps(st, lv.a, Subscript(x).value, z);
    }
  }

  lemma {:induction false} AssignKeeps(w: World, e: Expr, st: Store, base: Option<nat>, fuel: nat)
    requires GoodWorld(w) && Sound(st) && e.Assign?
    ensures KeptBy(st, EvalExpr(w, e, st, base, fuel))
    decreases fuel, e, 1
  {
    IndexKeeps(w, e.target, st, base, fuel);
    var x := EvalIndex(w, e.target, st, base, fuel);
    if x.Val? {
      ExprKeeps(w, e.rhs, x.st, base, fuel);
      var y := EvalExpr(w, e.rhs, x.st, base, fuel);
      KeptThen(st, x.st, y);
      if y.Val? {
        var was := LoadValue(w, e.target, x.v, x.st);
        var z := if e.op == '=' then y else if was.Val? then Combine(w, e.op, was.v, y.v, y.st) else was;
        if z.Val? {
          StoreKeeps(e.target, x.v, z.v, y.st);
          KeptThen(st, y.st, StoreValue(e.target, x.v, z.v, y.st));
        }
      }
    }
  }

  lemma {:induction false} ArgsKeep(w: World, args: Args, st: Store, base: Option<nat>, fuel: nat)
    requires GoodWorld(w) && Sound(st)
    ensures EvalArgs(w, args, st, base, fuel).Vals? ==> Conserves(st, EvalArgs(w, args, st, base, fuel).st)
    decreases fuel, args, 2
  {
    match args
    case NoArgs =>
    case Arg(e, others) =>
      ExprKeeps(w, e, st, base, fuel);
      var x := EvalExpr(w, e, st, base, fuel);
      if x.Val? {
        ArgsKeep(w, others, x.st, base, fuel);
        var r := EvalArgs(w, others, x.st, base, fuel);
        if r.Vals? {
          ConservesThen(st, x.st, r.st);
        }
      }
    case ArrayArg(_, others) => ArgsKeep(w, others, st, base, fuel);
  }

  lemma {:induction false} CallKeeps(w: World, e: Expr, st: Store, base: Option<nat>, fuel: nat)
    requires GoodWorld(w) && Sound(st) && e.Call?
    ensures KeptBy(st, EvalExpr(w, e, st, base, fuel))
    decreases fuel, e, 1
  {
    ArgsKeep(w, e.args, st, base, fuel);
    var a := EvalArgs(w, e.args, st, base, fuel);
    if a.Vals? {
      BodyKeeps(w, e, a.vs, a.st, fuel);
      KeptThen(st, a.st, CallFunction(w, e, a.vs, a.st, fuel));
    }
  }

  lemma {:induction false} BodyKeeps(w: World, e: Expr, vs: seq<Num>, st: Store, fuel: nat)
    requires GoodWorld(w) && Sound(st) && e.Call?
    ensures KeptBy(st, CallFunction(w, e, vs, st, fuel))
    decreases fuel, e, 0
  {
    var r := CallFunction(w, e, vs, st, fuel);
    if r.Val? {
      var d := w.funcs[e.f];
      assert GoodDef(d);
      EnterSound(d, st, vs);
      StmtKeeps(w, d.body, Enter(st, d, vs), Some(st.ibase), fuel - 1);
      var o := ExecStmt(w, d.body, Enter(st, d, vs), Some(st.ibase), fuel - 1);
      CallConserves(d, st, vs, o.st);
    }
  }

  lemma {:induction false} StmtKeeps(w: World, s: Stmt, st: Store, base: Option<nat>, fuel: nat)
    requires GoodWorld(w) && Sound(st)
    ensures Kept(st, ExecStmt(w, s, st, base, fuel))
    decreases fuel, s, 3
  {
    match s
    case Eval(e) =>
      ExprKeeps(w, e, st, base, fuel);
      var x := EvalExpr(w, e, st, base, fuel);
      if x.Val? {
        WrittenKeeps(x.st, e, x.v);
        ConservesThen(st, x.st, BcSemantics.Written(x.st, e, x.v));
      }
    case Text(t) => VarsOnly(st, st.(out := st.out + [Shown(t)]));
    case Block(body) => StmtsKeep(w, body, st, base, fuel);
    case If(c, t) =>
      ExprKeeps(w, c, st, base, fuel);
      var x := EvalExpr(w, c, st, base, fuel);
      if x.Val? && M.IsTrue(x.v) {
        StmtKeeps(w, t, x.st, base, fuel);
        OutcomeThen(st, x.st, ExecStmt(w, t, x.st, base, fuel));
      }
    case IfElse(c, t, f) =>
      ExprKeeps(w, c, st, base, fuel);
      var x := EvalExpr(w, c, st, base, fuel);
      if x.Val? {
        var b := if M.IsTrue(x.v) then t else f;
        StmtKeeps(w, b, x.st, base, fuel);
        OutcomeThen(st, x.st, ExecStmt(w, b, x.st, base, fuel));
      }
    case While(_, _) => WhileKeeps(w, s, st, base, fuel);
    case For(i, _, _, _) =>
      ExprKeeps(w, i, st, base, fuel);
      var x := EvalExpr(w, i, st, base, fuel);
      if x.Val? {
        ForKeeps(w, s, x.st, base, fuel);
        OutcomeThen(st, x.st, ExecFor(w, s, x.st, base, fuel));
      }
    case Break => VarsOnly(st, st);
    case Continue => VarsOnly(st, st);
    case Return(e) => ExprKeeps(w, e, st, base, fuel);
  }

  lemma {:induction false} WhileKeeps(w: World, s: Stmt, st: Store, base: Option<nat>, fuel: nat)
    requires GoodWorld(w) && Sound(st) && s.While?
    ensures Kept(st, ExecStmt(w, s, st, base, fuel))
    decreases fuel, s, 2
  {
    ExprKeeps(w, s.cond, st, base, fuel);
    var x := EvalExpr(w, s.cond, st, base, fuel);
    if x.Val? && M.IsTrue(x.v) {
      StmtKeeps(w, s.loop, x.st, base, fuel);
      var o := ExecStmt(w, s.loop, x.st, base, fuel);
      OutcomeThen(st, x.st, o);
      if o.Normal? && fuel > 0 {
        StmtKeeps(w, s, o.st, base, fuel - 1);
        OutcomeThen(st, o.st, ExecStmt(w, s, o.st, base, fuel - 1));
      }
    }
  }

  lemma {:induction false} ForKeeps(w: World, s: Stmt, st: Store, base: Option<nat>, fuel: nat)
    requires GoodWorld(w) && Sound(st) && s.For?
    ensures Kept(st, ExecFor(w, s, st, base, fuel))
    decreases fuel, s, 2
  {
    ExprKeeps(w, s.cond, st, base, fuel);
    var x := EvalExpr(w, s.cond, st, base, fuel);
    if x.Val? && M.IsTrue(x.v) {
      StmtKeeps(w, s.loop, x.st, base, fuel);
      var o := ExecStmt(w, s.loop, x.st, base, fuel);
      OutcomeThen(st, x.st, o);
      if o.Normal? || o.Continued? {
        UpdateKeeps(w, s, o.st, base, fuel);
        OutcomeThen(st, o.st, ForUpdate(w, s, o.st, base, fuel));
      }
    }
  }

  lemma {:induction false} UpdateKeeps(w: World, s: Stmt, st: Store, base: Option<nat>, fuel: nat)
    requires GoodWorld(w) && Sound(st) && s.For?
    ensures Kept(st, ForUpdate(w, s, st, base, fuel))
    decreases fuel, s, 1
  {
    ExprKeeps(w, s.update, st, base, fuel);
    var x := EvalExpr(w, s.update, st, base, fuel);
    if x.Val? && fuel > 0 {
      ForKeeps(w, s, x.st, base, fuel - 1);
      OutcomeThen(st, x.st, ExecFor(w, s, x.st, base, fuel - 1));
    }
  }

  lemma {:induction false} StmtsKeep(w: World, ss: Stmts, st: Store, base: Option<nat>, fuel: nat)
    requires GoodWorld(w) && Sound(st)
    ensures Kept(st, ExecStmts(w, ss, st, base, fuel))
    decreases fuel, ss, 2
  {
    match ss
    case Nil =>
    case Cons(s, t) =>
      StmtKeeps(w, s, st, base, fuel);
      var o := ExecStmt(w, s, st, base, fuel);
      if o.Normal? {
        StmtsKeep(w, t, o.st, base, fuel);
        OutcomeThen(st, o.st, ExecStmts(w, t, o.st, base, fuel));
      }
  }

  /** The body of a call that returns conserves the store it starts with. */
  lemma CallConservesBody(w: World, e: Expr, vs: seq<Num>, st: Store, fuel: nat) returns (st1: Store)
    requires GoodWorld(w) && Sound(st) && e.Call? && CallFunction(w, e, vs, st, fuel).Val?
    ensures var d := w.funcs[e.f];
      && GoodDef(d) && |d.formals| == |vs| && CallFunction(w, e, vs, st, fuel).st == Leave(st1, d)
      && Conserves(Enter(st, d, vs), st1)
  {
    var d := w.funcs[e.f];
    assert GoodDef(d);
    EnterSound(d, st, vs);
    StmtKeeps(w, d.body, Enter(st, d, vs), Some(st.ibase), fuel - 1);
    st1 := ExecStmt(w, d.body, Enter(st, d, vs), Some(st.ibase), fuel - 1).st;
  }

  /** An array that is not visible inside the function keeps its numbers. */
  lemma HiddenFromCall(d: FuncDef, st: Store, vs: seq<Num>, st1: Store, r: Option<nat>)
    requires Sound(st) && GoodDef(d) && |d.formals| == |vs| && Conserves(Enter(st, d, vs), st1)
    requires r.Some? && r.value < |st.heap| && !Visible(Enter(st, d, vs), r.value)
    ensures At(Leave(st1, d), r) == At(st, r)
  {
    EnterArrays(d, st, vs, 0);
    LeaveArrays(d, st1, 0);
  }

  /** A call that returns leaves every parameter and auto, simple or array,
      with the stack it had when the arguments had been evaluated; an array
      that is not visible inside the function keeps its numbers. */
  lemma CallRestores(w: World, e: Expr, vs: seq<Num>, st: Store, fuel: nat, name: int)
    requires GoodWorld(w) && Sound(st) && e.Call? && CallFunction(w, e, vs, st, fuel).Val? && Bound(w.funcs[e.f], name)
    ensures var st' := CallFunction(w, e, vs, st, fuel).st;
      if name > 0 then Vars(st', name) == Vars(st, name)
      else
        && StackKept(st, st', Arrays(st', -name), -name)
        && (Ref(st, -name).Some? && !Visible(Enter(st, w.funcs[e.f], vs), Ref(st, -name).value)
            ==> At(st', Ref(st, -name)) == At(st, Ref(st, -name)))
  {
    var d := w.funcs[e.f];
    var st1 := CallConservesBody(w, e, vs, st, fuel);
    if name > 0 {
      CallKeepsVars(d, st, vs, st1, name);
    } else {
      var a := -name;
      CallKeepsArrays(d, st, vs, st1, a);
      assert SoundStack(Arrays(st, a), |st.heap|);
      if Ref(st, a).Some? && !Visible(Enter(st, d, vs), Ref(st, a).value) {
        HiddenFromCall(d, st, vs, st1, Ref(st, a));
      }
    }
  }
}
