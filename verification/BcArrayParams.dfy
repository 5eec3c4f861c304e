/** Array parameters (storage.c, process_params): which array of the caller a
    formal array receives, and whether it is shared.  Parameters are processed
    last first, so that a name may already mean a parameter. */
module BcArrayParams {
  import opened Wrappers
  import opened Numbers
  import opened BcSyntax
  import opened BcStore
  import opened BcSemantics
  import opened BcCalls

  /** All references of a stack are below n. */
  ghost predicate SoundStack(s: ArrayStack, n: nat) {
    s.PushArray? ==> (s.value.Some? ==> s.value.value < n) && SoundStack(s.below, n)
  }

  /** Every reference is to an array that was made. */
  ghost predicate Sound(st: Store) { forall a: nat :: SoundStack(Arrays(st, a), |st.heap|) }

  /** Arrays are only added. */
  ghost predicate Grows(st: Store, b: Store) {
    |st.heap| <= |b.heap| && forall r :: 0 <= r < |st.heap| ==> b.heap[r] == st.heap[r]
  }

  lemma {:induction false} SoundLater(s: ArrayStack, m: nat, n: nat)
    requires SoundStack(s, m) && m <= n
    ensures SoundStack(s, n)
    decreases s
  {
    if s.PushArray? {
      SoundLater(s.below, m, n);
    }
  }

  lemma SoundMore(st: Store, b: Store, a: nat)
    requires Sound(st) && |st.heap| <= |b.heap| && Arrays(b, a) == Arrays(st, a)
    ensures SoundStack(Arrays(b, a), |b.heap|)
  {
    SoundLater(Arrays(st, a), |st.heap|, |b.heap|);
  }

  lemma AtKept(st: Store, b: Store, r: Option<nat>)
    requires Grows(st, b) && (r.Some? ==> r.value < |st.heap|)
    ensures At(b, r) == At(st, r)
  {
  }

  // ---------------------------------------------------------------------
  // One array.
  // ---------------------------------------------------------------------

  lemma TouchEffect(st: Store, src: nat)
    requires Sound(st)
    ensures var t := Touch(st, src);
      Sound(t) && Grows(st, t) && Ref(t, src).Some? && Below(Arrays(t, src)) == Below(Arrays(st, src))
    ensures forall a: nat :: a != src ==> Arrays(Touch(st, src), a) == Arrays(st, a)
    ensures Ref(st, src).None? ==> Ref(Touch(st, src), src) == Some(|st.heap|) && |Touch(st, src).heap| == |st.heap| + 1
  {
    var t := Touch(st, src);
    if Ref(st, src).None? {
      forall a: nat ensures SoundStack(Arrays(t, a), |t.heap|) {
        if a == src {
          assert SoundStack(Arrays(st, src), |st.heap|);
          SoundLater(Below(Arrays(st, src)), |st.heap|, |t.heap|);
        } else {
          SoundMore(st, t, a);
        }
      }
    }
  }

  lemma TouchCells(st: Store, src: nat, a: nat)
    requires Sound(st)
    ensures Cells(Touch(st, src), a) == Cells(st, a)
  {
    TouchEffect(st, src);
    assert SoundStack(Arrays(st, a), |st.heap|);
    if a != src {
      AtKept(st, Touch(st, src), Ref(st, a));
    }
  }

  /** A store changes one element of its array, and arrays that do not share
      it keep their numbers. */
  lemma SetCellIs(st: Store, a: nat, i: nat, n: Num, b: nat)
    requires Sound(st)
    ensures Cells(SetCell(st, a, i, n), a) == Put(Cells(st, a), i, n)
    ensures Ref(Touch(st, a), b) != Ref(Touch(st, a), a) ==> Cells(SetCell(st, a, i, n), b) == Cells(st, b)
  {
    TouchEffect(st, a);
    TouchCells(st, a, a);
    TouchCells(st, a, b);
    assert SoundStack(Arrays(Touch(st, a), a), |Touch(st, a).heap|);
  }

  /** The stacks after an array has been passed: its own is one higher. */
  lemma PassStacks(st: Store, src: nat, dest: nat, byVar: bool)
    requires Sound(st)
    ensures var t, b := Touch(st, src), PassArray(st, src, dest, byVar);
      && b.vars == st.vars && b.ibase == st.ibase
      && Arrays(b, dest).PushArray? && Below(Arrays(b, dest)) == Arrays(t, dest)
      && Ref(b, dest) == (if byVar then Ref(t, src) else Some(|t.heap|))
      && b.heap == t.heap + (if byVar then [] else [Cells(t, src)])
    ensures forall a: nat :: a != dest ==> Arrays(PassArray(st, src, dest, byVar), a) == Arrays(Touch(st, src), a)
  {
    TouchEffect(st, src);
    assert Touch(st, src).heap + [] == Touch(st, src).heap;
  }

  lemma PassSound(st: Store, src: nat, dest: nat, byVar: bool)
    requires Sound(st)
    ensures var b := PassArray(st, src, dest, byVar); Sound(b) && Grows(st, b) && Ref(b, dest).Some?
  {
    var t, b := Touch(st, src), PassArray(st, src, dest, byVar);
    TouchEffect(st, src);
    PassStacks(st, src, dest, byVar);
    assert SoundStack(Arrays(t, src), |t.heap|);
    forall a: nat ensures SoundStack(Arrays(b, a), |b.heap|) {
      if a == dest {
        SoundLater(Arrays(t, a), |t.heap|, |b.heap|);
      } else {
        SoundMore(t, b, a);
      }
    }
  }

  /** The passed array has the contents of the source, and no other changes. */
  lemma PassCells(st: Store, src: nat, dest: nat, byVar: bool, a: nat)
    requires Sound(st)
    ensures Cells(PassArray(st, src, dest, byVar), a) == Cells(st, if a == dest then src else a)
  {
    var t, b := Touch(st, src), PassArray(st, src, dest, byVar);
    TouchEffect(st, src);
    PassStacks(st, src, dest, byVar);
    TouchCells(st, src, src);
    TouchCells(st, src, a);
    assert SoundStack(Arrays(t, src), |t.heap|) && SoundStack(Arrays(t, a), |t.heap|);
    assert Grows(t, b);
    if a != dest {
      AtKept(t, b, Ref(t, a));
    } else if byVar {
      AtKept(t, b, Ref(t, src));
    }
  }

  // ---------------------------------------------------------------------
  // All parameters.
  // ---------------------------------------------------------------------

  function Dest(f: Formal): nat { if f.name < 0 then -f.name else 0 }

  /** What check_params and the symbol table guarantee. */
  ghost predicate GoodFormals(fs: seq<Formal>) {
    Distinct(NamesOf(fs)) && forall i :: 0 <= i < |fs| ==> fs[i].name != 0
  }

  /** a is the name of an array parameter. */
  predicate IsParam(fs: seq<Formal>, a: nat) { exists i :: 0 <= i < |fs| && fs[i].name < 0 && Dest(fs[i]) == a }

  lemma LastParam(fs: seq<Formal>, a: nat)
    requires GoodFormals(fs) && fs != []
    ensures var n := |fs| - 1;
      && GoodFormals(fs[..n])
      && (IsParam(fs, a) <==> IsParam(fs[..n], a) || (fs[n].name < 0 && Dest(fs[n]) == a))
      && !(IsParam(fs[..n], a) && fs[n].name < 0 && Dest(fs[n]) == a)
  {
    var n := |fs| - 1;
    forall i, j | 0 <= i < j < n ensures NamesOf(fs[..n])[i] != NamesOf(fs[..n])[j] {
      assert NamesOf(fs)[i] != NamesOf(fs)[j];
    }
    if IsParam(fs[..n], a) {
      var i :| 0 <= i < n && fs[..n][i].name < 0 && Dest(fs[..n][i]) == a;
      assert fs[i] == fs[..n][i];
      assert NamesOf(fs)[i] != NamesOf(fs)[n];
    }
    if IsParam(fs, a) && !(fs[n].name < 0 && Dest(fs[n]) == a) {
      var i :| 0 <= i < |fs| && fs[i].name < 0 && Dest(fs[i]) == a;
      assert fs[i] == fs[..n][i];
    }
  }

  /** The caller's stack of array a, once the parameters are bound. */
  ghost function Outer(b: Store, fs: seq<Formal>, a: nat): ArrayStack {
    if IsParam(fs, a) then Below(Arrays(b, a)) else Arrays(b, a)
  }

  /** s is the stack of a as it was in st, except that its top array may have
      been made since. */
  ghost predicate StackKept(st: Store, b: Store, s: ArrayStack, a: nat) {
    if Ref(st, a).Some? then s == Arrays(st, a)
    else Below(s) == Below(Arrays(st, a)) && (ValueOf(s).Some? ==> |st.heap| <= ValueOf(s).value < |b.heap|)
  }

  lemma StackKeptThen(st: Store, mid: Store, b: Store, s: ArrayStack, a: nat)
    requires StackKept(st, mid, Arrays(mid, a), a) && StackKept(mid, b, s, a) && |st.heap| <= |mid.heap| <= |b.heap|
    ensures StackKept(st, b, s, a)
  {
  }

  lemma BindOneSound(st: Store, f: Formal, n: Num)
    requires Sound(st)
    ensures Sound(BindOne(st, f, n)) && Grows(st, BindOne(st, f, n))
  {
    if f.name <= 0 {
      PassSound(st, ArrayOf(n), -f.name, f.byVar);
    } else {
      var b := BindOne(st, f, n);
      forall a: nat ensures SoundStack(Arrays(b, a), |b.heap|) {
        assert Arrays(b, a) == Arrays(st, a);
      }
    }
  }

  /** Binding one parameter keeps the stack of every array it does not push. */
  lemma BindOneKeeps(st: Store, f: Formal, n: Num, a: nat)
    requires Sound(st) && f.name != 0
    ensures var b := BindOne(st, f, n);
      if f.name < 0 && Dest(f) == a then Arrays(b, a).PushArray? && Ref(b, a).Some? && StackKept(st, b, Below(Arrays(b, a)), a)
      else StackKept(st, b, Arrays(b, a), a)
  {
    if f.name < 0 {
      TouchEffect(st, ArrayOf(n));
      PassStacks(st, ArrayOf(n), Dest(f), f.byVar);
    }
  }

  /** Binding keeps every array of the caller where it was: under the
      parameter of its name, or on top. */
  lemma {:induction false} BindOuter(st: Store, fs: seq<Formal>, vs: seq<Num>, a: nat)
    requires Sound(st) && GoodFormals(fs) && |fs| == |vs|
    ensures var b := BindAll(st, fs, vs); Sound(b) && Grows(st, b) && StackKept(st, b, Outer(b, fs, a), a)
    decreases |fs|
  {
    if fs != [] {
      var n := |fs| - 1;
      var st1, b := BindOne(st, fs[n], vs[n]), BindAll(st, fs, vs);
      LastParam(fs, a);
      BindOneSound(st, fs[n], vs[n]);
      BindOneKeeps(st, fs[n], vs[n], a);
      BindOuter(st1, fs[..n], vs[..n], a);
      if !(fs[n].name < 0 && Dest(fs[n]) == a) {
        StackKeptThen(st, st1, b, Outer(b, fs, a), a);
      }
    }
  }

  /** Which array of the caller parameter k receives, and whether it is that
      array itself or a copy that an earlier binding made. */
  function Source(fs: seq<Formal>, ns: seq<nat>, k: nat): (nat, bool)
    requires k < |fs| == |ns|
    decreases |fs|
  {
    var n := |fs| - 1;
    if k == n then (ns[n], true)
    else
      var (e, own) := Source(fs[..n], ns[..n], k);
      if fs[n].name < 0 && Dest(fs[n]) == e then (ns[n], own && fs[n].byVar) else (e, own)
  }

  /** The arrays that the values stand for. */
  function ArraysOf(vs: seq<Num>): (r: seq<nat>)
    ensures |r| == |vs|
  {
    seq(|vs|, i requires 0 <= i < |vs| => ArrayOf(vs[i]))
  }

  /** d has an array of its own, made after `from` arrays existed and not
      shared with any array of the caller. */
  ghost predicate Separate(b: Store, fs: seq<Formal>, d: nat, from: nat) {
    Ref(b, d).Some? && from <= Ref(b, d).value && forall a: nat :: Ref(b, d) != ValueOf(Outer(b, fs, a))
  }

  /** Parameter d received the array e of the caller: its contents, and the
      array itself or an array of its own. */
  ghost predicate Received(st: Store, b: Store, fs: seq<Formal>, d: nat, e: nat, shared: bool) {
    && Cells(b, d) == Cells(st, e)
    && if shared then Ref(b, d) == ValueOf(Outer(b, fs, e)) else Separate(b, fs, d, |st.heap|)
  }

  /** The parameter that is bound first. */
  lemma LastReceived(st: Store, fs: seq<Formal>, vs: seq<Num>)
    requires Sound(st) && GoodFormals(fs) && |fs| == |vs| > 0 && fs[|fs| - 1].name < 0
    ensures var n := |fs| - 1;
      Received(st, BindAll(st, fs, vs), fs, Dest(fs[n]), ArrayOf(vs[n]), fs[n].byVar)
  {
    var n, b := |fs| - 1, BindAll(st, fs, vs);
    var f, src := fs[n], ArrayOf(vs[n]);
    var d, t, st1 := Dest(f), Touch(st, src), BindOne(st, f, vs[n]);
    TouchEffect(st, src);
    PassStacks(st, src, d, f.byVar);
    PassSound(st, src, d, f.byVar);
    PassCells(st, src, d, f.byVar, d);
    LastParam(fs, d);
    BindOuter(st1, fs[..n], vs[..n], d);
    assert Arrays(b, d) == Arrays(st1, d);
    assert SoundStack(Arrays(st1, d), |st1.heap|);
    AtKept(st1, b, Ref(st1, d));
    if f.byVar {
      LastParam(fs, src);
      BindOuter(st1, fs[..n], vs[..n], src);
    } else {
      forall a: nat ensures Ref(b, d) != ValueOf(Outer(b, fs, a)) {
        LastParam(fs, a);
        BindOuter(st1, fs[..n], vs[..n], a);
        assert SoundStack(Arrays(t, a), |t.heap|);
      }
    }
  }

  /** One more parameter behind: an array of its own stays one. */
  lemma SeparateMore(st: Store, fs: seq<Formal>, vs: seq<Num>, d: nat)
    requires Sound(st) && GoodFormals(fs) && |fs| == |vs| > 0
    requires var n := |fs| - 1; Separate(BindAll(st, fs, vs), fs[..n], d, |BindOne(st, fs[n], vs[n]).heap|)
    ensures Separate(BindAll(st, fs, vs), fs, d, |st.heap|)
  {
    var n, b := |fs| - 1, BindAll(st, fs, vs);
    BindOneSound(st, fs[n], vs[n]);
    forall a: nat ensures Ref(b, d) != ValueOf(Outer(b, fs, a)) {
      LastParam(fs, a);
      if fs[n].name < 0 && Dest(fs[n]) == a {
        HiddenOlder(st, fs, vs, a);
      } else {
        assert Outer(b, fs, a) == Outer(b, fs[..n], a);
      }
    }
  }

  /** The parameter behind has another name than the array received. */
  lemma ReceivedMiss(st: Store, fs: seq<Formal>, vs: seq<Num>, d: nat, e: nat, shared: bool)
    requires Sound(st) && GoodFormals(fs) && |fs| == |vs| > 0
    requires var n := |fs| - 1;
      && !(fs[n].name < 0 && Dest(fs[n]) == e)
      && Received(BindOne(st, fs[n], vs[n]), BindAll(st, fs, vs), fs[..n], d, e, shared)
    ensures Received(st, BindAll(st, fs, vs), fs, d, e, shared)
  {
    var n := |fs| - 1;
    LastParam(fs, e);
    if fs[n].name < 0 {
      PassCells(st, ArrayOf(vs[n]), Dest(fs[n]), fs[n].byVar, e);
    }
    if !shared {
      SeparateMore(st, fs, vs, d);
    }
  }

  /** The parameter behind has the name of the array received. */
  lemma ReceivedHit(st: Store, fs: seq<Formal>, vs: seq<Num>, d: nat, shared: bool)
    requires Sound(st) && GoodFormals(fs) && |fs| == |vs| > 0
    requires var n := |fs| - 1;
      && fs[n].name < 0
      && Received(BindOne(st, fs[n], vs[n]), BindAll(st, fs, vs), fs[..n], d, Dest(fs[n]), shared)
    ensures var n := |fs| - 1; Received(st, BindAll(st, fs, vs), fs, d, ArrayOf(vs[n]), shared && fs[n].byVar)
  {
    var n := |fs| - 1;
    var e := Dest(fs[n]);
    LastParam(fs, e);
    PassCells(st, ArrayOf(vs[n]), e, fs[n].byVar, e);
    if shared {
      LastReceived(st, fs, vs);
      SameRef(BindAll(st, fs, vs), fs, d, e, |st.heap|);
    } else {
      SeparateMore(st, fs, vs, d);
    }
  }

  lemma SameRef(b: Store, fs: seq<Formal>, d: nat, e: nat, from: nat)
    requires Ref(b, d) == Ref(b, e)
    ensures Separate(b, fs, e, from) ==> Separate(b, fs, d, from)
  {
  }

  /** What lies under a parameter existed when the parameter was bound. */
  lemma HiddenOlder(st: Store, fs: seq<Formal>, vs: seq<Num>, a: nat)
    requires Sound(st) && GoodFormals(fs) && |fs| == |vs| > 0
    requires var n := |fs| - 1; fs[n].name < 0 && Dest(fs[n]) == a
    ensures var n := |fs| - 1; var o := ValueOf(Outer(BindAll(st, fs, vs), fs, a));
      o.Some? ==> o.value < |BindOne(st, fs[n], vs[n]).heap|
  {
    var n := |fs| - 1;
    var st1 := BindOne(st, fs[n], vs[n]);
    LastParam(fs, a);
    BindOneSound(st, fs[n], vs[n]);
    BindOneKeeps(st, fs[n], vs[n], a);
    BindOuter(st1, fs[..n], vs[..n], a);
    assert SoundStack(Arrays(st1, a), |st1.heap|);
  }

  /** Every array parameter receives the array that Source says. */
  lemma {:induction false} BindContents(st: Store, fs: seq<Formal>, vs: seq<Num>, k: nat)
    requires Sound(st) && GoodFormals(fs) && k < |fs| == |vs| && fs[k].name < 0
    ensures var (e, own) := Source(fs, ArraysOf(vs), k);
      Received(st, BindAll(st, fs, vs), fs, Dest(fs[k]), e, own && fs[k].byVar)
    decreases |fs|
  {
    var n := |fs| - 1;
    if k == n {
      LastReceived(st, fs, vs);
    } else {
      LastParam(fs, 0);
      BindOneSound(st, fs[n], vs[n]);
      BindContents(BindOne(st, fs[n], vs[n]), fs[..n], vs[..n], k);
      assert ArraysOf(vs)[..n] == ArraysOf(vs[..n]);
      var (e, own) := Source(fs[..n], ArraysOf(vs[..n]), k);
      if fs[n].name < 0 && Dest(fs[n]) == e {
        ReceivedHit(st, fs, vs, Dest(fs[k]), own && fs[k].byVar);
      } else {
        ReceivedMiss(st, fs, vs, Dest(fs[k]), e, own && fs[k].byVar);
      }
    }
  }

  // ---------------------------------------------------------------------
  // Exactly when every parameter gets its own argument.
  // ---------------------------------------------------------------------

  /** Parameter p lies behind k and has the name of array a. */
  predicate Later(fs: seq<Formal>, k: nat, p: int, a: nat) { k < p < |fs| && fs[p].name < 0 && Dest(fs[p]) == a }

  /** An array is the name of at most one parameter. */
  lemma OneParam(fs: seq<Formal>, p: nat, q: nat)
    requires GoodFormals(fs) && p < |fs| && q < |fs| && fs[p].name < 0 && fs[q].name < 0 && Dest(fs[p]) == Dest(fs[q])
    ensures p == q
  {
    assert NamesOf(fs)[p] == NamesOf(fs)[q];
  }

  lemma {:induction false} SourceStays(fs: seq<Formal>, ns: seq<nat>, k: nat)
    requires k < |fs| == |ns| && forall p :: !Later(fs, k, p, ns[k])
    ensures Source(fs, ns, k) == (ns[k], true)
    decreases |fs|
  {
    var n := |fs| - 1;
    if k < n {
      forall p ensures !Later(fs[..n], k, p, ns[k]) {
        assert !Later(fs, k, p, ns[k]);
      }
      SourceStays(fs[..n], ns[..n], k);
      assert !Later(fs, k, n, ns[k]);
    }
  }

  /** A later parameter of that name stands in for the array. */
  lemma {:induction false} SourceJumps(fs: seq<Formal>, ns: seq<nat>, k: nat, p: nat)
    requires GoodFormals(fs) && k < |fs| == |ns| && Later(fs, k, p, ns[k])
    ensures Source(fs, ns, k) == (Source(fs, ns, p).0, Source(fs, ns, p).1 && fs[p].byVar)
    decreases |fs|
  {
    var n := |fs| - 1;
    LastParam(fs, ns[k]);
    if p == n {
      forall q ensures !Later(fs[..n], k, q, ns[k]) {
        if Later(fs[..n], k, q, ns[k]) {
          OneParam(fs, q, n);
        }
      }
      SourceStays(fs[..n], ns[..n], k);
    } else {
      SourceJumps(fs[..n], ns[..n], k, p);
    }
  }

  /** Parameter k gets the array xs[k], shared if it is a variable parameter. */
  predicate Right(fs: seq<Formal>, ns: seq<nat>, xs: seq<nat>, k: nat)
    requires k < |fs| == |ns| == |xs|
  {
    Source(fs, ns, k).0 == xs[k] && (fs[k].byVar ==> Source(fs, ns, k).1)
  }

  ghost predicate AllRight(fs: seq<Formal>, ns: seq<nat>, xs: seq<nat>)
    requires |fs| == |ns| == |xs|
  {
    forall k :: 0 <= k < |fs| && fs[k].name < 0 ==> Right(fs, ns, xs, k)
  }

  /** The number passed for argument k names the array meant, or a later
      parameter that is given that array in at least the same way. */
  ghost predicate Resolves(fs: seq<Formal>, ns: seq<nat>, xs: seq<nat>, k: nat)
    requires k < |fs| == |ns| == |xs|
  {
    if exists p :: Later(fs, k, p, ns[k])
    then forall p :: Later(fs, k, p, ns[k]) ==> xs[p] == xs[k] && (fs[k].byVar ==> fs[p].byVar)
    else ns[k] == xs[k]
  }

  ghost predicate AllResolve(fs: seq<Formal>, ns: seq<nat>, xs: seq<nat>)
    requires |fs| == |ns| == |xs|
  {
    forall k :: 0 <= k < |fs| && fs[k].name < 0 ==> Resolves(fs, ns, xs, k)
  }

  /** If all later parameters are right, this one is exactly if it resolves. */
  lemma RightIff(fs: seq<Formal>, ns: seq<nat>, xs: seq<nat>, k: nat)
    requires GoodFormals(fs) && k < |fs| == |ns| == |xs| && fs[k].name < 0
    requires forall p :: k < p < |fs| && fs[p].name < 0 ==> Right(fs, ns, xs, p)
    ensures Right(fs, ns, xs, k) <==> Resolves(fs, ns, xs, k)
  {
    if p :| Later(fs, k, p, ns[k]) {
      SourceJumps(fs, ns, k, p);
      forall q | Later(fs, k, q, ns[k]) ensures q == p {
        OneParam(fs, q, p);
      }
    } else {
      SourceStays(fs, ns, k);
    }
  }

  lemma {:induction false} RightFrom(fs: seq<Formal>, ns: seq<nat>, xs: seq<nat>, k: nat)
    requires GoodFormals(fs) && k <= |fs| == |ns| == |xs| && AllResolve(fs, ns, xs)
    ensures forall p :: k <= p < |fs| && fs[p].name < 0 ==> Right(fs, ns, xs, p)
    decreases |fs| - k
  {
    if k < |fs| {
      RightFrom(fs, ns, xs, k + 1);
      if fs[k].name < 0 {
        RightIff(fs, ns, xs, k);
      }
    }
  }

  lemma AllRightIff(fs: seq<Formal>, ns: seq<nat>, xs: seq<nat>)
    requires GoodFormals(fs) && |fs| == |ns| == |xs|
    ensures AllRight(fs, ns, xs) <==> AllResolve(fs, ns, xs)
  {
    if AllResolve(fs, ns, xs) {
      RightFrom(fs, ns, xs, 0);
    }
    if AllRight(fs, ns, xs) {
      forall k | 0 <= k < |fs| && fs[k].name < 0 ensures Resolves(fs, ns, xs, k) {
        RightIff(fs, ns, xs, k);
      }
    }
  }

  /** Every array parameter starts with the contents its argument had before
      the call, shares the caller's array if it is a variable parameter, and
      has an array of its own otherwise. */
  ghost predicate Passed(st: Store, fs: seq<Formal>, vs: seq<Num>, xs: seq<nat>)
    requires |fs| == |vs| == |xs|
  {
    forall k :: 0 <= k < |fs| && fs[k].name < 0 ==> Received(st, BindAll(st, fs, vs), fs, Dest(fs[k]), xs[k], fs[k].byVar)
  }

  /** A store in which only array a is not empty. */
  function OnlyArray(a: nat): Store { Store(map[], map[a := PushArray(Some(0), NoArray)], [map[0 := ONE]], 10, 10, 0, []) }

  lemma OnlyArrayIs(a: nat, b: nat)
    ensures Sound(OnlyArray(a)) && (Cells(OnlyArray(a), b) == Cells(OnlyArray(a), a) <==> a == b)
  {
    var st := OnlyArray(a);
    assert Cells(st, a) == map[0 := ONE] && 0 in Cells(st, a);
    forall c: nat ensures SoundStack(Arrays(st, c), |st.heap|) {
      assert SoundStack(NoArray, 1);
    }
  }

  lemma PassedIfRight(st: Store, fs: seq<Formal>, vs: seq<Num>, xs: seq<nat>)
    requires Sound(st) && GoodFormals(fs) && |fs| == |vs| == |xs| && AllRight(fs, ArraysOf(vs), xs)
    ensures Passed(st, fs, vs, xs)
  {
    forall k | 0 <= k < |fs| && fs[k].name < 0
      ensures Received(st, BindAll(st, fs, vs), fs, Dest(fs[k]), xs[k], fs[k].byVar)
    {
      BindContents(st, fs, vs, k);
      assert Right(fs, ArraysOf(vs), xs, k);
    }
  }

  lemma NotPassed(fs: seq<Formal>, vs: seq<Num>, xs: seq<nat>, k: nat)
    requires GoodFormals(fs) && k < |fs| == |vs| == |xs| && fs[k].name < 0 && !Right(fs, ArraysOf(vs), xs, k)
    ensures Sound(OnlyArray(xs[k])) && !Passed(OnlyArray(xs[k]), fs, vs, xs)
  {
    var st := OnlyArray(xs[k]);
    OnlyArrayIs(xs[k], Source(fs, ArraysOf(vs), k).0);
    BindContents(st, fs, vs, k);
  }

  /** Array arguments reach their parameters in every store exactly if every
      number passed resolves. */
  lemma ArraysPassedIff(fs: seq<Formal>, vs: seq<Num>, xs: seq<nat>)
    requires GoodFormals(fs) && |fs| == |vs| == |xs|
    ensures (forall st :: Sound(st) ==> Passed(st, fs, vs, xs)) <==> AllResolve(fs, ArraysOf(vs), xs)
  {
    var ns := ArraysOf(vs);
    AllRightIff(fs, ns, xs);
    if AllRight(fs, ns, xs) {
      forall st | Sound(st) ensures Passed(st, fs, vs, xs) {
        PassedIfRight(st, fs, vs, xs);
      }
    } else {
      var k :| 0 <= k < |fs| && fs[k].name < 0 && !Right(fs, ns, xs, k);
      NotPassed(fs, vs, xs, k);
    }
  }

  /** f(b[], a[]) for a function f(a[], b[]): the first parameter does not get
      the caller's b but its a. */
  lemma SwappedArraysClash(a: nat, b: nat)
    requires a > 0 && b > 0 && a != b
    ensures var fs := [Formal(0 - a, false), Formal(0 - b, false)];
      GoodFormals(fs) && Source(fs, [b, a], 0).0 == a && !AllResolve(fs, [b, a], [b, a])
  {
    var fs := [Formal(0 - a, false), Formal(0 - b, false)];
    assert NamesOf(fs) == [0 - a, 0 - b];
    assert Later(fs, 0, 1, b);
    SourceJumps(fs, [b, a], 0, 1);
    assert !Resolves(fs, [b, a], [b, a], 0);
  }
}
