/** Calls bind the n-th actual to the n-th formal, although parameter lists
    are stored reversed and the values are popped last first. */
module BcCalls {
  import opened Wrappers
  import opened Numbers
  import opened BcStore
  import opened BcSyntax
  import opened BcCompile
  import opened BcSemantics
  import opened BcPlacement
  import M = BcMachine

  function Reversed<T>(s: seq<T>): (r: seq<T>)
    ensures |r| == |s| && forall i :: 0 <= i < |s| ==> r[i] == s[|s| - 1 - i]
  {
    seq(|s|, i requires 0 <= i < |s| => s[|s| - 1 - i])
  }

  ghost predicate Distinct<T(!new)>(s: seq<T>) { forall i, j :: 0 <= i < j < |s| ==> s[i] != s[j] }

  /** Push every value, the first one first. */
  function PushAll(stack: Stack, vs: seq<Num>): Stack
    decreases |vs|
  {
    if vs == [] then stack else PushAll(Push(vs[0], stack), vs[1..])
  }

  lemma {:induction false} PushAllSnoc(stack: Stack, vs: seq<Num>, v: Num)
    ensures PushAll(stack, vs + [v]) == Push(v, PushAll(stack, vs))
    decreases |vs|
  {
    if vs == [] {
      assert ([v])[1..] == [] && vs + [v] == [v];
    } else {
      assert (vs + [v])[1..] == vs[1..] + [v];
      PushAllSnoc(Push(vs[0], stack), vs[1..], v);
    }
  }

  /** A kind character goes with a parameter. */
  predicate Agrees(c: char, f: Formal) { (c == '0' && f.name > 0) || (c == '1' && f.name < 0) }

  /** The kinds, last argument first, go with the parameters. */
  predicate AllAgree(kinds: seq<char>, fs: seq<Formal>) {
    |kinds| == |fs| && forall i :: 0 <= i < |fs| ==> Agrees(kinds[|fs| - 1 - i], fs[i])
  }

  /** Arguments match parameters exactly if the string of a call, which lists
      the arguments backwards, goes with the parameters. */
  lemma {:induction false} MatchIff(args: Args, fs: seq<Formal>)
    ensures Match(args, fs) <==> AllAgree(CallStr(args), fs)
    decreases args
  {
    if args != NoArgs && fs != [] {
      var t, z := fs[1..], CallStr(args.others);
      MatchIff(args.others, t);
      var c := if args.Arg? then '0' else '1';
      assert CallStr(args) == z + [c];
      if AllAgree(z + [c], fs) {
        assert Agrees((z + [c])[|fs| - 1 - 0], fs[0]);
        forall i | 0 <= i < |t| ensures Agrees(z[|t| - 1 - i], t[i]) {
          assert Agrees((z + [c])[|fs| - 1 - (i + 1)], fs[i + 1]);
        }
      }
    }
  }

  /** One round of the parameter loop. */
  lemma BindStep(stack: Stack, st: Store, f: Formal, v: Num, params: seq<Formal>, c: char, kinds: seq<int>)
    requires Agrees(c, f)
    ensures M.BindParams(Push(v, stack), st, [f] + params, [c as int] + kinds) == M.BindParams(stack, BindOne(st, f, v), params, kinds)
  {
    assert ([f] + params)[1..] == params && ([c as int] + kinds)[1..] == kinds;
  }

  lemma AgreeFront(kinds: seq<char>, fs: seq<Formal>)
    requires AllAgree(kinds, fs) && fs != []
    ensures Agrees(kinds[0], fs[|fs| - 1]) && AllAgree(kinds[1..], fs[..|fs| - 1])
  {
    var k := |fs| - 1;
    assert Agrees(kinds[|fs| - 1 - k], fs[k]);
    forall i | 0 <= i < k ensures Agrees(kinds[1..][k - 1 - i], fs[..k][i]) {
      assert Agrees(kinds[k - i], fs[i]);
    }
  }

  /** The parameter loop, popping last first along the reversed list with the
      reversed kinds, binds every argument to its own parameter. */
  lemma {:induction false} BindParamsIsBindAll(stack: Stack, st: Store, fs: seq<Formal>, vs: seq<Num>, kinds: seq<char>)
    requires |fs| == |vs| && AllAgree(kinds, fs)
    ensures M.BindParams(PushAll(stack, vs), st, Reversed(fs), CharBytes(kinds)) == Some((stack, BindAll(st, fs, vs)))
    decreases |fs|
  {
    if fs != [] {
      var k := |fs| - 1;
      var f, v, fs', vs' := fs[k], vs[k], fs[..k], vs[..k];
      AgreeFront(kinds, fs);
      assert vs == vs' + [v];
      PushAllSnoc(stack, vs', v);
      assert Reversed(fs) == [f] + Reversed(fs') && CharBytes(kinds) == [kinds[0] as int] + CharBytes(kinds[1..]);
      BindStep(PushAll(stack, vs'), st, f, v, Reversed(fs'), kinds[0], CharBytes(kinds[1..]));
      BindParamsIsBindAll(stack, BindOne(st, f, v), fs', vs', kinds[1..]);
    }
  }

  /** A call goes through only if every kind goes with its parameter. */
  lemma {:induction false} BindParamsNeeds(stack: Stack, st: Store, params: seq<Formal>, kinds: seq<char>)
    requires M.BindParams(stack, st, params, CharBytes(kinds)).Some?
    ensures |params| == |kinds| && forall i :: 0 <= i < |kinds| ==> Agrees(kinds[i], params[i])
    decreases |kinds|
  {
    if kinds != [] {
      assert CharBytes(kinds)[1..] == CharBytes(kinds[1..]) && CharBytes(kinds)[0] == kinds[0] as int;
      BindParamsNeeds(stack.rest, BindOne(st, params[0], stack.top), params[1..], kinds[1..]);
      forall i | 0 <= i < |kinds| ensures Agrees(kinds[i], params[i]) {
        if i > 0 {
          assert kinds[i] == kinds[1..][i - 1] && params[i] == params[1..][i - 1];
        }
      }
    }
  }

  /** A wrong number or kind of arguments is always noticed. */
  lemma BindParamsMismatch(stack: Stack, st: Store, fs: seq<Formal>, args: Args)
    requires !Match(args, fs)
    ensures M.BindParams(stack, st, Reversed(fs), CharBytes(CallStr(args))).None?
  {
    var kinds := CallStr(args);
    MatchIff(args, fs);
    if M.BindParams(stack, st, Reversed(fs), CharBytes(kinds)).Some? {
      BindParamsNeeds(stack, st, Reversed(fs), kinds);
      assert false;
    }
  }

  // ---------------------------------------------------------------------
  // The order of distinct names does not matter to pushing and popping.
  // ---------------------------------------------------------------------

  lemma UpdatesCommute<V>(m: map<nat, V>, a: nat, x: V, b: nat, y: V)
    requires a != b
    ensures m[a := x][b := y] == m[b := y][a := x]
  {
  }

  lemma AutosCommute(st: Store, a: int, b: int)
    requires a != b
    ensures PushAuto(PushAuto(st, a), b) == PushAuto(PushAuto(st, b), a)
  {
    if a > 0 && b > 0 {
      UpdatesCommute(st.vars, a, Push(ZERO, Vars(st, a)), b, Push(ZERO, Vars(st, b)));
    } else if a <= 0 && b <= 0 {
      UpdatesCommute(st.arrays, -a, PushArray(None, Arrays(st, -a)), -b, PushArray(None, Arrays(st, -b)));
    }
  }

  lemma {:induction false} PushAutosCommutes(st: Store, a: int, names: seq<int>)
    requires a !in names
    ensures PushAutos(PushAuto(st, a), names) == PushAuto(PushAutos(st, names), a)
    decreases |names|
  {
    if names != [] {
      AutosCommute(st, a, names[0]);
      PushAutosCommutes(PushAuto(st, names[0]), a, names[1..]);
    }
  }

  lemma {:induction false} PushAutosSnoc(st: Store, names: seq<int>, a: int)
    ensures PushAutos(st, names + [a]) == PushAuto(PushAutos(st, names), a)
    decreases |names|
  {
    if names == [] {
      assert names + [a] == [a] && [a][1..] == [];
    } else {
      assert (names + [a])[1..] == names[1..] + [a];
      PushAutosSnoc(PushAuto(st, names[0]), names[1..], a);
    }
  }

  lemma {:induction false} PushAutosReversed(st: Store, names: seq<int>)
    requires Distinct(names)
    ensures PushAutos(st, Reversed(names)) == PushAutos(st, names)
    decreases |names|
  {
    if names != [] {
      var a, t := names[0], names[1..];
      assert Reversed(names) == Reversed(t) + [a];
      PushAutosSnoc(st, Reversed(t), a);
      PushAutosReversed(st, t);
      PushAutosCommutes(st, a, t);
    } else {
      assert Reversed(names) == [];
    }
  }

  lemma PopsCommute(st: Store, a: int, b: int)
    requires a != b
    ensures PopName(PopName(st, a), b) == PopName(PopName(st, b), a)
  {
    if a > 0 && b > 0 {
      UpdatesCommute(st.vars, a, Rest(Vars(st, a)), b, Rest(Vars(st, b)));
    } else if a <= 0 && b <= 0 {
      UpdatesCommute(st.arrays, -a, Below(Arrays(st, -a)), -b, Below(Arrays(st, -b)));
    }
  }

  lemma {:induction false} PopNamesCommutes(st: Store, a: int, names: seq<int>)
    requires a !in names
    ensures PopNames(PopName(st, a), names) == PopName(PopNames(st, names), a)
    decreases |names|
  {
    if names != [] {
      PopsCommute(st, a, names[0]);
      PopNamesCommutes(PopName(st, names[0]), a, names[1..]);
    }
  }

  lemma {:induction false} PopNamesSnoc(st: Store, names: seq<int>, a: int)
    ensures PopNames(st, names + [a]) == PopName(PopNames(st, names), a)
    decreases |names|
  {
    if names == [] {
      assert names + [a] == [a] && [a][1..] == [];
    } else {
      assert (names + [a])[1..] == names[1..] + [a];
      PopNamesSnoc(PopName(st, names[0]), names[1..], a);
    }
  }

  lemma {:induction false} PopNamesReversed(st: Store, names: seq<int>)
    requires Distinct(names)
    ensures PopNames(st, Reversed(names)) == PopNames(st, names)
    decreases |names|
  {
    if names != [] {
      var a, t := names[0], names[1..];
      assert Reversed(names) == Reversed(t) + [a];
      PopNamesSnoc(st, Reversed(t), a);
      PopNamesReversed(st, t);
      PopNamesCommutes(st, a, t);
    } else {
      assert Reversed(names) == [];
    }
  }
}
