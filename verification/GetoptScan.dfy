/** A whole getopt scan: what successive calls return, and how the argument
    vector has been permuted when the scan ends. */
module GetoptScan {
  import opened Wrappers
  import opened Getopt

  type Arg = seq<char>

  datatype Kind = Invalid | Plain | Required | Optional

  /** One returned option character and its argument. */
  datatype Found = Found(c: char, arg: Option<Arg>)

  /** Where c first occurs in s, or the length of s. */
  function IndexOf(s: seq<char>, c: char): (i: nat)
    ensures i <= |s| && (i < |s| ==> s[i] == c)
  {
    if s == [] || s[0] == c then 0 else 1 + IndexOf(s[1..], c)
  }

  function CharAt(s: seq<char>, i: nat): char { if i < |s| then s[i] else '\0' }

  /** What the option string says of c. */
  function KindOf(opts: seq<char>, c: char): Kind {
    var i := IndexOf(opts, c);
    if i == |opts| || c == ':' then Invalid
    else if CharAt(opts, i + 1) != ':' then Plain
    else if CharAt(opts, i + 2) == ':' then Optional
    else Required
  }

  /** An element that starts with '-' and is not "-" alone. */
  predicate IsOption(e: Arg) { |e| >= 2 && e[0] == '-' }

  /** Whether scanning these option characters ends by taking the next element. */
  function TakesNext(opts: seq<char>, cs: Arg): bool
    decreases |cs|
  {
    if cs == [] then false
    else
      match KindOf(opts, cs[0])
      case Invalid => TakesNext(opts, cs[1..])
      case Plain => TakesNext(opts, cs[1..])
      case Required => |cs| == 1
      case Optional => false
  }

  /** How many elements the option element at i uses. */
  function Width(opts: seq<char>, args: seq<Arg>, i: nat): nat
    requires i < |args| && |args[i]| >= 1
  {
    if TakesNext(opts, args[i][1..]) && i + 1 < |args| then 2 else 1
  }

  /** The elements from i on, sorted into options with their arguments and
      the rest, each in their order, behind what has been sorted already. */
  function Split(opts: seq<char>, args: seq<Arg>, i: nat, os: seq<Arg>, ns: seq<Arg>): (seq<Arg>, seq<Arg>)
    decreases |args| - i
  {
    if i >= |args| then (os, ns)
    else if !IsOption(args[i]) then Split(opts, args, i + 1, os, ns + [args[i]])
    else if args[i] == "--" then (os + ["--"], ns + args[i + 1..])
    else
      var w := Width(opts, args, i);
      Split(opts, args, i + w, os + args[i..i + w], ns)
  }

  /** With the elements before k sorted into os and ns, sorting the rest gives
      what sorting everything gives. */
  ghost predicate SoFar(opts: seq<char>, args: seq<Arg>, k: nat, os: seq<Arg>, ns: seq<Arg>) {
    forall j: nat {:trigger Exactly(j, k)} :: Exactly(j, k) ==> Split(opts, args, j, os, ns) == Split(opts, args, 1, [], [])
  }

  /** What the calls return from here on: rest is what is left of the option
      element at i. */
  function Results(opts: seq<char>, args: seq<Arg>, i: nat, rest: Arg): seq<Found>
    decreases if i < |args| then |args| - i else 0, if i < |args| && rest == [] then |args[i]| else |rest|, 0
  {
    if i >= |args| then []
    else if rest == [] then
      if !IsOption(args[i]) then Results(opts, args, i + 1, [])
      else if args[i] == "--" then []
      else Results(opts, args, i, args[i][1..])
    else
      var c, more := rest[0], rest[1..];
      match KindOf(opts, c)
      case Invalid => [Found('?', None)] + After(opts, args, i, more)
      case Plain => [Found(c, None)] + After(opts, args, i, more)
      case Optional => [Found(c, if more == [] then None else Some(more))] + Results(opts, args, i + 1, [])
      case Required =>
        if more != [] then [Found(c, Some(more))] + Results(opts, args, i + 1, [])
        else if i + 1 == |args| then [Found(if CharAt(opts, 0) == ':' then ':' else '?', None)] + Results(opts, args, i + 1, [])
        else [Found(c, Some(args[i + 1]))] + Results(opts, args, i + 2, [])
  }

  /** The rest of an element, or the next one. */
  function After(opts: seq<char>, args: seq<Arg>, i: nat, more: Arg): seq<Found>
    requires i < |args|
    decreases |args| - i, |more|, 1
  {
    if more == [] then Results(opts, args, i + 1, []) else Results(opts, args, i, more)
  }

  class Scan {
    const opts: seq<char>
    const argv: array<Arg>
    var optind: nat
    var first: nat
    var last: nat
    var nextchar: Arg
    var optarg: Option<Arg>
    /** The vector the program was started with. */
    ghost const orig: seq<Arg>

    /** The non-options skipped so far are at [first, last), the options so
        far are before and behind them, and nothing has been done to the rest. */
    ghost predicate SortedTo(k: nat)
      reads this, argv
    {
      && |orig| == argv.Length && 1 <= first <= last <= k <= argv.Length
      && argv[0] == orig[0] && argv[k..] == orig[k..]
      && SoFar(opts, orig, k, argv[1..first] + argv[last..k], argv[first..last])
    }

    ghost predicate Sorted()
      reads this, argv
    {
      SortedTo(optind)
    }

    ghost predicate Valid()
      reads this, argv
    {
      && Sorted()
      && (nextchar != [] ==> optind < |orig| && IsOption(orig[optind]) && orig[optind] != "--"
                             && TakesNext(opts, nextchar) == TakesNext(opts, orig[optind][1..]))
    }

    /** What the coming calls will return. */
    ghost function Remaining(): seq<Found>
      reads this
    {
      Results(opts, orig, optind, nextchar)
    }

    /** The first call's initialisation. */
    constructor (opts: seq<char>, argv: array<Arg>)
      requires argv.Length >= 1
      ensures this.opts == opts && this.argv == argv && orig == argv[..] && Valid()
      ensures Remaining() == Results(opts, argv[..], 1, [])
    {
      this.opts, this.argv, this.orig := opts, argv, argv[..];
      optind, first, last, nextchar, optarg := 1, 1, 1, [], None;
      new;
      assert argv[1..1] + argv[1..1] == [];
    }

    /** Move the options found since the last non-options in front of them. */
    method Settle()
      requires Sorted()
      modifies this`first, this`last, argv
      ensures Sorted() && last == optind
    {
      if first != last && last != optind {
        ghost var before, f := argv[..], first + (optind - last);
        assert argv[1..first] == before[1..first] && argv[last..optind] == before[last..optind];
        assert argv[first..last] == before[first..last] && argv[optind..] == before[optind..];
        Exchange(argv, first, last, optind);
        Settled(before, first, last, optind);
        ghost var after := argv[..];
        assert argv[1..f] == after[1..f] && argv[optind..optind] == after[optind..optind];
        assert argv[f..optind] == after[f..optind] && argv[optind..] == after[optind..];
        assert argv[1..f] + argv[optind..optind] == before[1..first] + before[last..optind];
        first := first + (optind - last);
      } else if last != optind {
        assert argv[1..first] + argv[last..optind] == argv[1..optind] + argv[optind..optind];
        assert argv[first..last] == argv[optind..optind];
        first := optind;
      }
      last := optind;
    }

    /** Skip elements that are not options. */
    method Skip()
      requires Sorted() && last == optind
      modifies this`optind, this`last
      ensures Sorted() && last == optind >= old(optind)
      ensures Results(opts, orig, optind, []) == Results(opts, orig, old(optind), [])
      ensures optind < argv.Length ==> IsOption(argv[optind])
    {
      while optind < argv.Length && !IsOption(argv[optind])
        invariant Sorted() && last == optind >= old(optind)
        invariant Results(opts, orig, optind, []) == Results(opts, orig, old(optind), [])
      {
        assert Exactly(optind, optind);
        assert argv[optind..][0] == orig[optind..][0];
        assert argv[first..optind + 1] == argv[first..optind] + [argv[optind]];
        assert argv[optind + 1..] == argv[optind..][1..] && orig[optind + 1..] == orig[optind..][1..];
        assert argv[1..first] + argv[optind + 1..optind + 1] == argv[1..first] + argv[optind..optind];
        optind := optind + 1;
        last := optind;
      }
    }

    /** Everything has been scanned: options first, from `first` on everything else. */
    ghost predicate Arranged()
      reads this, argv
    {
      var r := Split(opts, orig, 1, [], []);
      && |orig| == argv.Length >= 1 && argv[..] == [orig[0]] + r.0 + r.1
      && first == 1 + |r.0| && last == optind == argv.Length
    }

    /** "--": it counts as an option, and everything behind it does not. */
    method DoubleDash()
      requires Sorted() && last == optind < argv.Length && argv[optind] == "--"
      modifies this`optind, this`first, this`last, argv
      ensures Arranged()
    {
      ghost var s, r := argv[..], Split(opts, orig, 1, [], []);
      assert Exactly(optind, optind);
      assert argv[optind..][0] == orig[optind..][0];
      assert r.0 == argv[1..first] + argv[optind..optind] + ["--"];
      assert r.1 == argv[first..optind] + orig[optind + 1..];
      assert argv[1..first] + argv[optind..optind] == s[1..first] && argv[first..optind] == s[first..optind];
      assert orig[optind + 1..] == orig[optind..][1..] == argv[optind..][1..] == s[optind + 1..];
      optind := optind + 1;
      if first != last {
        Exchange(argv, first, last, optind);
        first := first + (optind - last);
      } else {
        assert Rotated(s, first, last, optind) == s;
        first := optind;
      }
      last := argv.Length;
      DashDone(s, old(first), old(optind), argv[..]);
      optind := argv.Length;
    }

    /** Nothing is left to scan. */
    lemma AllScanned()
      requires Sorted() && last == optind == argv.Length
      ensures Arranged()
    {
      var r := Split(opts, orig, 1, [], []);
      assert Exactly(optind, optind);
      assert argv[1..first] + argv[last..optind] == argv[1..first];
      assert argv[..] == [argv[0]] + argv[1..first] + argv[first..last];
    }

    /** Advance to the next option element; eof if there is none. */
    method Advance() returns (eof: bool)
      requires Valid() && nextchar == []
      modifies this`optind, this`first, this`last, argv
      ensures eof ==> Results(opts, orig, old(optind), []) == [] && Arranged()
      ensures !eof ==> Sorted() && last == optind < argv.Length && IsOption(argv[optind]) && argv[optind] != "--"
      ensures !eof ==> Results(opts, orig, optind, []) == Results(opts, orig, old(optind), [])
    {
      Settle();
      Skip();
      if optind != argv.Length && argv[optind] == "--" {
        assert argv[optind..][0] == orig[optind..][0];
        DoubleDash();
        return true;
      }
      if optind == argv.Length {
        AllScanned();
        return true;
      }
      return false;
    }

    /** The next option character, or the end of the options. */
    method Next() returns (r: Option<Found>)
      requires Valid()
      modifies this, argv
      ensures r.Some? ==> Valid() && old(Remaining()) == [r.value] + Remaining()
      ensures r.None? ==> old(Remaining()) == [] && Done()
    {
      optarg := None;
      if nextchar == [] {
        var eof := Advance();
        if eof {
          if first != last { optind := first; }
          return None;
        }
        assert argv[optind..][0] == orig[optind..][0];
        nextchar := argv[optind][1..];
      }
      var c := Decode();
      r := Some(Found(c, optarg));
    }

    /** The scan has ended: options with their arguments first, then the
        other elements, each group in its old order; optind is the first of
        the others. */
    ghost predicate Done()
      reads this, argv
    {
      var r := Split(opts, orig, 1, [], []);
      |orig| == argv.Length >= 1 && argv[..] == [orig[0]] + r.0 + r.1 && optind == 1 + |r.0|
    }

    /** Step over n elements that belong to an option. */
    lemma StepOver(n: nat)
      requires Sorted() && optind < argv.Length && IsOption(orig[optind]) && orig[optind] != "--"
      requires n == Width(opts, orig, optind)
      ensures SortedTo(optind + n)
    {
      assert Exactly(optind, optind);
      ghost var s := argv[..];
      assert argv[optind..] == s[optind..] && argv[optind + n..] == s[optind + n..] && argv[optind..optind + n] == s[optind..optind + n];
      SlicesAgree(s, orig, optind, n);
      assert argv[last..optind + n] == argv[last..optind] + argv[optind..optind + n];
      assert argv[1..first] + argv[last..optind + n] == argv[1..first] + argv[last..optind] + orig[optind..optind + n];
    }

    /** Handle one option character of the current element. */
    method Decode() returns (c: char)
      requires Valid() && nextchar != []
      modifies this`optind, this`nextchar, this`optarg
      ensures Valid() && old(Remaining()) == [Found(c, optarg)] + Remaining()
    {
      c := nextchar[0];
      var kind := KindOf(opts, c);
      ghost var cs, i := nextchar, optind;
      ResultsStep(opts, orig, i, cs);
      StepOver(Width(opts, orig, i));
      optarg, nextchar := None, nextchar[1..];
      if nextchar == [] {
        optind := optind + 1;
      }
      if kind == Invalid {
        c := '?';
      } else if kind == Optional {
        if nextchar != [] {
          optarg := Some(nextchar);
          optind := optind + 1;
        }
        nextchar := [];
      } else if kind == Required {
        c := TakeRequired(c, i, cs);
      }
    }

    /** The argument of the option character cs[0] in element i: the rest of the
        element, or the next one, if there is one. */
    method TakeRequired(c0: char, ghost i: nat, ghost cs: Arg) returns (c: char)
      requires cs != [] && c0 == cs[0] && KindOf(opts, c0) == Required && nextchar == cs[1..] && optarg == None
      requires i < |orig| == argv.Length && optind == (if cs[1..] == [] then i + 1 else i) && argv[i..] == orig[i..]
      requires SortedTo(i + if cs[1..] == [] && i + 1 < |orig| then 2 else 1)
      modifies this`optind, this`nextchar, this`optarg
      ensures Valid() && Results(opts, orig, i, cs) == [Found(c, optarg)] + Remaining()
    {
      c := c0;
      if nextchar != [] {
        optarg := Some(nextchar);
        optind := optind + 1;
      } else if optind == argv.Length {
        c := if CharAt(opts, 0) == ':' then ':' else '?';
      } else {
        assert argv[i..][1] == orig[i..][1];
        optarg := Some(argv[optind]);
        optind := optind + 1;
      }
      nextchar := [];
    }
  }

  /** Sequences that agree from i on agree on every part behind i. */
  lemma SlicesAgree(s: seq<Arg>, t: seq<Arg>, i: nat, n: nat)
    requires |s| == |t| && i + n <= |s| && s[i..] == t[i..]
    ensures s[i..i + n] == t[i..i + n] && s[i + n..] == t[i + n..]
  {
    assert s[i..][..n] == s[i..i + n] && t[i..][..n] == t[i..i + n];
    assert s[i..][n..] == s[i + n..] && t[i..][n..] == t[i + n..];
  }

  /** What one character of an element contributes, and whether it ends the element. */
  lemma ResultsStep(opts: seq<char>, args: seq<Arg>, i: nat, cs: Arg)
    requires i < |args| && cs != []
    ensures var c, more, k := cs[0], cs[1..], KindOf(opts, cs[0]);
      && (k == Invalid || k == Plain ==>
            TakesNext(opts, cs) == TakesNext(opts, more) && (more == [] ==> !TakesNext(opts, cs))
            && Results(opts, args, i, cs) == [Found(if k == Invalid then '?' else c, None)]
               + if more == [] then Results(opts, args, i + 1, []) else Results(opts, args, i, more))
      && (k == Required ==> (TakesNext(opts, cs) <==> more == []))
      && (k == Optional ==> !TakesNext(opts, cs))
  {
    if cs[1..] == [] {
      assert !TakesNext(opts, cs[1..]);
    }
  }

  /** Moving "--" in front of the skipped non-options. */
  lemma DashDone(s: seq<Arg>, b: nat, m: nat, u: seq<Arg>)
    requires 1 <= b <= m < |s| && s[m] == "--" && u == Rotated(s, b, m, m + 1)
    ensures u == [s[0]] + (s[1..b] + ["--"]) + (s[b..m] + s[m + 1..])
  {
    assert s[..b] == [s[0]] + s[1..b] && s[m..m + 1] == ["--"];
  }

  /** After the rotation the options are together, then the non-options. */
  lemma Settled(s: seq<Arg>, b: nat, m: nat, t: nat)
    requires 1 <= b <= m <= t <= |s|
    ensures var u := Rotated(s, b, m, t); var f := b + (t - m);
      && |u| == |s| && u[0] == s[0] && u[t..] == s[t..]
      && u[1..f] + u[t..t] == s[1..b] + s[m..t] && u[f..t] == s[b..m]
  {
    var u, f := Rotated(s, b, m, t), b + (t - m);
    assert u[1..f] == s[1..b] + s[m..t];
    assert u[f..t] == s[b..m];
    assert u[t..] == s[t..];
  }

  /** Call getopt until it reports the end of the options. */
  method ScanAll(opts: seq<char>, argv: array<Arg>) returns (found: seq<Found>, optind: nat)
    requires argv.Length >= 1
    modifies argv
    ensures found == Results(opts, old(argv[..]), 1, [])
    ensures var r := Split(opts, old(argv[..]), 1, [], []);
      argv[..] == [old(argv[0])] + r.0 + r.1 && optind == 1 + |r.0|
  {
    var scan := new Scan(opts, argv);
    found := [];
    ghost var all := scan.Remaining();
    while true
      invariant scan.argv == argv && scan.opts == opts && scan.orig == old(argv[..]) && scan.Valid() && fresh(scan)
      invariant found + scan.Remaining() == all
      decreases |scan.Remaining()|
    {
      var r := scan.Next();
      match r
      case None =>
        optind := scan.optind;
        return;
      case Some(f) =>
        assert found + ([f] + scan.Remaining()) == found + [f] + scan.Remaining();
        found := found + [f];
    }
  }

  // ---------------------------------------------------------------------
  // The final order is a stable partition of the original one.
  // ---------------------------------------------------------------------

  /** For every element from i on: does it belong to the options? */
  function Marks(opts: seq<char>, args: seq<Arg>, i: nat): (m: seq<bool>)
    requires i <= |args|
    ensures |m| == |args| - i
    decreases |args| - i
  {
    if i == |args| then []
    else if !IsOption(args[i]) then [false] + Marks(opts, args, i + 1)
    else if args[i] == "--" then [true] + seq(|args| - i - 1, _ => false)
    else if Width(opts, args, i) == 2 then [true, true] + Marks(opts, args, i + 2)
    else [true] + Marks(opts, args, i + 1)
  }

  /** The elements of s whose mark is b, in their order. */
  function Pick<T>(s: seq<T>, m: seq<bool>, b: bool): seq<T>
    requires |s| == |m|
    decreases |s|
  {
    if s == [] then [] else (if m[0] == b then [s[0]] else []) + Pick(s[1..], m[1..], b)
  }

  lemma {:induction false} PickNone<T>(s: seq<T>, m: seq<bool>)
    requires |s| == |m| && forall k :: 0 <= k < |m| ==> !m[k]
    ensures Pick(s, m, true) == [] && Pick(s, m, false) == s
    decreases |s|
  {
    if s != [] {
      PickNone(s[1..], m[1..]);
      assert s == [s[0]] + s[1..];
    }
  }

  lemma Glue<T>(a: seq<T>, b: seq<T>, c: seq<T>)
    ensures a + b + c == a + (b + c)
  {
  }

  /** What is picked from i on. */
  function Picked(opts: seq<char>, args: seq<Arg>, i: nat, b: bool): seq<Arg>
    requires i <= |args|
  {
    Pick(args[i..], Marks(opts, args, i), b)
  }

  /** One element that is marked y, and the ones behind it. */
  lemma PickedStep(opts: seq<char>, args: seq<Arg>, i: nat, y: bool)
    requires i < |args| && args[i] != "--" && (if y then IsOption(args[i]) && Width(opts, args, i) == 1 else !IsOption(args[i]))
    ensures Picked(opts, args, i, y) == [args[i]] + Picked(opts, args, i + 1, y)
    ensures Picked(opts, args, i, !y) == Picked(opts, args, i + 1, !y)
  {
    var m := Marks(opts, args, i);
    assert m[1..] == Marks(opts, args, i + 1);
    PickOne(args, i, m, y);
  }

  lemma PickedTwo(opts: seq<char>, args: seq<Arg>, i: nat)
    requires i < |args| && args[i] != "--" && IsOption(args[i]) && Width(opts, args, i) == 2
    ensures Picked(opts, args, i, true) == args[i..i + 2] + Picked(opts, args, i + 2, true)
    ensures Picked(opts, args, i, false) == Picked(opts, args, i + 2, false)
  {
    var m := Marks(opts, args, i);
    assert m[1..] == [true] + Marks(opts, args, i + 2) && m[1..][1..] == Marks(opts, args, i + 2);
    PickOne(args, i, m, true);
    PickOne(args, i + 1, m[1..], true);
    assert args[i..i + 2] == [args[i]] + [args[i + 1]];
    Glue([args[i]], [args[i + 1]], Picked(opts, args, i + 2, true));
  }

  lemma PickedDash(opts: seq<char>, args: seq<Arg>, i: nat)
    requires i < |args| && args[i] == "--"
    ensures Picked(opts, args, i, true) == ["--"] && Picked(opts, args, i, false) == args[i + 1..]
  {
    var m := Marks(opts, args, i);
    PickNone(args[i + 1..], m[1..]);
    PickOne(args, i, m, true);
  }

  /** Sorting is picking: options and others keep their original order. */
  lemma {:induction false} SplitPicks(opts: seq<char>, args: seq<Arg>, i: nat, os: seq<Arg>, ns: seq<Arg>)
    requires i <= |args|
    ensures Split(opts, args, i, os, ns) == (os + Picked(opts, args, i, true), ns + Picked(opts, args, i, false))
    decreases |args| - i
  {
    if i < |args| {
      if !IsOption(args[i]) {
        SplitPicks(opts, args, i + 1, os, ns + [args[i]]);
        PickedStep(opts, args, i, false);
        Glue(ns, [args[i]], Picked(opts, args, i + 1, false));
      } else if args[i] == "--" {
        PickedDash(opts, args, i);
      } else if Width(opts, args, i) == 2 {
        SplitPicks(opts, args, i + 2, os + args[i..i + 2], ns);
        PickedTwo(opts, args, i);
        Glue(os, args[i..i + 2], Picked(opts, args, i + 2, true));
      } else {
        assert args[i..i + 1] == [args[i]];
        SplitPicks(opts, args, i + 1, os + [args[i]], ns);
        PickedStep(opts, args, i, true);
        Glue(os, [args[i]], Picked(opts, args, i + 1, true));
      }
    } else {
      assert os + Picked(opts, args, i, true) == os && ns + Picked(opts, args, i, false) == ns;
    }
  }

  /** The first element of a suffix. */
  lemma PickOne(args: seq<Arg>, i: nat, m: seq<bool>, y: bool)
    requires i < |args| && |m| == |args| - i && m[0] == y
    ensures Pick(args[i..], m, y) == [args[i]] + Pick(args[i + 1..], m[1..], y)
    ensures Pick(args[i..], m, !y) == Pick(args[i + 1..], m[1..], !y)
  {
    assert args[i..][1..] == args[i + 1..];
  }

  lemma {:induction false} PickAll<T>(s: seq<T>, m: seq<bool>)
    requires |s| == |m|
    ensures multiset(Pick(s, m, true)) + multiset(Pick(s, m, false)) == multiset(s)
    decreases |s|
  {
    if s != [] {
      PickAll(s[1..], m[1..]);
      assert s == [s[0]] + s[1..];
      assert multiset(s) == multiset([s[0]]) + multiset(s[1..]);
    }
  }

  lemma ThreeParts<T>(a: seq<T>, b: seq<T>, c: seq<T>)
    ensures multiset(a + b + c) == multiset(a) + (multiset(b) + multiset(c))
  {
    assert multiset(a + b + c) == multiset(a + b) + multiset(c);
    assert multiset(a + b) == multiset(a) + multiset(b);
  }

  lemma HeadPart<T>(s: seq<T>)
    requires |s| >= 1
    ensures multiset(s) == multiset([s[0]]) + multiset(s[1..])
  {
    assert s == [s[0]] + s[1..];
  }

  /** The scan permutes: no element is lost or added. */
  lemma ScanPermutes(opts: seq<char>, args: seq<Arg>)
    requires |args| >= 1
    ensures var r := Split(opts, args, 1, [], []); multiset([args[0]] + r.0 + r.1) == multiset(args)
  {
    SplitPicks(opts, args, 1, [], []);
    var a, b := Picked(opts, args, 1, true), Picked(opts, args, 1, false);
    assert [] + a == a && [] + b == b;
    PickAll(args[1..], Marks(opts, args, 1));
    HeadPart(args);
    ThreeParts([args[0]], a, b);
  }
}
