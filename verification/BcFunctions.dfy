/** Function definitions: how their text is made and what loading it yields. */
module BcFunctions {
  import opened DecimalText
  import opened BcSyntax
  import opened BcCalls
  import opened BcSimulation
  import opened BcEncoding
  import opened BcText

  /** The list the grammar builds with nextarg: the last name comes first. */
  function ArgList(names: seq<Formal>): (r: seq<Formal>) { Reversed(names) }

  /** Autos are listed in the same way, without stars. */
  function AutoList(names: seq<int>): (r: seq<Formal>) { Reversed(seq(|names|, i requires 0 <= i < |names| => Formal(names[i], false))) }

  /** A name as make_arg_str writes it. */
  function NameText(f: Formal): seq<char> { if f.byVar then "*" + Signed(f.name) else Signed(f.name) }

  /** make_arg_str: the text of a list, its last element first; only the very
      last name has no comma behind it. */
  function ArgText(args: seq<Formal>, last: bool): seq<char>
    decreases |args|
  {
    if args == [] then "" else ArgText(args[1..], false) + (NameText(args[0]) + if last then "" else ",")
  }

  lemma SignedFirst(n: int)
    ensures Signed(n) != [] && (IsDigit(Signed(n)[0]) || Signed(n)[0] == '-')
  {
  }

  /** A character that can end a list. */
  predicate Stop(c: char) { !IsDigit(c) && c != '-' && c != ',' && c != '*' }

  /** Reading one name of a list. */
  lemma NamesStep(f: Formal, rest: seq<char>, stop: char, acc: seq<Formal>)
    requires NoDigit(rest) && Stop(stop)
    ensures Names(NameText(f) + rest, stop, acc) == Names(rest, stop, [f] + acc)
  {
    var s := NameText(f) + rest;
    SignedFirst(f.name);
    ReadSigned(f.name, rest);
    if f.byVar {
      Join("*", Signed(f.name), rest);
      assert s[0] == '*' && s[1..] == Signed(f.name) + rest;
    } else {
      assert s[0] == Signed(f.name)[0];
    }
  }

  lemma CommaStep(rest: seq<char>, stop: char, acc: seq<Formal>)
    requires stop != ','
    ensures Names("," + rest, stop, acc) == Names(rest, stop, acc)
  {
    assert ("," + rest)[1..] == rest;
  }

  /** One name of a list, with its comma unless it is the last. */
  lemma NumberStep(f: Formal, last: bool, rest: seq<char>, stop: char, acc: seq<Formal>)
    requires Stop(stop) && (last ==> NoDigit(rest))
    ensures Names((NameText(f) + if last then "" else ",") + rest, stop, acc) == Names(rest, stop, [f] + acc)
  {
    if last {
      assert NameText(f) + "" == NameText(f);
      NamesStep(f, rest, stop, acc);
    } else {
      Join(NameText(f), ",", rest);
      NamesStep(f, "," + rest, stop, acc);
      CommaStep(rest, stop, [f] + acc);
    }
  }

  lemma ArgTextParts(args: seq<Formal>, last: bool, rest: seq<char>, front: seq<char>)
    requires args != [] && front == NameText(args[0]) + if last then "" else ","
    ensures ArgText(args, last) + rest == ArgText(args[1..], false) + (front + rest)
  {
    Join(ArgText(args[1..], false), front, rest);
  }

  lemma HeadFirst(args: seq<Formal>, acc: seq<Formal>)
    requires args != []
    ensures [args[0]] + (args[1..] + acc) == args + acc
  {
  }

  /** Reading a list prepends its numbers in the order of the text: the
      reversal of the text undoes the reversal of the list. */
  lemma {:induction false} NamesRead(args: seq<Formal>, last: bool, rest: seq<char>, stop: char, acc: seq<Formal>)
    requires Stop(stop) && (last ==> NoDigit(rest))
    ensures Names(ArgText(args, last) + rest, stop, acc) == Names(rest, stop, args + acc)
    decreases |args|
  {
    if args == [] {
      assert ArgText(args, last) + rest == rest && args + acc == acc;
    } else {
      var front := NameText(args[0]) + if last then "" else ",";
      ArgTextParts(args, last, rest, front);
      NamesRead(args[1..], false, front + rest, stop, acc);
      NumberStep(args[0], last, rest, stop, args[1..] + acc);
      HeadFirst(args, acc);
    }
  }

  /** A list between a separator and the character that ends it comes back as it was. */
  lemma ListRoundTrip(args: seq<Formal>, stop: char, rest: seq<char>)
    requires stop == '.' || stop == '['
    ensures Names(ArgText(args, true) + ([stop] + rest), stop, []) == (args, rest)
  {
    NamesRead(args, true, [stop] + rest, stop, []);
    assert args + [] == args && ([stop] + rest)[1..] == rest;
  }

  /** The text of a definition, as the actions around its body emit it. */
  function HeadText(f: nat, d: FuncDef): seq<char> {
    "F" + (Decimal(f) + ("," + (ArgText(ArgList(d.formals), true) + ("." + (ArgText(AutoList(d.autos), true) + "[")))))
  }

  function FuncText(f: nat, d: FuncDef): seq<char> { HeadText(f, d) + TextAll(FuncCode(d)) + "]" }

  lemma LoadHeadText(l: Loading, f: nat, d: FuncDef, rest: seq<char>)
    requires Idle(l)
    ensures LoadCode(l, HeadText(f, d) + rest)
         == LoadCode(l.(bodies := l.bodies[f := Body([], map[], ArgList(d.formals), Reversed(d.autos), false)],
                    func := f, saved := l.func), rest)
  {
    var t3 := ArgText(AutoList(d.autos), true) + ("[" + rest);
    var t2 := ArgText(ArgList(d.formals), true) + ("." + t3);
    var s := HeadText(f, d) + rest;
    HeadShape(f, d, rest, t2, t3);
    HeadRead(l, f, d, rest, t2, t3);
    HeadStep(l, s, Decimal(f) + ("," + t2));
  }

  lemma HeadStep(l: Loading, s: seq<char>, t: seq<char>)
    requires Idle(l) && s != [] && s[0] == 'F' && s[1..] == t
    ensures LoadCode(l, s) == LoadCode(LoadHead(l, t).0, LoadHead(l, t).1)
  {
    LoadStep(l, s);
  }

  /** What the loader makes of a definition's head, behind the 'F'. */
  lemma HeadRead(l: Loading, f: nat, d: FuncDef, rest: seq<char>, t2: seq<char>, t3: seq<char>)
    requires t3 == ArgText(AutoList(d.autos), true) + ("[" + rest) && t2 == ArgText(ArgList(d.formals), true) + ("." + t3)
    ensures LoadHead(l, Decimal(f) + ("," + t2))
         == (l.(bodies := l.bodies[f := Body([], map[], ArgList(d.formals), Reversed(d.autos), false)], func := f, saved := l.func), rest)
  {
    ReadDecimal(f, "," + t2);
    CommaStep(t2, '.', []);
    ListRoundTrip(ArgList(d.formals), '.', t3);
    ListRoundTrip(AutoList(d.autos), '[', rest);
    assert NamesOf(AutoList(d.autos)) == Reversed(d.autos);
  }

  lemma HeadShape(f: nat, d: FuncDef, rest: seq<char>, t2: seq<char>, t3: seq<char>)
    requires t3 == ArgText(AutoList(d.autos), true) + ("[" + rest)
    requires t2 == ArgText(ArgList(d.formals), true) + ("." + t3)
    ensures HeadText(f, d) + rest != [] && (HeadText(f, d) + rest)[0] == 'F'
    ensures (HeadText(f, d) + rest)[1..] == Decimal(f) + ("," + t2)
  {
    HeadJoin(Decimal(f), ArgText(ArgList(d.formals), true), ArgText(AutoList(d.autos), true), rest);
  }

  lemma HeadJoin(n: seq<char>, p: seq<char>, a: seq<char>, rest: seq<char>)
    ensures var s := "F" + (n + ("," + (p + ("." + (a + "["))))) + rest;
      s != [] && s[0] == 'F' && s[1..] == n + ("," + (p + ("." + (a + ("[" + rest)))))
  {
    Join("F", n + ("," + (p + ("." + (a + "[")))), rest);
    Join(n, "," + (p + ("." + (a + "["))), rest);
    Join(",", p + ("." + (a + "[")), rest);
    Join(p, "." + (a + "["), rest);
    Join(".", a + "[", rest);
    Join(a, "[", rest);
  }

  /** What a loaded function looks like. */
  function LoadedBody(d: FuncDef): Body {
    Body(EncodeAll(FuncCode(d)), LabelMap(FuncCode(d), 0, map[]), ArgList(d.formals), Reversed(d.autos), true)
  }

  /** The end of a definition: back to the function that was being loaded. */
  lemma LoadEnd(l: Loading, b: Body, rest: seq<char>)
    requires Idle(l)
    ensures LoadCode(WithCur(l, b), "]" + rest) == LoadCode(WithCur(l, b.(defined := true)).(func := l.saved), rest)
  {
    LoadStep(WithCur(l, b), "]" + rest);
    assert ("]" + rest)[1..] == rest;
    WithCurTwice(l, b, b.(defined := true));
  }

  lemma LoadBody(l: Loading, d: FuncDef, rest: seq<char>, b0: Body)
    requires Idle(l) && AllFit(FuncCode(d)) && Cur(l) == b0
    requires b0 == Body([], map[], ArgList(d.formals), Reversed(d.autos), false)
    ensures LoadCode(l, TextAll(FuncCode(d)) + ("]" + rest)) == LoadCode(WithCur(l, LoadedBody(d)).(func := l.saved), rest)
  {
    var code := FuncCode(d);
    LoadAll(l, code, "]" + rest);
    assert Grown(b0, code) == LoadedBody(d).(defined := false);
    LoadEnd(l, Grown(b0, code), rest);
  }

  /** Loading a definition defines its function and returns to the main program. */
  lemma LoadFunction(l: Loading, f: nat, d: FuncDef, rest: seq<char>)
    requires Idle(l) && AllFit(FuncCode(d))
    ensures LoadCode(l, FuncText(f, d) + rest) == LoadCode(l.(bodies := l.bodies[f := LoadedBody(d)], saved := l.func), rest)
  {
    var text, tail := TextAll(FuncCode(d)), "]" + rest;
    var b0 := Body([], map[], ArgList(d.formals), Reversed(d.autos), false);
    var l1 := l.(bodies := l.bodies[f := b0], func := f, saved := l.func);
    Join(HeadText(f, d) + text, "]", rest);
    Join(HeadText(f, d), text, tail);
    LoadHeadText(l, f, d, text + tail);
    LoadBody(l1, d, rest, b0);
    assert WithCur(l1, LoadedBody(d)).bodies == l.bodies[f := LoadedBody(d)];
  }
}
