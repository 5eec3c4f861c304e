/** The character form in which code is emitted, and the loader that turns
    it into bytes and labels, one character sequence at a time. */
module BcText {
  import opened DecimalText
  import opened BcSyntax
  import opened BcCompile
  import opened BcSemantics
  import opened BcPlacement
  import opened BcEncoding
  import M = BcMachine

  /** The text of one item. */
  function Text(i: Instr): seq<char> {
    match i
    case Plain(c) => [c]
    case Named(c, n) => [c] + Decimal(n) + ":"
    case Jump(c, lab) => [c] + Decimal(lab) + ":"
    case Label(lab) => "N" + Decimal(lab) + ":"
    case Number(t) => "K" + t + ":"
    case Special(c) => ['c', c]
    case Invoke(f, kinds) => "C" + Decimal(f) + (if kinds == [] then "" else "," + kinds) + ":"
    case Show(s) => "w\"" + s + "\""
  }

  function TextAll(code: seq<Instr>): seq<char>
    decreases |code|
  {
    if code == [] then [] else Text(code[0]) + TextAll(code[1..])
  }

  // ---------------------------------------------------------------------
  // The loader.
  // ---------------------------------------------------------------------

  /** One function as loaded so far. */
  datatype Body = Body(bytes: seq<int>, labels: map<nat, nat>, params: seq<Formal>, autos: seq<int>, defined: bool)

  const EMPTY := Body([], map[], [], [], false)

  /** The loader's state: functions, the one being loaded and the one to
      return to, and whether a string or a constant is being read.  stop:
      the program was too big or the text malformed. */
  datatype Loading = Loading(bodies: map<nat, Body>, func: nat, saved: nat, str: bool, con: bool, stop: bool)

  function BodyOf(l: Loading, f: nat): Body { if f in l.bodies then l.bodies[f] else EMPTY }

  function Cur(l: Loading): Body { BodyOf(l, l.func) }

  function WithCur(l: Loading, b: Body): Loading { l.(bodies := l.bodies[l.func := b]) }

  /** addbyte, for several bytes. */
  function Add(l: Loading, bytes: seq<int>): Loading { WithCur(l, Cur(l).(bytes := Cur(l).bytes + bytes)) }

  function Define(l: Loading, lab: nat): Loading {
    WithCur(l, Cur(l).(labels := Cur(l).labels[lab := |Cur(l).bytes|]))
  }

  /** The characters up to the next colon. */
  function UpTo(s: seq<char>, stop: char): (r: seq<char>)
    ensures |r| <= |s|
    decreases |s|
  {
    if s == [] || s[0] == stop then [] else [s[0]] + UpTo(s[1..], stop)
  }

  function NameCode(n: int): seq<int> {
    if n < 0 then [] else if n < 128 then [n] else [128 + n / 256 % 128, n % 256]
  }

  /** nextarg, repeated over a list of names that ends at `stop`; a star
      marks a variable parameter. */
  function Names(s: seq<char>, stop: char, args: seq<Formal>): (r: (seq<Formal>, seq<char>))
    ensures |r.1| <= |s|
    decreases |s|
  {
    if s == [] || s[0] == stop then (args, Tail(s))
    else if s[0] == ',' then Names(s[1..], stop, args)
    else
      var star := s[0] == '*';
      var (n, rest) := LongVal(if star then s[1..] else s);
      if |rest| < |s| then Names(rest, stop, [Formal(n, star)] + args) else (args, [])
  }

  /** One round of the scan outside strings and constants; s is not empty. */
  function LoadItem(l: Loading, s: seq<char>): (r: (Loading, seq<char>))
    requires s != []
    ensures |r.1| < |s|
  {
    var c, t := s[0], s[1..];
    if c == '"' then (l.(str := true), t)
    else if c == 'N' then
      var (n, rest) := LongVal(t);
      (if n >= 0 then Define(l, n) else l.(stop := true), Tail(rest))
    else if M.JumpOp(c) then
      var (n, rest) := LongVal(t);
      (if 0 <= n <= 65535 then Add(l, [c as int, n % 256, n / 256]) else l.(stop := true), Tail(rest))
    else if c == 'F' then LoadHead(l, t)
    else if c == ']' then
      (WithCur(l, Cur(l).(defined := true)).(func := l.saved), t)
    else if c == 'C' then LoadCall(l, t)
    else if c == 'c' then (Add(l, ['c' as int, Peek(t) as int]), Tail(t))
    else if c == 'K' then (Add(l, ['K' as int]).(con := true), t)
    else if M.NamedOp(c) then
      var (n, rest) := LongVal(t);
      (Add(l, [c as int] + NameCode(n)), Tail(rest))
    else if c == '\n' then (l, t)
    else (Add(l, [c as int]), t)
  }

  /** A call: the function's number and the kinds of its arguments. */
  function LoadCall(l: Loading, t: seq<char>): (r: (Loading, seq<char>))
    ensures |r.1| <= |t|
  {
    var (n, rest) := LongVal(t);
    var args := if Peek(rest) == ',' then rest[1..] else rest;
    var kinds := UpTo(args, ':');
    (Add(l, ['C' as int] + NameCode(n) + CharBytes(kinds) + [':' as int]), Tail(args[|kinds|..]))
  }

  /** A function's head: its number, parameters and autos. */
  function LoadHead(l: Loading, t: seq<char>): (r: (Loading, seq<char>))
    ensures |r.1| <= |t|
  {
    var (f, rest) := LongVal(t);
    if f < 0 then (l.(stop := true), rest)
    else
      var (params, afterParams) := Names(rest, '.', []);
      var (autos, afterAutos) := Names(afterParams, '[', []);
      (l.(bodies := l.bodies[f := Body([], map[], params, NamesOf(autos), false)], func := f, saved := l.func), afterAutos)
  }

  /** One round of the scan. */
  function LoadOne(l: Loading, s: seq<char>): (r: (Loading, seq<char>))
    requires s != []
    ensures |r.1| < |s|
  {
    var c := s[0];
    if l.str then (Add(l, [c as int]).(str := c != '"'), s[1..])
    else if l.con then
      if c == '\n' then (l, s[1..])
      else if c == ':' then (Add(l, [':' as int]).(con := false), s[1..])
      else (Add(l, [ConstByte(c)]), s[1..])
    else LoadItem(l, s)
  }

  /** load_code. */
  function LoadCode(l: Loading, s: seq<char>): Loading
    decreases |s|
  {
    if s == [] || l.stop then l
    else
      var (l', rest) := LoadOne(l, s);
      LoadCode(l', rest)
  }

  // ---------------------------------------------------------------------
  // Loading emitted text yields the encoding and the label table.
  // ---------------------------------------------------------------------

  predicate Idle(l: Loading) { !l.str && !l.con && !l.stop }

  /** What loading one item does. */
  function After(l: Loading, i: Instr): Loading { if i.Label? then Define(l, i.lab) else Add(l, Encode(i)) }

  lemma AddAdd(l: Loading, a: seq<int>, b: seq<int>)
    ensures Add(Add(l, a), b) == Add(l, a + b)
  {
    assert Cur(l).bytes + a + b == Cur(l).bytes + (a + b);
    assert Add(Add(l, a), b).bodies == Add(l, a + b).bodies;
  }

  lemma LoadStep(l: Loading, s: seq<char>)
    requires s != [] && Idle(l)
    ensures LoadCode(l, s) == LoadCode(LoadItem(l, s).0, LoadItem(l, s).1)
  {
  }

  /** Inside a constant, up to its colon. */
  lemma {:induction false} LoadConst(l: Loading, t: seq<char>, rest: seq<char>)
    requires l.con && !l.str && !l.stop && forall k :: 0 <= k < |t| ==> ConstChar(t[k])
    ensures LoadCode(l, t + (":" + rest)) == LoadCode(Add(l, ConstBytes(t) + [':' as int]).(con := false), rest)
    decreases |t|
  {
    if t == [] {
      assert t + (":" + rest) == ":" + rest && (":" + rest)[1..] == rest;
      assert ConstBytes(t) + [':' as int] == [':' as int];
    } else {
      var l1 := Add(l, [ConstByte(t[0])]);
      assert (t + (":" + rest))[1..] == t[1..] + (":" + rest);
      assert ConstChar(t[0]);
      LoadConst(l1, t[1..], rest);
      AddAdd(l, [ConstByte(t[0])], ConstBytes(t[1..]) + [':' as int]);
      assert [ConstByte(t[0])] + (ConstBytes(t[1..]) + [':' as int]) == ConstBytes(t) + [':' as int];
    }
  }

  /** Inside a string, up to its closing quote. */
  lemma {:induction false} LoadString(l: Loading, t: seq<char>, rest: seq<char>)
    requires l.str && !l.stop && '"' !in t
    ensures LoadCode(l, t + ("\"" + rest)) == LoadCode(Add(l, CharBytes(t) + ['"' as int]).(str := false), rest)
    decreases |t|
  {
    if t == [] {
      assert t + ("\"" + rest) == "\"" + rest && ("\"" + rest)[1..] == rest;
      assert CharBytes(t) + ['"' as int] == ['"' as int];
    } else {
      var l1 := Add(l, [t[0] as int]);
      assert (t + ("\"" + rest))[1..] == t[1..] + ("\"" + rest);
      LoadString(l1, t[1..], rest);
      AddAdd(l, [t[0] as int], CharBytes(t[1..]) + ['"' as int]);
      assert [t[0] as int] + (CharBytes(t[1..]) + ['"' as int]) == CharBytes(t) + ['"' as int];
    }
  }

  lemma LoadNumber(l: Loading, t: seq<char>, rest: seq<char>)
    requires Idle(l) && Fits(Number(t))
    ensures LoadCode(l, Text(Number(t)) + rest) == LoadCode(After(l, Number(t)), rest)
  {
    var s := Text(Number(t)) + rest;
    assert s[1..] == t + (":" + rest) && s[0] == 'K';
    var l1 := Add(l, ['K' as int]).(con := true);
    LoadStep(l, s);
    LoadConst(l1, t, rest);
    AddAdd(l, ['K' as int], ConstBytes(t) + [':' as int]);
    assert ['K' as int] + (ConstBytes(t) + [':' as int]) == Encode(Number(t));
  }

  lemma ShowText(t: seq<char>, rest: seq<char>)
    ensures var s := Text(Show(t)) + rest;
      |s| > 1 && s[0] == 'w' && s[1..][0] == '"' && s[1..][1..] == t + ("\"" + rest)
  {
    var s := Text(Show(t)) + rest;
    assert s == "w\"" + (t + ("\"" + rest));
  }

  lemma LoadShow(l: Loading, t: seq<char>, rest: seq<char>)
    requires Idle(l) && Fits(Show(t))
    ensures LoadCode(l, Text(Show(t)) + rest) == LoadCode(After(l, Show(t)), rest)
  {
    var s := Text(Show(t)) + rest;
    ShowText(t, rest);
    var l1 := Add(l, ['w' as int]);
    LoadStep(l, s);
    LoadStep(l1, s[1..]);
    LoadString(l1.(str := true), t, rest);
    AddAdd(l, ['w' as int], CharBytes(t) + ['"' as int]);
    assert ['w' as int] + (CharBytes(t) + ['"' as int]) == Encode(Show(t));
  }

  lemma SameName(n: nat)
    requires n <= MAX_STORE
    ensures NameCode(n) == NameBytes(n)
  {
  }

  lemma NamedItem(l: Loading, s: seq<char>, n: int, rest: seq<char>)
    requires s != [] && M.NamedOp(s[0]) && LongVal(s[1..]) == (n, ":" + rest)
    ensures LoadItem(l, s) == (Add(l, [s[0] as int] + NameCode(n)), rest)
  {
    assert (":" + rest)[1..] == rest && !M.JumpOp(s[0]);
  }

  lemma LoadNamed(l: Loading, c: char, n: nat, rest: seq<char>)
    requires Idle(l) && Fits(Named(c, n))
    ensures LoadCode(l, Text(Named(c, n)) + rest) == LoadCode(After(l, Named(c, n)), rest)
  {
    var s := Text(Named(c, n)) + rest;
    assert s[0] == c && s[1..] == Decimal(n) + (":" + rest);
    ReadDecimal(n, ":" + rest);
    NamedItem(l, s, n, rest);
    LoadStep(l, s);
    SameName(n);
  }

  lemma LoadJump(l: Loading, c: char, lab: nat, rest: seq<char>)
    requires Idle(l) && M.JumpOp(c)
    ensures if lab <= 65535 then LoadCode(l, Text(Jump(c, lab)) + rest) == LoadCode(After(l, Jump(c, lab)), rest)
            else LoadCode(l, Text(Jump(c, lab)) + rest).stop
  {
    var s := Text(Jump(c, lab)) + rest;
    assert s[0] == c && s[1..] == Decimal(lab) + (":" + rest) && (":" + rest)[1..] == rest;
    ReadDecimal(lab, ":" + rest);
    LoadStep(l, s);
  }

  lemma LoadLabel(l: Loading, lab: nat, rest: seq<char>)
    requires Idle(l)
    ensures LoadCode(l, Text(Label(lab)) + rest) == LoadCode(After(l, Label(lab)), rest)
  {
    var s := Text(Label(lab)) + rest;
    assert s[0] == 'N' && s[1..] == Decimal(lab) + (":" + rest) && (":" + rest)[1..] == rest;
    ReadDecimal(lab, ":" + rest);
    LoadStep(l, s);
  }

  lemma {:induction false} UpToIs(t: seq<char>, stop: char, rest: seq<char>)
    requires stop !in t
    ensures UpTo(t + ([stop] + rest), stop) == t
    decreases |t|
  {
    if t != [] {
      assert (t + ([stop] + rest))[1..] == t[1..] + ([stop] + rest);
      UpToIs(t[1..], stop, rest);
    }
  }

  /** What the scan makes of a call whose kinds are z. */
  lemma CallItem(l: Loading, s: seq<char>, f: int, after: seq<char>, z: seq<char>, rest: seq<char>)
    requires s != [] && s[0] == 'C' && LongVal(s[1..]) == (f, after) && ':' !in z
    requires after == (if z == [] then "" else ",") + (z + (":" + rest))
    ensures LoadItem(l, s) == (Add(l, ['C' as int] + NameCode(f) + CharBytes(z) + [':' as int]), rest)
  {
    UpToIs(z, ':', rest);
    assert (z + (":" + rest))[|z|..] == ":" + rest && (":" + rest)[1..] == rest;
    if z != [] {
      assert after[1..] == z + (":" + rest);
    } else {
      assert after == ":" + rest;
    }
  }

  lemma LoadInvoke(l: Loading, f: nat, z: seq<char>, rest: seq<char>)
    requires Idle(l) && Fits(Invoke(f, z))
    ensures LoadCode(l, Text(Invoke(f, z)) + rest) == LoadCode(After(l, Invoke(f, z)), rest)
  {
    var s := Text(Invoke(f, z)) + rest;
    var after := (if z == [] then "" else ",") + (z + (":" + rest));
    assert s[0] == 'C' && s[1..] == Decimal(f) + after;
    ReadDecimal(f, after);
    CallItem(l, s, f, after, z, rest);
    LoadStep(l, s);
    SameName(f);
  }

  lemma PlainItem(l: Loading, s: seq<char>)
    requires s != [] && M.PlainOp(s[0])
    ensures LoadItem(l, s) == (Add(l, [s[0] as int]), s[1..])
  {
    assert !M.JumpOp(s[0]) && !M.NamedOp(s[0]);
  }

  lemma LoadPlain(l: Loading, c: char, rest: seq<char>)
    requires Idle(l) && Fits(Plain(c))
    ensures LoadCode(l, Text(Plain(c)) + rest) == LoadCode(After(l, Plain(c)), rest)
  {
    var s := Text(Plain(c)) + rest;
    assert s[0] == c && s[1..] == rest;
    PlainItem(l, s);
    LoadStep(l, s);
  }

  lemma LoadSpecial(l: Loading, c: char, rest: seq<char>)
    requires Idle(l)
    ensures LoadCode(l, Text(Special(c)) + rest) == LoadCode(After(l, Special(c)), rest)
  {
    var s := Text(Special(c)) + rest;
    assert s[0] == 'c' && s[1..][0] == c && s[1..][1..] == rest;
    LoadStep(l, s);
  }

  /** Loading the text of an item appends its encoding, or defines the label here. */
  lemma LoadText(l: Loading, i: Instr, rest: seq<char>)
    requires Idle(l) && Fits(i)
    ensures LoadCode(l, Text(i) + rest) == LoadCode(After(l, i), rest)
  {
    match i
    case Plain(c) => LoadPlain(l, c, rest);
    case Named(c, n) => LoadNamed(l, c, n, rest);
    case Jump(c, lab) => LoadJump(l, c, lab, rest);
    case Label(lab) => LoadLabel(l, lab, rest);
    case Number(t) => LoadNumber(l, t, rest);
    case Special(c) => LoadSpecial(l, c, rest);
    case Invoke(f, kinds) => LoadInvoke(l, f, kinds, rest);
    case Show(t) => LoadShow(l, t, rest);
  }

  // ---------------------------------------------------------------------
  // Whole pieces of code.
  // ---------------------------------------------------------------------

  /** What loading a piece of code does to the current function. */
  function AfterAll(l: Loading, code: seq<Instr>): Loading {
    WithCur(l, Grown(Cur(l), code))
  }

  lemma WithCurTwice(l: Loading, a: Body, b: Body)
    ensures WithCur(WithCur(l, a), b) == WithCur(l, b) && Cur(WithCur(l, a)) == a
  {
    assert WithCur(WithCur(l, a), b).bodies == WithCur(l, b).bodies;
  }

  /** The current function once code has been loaded into it. */
  function Grown(b: Body, code: seq<Instr>): Body {
    b.(bytes := b.bytes + EncodeAll(code), labels := LabelMap(code, |b.bytes|, b.labels))
  }

  function GrownOne(b: Body, i: Instr): Body {
    if i.Label? then b.(labels := b.labels[i.lab := |b.bytes|]) else b.(bytes := b.bytes + Encode(i))
  }

  lemma EncodeCons(code: seq<Instr>)
    requires code != []
    ensures EncodeAll(code) == Encode(code[0]) + EncodeAll(code[1..])
  {
  }

  lemma GrowBytes(a: seq<int>, b: seq<int>, c: seq<int>)
    ensures a + b + c == a + (b + c) && (b == [] ==> a + c == a + (b + c))
  {
  }

  lemma GrownCons(b: Body, code: seq<Instr>)
    requires code != []
    ensures Grown(GrownOne(b, code[0]), code[1..]) == Grown(b, code)
  {
    EncodeCons(code);
    GrowBytes(b.bytes, Encode(code[0]), EncodeAll(code[1..]));
  }

  lemma AfterCons(l: Loading, code: seq<Instr>)
    requires code != []
    ensures AfterAll(After(l, code[0]), code[1..]) == AfterAll(l, code)
  {
    GrownCons(Cur(l), code);
    WithCurTwice(l, GrownOne(Cur(l), code[0]), Grown(Cur(l), code));
  }

  lemma TextAllAppend(a: seq<Instr>, b: seq<Instr>)
    ensures TextAll(a + b) == TextAll(a) + TextAll(b)
    decreases |a|
  {
    if a == [] {
      assert a + b == b;
    } else {
      assert (a + b)[1..] == a[1..] + b && (a + b)[0] == a[0];
      TextAllAppend(a[1..], b);
      assert Text(a[0]) + TextAll(a[1..]) + TextAll(b) == Text(a[0]) + (TextAll(a[1..]) + TextAll(b));
    }
  }

  /** Loading emitted text appends exactly the encoded code, with every label
      recorded where it was defined. */
  lemma {:induction false} LoadAll(l: Loading, code: seq<Instr>, rest: seq<char>)
    requires Idle(l) && AllFit(code)
    ensures LoadCode(l, TextAll(code) + rest) == LoadCode(if code == [] then l else AfterAll(l, code), rest)
    decreases |code|
  {
    if code == [] {
      assert TextAll(code) + rest == rest;
    } else {
      assert TextAll(code) + rest == Text(code[0]) + (TextAll(code[1..]) + rest);
      LoadText(l, code[0], TextAll(code[1..]) + rest);
      var l1 := After(l, code[0]);
      assert AllFit(code[1..]);
      LoadAll(l1, code[1..], rest);
      AfterCons(l, code);
      if |code| == 1 {
        assert code[1..] == [];
        AfterAllNone(l1);
      }
    }
  }

  /** Loading nothing into a function that is there changes nothing. */
  lemma AfterAllNone(l: Loading)
    requires l.func in l.bodies
    ensures AfterAll(l, []) == l
  {
    assert Cur(l).bytes + EncodeAll([]) == Cur(l).bytes;
    assert AfterAll(l, []).bodies == l.bodies;
  }

  /** Everything fits except possibly the labels jumped to. */
  predicate FitsButLabels(i: Instr) { if i.Jump? then M.JumpOp(i.c) else Fits(i) }

  lemma TextAround(code: seq<Instr>, k: nat, rest: seq<char>)
    requires k < |code|
    ensures TextAll(code) + rest == TextAll(code[..k]) + (Text(code[k]) + (TextAll(code[k + 1..]) + rest))
  {
    var a, b := code[..k], code[k..];
    assert code == a + b && b[0] == code[k] && b[1..] == code[k + 1..];
    TextAllAppend(a, b);
    Join(TextAll(a), TextAll(b), rest);
    Join(Text(code[k]), TextAll(code[k + 1..]), rest);
  }

  /** A jump to a label above 65535, behind code that fits, makes the loader give up. */
  lemma LoadTooBig(l: Loading, code: seq<Instr>, k: nat, rest: seq<char>)
    requires Idle(l) && k < |code| && AllFit(code[..k]) && code[k].Jump? && M.JumpOp(code[k].c) && code[k].lab > 65535
    ensures LoadCode(l, TextAll(code) + rest).stop
  {
    var more := TextAll(code[k + 1..]) + rest;
    TextAround(code, k, rest);
    LoadAll(l, code[..k], Text(code[k]) + more);
    JumpTooBig(if code[..k] == [] then l else AfterAll(l, code[..k]), code[k], more);
  }

  lemma JumpTooBig(l: Loading, i: Instr, rest: seq<char>)
    requires Idle(l) && i.Jump? && M.JumpOp(i.c) && i.lab > 65535
    ensures LoadCode(l, Text(i) + rest).stop
  {
    LoadJump(l, i.c, i.lab, rest);
  }
}
