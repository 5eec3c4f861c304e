/** The byte-coded stack machine of execute.c. */
module BcMachine {
  import opened Wrappers
  import opened Numbers
  import opened BcStore
  import opened BcSyntax

  /** A decoded instruction. */
  datatype Op =
    | Plain(c: char)
    | Named(c: char, n: nat)
    | Jump(c: char, lab: nat)
    | Number(digits: seq<int>)
    | Special(c: char)
    | Invoke(f: nat, kinds: seq<int>)
    | Show(s: seq<int>)
    | Bad

  /** One function's code, labels and stored parameter and auto lists. */
  datatype Code = Code(bytes: seq<int>, labels: map<nat, nat>, params: seq<Formal>, autos: seq<int>)

  datatype Frames = NoFrame | Frame(func: nat, addr: nat, ibase: nat, outer: Frames)

  datatype Machine = Machine(func: nat, addr: nat, stack: Stack, frames: Frames, store: Store, error: bool)

  /** Function 0 is the main program. */
  type Image = map<nat, Code>

  predicate PlainOp(c: char) {
    || c == 'D' || c == 'R' || c == 'W' || c == 'P' || c == 'p' || c == 'n' || c == 'x' || c == '0' || c == '1'
    || c == '!' || ArithOp(c) || CompareOp(c)
  }

  predicate NamedOp(c: char) {
    c == 'l' || c == 's' || c == 'i' || c == 'd' || c == 'L' || c == 'S' || c == 'A' || c == 'M'
  }

  predicate JumpOp(c: char) { c == 'J' || c == 'Z' || c == 'B' }

  /** The byte at an address; reading past the end yields -1, no instruction. */
  function At(code: seq<int>, addr: nat): int { if addr < |code| then code[addr] else -1 }

  /** Bytes up to, not including, the next stop byte. */
  function Until(code: seq<int>, addr: nat, stop: int): seq<int>
    decreases |code| - addr
  {
    if addr >= |code| || code[addr] == stop then [] else [code[addr]] + Until(code, addr + 1, stop)
  }

  /** A variable, array or function number: one byte, or two with the high bit set. */
  function NameAt(code: seq<int>, addr: nat): (int, nat) {
    var b := At(code, addr);
    if b >= 128 then ((b - 128) * 256 + At(code, addr + 1), addr + 2) else (b, addr + 1)
  }

  /** Decode the instruction at addr; also the address behind it. */
  function Fetch(code: seq<int>, addr: nat): (Op, nat) {
    var b := At(code, addr);
    if !(0 <= b < 128) then (Bad, addr + 1)
    else
      var c := b as char;
      if JumpOp(c) then
        var lab := At(code, addr + 1) + At(code, addr + 2) * 256;
        (if lab >= 0 then Jump(c, lab) else Bad, addr + 3)
      else if NamedOp(c) then
        var (n, next) := NameAt(code, addr + 1);
        (if n >= 0 then Named(c, n) else Bad, next)
      else if c == 'K' then
        var ds := Until(code, addr + 1, ':' as int);
        (Number(ds), addr + 2 + |ds|)
      else if c == 'c' then
        var w := At(code, addr + 1);
        (if 0 <= w < 128 then Special(w as char) else Bad, addr + 2)
      else if c == 'C' then
        var (n, next) := NameAt(code, addr + 1);
        var ks := Until(code, next, ':' as int);
        (if n >= 0 then Invoke(n, ks) else Bad, next + 1 + |ks|)
      else if c == 'w' then
        var s := Until(code, addr + 1, '"' as int);
        (Show(s), addr + 2 + |s|)
      else if PlainOp(c) then (Plain(c), addr + 1)
      else (Bad, addr + 1)
  }

  function Truth(b: bool): Num { if b then ONE else ZERO }

  predicate IsTrue(n: Num) { n.Mag() != 0 }

  predicate Holds(order: int, c: char) {
    match c
    case '=' => order == 0
    case '#' => order != 0
    case '<' => order == -1
    case '{' => order <= 0
    case '>' => order == 1
    case _ => order >= 0
  }

  /** The machine stops on an error, or at the end of its code. */
  predicate Halted(im: Image, m: Machine) {
    m.error || m.func !in im || m.addr >= |im[m.func].bytes|
  }

  function Fail(m: Machine): Machine { m.(error := true) }

  function Written(st: Store, n: Num, newline: bool): Store {
    SetVar(st.(out := st.out + [Event.Written(n, st.obase, newline)]), 4, n)
  }

  function StepPlain(ar: Arith, im: Image, m: Machine, c: char): Machine {
    if c == '0' then m.(stack := Push(ZERO, m.stack))
    else if c == '1' then m.(stack := Push(ONE, m.stack))
    else if m.stack.Bottom? then Fail(m)
    else
      var x, below := m.stack.top, m.stack.rest;
      if c == 'D' then m.(stack := Push(x, m.stack))
      else if c == 'p' then m.(stack := below)
      else if c == 'n' then m.(stack := Push(ar.negate(x), below))
      else if c == '!' then m.(stack := Push(Truth(!IsTrue(x)), below))
      else if c == 'W' || c == 'P' then m.(stack := below, store := Written(m.store, x, c == 'W'))
      else if c == 'R' then
        if m.func == 0 || m.frames.NoFrame? || m.func !in im then Fail(m)
        else
          Machine(m.frames.func, m.frames.addr, m.stack, m.frames.outer,
                  PopNames(PopNames(m.store, im[m.func].autos), NamesOf(im[m.func].params)), false)
      else if below.Bottom? then Fail(m)
      else
        var y, deep := below.top, below.rest;
        if c == 'x' then m.(stack := Push(y, Push(x, deep)))
        else if CompareOp(c) then m.(stack := Push(Truth(Holds(ar.order(y, x), c)), deep))
        else
          match ar.binary(c, y, x, m.store.scale)
          case Some(r) => m.(stack := Push(r, deep))
          case None => Fail(m)
  }

  function StepNamed(ar: Arith, m: Machine, c: char, n: nat): Machine {
    if c == 'l' then m.(stack := Push(GetVar(ar, m.store, n), m.stack))
    else if c == 'i' || c == 'd' then m.(store := BumpVar(ar, m.store, n, c == 'i'))
    else if m.stack.Bottom? then Fail(m)
    else
      var x, below := m.stack.top, m.stack.rest;
      if c == 's' then m.(store := SetVar(m.store, n, x))
      else if c == 'L' then
        match Subscript(x)
        case Some(i) => m.(stack := Push(GetCell(m.store, n, i), below))
        case None => Fail(m)
      else if c == 'S' then
        if below.Bottom? then Fail(m)
        else
          match Subscript(below.top)
          case Some(i) => m.(stack := Push(x, below.rest), store := SetCell(m.store, n, i, x))
          case None => Fail(m)
      else
        match Subscript(x)
        case Some(i) =>
          m.(stack := below, store := SetCell(m.store, n, i, Sum(ar, GetCell(m.store, n, i), c == 'A')))
        case None => Fail(m)
  }

  function StepJump(im: Image, m: Machine, c: char, lab: nat): Machine
    requires m.func in im
  {
    if c != 'J' && m.stack.Bottom? then Fail(m)
    else
      var taken := c == 'J' || (c == 'B' && IsTrue(m.stack.top)) || (c == 'Z' && !IsTrue(m.stack.top));
      var m' := if c == 'J' then m else m.(stack := m.stack.rest);
      if !taken then m'
      else if lab in im[m.func].labels then m'.(addr := im[m.func].labels[lab])
      else Fail(m')
  }

  function StepSpecial(ar: Arith, m: Machine, c: char): Machine {
    if m.stack.Bottom? then Fail(m)
    else
      var x, below := m.stack.top, m.stack.rest;
      if c == 'L' then
        m.(stack := Push(ar.fromInt(if x.Len() == 1 && x.Scale() != 0 && x.whole[0] == 0 then x.Scale()
                                    else x.Len() + x.Scale()), below))
      else if c == 'S' then m.(stack := Push(ar.fromInt(x.Scale()), below))
      else if c == 'R' then
        match ar.sqrt(x, m.store.scale)
        case Some(r) => m.(stack := Push(r, below))
        case None => Fail(m)
      else m
  }

  /** process_params: each kind takes the next stored parameter and the value
      on top of the stack, which for an array is its number. */
  function BindParams(stack: Stack, store: Store, params: seq<Formal>, kinds: seq<int>): Option<(Stack, Store)>
    decreases |kinds|
  {
    if kinds == [] then (if params == [] then Some((stack, store)) else None)
    else if params == [] || stack.Bottom? then None
    else if kinds[0] == '0' as int && params[0].name > 0 then
      BindParams(stack.rest, PushParam(store, params[0].name, stack.top), params[1..], kinds[1..])
    else if kinds[0] == '1' as int && params[0].name < 0 then
      BindParams(stack.rest, PassArray(store, ArrayOf(stack.top), -params[0].name, params[0].byVar), params[1..], kinds[1..])
    else None
  }

  /** 'C': check the function, bind parameters, push autos, save the return address. */
  function StepInvoke(im: Image, m: Machine, f: nat, kinds: seq<int>): Machine {
    if f !in im || f == 0 then Fail(m)
    else
      match BindParams(m.stack, m.store, im[f].params, kinds)
      case None => Fail(m)
      case Some((stack, store)) =>
        Machine(f, 0, stack, Frame(m.func, m.addr, store.ibase, m.frames), PushAutos(store, im[f].autos), false)
  }

  function ConstBase(m: Machine): nat {
    if m.func == 0 || m.frames.NoFrame? then m.store.ibase else m.frames.ibase
  }

  function ToChars(s: seq<int>): seq<char>
    requires forall i :: 0 <= i < |s| ==> 0 <= s[i] < 128
  {
    seq(|s|, i requires 0 <= i < |s| => s[i] as char)
  }

  function Perform(ar: Arith, im: Image, m: Machine, op: Op): Machine
    requires m.func in im
  {
    match op
    case Plain(c) => StepPlain(ar, im, m, c)
    case Named(c, n) => StepNamed(ar, m, c, n)
    case Jump(c, lab) => StepJump(im, m, c, lab)
    case Number(ds) => m.(stack := Push(ar.constant(ds, ConstBase(m)), m.stack))
    case Special(c) => StepSpecial(ar, m, c)
    case Invoke(f, kinds) => StepInvoke(im, m, f, kinds)
    case Show(s) =>
      if forall i :: 0 <= i < |s| ==> 0 <= s[i] < 128
      then m.(store := m.store.(out := m.store.out + [Shown(ToChars(s))])) else Fail(m)
    case Bad => Fail(m)
  }

  /** One round of the loop in execute: fetch, advance the program counter, perform. */
  function Step(ar: Arith, im: Image, m: Machine): Machine {
    if Halted(im, m) then m
    else
      var (op, next) := Fetch(im[m.func].bytes, m.addr);
      Perform(ar, im, m.(addr := next), op)
  }

  function Run(ar: Arith, im: Image, m: Machine, n: nat): Machine
    decreases n
  {
    if n == 0 then m else Run(ar, im, Step(ar, im, m), n - 1)
  }

  /** The states of t follow each other by single steps. */
  ghost predicate Trace(ar: Arith, im: Image, t: seq<Machine>) {
    forall i {:trigger Step(ar, im, t[i])} :: 0 <= i < |t| - 1 ==> t[i + 1] == Step(ar, im, t[i])
  }

  /** n steps lead from m to m'. */
  ghost predicate Reaches(ar: Arith, im: Image, m: Machine, n: nat, m': Machine) {
    exists t: seq<Machine> {:trigger Trace(ar, im, t)} :: |t| == n + 1 && t[0] == m && t[n] == m' && Trace(ar, im, t)
  }

  lemma {:induction false} RunReaches(ar: Arith, im: Image, m: Machine, n: nat)
    ensures Reaches(ar, im, m, n, Run(ar, im, m, n))
    decreases n
  {
    if n == 0 {
      var t := [m];
      assert Trace(ar, im, t) && t[0] == m;
    } else {
      RunReaches(ar, im, Step(ar, im, m), n - 1);
      ReachesCons(ar, im, m, n - 1, Run(ar, im, m, n));
    }
  }

  lemma ReachesCons(ar: Arith, im: Image, m: Machine, n: nat, m': Machine)
    requires Reaches(ar, im, Step(ar, im, m), n, m')
    ensures Reaches(ar, im, m, n + 1, m')
  {
    var t :| |t| == n + 1 && t[0] == Step(ar, im, m) && t[n] == m' && Trace(ar, im, t);
    var u := [m] + t;
    forall i | 0 <= i < |u| - 1 ensures u[i + 1] == Step(ar, im, u[i]) {
      if i > 0 {
        assert t[i] == Step(ar, im, t[i - 1]);
      }
    }
    assert u[0] == m && u[n + 1] == m' && |u| == n + 2 && Trace(ar, im, u);
  }

  /** Runs compose. */
  lemma ReachesThen(ar: Arith, im: Image, m: Machine, a: nat, m1: Machine, b: nat, m2: Machine)
    requires Reaches(ar, im, m, a, m1) && Reaches(ar, im, m1, b, m2)
    ensures Reaches(ar, im, m, a + b, m2)
  {
    var t :| |t| == a + 1 && t[0] == m && t[a] == m1 && Trace(ar, im, t);
    var u :| |u| == b + 1 && u[0] == m1 && u[b] == m2 && Trace(ar, im, u);
    var v := t + u[1..];
    forall i | 0 <= i < |v| - 1 ensures v[i + 1] == Step(ar, im, v[i]) {
      if i < a {
        assert t[i + 1] == Step(ar, im, t[i]);
      } else {
        assert v[i] == u[i - a];
        assert u[i - a + 1] == Step(ar, im, u[i - a]);
      }
    }
    assert |v| == a + b + 1 && v[0] == m && v[a + b] == m2 && Trace(ar, im, v);
  }

  /** The machine is deterministic: a reached state is the run's state. */
  lemma {:induction false} ReachesRun(ar: Arith, im: Image, m: Machine, n: nat, m': Machine)
    requires Reaches(ar, im, m, n, m')
    ensures Run(ar, im, m, n) == m'
    decreases n
  {
    var t :| |t| == n + 1 && t[0] == m && t[n] == m' && Trace(ar, im, t);
    if n > 0 {
      assert t[1] == Step(ar, im, t[0]);
      var u := t[1..];
      forall i | 0 <= i < |u| - 1 ensures u[i + 1] == Step(ar, im, u[i]) {
        assert t[i + 2] == Step(ar, im, t[i + 1]);
      }
      assert |u| == n && u[0] == Step(ar, im, m) && u[n - 1] == m' && Trace(ar, im, u);
      ReachesRun(ar, im, Step(ar, im, m), n - 1, m');
    }
  }

  lemma {:induction false} RunHalted(ar: Arith, im: Image, m: Machine, n: nat)
    requires Halted(im, m)
    ensures Run(ar, im, m, n) == m
  {
    if n > 0 {
      RunHalted(ar, im, m, n - 1);
    }
  }

  /** The loop of execute, for at most `limit` instructions: it stops at the
      end of the code or on an error, and what it has done is that many steps. */
  method Execute(ar: Arith, im: Image, start: Machine, limit: nat) returns (m: Machine, n: nat)
    ensures n <= limit && m == Run(ar, im, start, n) && (Halted(im, m) || n == limit)
    ensures Halted(im, m) ==> forall k :: k >= n ==> Run(ar, im, start, k) == m
  {
    m, n := start, 0;
    while n < limit && !Halted(im, m)
      invariant n <= limit && Run(ar, im, start, n) == m
    {
      RunStep(ar, im, start, n);
      m := Step(ar, im, m);
      n := n + 1;
    }
    if Halted(im, m) {
      forall k: nat | k >= n ensures Run(ar, im, start, k) == m {
        RunSplit(ar, im, start, n, k - n);
        RunHalted(ar, im, m, k - n);
      }
    }
  }

  lemma {:induction false} RunSplit(ar: Arith, im: Image, m: Machine, a: nat, b: nat)
    ensures Run(ar, im, m, a + b) == Run(ar, im, Run(ar, im, m, a), b)
    decreases a
  {
    if a > 0 {
      RunSplit(ar, im, Step(ar, im, m), a - 1, b);
    }
  }

  lemma RunStep(ar: Arith, im: Image, m: Machine, n: nat)
    ensures Run(ar, im, m, n + 1) == Step(ar, im, Run(ar, im, m, n))
  {
    RunSplit(ar, im, m, n, 1);
    var m1 := Run(ar, im, m, n);
    assert Run(ar, im, m1, 1) == Run(ar, im, Step(ar, im, m1), 0);
  }
}
