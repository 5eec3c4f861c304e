/** Where emitted code lies in a loaded function, and what one emitted
    instruction does there. */
module BcPlacement {
  import opened Wrappers
  import opened Numbers
  import opened BcSyntax
  import opened BcStore
  import M = BcMachine
  import opened BcCompile
  import opened BcSemantics

  function NameSize(n: nat): nat { if n < 128 then 1 else 2 }

  /** Bytes an item occupies once loaded; a label occupies none. */
  function Size(i: Instr): nat {
    match i
    case Plain(_) => 1
    case Named(_, n) => 1 + NameSize(n)
    case Jump(_, _) => 3
    case Label(_) => 0
    case Number(t) => |t| + 2
    case Special(_) => 2
    case Invoke(f, kinds) => 2 + NameSize(f) + |kinds|
    case Show(s) => |s| + 2
  }

  function Bytes(code: seq<Instr>): nat
    decreases |code|
  {
    if code == [] then 0 else Size(code[0]) + Bytes(code[1..])
  }

  function CharBytes(s: seq<char>): seq<int> { seq(|s|, i requires 0 <= i < |s| => s[i] as int) }

  /** What the machine decodes an item to. */
  function OpOf(i: Instr): M.Op {
    match i
    case Plain(c) => M.Plain(c)
    case Named(c, n) => M.Named(c, n)
    case Jump(c, lab) => M.Jump(c, lab)
    case Label(_) => M.Bad
    case Number(t) => M.Number(ConstBytes(t))
    case Special(c) => M.Special(c)
    case Invoke(f, kinds) => M.Invoke(f, CharBytes(kinds))
    case Show(s) => M.Show(CharBytes(s))
  }

  /** Item i lies at addr: its bytes decode to it, or the label is defined there. */
  ghost predicate PlacedOne(code: M.Code, addr: nat, i: Instr) {
    if i.Label? then i.lab in code.labels && code.labels[i.lab] == addr
    else addr < |code.bytes| && M.Fetch(code.bytes, addr) == (OpOf(i), addr + Size(i))
  }

  ghost predicate InOrder(code: M.Code, addr: nat, items: seq<Instr>)
    decreases |items|
  {
    items == [] || (PlacedOne(code, addr, items[0]) && InOrder(code, addr + Size(items[0]), items[1..]))
  }

  /** The items lie one behind the other from addr on. */
  ghost predicate Placed(code: M.Code, addr: nat, items: seq<Instr>) {
    forall k: nat {:trigger Exactly(k, addr)} :: Exactly(k, addr) ==> InOrder(code, k, items)
  }

  lemma {:induction false} BytesAppend(a: seq<Instr>, b: seq<Instr>)
    ensures Bytes(a + b) == Bytes(a) + Bytes(b)
    decreases |a|
  {
    if a == [] {
      assert a + b == b;
    } else {
      assert (a + b)[1..] == a[1..] + b;
      BytesAppend(a[1..], b);
    }
  }

  lemma {:induction false} OrderSplit(code: M.Code, addr: nat, a: seq<Instr>, b: seq<Instr>)
    requires InOrder(code, addr, a + b)
    ensures InOrder(code, addr, a) && InOrder(code, addr + Bytes(a), b)
    decreases |a|
  {
    if a == [] {
      assert a + b == b;
    } else {
      assert (a + b)[1..] == a[1..] + b;
      assert (a + b)[0] == a[0];
      OrderSplit(code, addr + Size(a[0]), a[1..], b);
    }
  }

  lemma PlacedSplit(code: M.Code, addr: nat, a: seq<Instr>, b: seq<Instr>)
    requires Placed(code, addr, a + b)
    ensures Placed(code, addr, a) && Placed(code, addr + Bytes(a), b)
    ensures Bytes(a + b) == Bytes(a) + Bytes(b)
  {
    assert Exactly(addr, addr);
    OrderSplit(code, addr, a, b);
    BytesAppend(a, b);
  }

  lemma Placed1(code: M.Code, addr: nat, i: Instr)
    requires Placed(code, addr, [i])
    ensures PlacedOne(code, addr, i) && Bytes([i]) == Size(i)
  {
    assert Exactly(addr, addr);
    assert [i][1..] == [];
  }

  lemma PlacedCons(code: M.Code, addr: nat, i: Instr, rest: seq<Instr>)
    requires Placed(code, addr, [i] + rest)
    ensures PlacedOne(code, addr, i) && Placed(code, addr + Size(i), rest)
    ensures Bytes([i] + rest) == Size(i) + Bytes(rest)
  {
    assert Exactly(addr, addr);
    assert ([i] + rest)[1..] == rest;
  }

  // ---------------------------------------------------------------------
  // Single instructions.
  // ---------------------------------------------------------------------

  /** m is about to run item i. */
  ghost predicate On(im: M.Image, m: M.Machine, i: Instr) {
    !m.error && m.func in im && !i.Label? && PlacedOne(im[m.func], m.addr, i)
  }

  function Past(m: M.Machine, i: Instr): M.Machine { m.(addr := m.addr + Size(i)) }

  lemma OneStep(ar: Arith, im: M.Image, m: M.Machine, i: Instr)
    requires On(im, m, i)
    ensures M.Reaches(ar, im, m, 1, M.Perform(ar, im, Past(m, i), OpOf(i)))
    ensures !M.Halted(im, m)
  {
    M.RunReaches(ar, im, m, 1);
    assert M.Run(ar, im, m, 1) == M.Run(ar, im, M.Step(ar, im, m), 0);
  }

  lemma StepArith(ar: Arith, im: M.Image, m: M.Machine, op: char, x: Num, y: Num, deep: Stack)
    requires On(im, m, Plain(op)) && ArithOp(op) && m.stack == Push(y, Push(x, deep))
    ensures M.Reaches(ar, im, m, 1,
      match ar.binary(op, x, y, m.store.scale)
      case Some(r) => Past(m, Plain(op)).(stack := Push(r, deep))
      case None => M.Fail(Past(m, Plain(op))))
  {
    OneStep(ar, im, m, Plain(op));
  }

  lemma StepCompare(ar: Arith, im: M.Image, m: M.Machine, op: char, x: Num, y: Num, deep: Stack)
    requires On(im, m, Plain(op)) && CompareOp(op) && m.stack == Push(y, Push(x, deep))
    ensures M.Reaches(ar, im, m, 1, Past(m, Plain(op)).(stack := Push(M.Truth(M.Holds(ar.order(x, y), op)), deep)))
  {
    OneStep(ar, im, m, Plain(op));
  }

  lemma StepDup(ar: Arith, im: M.Image, m: M.Machine)
    requires On(im, m, Plain('D')) && m.stack.Push?
    ensures M.Reaches(ar, im, m, 1, Past(m, Plain('D')).(stack := Push(m.stack.top, m.stack)))
  {
    OneStep(ar, im, m, Plain('D'));
  }

  lemma StepPop(ar: Arith, im: M.Image, m: M.Machine)
    requires On(im, m, Plain('p')) && m.stack.Push?
    ensures M.Reaches(ar, im, m, 1, Past(m, Plain('p')).(stack := m.stack.rest))
  {
    OneStep(ar, im, m, Plain('p'));
  }

  lemma StepSwap(ar: Arith, im: M.Image, m: M.Machine, x: Num, y: Num, deep: Stack)
    requires On(im, m, Plain('x')) && m.stack == Push(x, Push(y, deep))
    ensures M.Reaches(ar, im, m, 1, Past(m, Plain('x')).(stack := Push(y, Push(x, deep))))
  {
    OneStep(ar, im, m, Plain('x'));
  }

  lemma StepOne(ar: Arith, im: M.Image, m: M.Machine, one: bool)
    requires On(im, m, Plain(if one then '1' else '0'))
    ensures M.Reaches(ar, im, m, 1, Past(m, Plain('0')).(stack := Push(M.Truth(one), m.stack)))
  {
    OneStep(ar, im, m, Plain(if one then '1' else '0'));
  }

  /** A conditional jump: where control goes and that it pops. */
  lemma StepBranch(ar: Arith, im: M.Image, m: M.Machine, c: char, lab: nat)
    requires On(im, m, Jump(c, lab)) && (c == 'Z' || c == 'B') && m.stack.Push?
    requires lab in im[m.func].labels
    ensures M.Reaches(ar, im, m, 1,
      if (c == 'B') == M.IsTrue(m.stack.top)
      then m.(stack := m.stack.rest, addr := im[m.func].labels[lab])
      else Past(m, Jump(c, lab)).(stack := m.stack.rest))
  {
    OneStep(ar, im, m, Jump(c, lab));
  }

  lemma StepGoto(ar: Arith, im: M.Image, m: M.Machine, lab: nat)
    requires On(im, m, Jump('J', lab)) && lab in im[m.func].labels
    ensures M.Reaches(ar, im, m, 1, m.(addr := im[m.func].labels[lab]))
    ensures !M.Halted(im, m)
  {
    OneStep(ar, im, m, Jump('J', lab));
  }
}
