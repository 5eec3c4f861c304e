/** The byte encoding of emitted code, and that the machine decodes it again. */
module BcEncoding {
  import opened BcSyntax
  import opened BcCompile
  import opened BcSemantics
  import opened BcPlacement
  import opened BcLabels
  import M = BcMachine

  /** One byte, or two with the high bit of the first set. */
  function NameBytes(n: nat): (r: seq<int>)
    ensures |r| == NameSize(n)
  {
    if n < 128 then [n] else [128 + n / 256, n % 256]
  }

  function Encode(i: Instr): (r: seq<int>)
    ensures |r| == Size(i)
  {
    match i
    case Plain(c) => [c as int]
    case Named(c, n) => [c as int] + NameBytes(n)
    case Jump(c, lab) => [c as int, lab % 256, lab / 256]
    case Label(_) => []
    case Number(t) => ['K' as int] + ConstBytes(t) + [':' as int]
    case Special(c) => ['c' as int, c as int]
    case Invoke(f, kinds) => ['C' as int] + NameBytes(f) + CharBytes(kinds) + [':' as int]
    case Show(s) => ['w' as int] + CharBytes(s) + ['"' as int]
  }

  function EncodeAll(code: seq<Instr>): (r: seq<int>)
    ensures |r| == Bytes(code)
    decreases |code|
  {
    if code == [] then [] else Encode(code[0]) + EncodeAll(code[1..])
  }

  /** The label table the loader builds: each definition records the current address. */
  function LabelMap(code: seq<Instr>, addr: nat, labels: map<nat, nat>): map<nat, nat>
    decreases |code|
  {
    if code == [] then labels
    else LabelMap(code[1..], addr + Size(code[0]), if code[0].Label? then labels[code[0].lab := addr] else labels)
  }

  /** What the encoding can represent. */
  predicate Fits(i: Instr) {
    match i
    case Plain(c) => M.PlainOp(c)
    case Named(c, n) => M.NamedOp(c) && n <= MAX_STORE
    case Jump(c, lab) => M.JumpOp(c) && lab <= 65535
    case Label(_) => true
    case Number(t) => forall k :: 0 <= k < |t| ==> ConstChar(t[k])
    case Special(c) => c as int < 128
    case Invoke(f, kinds) => f <= MAX_STORE && ':' !in kinds
    case Show(s) => Ascii(s) && '"' !in s
  }

  predicate AllFit(code: seq<Instr>) { forall k :: 0 <= k < |code| ==> Fits(code[k]) }

  // ---------------------------------------------------------------------
  // Decoding one instruction.
  // ---------------------------------------------------------------------

  /** s lies at addr. */
  ghost predicate Has(bytes: seq<int>, addr: nat, s: seq<int>) {
    addr + |s| <= |bytes| && forall k :: 0 <= k < |s| ==> bytes[addr + k] == s[k]
  }

  lemma HasSplit(bytes: seq<int>, addr: nat, a: seq<int>, b: seq<int>)
    requires Has(bytes, addr, a + b)
    ensures Has(bytes, addr, a) && Has(bytes, addr + |a|, b)
  {
    var s := a + b;
    forall k | 0 <= k < |a| ensures bytes[addr + k] == a[k] {
      assert s[k] == a[k];
    }
    forall k | 0 <= k < |b| ensures bytes[addr + |a| + k] == b[k] {
      assert s[|a| + k] == b[k];
    }
  }

  lemma HasAt(bytes: seq<int>, addr: nat, s: seq<int>, k: nat)
    requires Has(bytes, addr, s) && k < |s|
    ensures M.At(bytes, addr + k) == s[k]
  {
  }

  lemma {:induction false} UntilIs(bytes: seq<int>, addr: nat, s: seq<int>, stop: int)
    requires Has(bytes, addr, s + [stop]) && stop !in s
    ensures M.Until(bytes, addr, stop) == s
    decreases |s|
  {
    HasAt(bytes, addr, s + [stop], 0);
    if s != [] {
      assert s + [stop] == [s[0]] + (s[1..] + [stop]);
      HasSplit(bytes, addr, [s[0]], s[1..] + [stop]);
      UntilIs(bytes, addr + 1, s[1..], stop);
    }
  }

  lemma NameDecodes(bytes: seq<int>, addr: nat, n: nat)
    requires Has(bytes, addr, NameBytes(n)) && n <= MAX_STORE
    ensures M.NameAt(bytes, addr) == (n, addr + NameSize(n))
  {
    HasAt(bytes, addr, NameBytes(n), 0);
    if n >= 128 {
      HasAt(bytes, addr, NameBytes(n), 1);
    }
  }

  lemma DecodeNamed(bytes: seq<int>, addr: nat, c: char, n: nat)
    requires Has(bytes, addr, Encode(Named(c, n))) && Fits(Named(c, n))
    ensures M.Fetch(bytes, addr) == (M.Named(c, n), addr + 1 + NameSize(n))
  {
    HasAt(bytes, addr, Encode(Named(c, n)), 0);
    HasSplit(bytes, addr, [c as int], NameBytes(n));
    NameDecodes(bytes, addr + 1, n);
  }

  lemma DecodeJump(bytes: seq<int>, addr: nat, c: char, lab: nat)
    requires Has(bytes, addr, Encode(Jump(c, lab))) && Fits(Jump(c, lab))
    ensures M.Fetch(bytes, addr) == (M.Jump(c, lab), addr + 3)
  {
    HasAt(bytes, addr, Encode(Jump(c, lab)), 0);
    HasAt(bytes, addr, Encode(Jump(c, lab)), 1);
    HasAt(bytes, addr, Encode(Jump(c, lab)), 2);
  }

  lemma DecodeNumber(bytes: seq<int>, addr: nat, t: seq<char>)
    requires Has(bytes, addr, Encode(Number(t))) && Fits(Number(t))
    ensures M.Fetch(bytes, addr) == (M.Number(ConstBytes(t)), addr + |t| + 2)
  {
    HasAt(bytes, addr, Encode(Number(t)), 0);
    assert Encode(Number(t)) == ['K' as int] + (ConstBytes(t) + [':' as int]);
    HasSplit(bytes, addr, ['K' as int], ConstBytes(t) + [':' as int]);
    forall k | 0 <= k < |t| ensures ConstBytes(t)[k] != ':' as int {
      assert ConstChar(t[k]);
    }
    UntilIs(bytes, addr + 1, ConstBytes(t), ':' as int);
  }

  lemma DecodeShow(bytes: seq<int>, addr: nat, s: seq<char>)
    requires Has(bytes, addr, Encode(Show(s))) && Fits(Show(s))
    ensures M.Fetch(bytes, addr) == (M.Show(CharBytes(s)), addr + |s| + 2)
  {
    HasAt(bytes, addr, Encode(Show(s)), 0);
    assert Encode(Show(s)) == ['w' as int] + (CharBytes(s) + ['"' as int]);
    HasSplit(bytes, addr, ['w' as int], CharBytes(s) + ['"' as int]);
    UntilIs(bytes, addr + 1, CharBytes(s), '"' as int);
  }

  lemma DecodeInvoke(bytes: seq<int>, addr: nat, f: nat, kinds: seq<char>)
    requires Has(bytes, addr, Encode(Invoke(f, kinds))) && Fits(Invoke(f, kinds))
    ensures M.Fetch(bytes, addr) == (M.Invoke(f, CharBytes(kinds)), addr + Size(Invoke(f, kinds)))
  {
    var z := CharBytes(kinds);
    HasAt(bytes, addr, Encode(Invoke(f, kinds)), 0);
    assert Encode(Invoke(f, kinds)) == ['C' as int] + (NameBytes(f) + (z + [':' as int]));
    HasSplit(bytes, addr, ['C' as int], NameBytes(f) + (z + [':' as int]));
    HasSplit(bytes, addr + 1, NameBytes(f), z + [':' as int]);
    NameDecodes(bytes, addr + 1, f);
    UntilIs(bytes, addr + 1 + NameSize(f), z, ':' as int);
  }

  /** The machine decodes what the loader encoded. */
  lemma DecodeEncoded(bytes: seq<int>, addr: nat, i: Instr)
    requires Has(bytes, addr, Encode(i)) && Fits(i) && !i.Label?
    ensures addr < |bytes| && M.Fetch(bytes, addr) == (OpOf(i), addr + Size(i))
  {
    match i
    case Plain(c) => HasAt(bytes, addr, Encode(i), 0);
    case Named(c, n) => DecodeNamed(bytes, addr, c, n);
    case Jump(c, lab) => DecodeJump(bytes, addr, c, lab);
    case Number(t) => DecodeNumber(bytes, addr, t);
    case Special(c) =>
      HasAt(bytes, addr, Encode(i), 0);
      HasAt(bytes, addr, Encode(i), 1);
    case Invoke(f, kinds) => DecodeInvoke(bytes, addr, f, kinds);
    case Show(s) => DecodeShow(bytes, addr, s);
  }

  // ---------------------------------------------------------------------
  // Every label resolves to its definition point.
  // ---------------------------------------------------------------------

  /** labels sends every label defined in code, which lies at addr, to its definition. */
  ghost predicate Resolves(labels: map<nat, nat>, addr: nat, code: seq<Instr>)
    decreases |code|
  {
    code == [] ||
    ((code[0].Label? ==> code[0].lab in labels && labels[code[0].lab] == addr)
     && Resolves(labels, addr + Size(code[0]), code[1..]))
  }

  /** Loading code leaves labels it does not define alone. */
  lemma {:induction false} LabelMapKeeps(code: seq<Instr>, addr: nat, labels: map<nat, nat>, lab: nat)
    requires lab in labels && lab !in Defs(code)
    ensures lab in LabelMap(code, addr, labels) && LabelMap(code, addr, labels)[lab] == labels[lab]
    decreases |code|
  {
    if code != [] {
      assert code[0].Label? ==> code[0].lab in Defs(code);
      forall l | l in Defs(code[1..]) ensures l in Defs(code) {
        var k :| 0 <= k < |code[1..]| && code[1..][k].Label? && code[1..][k].lab == l;
        assert code[k + 1] == code[1..][k];
      }
      LabelMapKeeps(code[1..], addr + Size(code[0]), if code[0].Label? then labels[code[0].lab := addr] else labels, lab);
    }
  }

  lemma {:induction false} LabelMapResolves(code: seq<Instr>, addr: nat, labels: map<nat, nat>)
    requires Once(code)
    ensures Resolves(LabelMap(code, addr, labels), addr, code)
    decreases |code|
  {
    if code != [] {
      var next := if code[0].Label? then labels[code[0].lab := addr] else labels;
      forall i, j | 0 <= i < j < |code[1..]| && code[1..][i].Label? && code[1..][j].Label?
        ensures code[1..][i].lab != code[1..][j].lab
      {
        assert code[i + 1].lab != code[j + 1].lab;
      }
      LabelMapResolves(code[1..], addr + Size(code[0]), next);
      if code[0].Label? {
        forall l | l in Defs(code[1..]) ensures l != code[0].lab {
          var k :| 0 <= k < |code[1..]| && code[1..][k].Label? && code[1..][k].lab == l;
          assert code[k + 1].lab != code[0].lab;
        }
        LabelMapKeeps(code[1..], addr + Size(code[0]), next, code[0].lab);
      }
    }
  }

  lemma ItemIsPlaced(code: M.Code, addr: nat, i: Instr, enc: seq<int>)
    requires Fits(i) && enc == Encode(i) && Has(code.bytes, addr, enc)
    requires i.Label? ==> i.lab in code.labels && code.labels[i.lab] == addr
    ensures PlacedOne(code, addr, i)
  {
    if !i.Label? {
      DecodeEncoded(code.bytes, addr, i);
    }
  }

  lemma OrderStep(code: M.Code, addr: nat, items: seq<Instr>)
    requires items != [] && PlacedOne(code, addr, items[0]) && InOrder(code, addr + Size(items[0]), items[1..])
    ensures InOrder(code, addr, items)
  {
  }

  lemma EncodeAllParts(items: seq<Instr>, a: seq<int>, b: seq<int>)
    requires items != [] && a == Encode(items[0]) && b == EncodeAll(items[1..])
    ensures EncodeAll(items) == a + b && |a| == Size(items[0])
  {
  }

  lemma {:induction false} EncodedInOrder(code: M.Code, addr: nat, items: seq<Instr>, enc: seq<int>)
    requires AllFit(items) && enc == EncodeAll(items) && Has(code.bytes, addr, enc) && Resolves(code.labels, addr, items)
    ensures InOrder(code, addr, items)
    decreases |items|
  {
    if items != [] {
      var a, b := Encode(items[0]), EncodeAll(items[1..]);
      EncodeAllParts(items, a, b);
      HasSplit(code.bytes, addr, a, b);
      ItemIsPlaced(code, addr, items[0], a);
      EncodedInOrder(code, addr + Size(items[0]), items[1..], b);
      OrderStep(code, addr, items);
    }
  }

  /** Encoded code with a resolving label table is placed. */
  lemma EncodedIsPlaced(code: M.Code, addr: nat, items: seq<Instr>, enc: seq<int>)
    requires AllFit(items) && enc == EncodeAll(items) && Has(code.bytes, addr, enc) && Resolves(code.labels, addr, items)
    ensures Placed(code, addr, items)
  {
    EncodedInOrder(code, addr, items, enc);
  }
}
