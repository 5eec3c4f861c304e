/** The loader as it runs: a code buffer that doubles when it is full, a
    label table in groups of 64, and the character scan. */
module BcLoader {
  import opened BcCompile
  import opened BcSemantics
  import opened BcPlacement
  import opened BcEncoding
  import opened BcSyntax
  import D = DecimalText
  import T = BcText

  const LABEL_GROUP: nat := 64
  const START_SIZE: nat := 1024

  /** A group of label addresses and the group behind it. */
  class LabelGroup {
    const adrs: array<nat>
    var next: LabelGroup?

    constructor ()
      ensures next == null && fresh(adrs) && adrs.Length == LABEL_GROUP
    {
      adrs := new nat[LABEL_GROUP];
      next := null;
    }
  }

  ghost function Tables(nodes: seq<LabelGroup>): set<array<nat>> { set g | g in nodes :: g.adrs }

  /** The nodes are linked in this order, have tables of their own, and the
      last one has none behind it. */
  ghost predicate Linked(first: LabelGroup?, nodes: seq<LabelGroup>)
    reads nodes
  {
    && (nodes == [] <==> first == null) && (nodes != [] ==> nodes[0] == first)
    && (forall i :: 0 <= i < |nodes| ==> nodes[i].adrs.Length == LABEL_GROUP)
    && (forall i :: 0 <= i < |nodes| - 1 ==> nodes[i].next == nodes[i + 1]) && (nodes != [] ==> nodes[|nodes| - 1].next == null)
    && (forall i, j :: 0 <= i < j < |nodes| ==> nodes[i] != nodes[j] && nodes[i].adrs != nodes[j].adrs)
  }

  lemma NoneBehind(first: LabelGroup?, nodes: seq<LabelGroup>, k: nat)
    requires Linked(first, nodes) && k < |nodes| && nodes[k].next == null
    ensures k == |nodes| - 1
  {
    var g: LabelGroup := nodes[if k + 1 < |nodes| then k + 1 else 0];
  }

  /** Every label's address is in its place. */
  ghost predicate Holds(nodes: seq<LabelGroup>, labels: map<nat, nat>)
    requires forall i :: 0 <= i < |nodes| ==> nodes[i].adrs.Length == LABEL_GROUP
    reads Tables(nodes)
  {
    forall lab :: lab in labels ==> lab / LABEL_GROUP < |nodes| && nodes[lab / LABEL_GROUP].adrs[lab % LABEL_GROUP] == labels[lab]
  }

  /** The code and labels of one function. */
  class Segment {
    var body: array<int>
    var codeSize: nat
    var first: LabelGroup?
    /** The groups in the order of the list, and the labels defined so far. */
    ghost var nodes: seq<LabelGroup>
    ghost var labels: map<nat, nat>

    ghost predicate Valid()
      reads this, body, nodes, Tables(nodes)
    {
      && 0 < body.Length && codeSize <= body.Length
      && Linked(first, nodes) && Holds(nodes, labels)
    }

    ghost function Code(): seq<int>
      requires Valid()
      reads this, body, nodes, Tables(nodes)
    {
      body[..codeSize]
    }

    constructor ()
      ensures Valid() && Code() == [] && labels == map[] && fresh(body) && nodes == []
    {
      body := new int[START_SIZE];
      codeSize, first, nodes, labels := 0, null, [], map[];
    }

    /** A buffer of twice the size with the same code. */
    method Double()
      requires Valid()
      modifies this`body
      ensures Valid() && Code() == old(Code()) && fresh(body) && body.Length == 2 * old(body.Length)
    {
      var bigger := new int[2 * body.Length];
      var k := 0;
      while k < body.Length
        invariant 0 <= k <= body.Length && body == old(body) && body[..] == old(body[..])
        invariant forall i :: 0 <= i < k ==> bigger[i] == body[i]
        modifies bigger
      {
        bigger[k] := body[k];
        k := k + 1;
      }
      body := bigger;
      assert body[..codeSize] == old(body[..codeSize]);
    }

    /** addbyte: store a byte at the end, doubling the buffer if it is full. */
    method AddByte(b: int)
      requires Valid()
      modifies this`body, this`codeSize, body
      ensures Valid() && Code() == old(Code()) + [b] && (body == old(body) || fresh(body))
    {
      if codeSize >= body.Length {
        Double();
      }
      body[codeSize] := b;
      codeSize := codeSize + 1;
    }

    /** Groups are only added, and those added are new. */
    twostate predicate Grown()
      reads this
    {
      old(nodes) <= nodes && forall i :: |old(nodes)| <= i < |nodes| ==> fresh(nodes[i]) && fresh(nodes[i].adrs)
    }

    /** The group behind one, which is made if it is missing. */
    method NextGroup(temp: LabelGroup, ghost k: nat) returns (g: LabelGroup)
      requires Valid() && k < |nodes| && temp == nodes[k]
      modifies this`nodes, temp`next
      ensures Valid() && k + 1 < |nodes| && g == nodes[k + 1] && Grown()
    {
      if temp.next == null {
        NoneBehind(first, nodes, k);
        g := new LabelGroup();
        temp.next := g;
        nodes := nodes + [g];
        assert forall i :: 0 <= i < k ==> nodes[i] != temp;
      } else {
        g := temp.next;
      }
    }

    /** The first group. */
    method FirstGroup() returns (g: LabelGroup)
      requires Valid()
      modifies this`first, this`nodes
      ensures Valid() && nodes != [] && g == nodes[0] && Grown()
    {
      if first == null {
        g := new LabelGroup();
        first, nodes := g, [g];
      } else {
        g := first;
      }
    }

    /** Walk to a group, making groups that are missing. */
    method GroupAt(group: nat) returns (temp: LabelGroup)
      requires Valid()
      modifies this`first, this`nodes, nodes
      ensures Valid() && group < |nodes| && temp == nodes[group] && Grown()
    {
      temp := FirstGroup();
      var k: nat := 0;
      while k < group
        invariant k <= group && Valid() && k < |nodes| && temp == nodes[k] && Grown()
      {
        temp := NextGroup(temp, k);
        k := k + 1;
      }
    }

    /** def_label: record the current address in the label's group. */
    method DefLabel(lab: nat)
      requires Valid()
      modifies this`first, this`nodes, this`labels, nodes, Tables(nodes)
      ensures Valid() && labels == old(labels)[lab := codeSize] && Code() == old(Code()) && Grown()
    {
      var temp := GroupAt(lab / LABEL_GROUP);
      temp.adrs[lab % LABEL_GROUP] := codeSize;
      labels := labels[lab := codeSize];
    }

    /** The jump's lookup: walk to the label's group and read its entry. */
    method FindLabel(lab: nat) returns (addr: nat)
      requires Valid() && lab in labels
      ensures addr == labels[lab]
    {
      var gp, k: nat := first, 0;
      while k < lab / LABEL_GROUP
        invariant k <= lab / LABEL_GROUP < |nodes| && gp == nodes[k]
      {
        gp := gp.next;
        k := k + 1;
      }
      addr := gp.adrs[lab % LABEL_GROUP];
    }
  }

  /** Load one item into a segment: its bytes, or its label's address. */
  method LoadInto(seg: Segment, i: Instr)
    requires seg.Valid()
    modifies seg, seg.body, seg.nodes, Tables(seg.nodes)
    ensures seg.Valid() && seg.Code() == old(seg.Code()) + Encode(i)
    ensures seg.labels == if i.Label? then old(seg.labels)[i.lab := |old(seg.Code())|] else old(seg.labels)
    ensures seg.body == old(seg.body) || fresh(seg.body)
    ensures seg.Grown()
  {
    if i.Label? {
      seg.DefLabel(i.lab);
      assert old(seg.Code()) + Encode(i) == old(seg.Code());
    } else {
      var bytes := Encode(i);
      var k := 0;
      while k < |bytes|
        invariant 0 <= k <= |bytes| && seg.Valid() && seg.Code() == old(seg.Code()) + bytes[..k]
        invariant seg.labels == old(seg.labels) && seg.nodes == old(seg.nodes)
        invariant seg.body == old(seg.body) || fresh(seg.body)
      {
        seg.AddByte(bytes[k]);
        assert bytes[..k + 1] == bytes[..k] + [bytes[k]];
        k := k + 1;
      }
    }
  }

  lemma EncodeAllSnoc(code: seq<Instr>, i: Instr)
    ensures EncodeAll(code + [i]) == EncodeAll(code) + Encode(i)
    decreases |code|
  {
    if code == [] {
      assert code + [i] == [i] && [i][1..] == [];
    } else {
      assert (code + [i])[1..] == code[1..] + [i];
      EncodeAllSnoc(code[1..], i);
      assert Encode(code[0]) + EncodeAll(code[1..]) + Encode(i) == Encode(code[0]) + (EncodeAll(code[1..]) + Encode(i));
    }
  }

  lemma LabelMapSnoc(code: seq<Instr>, i: Instr, addr: nat, labels: map<nat, nat>)
    ensures LabelMap(code + [i], addr, labels)
         == var m := LabelMap(code, addr, labels); if i.Label? then m[i.lab := addr + Bytes(code)] else m
    decreases |code|
  {
    if code == [] {
      assert code + [i] == [i] && [i][1..] == [];
    } else {
      assert (code + [i])[1..] == code[1..] + [i];
      LabelMapSnoc(code[1..], i, addr + Size(code[0]), if code[0].Label? then labels[code[0].lab := addr] else labels);
    }
  }

  /** A segment filled with code holds its encoding, and its label groups are
      the label table of that code. */
  method FillSegment(code: seq<Instr>) returns (seg: Segment)
    ensures fresh(seg) && seg.Valid() && seg.Code() == EncodeAll(code) && seg.labels == LabelMap(code, 0, map[])
  {
    seg := new Segment();
    var k := 0;
    while k < |code|
      invariant 0 <= k <= |code| && fresh(seg) && fresh(seg.body)
      invariant forall i :: 0 <= i < |seg.nodes| ==> fresh(seg.nodes[i]) && fresh(seg.nodes[i].adrs)
      invariant seg.Valid() && seg.Code() == EncodeAll(code[..k]) && seg.labels == LabelMap(code[..k], 0, map[])
    {
      NextItem(code, k);
      LoadInto(seg, code[k]);
      k := k + 1;
    }
    assert code[..k] == code;
  }

  lemma NextItem(code: seq<Instr>, k: nat)
    requires k < |code|
    ensures EncodeAll(code[..k + 1]) == EncodeAll(code[..k]) + Encode(code[k])
    ensures LabelMap(code[..k + 1], 0, map[])
         == var m := LabelMap(code[..k], 0, map[]); if code[k].Label? then m[code[k].lab := |EncodeAll(code[..k])|] else m
  {
    EncodeAllSnoc(code[..k], code[k]);
    LabelMapSnoc(code[..k], code[k], 0, map[]);
    assert code[..k + 1] == code[..k] + [code[k]];
  }

  /** The scan over the emitted text. */
  class Loader {
    var state: T.Loading

    /** init_load. */
    constructor ()
      ensures state == T.Loading(map[0 := T.EMPTY], 0, 0, false, false, false)
    {
      state := T.Loading(map[0 := T.EMPTY], 0, 0, false, false, false);
    }

    /** long_val. */
    method LongVal(code: seq<char>, i: nat) returns (val: int, j: nat)
      requires i <= |code|
      ensures i <= j <= |code| && D.LongVal(code[i..]) == (val, code[j..])
    {
      j := i;
      var neg := false;
      if j < |code| && code[j] == '-' {
        neg := true;
        j := j + 1;
      }
      ghost var start := j;
      var v: nat := 0;
      while j < |code| && D.IsDigit(code[j])
        invariant start <= j <= |code| && D.DigitsVal(code[start..], 0) == D.DigitsVal(code[j..], v)
      {
        assert code[j..][1..] == code[j + 1..];
        v := v * 10 + (code[j] as int - '0' as int);
        j := j + 1;
      }
      if neg {
        assert code[i..][1..] == code[start..];
        val := -(v as int);
      } else {
        val := v;
      }
    }

    /** nextarg over a list of names. */
    method ReadNames(code: seq<char>, i: nat, stop: char) returns (args: seq<Formal>, j: nat)
      requires i <= |code|
      ensures i <= j <= |code| && T.Names(code[i..], stop, []) == (args, code[j..])
    {
      j, args := i, [];
      while j < |code| && code[j] != stop
        invariant i <= j <= |code| && T.Names(code[i..], stop, []) == T.Names(code[j..], stop, args)
        decreases |code| - j
      {
        assert code[j..][1..] == code[j + 1..];
        if code[j] == ',' {
          j := j + 1;
        } else {
          var star := code[j] == '*';
          var n, k := LongVal(code, if star then j + 1 else j);
          if k == j {
            assert T.Names(code[j..], stop, args) == (args, []);
            assert code[|code|..] == [];
            j := |code|;
            return;
          }
          args := [Formal(n, star)] + args;
          j := k;
        }
      }
      if j < |code| {
        assert code[j..][1..] == code[j + 1..];
        j := j + 1;
      }
    }

    /** The characters of a call's kinds. */
    method ReadKinds(code: seq<char>, i: nat) returns (kinds: seq<char>, j: nat)
      requires i <= |code|
      ensures kinds == T.UpTo(code[i..], ':') && j == i + |kinds| <= |code|
    {
      j, kinds := i, [];
      while j < |code| && code[j] != ':'
        invariant i <= j <= |code| && |kinds| == j - i
        invariant T.UpTo(code[i..], ':') == kinds + T.UpTo(code[j..], ':')
      {
        assert code[j..][1..] == code[j + 1..];
        kinds := kinds + [code[j]];
        j := j + 1;
      }
      assert T.UpTo(code[j..], ':') == [];
    }

    /** The head of a function definition. */
    method Head(code: seq<char>, i: nat) returns (j: nat)
      requires i <= |code|
      modifies this
      ensures i <= j <= |code| && (state, code[j..]) == T.LoadHead(old(state), code[i..])
    {
      var f, k := LongVal(code, i);
      j := k;
      if f < 0 {
        state := state.(stop := true);
      } else {
        var params, autos;
        params, k := ReadNames(code, k, '.');
        autos, j := ReadNames(code, k, '[');
        state := state.(bodies := state.bodies[f := T.Body([], map[], params, NamesOf(autos), false)], func := f, saved := state.func);
      }
    }

    /** A number after an instruction character, and the colon behind it. */
    method Operand(code: seq<char>, i: nat) returns (n: int, j: nat)
      requires i < |code|
      ensures i < j <= |code| || j == |code|
      ensures D.LongVal(code[i + 1..]).0 == n && code[j..] == D.Tail(D.LongVal(code[i + 1..]).1)
    {
      n, j := LongVal(code, i + 1);
      if j < |code| {
        assert code[j..][1..] == code[j + 1..];
        j := j + 1;
      }
    }

    /** One round of the scan outside strings and constants. */
    method Item(code: seq<char>, i: nat) returns (j: nat)
      requires i < |code|
      modifies this
      ensures i < j <= |code| && (state, code[j..]) == T.LoadItem(old(state), code[i..])
    {
      var c := code[i];
      assert code[i..][1..] == code[i + 1..];
      j := i + 1;
      if c == '"' {
        state := state.(str := true);
      } else if c == 'N' {
        var n;
        n, j := Operand(code, i);
        state := if n >= 0 then T.Define(state, n) else state.(stop := true);
      } else if M.JumpOp(c) {
        var n;
        n, j := Operand(code, i);
        state := if 0 <= n <= 65535 then T.Add(state, [c as int, n % 256, n / 256]) else state.(stop := true);
      } else if c == 'F' {
        j := Head(code, i + 1);
      } else if c == ']' {
        state := T.WithCur(state, T.Cur(state).(defined := true)).(func := state.saved);
      } else if c == 'C' {
        j := CallItem(code, i + 1);
      } else if c == 'c' {
        j := SpecialItem(code, i);
      } else if c == 'K' {
        state := T.Add(state, ['K' as int]).(con := true);
      } else if M.NamedOp(c) {
        var n;
        n, j := Operand(code, i);
        state := T.Add(state, [c as int] + T.NameCode(n));
      } else if c != '\n' {
        state := T.Add(state, [c as int]);
      }
    }

    method CallItem(code: seq<char>, i: nat) returns (j: nat)
      requires i <= |code|
      modifies this
      ensures i <= j <= |code| && (state, code[j..]) == T.LoadCall(old(state), code[i..])
    {
      var n, k := LongVal(code, i);
      if k < |code| && code[k] == ',' {
        assert code[k..][1..] == code[k + 1..];
        k := k + 1;
      }
      var kinds;
      kinds, j := ReadKinds(code, k);
      assert code[k..][|kinds|..] == code[j..];
      if j < |code| {
        assert code[j..][1..] == code[j + 1..];
        j := j + 1;
      }
      state := T.Add(state, ['C' as int] + T.NameCode(n) + CharBytes(kinds) + [':' as int]);
    }

    method SpecialItem(code: seq<char>, i: nat) returns (j: nat)
      requires i < |code| && code[i] == 'c'
      modifies this
      ensures i < j <= |code| && (state, code[j..]) == T.LoadItem(old(state), code[i..])
    {
      assert code[i..][1..] == code[i + 1..];
      j := i + 1;
      state := T.Add(state, ['c' as int, (if j < |code| then code[j] else '\0') as int]);
      if j < |code| {
        assert code[j..][1..] == code[j + 1..];
        j := j + 1;
      }
    }

    /** load_code. */
    method LoadCode(code: seq<char>)
      modifies this
      ensures state == T.LoadCode(old(state), code)
    {
      var i := 0;
      assert code[0..] == code;
      while i < |code| && !state.stop
        invariant 0 <= i <= |code| && T.LoadCode(state, code[i..]) == T.LoadCode(old(state), code)
      {
        var c := code[i];
        assert code[i..][1..] == code[i + 1..];
        if state.str {
          state := T.Add(state, [c as int]).(str := c != '"');
          i := i + 1;
        } else if state.con {
          if c == ':' {
            state := T.Add(state, [':' as int]).(con := false);
          } else if c != '\n' {
            state := T.Add(state, [ConstByte(c)]);
          }
          i := i + 1;
        } else {
          i := Item(code, i);
        }
      }
    }
  }
}
