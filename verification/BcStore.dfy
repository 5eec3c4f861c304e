/** The variables of a running bc program: every name has a stack of values,
    of which only the top is visible (storage.c). */
module BcStore {
  import opened Wrappers
  import opened Digits
  import opened Numbers
  import opened LongValue
  import opened BcSyntax

  datatype Stack = Bottom | Push(top: Num, rest: Stack)

  /** An array name's stack: the top entry refers to its array, if it has one
      already; two entries may share an array. */
  datatype ArrayStack = NoArray | PushArray(value: Option<nat>, below: ArrayStack)

  /** One item written to the output. */
  datatype Event = Written(n: Num, obase: nat, newline: bool) | Shown(s: seq<char>)

  /** heap holds the numbers of every array that was made so far. */
  datatype Store = Store(vars: map<nat, Stack>, arrays: map<nat, ArrayStack>, heap: seq<map<nat, Num>>,
                         ibase: nat, obase: nat, scale: nat, out: seq<Event>)

  const INT_MAX: nat := 0x7fff_ffff
  const BC_DIM_MAX: nat := 65535

  /** The arithmetic the machine calls; bc_add and the rest are instances. */
  datatype Arith = Arith(
    binary: (char, Num, Num, nat) -> Option<Num>,
    order: (Num, Num) -> int,
    negate: Num -> Num,
    sqrt: (Num, nat) -> Option<Num>,
    constant: (seq<int>, nat) -> Num,
    fromInt: int -> Num)

  function Top(s: Stack): Num { if s.Push? then s.top else ZERO }

  function Rest(s: Stack): Stack { if s.Push? then s.rest else Bottom }

  function Vars(st: Store, v: nat): Stack { if v in st.vars then st.vars[v] else Bottom }

  function Arrays(st: Store, a: nat): ArrayStack { if a in st.arrays then st.arrays[a] else NoArray }

  function ValueOf(s: ArrayStack): Option<nat> { if s.PushArray? then s.value else None }

  /** The array a name refers to now. */
  function Ref(st: Store, a: nat): Option<nat> { ValueOf(Arrays(st, a)) }

  function At(st: Store, r: Option<nat>): map<nat, Num> { if r.Some? && r.value < |st.heap| then st.heap[r.value] else map[] }

  /** The numbers stored in an array; all others are zero. */
  function Cells(st: Store, a: nat): map<nat, Num> { At(st, Ref(st, a)) }

  function Below(s: ArrayStack): ArrayStack { if s.PushArray? then s.below else NoArray }

  function ToLong(n: Num): int { if n.neg then -Scan(n.whole, 0) else Scan(n.whole, 0) }

  /** load_var. */
  function GetVar(ar: Arith, st: Store, v: nat): Num {
    if v == 0 then ar.fromInt(st.ibase)
    else if v == 1 then ar.fromInt(st.obase)
    else if v == 2 then ar.fromInt(st.scale)
    else Top(Vars(st, v))
  }

  function PutTop(st: Store, v: nat, n: Num): Store {
    st.(vars := st.vars[v := Push(n, Rest(Vars(st, v)))])
  }

  /** store_var; names 0 to 3 are ibase, obase, scale and history. */
  function SetVar(st: Store, v: nat, n: Num): Store {
    if v > 3 then PutTop(st, v, n)
    else
      var tooBig := !n.neg && n.Mag() != 0 && ToLong(n) == 0;
      var temp := if n.neg then (if v == 2 then 0 else 2) else ToLong(n);
      if v == 0 then
        st.(ibase := if temp < 2 && !tooBig then 2 else if temp > 16 || tooBig then 16 else temp)
      else if v == 1 then
        st.(obase := if temp < 2 && !tooBig then 2 else if temp > INT_MAX || tooBig then INT_MAX else temp)
      else if v == 2 then
        st.(scale := if temp > INT_MAX || tooBig then INT_MAX else Max(temp, 0))
      else st
  }

  /** incr_var and decr_var. */
  function BumpVar(ar: Arith, st: Store, v: nat, up: bool): Store {
    if v == 0 then
      st.(ibase := if up then (if st.ibase < 16 then st.ibase + 1 else st.ibase)
                   else (if st.ibase > 2 then st.ibase - 1 else st.ibase))
    else if v == 1 then
      st.(obase := if up then (if st.obase < INT_MAX then st.obase + 1 else st.obase)
                   else (if st.obase > 2 then st.obase - 1 else st.obase))
    else if v == 2 then
      st.(scale := if up then (if st.scale < INT_MAX then st.scale + 1 else st.scale)
                   else (if st.scale > 0 then st.scale - 1 else st.scale))
    else
      PutTop(st, v, Sum(ar, Top(Vars(st, v)), up))
  }

  function Sum(ar: Arith, n: Num, up: bool): Num {
    match ar.binary(if up then '+' else '-', n, ONE, 0)
    case Some(r) => r
    case None => n
  }

  /** The subscript of an array access, unless it is out of bounds. */
  function Subscript(n: Num): Option<nat> {
    var i := ToLong(n);
    if i < 0 || i > BC_DIM_MAX || (i == 0 && n.Mag() != 0) then None else Some(i)
  }

  /** An element; those that were never stored are zero. */
  function Cell(cells: map<nat, Num>, i: nat): Num { if i in cells then cells[i] else ZERO }

  function GetCell(st: Store, a: nat, i: nat): Num { Cell(Cells(st, a), i) }

  /** What get_array_num does first: it makes the array if there is none. */
  function Touch(st: Store, a: nat): Store {
    if Ref(st, a).Some? then st
    else st.(heap := st.heap + [map[]], arrays := st.arrays[a := PushArray(Some(|st.heap|), Below(Arrays(st, a)))])
  }

  function Put(c: map<nat, Num>, i: nat, n: Num): map<nat, Num> { c[i := n] }

  function PutAt(heap: seq<map<nat, Num>>, r: Option<nat>, i: nat, n: Num): seq<map<nat, Num>> {
    if r.Some? && r.value < |heap| then heap[r.value := Put(heap[r.value], i, n)] else heap
  }

  function SetCell(st: Store, a: nat, i: nat, n: Num): Store {
    var t := Touch(st, a);
    t.(heap := PutAt(t.heap, Ref(t, a), i, n))
  }

  /** auto_var: a fresh zero, or an array yet to be made, on top of a name's stack. */
  function PushAuto(st: Store, name: int): Store {
    if name > 0 then st.(vars := st.vars[name := Push(ZERO, Vars(st, name))])
    else st.(arrays := st.arrays[-name := PushArray(None, Arrays(st, -name))])
  }

  function PushAutos(st: Store, names: seq<int>): Store
    decreases |names|
  {
    if names == [] then st else PushAutos(PushAuto(st, names[0]), names[1..])
  }

  /** The parameter part of a call: bind a value to a formal. */
  function PushParam(st: Store, v: nat, n: Num): Store {
    st.(vars := st.vars[v := Push(n, Vars(st, v))])
  }

  /** The array number an argument stands for; constants are not negative. */
  function ArrayOf(n: Num): nat { Max(ToLong(n), 0) }

  /** The array part: push the name, then share or copy the source array,
      which is one level down if it has the same name. */
  function PassArray(st: Store, src: nat, dest: nat, byVar: bool): Store {
    var st1 := PushAuto(Touch(st, src), 0 - dest);
    var from := if src == dest then Below(Arrays(st1, src)) else Arrays(st1, src);
    var value := ValueOf(from);
    if byVar then st1.(arrays := st1.arrays[dest := PushArray(value, Below(Arrays(st1, dest)))])
    else st1.(heap := st1.heap + [At(st1, value)],
              arrays := st1.arrays[dest := PushArray(Some(|st1.heap|), Below(Arrays(st1, dest)))])
  }

  /** Bind one argument to its parameter. */
  function BindOne(st: Store, f: Formal, n: Num): Store {
    if f.name > 0 then PushParam(st, f.name, n) else PassArray(st, ArrayOf(n), -f.name, f.byVar)
  }

  /** pop_vars for one name. */
  function PopName(st: Store, name: int): Store {
    if name > 0 then st.(vars := st.vars[name := Rest(Vars(st, name))])
    else st.(arrays := st.arrays[-name := Below(Arrays(st, -name))])
  }

  function PopNames(st: Store, names: seq<int>): Store
    decreases |names|
  {
    if names == [] then st else PopNames(PopName(st, names[0]), names[1..])
  }
}
