/** bc arrays: radix trees of up to four levels that grow at the root
    (storage.c, get_array_num, copy_tree and copy_array). */
module RadixArray {
  import opened Wrappers
  import opened Numbers
  import opened BcStore

  const NODE_SIZE: nat := 16
  const NODE_DEPTH: nat := 4

  type Path = seq<nat>

  predicate GoodPath(p: Path) { forall i :: 0 <= i < |p| ==> p[i] < NODE_SIZE }

  /** How many elements a tree of depth d has room for. */
  function Room(d: nat): nat { if d == 0 then 1 else 16 * Room(d - 1) }

  /** The subscripts at each level for index i, the topmost first. */
  function PathTo(i: nat, d: nat): (p: Path)
    ensures |p| == d && GoodPath(p)
  {
    if d == 0 then [] else PathTo(i / 16, d - 1) + [i % 16]
  }

  /** In a tree that is one level deeper the old elements are below the first child. */
  lemma {:induction false} PathDeeper(i: nat, d: nat)
    requires i < Room(d + 1)
    ensures i < Room(d) ==> PathTo(i, d + 1) == [0] + PathTo(i, d)
    ensures i >= Room(d) ==> PathTo(i, d + 1)[0] != 0
    decreases d
  {
    if d > 0 {
      PathDeeper(i / 16, d - 1);
      assert PathTo(i, d + 1) == PathTo(i / 16, d) + [i % 16];
      if i < Room(d) {
        assert [0] + PathTo(i / 16, d - 1) + [i % 16] == [0] + (PathTo(i / 16, d - 1) + [i % 16]);
      }
    }
  }

  lemma {:induction false} PathInjective(i: nat, j: nat, d: nat)
    requires i < Room(d) && j < Room(d) && PathTo(i, d) == PathTo(j, d)
    ensures i == j
    decreases d
  {
    if d > 0 {
      var p, q := PathTo(i / 16, d - 1), PathTo(j / 16, d - 1);
      assert (p + [i % 16])[d - 1] == i % 16 && (q + [j % 16])[d - 1] == j % 16;
      assert p == (p + [i % 16])[..d - 1] == (q + [j % 16])[..d - 1] == q;
      PathInjective(i / 16, j / 16, d - 1);
    }
  }

  lemma {:induction false} RoomGrows(d: nat, e: nat)
    requires d <= e
    ensures Room(d) <= Room(e)
    decreases e
  {
    if d < e {
      RoomGrows(d, e - 1);
    }
  }

  /** i without its d lowest base-16 digits. */
  function Shifted(i: nat, d: nat): nat { if d == 0 then i else Shifted(i / 16, d - 1) }

  lemma {:induction false} ShiftedStep(i: nat, d: nat)
    ensures Shifted(i, d + 1) == Shifted(i, d) / 16
    ensures PathTo(i, d + 1) == [Shifted(i, d) % 16] + PathTo(i, d)
    decreases d
  {
    if d > 0 {
      ShiftedStep(i / 16, d - 1);
      assert [Shifted(i, d) % 16] + PathTo(i / 16, d - 1) + [i % 16] == [Shifted(i, d) % 16] + (PathTo(i / 16, d - 1) + [i % 16]);
    } else {
      assert PathTo(i, 1) == PathTo(i / 16, 0) + [i % 16];
    }
  }

  lemma {:induction false} ShiftedZero(i: nat, d: nat)
    ensures Shifted(i, d) == 0 <==> i < Room(d)
    decreases d
  {
    if d > 0 {
      ShiftedZero(i / 16, d - 1);
    }
  }

  /** Paths are equal if their first steps and the rest are. */
  lemma SamePath(p: Path, q: Path)
    requires |p| == |q| > 0
    ensures p == q <==> p[0] == q[0] && p[1..] == q[1..]
  {
    assert q == [q[0]] + q[1..] && p == [p[0]] + p[1..];
  }

  /** A tree node: numbers at the lowest level, further nodes above it. */
  class Node {
    var nums: array<Num>
    var down: array<Node?>
    ghost var repr: set<object>

    ghost predicate Valid(depth: nat)
      reads this, repr
      decreases depth
    {
      && depth > 0 && this in repr && nums in repr && down in repr
      && nums.Length == NODE_SIZE && down.Length == NODE_SIZE
      && (depth > 1 ==>
            && (forall i :: 0 <= i < NODE_SIZE && down[i] != null ==>
                  down[i] in repr && down[i].repr <= repr && {this, nums, down} !! down[i].repr && down[i].Valid(depth - 1))
            && (forall i, j :: 0 <= i < j < NODE_SIZE && down[i] != null && down[j] != null ==> down[i].repr !! down[j].repr))
    }

    /** The number at the end of a path; where no node is, zero. */
    ghost function At(depth: nat, p: Path): Num
      requires Valid(depth) && |p| == depth && GoodPath(p)
      reads this, repr
      decreases depth
    {
      if depth == 1 then nums[p[0]]
      else if down[p[0]] == null then ZERO
      else down[p[0]].At(depth - 1, p[1..])
    }

    /** A node with nothing in it: no nodes below, and zeros at the lowest level. */
    constructor (depth: nat)
      requires depth > 0
      ensures Valid(depth) && fresh(repr)
      ensures forall p: Path :: |p| == depth && GoodPath(p) ==> At(depth, p) == ZERO
      ensures forall i :: 0 <= i < NODE_SIZE ==> down[i] == null
    {
      nums := new Num[NODE_SIZE](_ => ZERO);
      down := new Node?[NODE_SIZE](_ => null);
      new;
      repr := {this, nums, down};
    }

    /** Follow a path, creating the nodes that are missing, and read or write
        the number at its end. */
    method Access(depth: nat, p: Path, v: Option<Num>) returns (n: Num)
      requires Valid(depth) && |p| == depth && GoodPath(p)
      modifies repr
      ensures Valid(depth) && old(repr) <= repr && fresh(repr - old(repr))
      ensures n == (if v.Some? then v.value else old(At(depth, p)))
      ensures forall q: Path :: |q| == depth && GoodPath(q) ==>
        At(depth, q) == if q == p then n else old(At(depth, q))
      decreases depth, 1
    {
      if depth == 1 {
        assert p == [p[0]];
        if v.Some? {
          nums[p[0]] := v.value;
        }
        n := nums[p[0]];
      } else {
        Open(depth, p[0]);
        n := Descend(depth, p, v);
      }
    }

    /** Access through a child that exists. */
    method Descend(depth: nat, p: Path, v: Option<Num>) returns (n: Num)
      requires Valid(depth) && depth > 1 && |p| == depth && GoodPath(p) && down[p[0]] != null
      modifies repr
      ensures Valid(depth) && old(repr) <= repr && fresh(repr - old(repr))
      ensures n == (if v.Some? then v.value else old(At(depth, p)))
      ensures forall q: Path :: |q| == depth && GoodPath(q) ==>
        At(depth, q) == if q == p then n else old(At(depth, q))
      decreases depth, 0
    {
      var kid := down[p[0]];
      n := kid.Access(depth - 1, p[1..], v);
      repr := repr + kid.repr;
      assert Valid(depth);
      forall q: Path | |q| == depth && GoodPath(q)
        ensures At(depth, q) == if q == p then n else old(At(depth, q))
      {
        SamePath(p, q);
      }
    }

    /** Make sure there is a node below child i. */
    method Open(depth: nat, i: nat)
      requires Valid(depth) && depth > 1 && i < NODE_SIZE
      modifies repr
      ensures Valid(depth) && down[i] != null && old(repr) <= repr && fresh(repr - old(repr))
      ensures down == old(down) && nums == old(nums)
      ensures forall q: Path :: |q| == depth && GoodPath(q) ==> At(depth, q) == old(At(depth, q))
    {
      if down[i] == null {
        var kid := new Node(depth - 1);
        down[i] := kid;
        repr := repr + kid.repr;
      }
    }

    /** copy_tree: a tree of new nodes with the same numbers. */
    method CopyTree(depth: nat) returns (c: Node)
      requires Valid(depth)
      ensures c.Valid(depth) && fresh(c.repr)
      ensures forall q: Path :: |q| == depth && GoodPath(q) ==> c.At(depth, q) == At(depth, q)
      decreases depth, 1
    {
      if depth == 1 {
        c := CopyLeaf();
      } else {
        c := CopyKids(depth);
      }
    }

    method CopyLeaf() returns (c: Node)
      requires Valid(1)
      ensures c.Valid(1) && fresh(c.repr)
      ensures forall q: Path :: |q| == 1 && GoodPath(q) ==> c.At(1, q) == At(1, q)
    {
      c := new Node(1);
      var i := 0;
      while i < NODE_SIZE
        invariant 0 <= i <= NODE_SIZE && c.Valid(1) && fresh(c.repr)
        invariant forall j :: 0 <= j < i ==> c.nums[j] == nums[j]
      {
        c.nums[i] := nums[i];
        i := i + 1;
      }
    }

    method CopyKids(depth: nat) returns (c: Node)
      requires Valid(depth) && depth > 1
      ensures c.Valid(depth) && fresh(c.repr)
      ensures forall q: Path :: |q| == depth && GoodPath(q) ==> c.At(depth, q) == At(depth, q)
      decreases depth, 0
    {
      c := new Node(depth);
      var i := 0;
      while i < NODE_SIZE
        invariant 0 <= i <= NODE_SIZE && c.Valid(depth) && fresh(c.repr)
        invariant forall j :: i <= j < NODE_SIZE ==> c.down[j] == null
        invariant forall q: Path :: |q| == depth && GoodPath(q) && q[0] < i ==> c.At(depth, q) == At(depth, q)
      {
        if down[i] != null {
          var kid := down[i].CopyTree(depth - 1);
          c.Hang(depth, i, kid);
        }
        i := i + 1;
      }
    }

    /** Put a tree below child i, where there was none. */
    method Hang(depth: nat, i: nat, kid: Node)
      requires Valid(depth) && depth > 1 && i < NODE_SIZE && down[i] == null && kid.Valid(depth - 1) && kid.repr !! repr
      modifies this`repr, down
      ensures Valid(depth) && repr == old(repr) + kid.repr && down[i] == kid
      ensures forall j :: 0 <= j < NODE_SIZE && j != i ==> down[j] == old(down[j])
      ensures forall q: Path :: |q| == depth && GoodPath(q) ==>
        At(depth, q) == if q[0] == i then kid.At(depth - 1, q[1..]) else old(At(depth, q))
    {
      down[i] := kid;
      repr := repr + kid.repr;
    }
  }

  // ---------------------------------------------------------------------
  // Whole arrays.
  // ---------------------------------------------------------------------

  class BcArray {
    var tree: Node?
    var depth: nat

    ghost function Parts(): set<object>
      reads this, tree
    {
      if tree == null then {} else tree.repr
    }

    ghost predicate Valid()
      reads this, tree, Parts()
    {
      && depth <= NODE_DEPTH && (tree == null <==> depth == 0)
      && (tree != null ==> this !in tree.repr && tree.Valid(depth))
    }

    /** The array as a total function; what was never stored is zero. */
    ghost function Get(i: nat): Num
      requires Valid()
      reads this, tree, Parts()
    {
      if depth == 0 || i >= Room(depth) then ZERO else tree.At(depth, PathTo(i, depth))
    }

    constructor ()
      ensures Valid() && depth == 0 && forall i: nat :: Get(i) == ZERO
    {
      tree, depth := null, 0;
    }

    /** The subscripts of an index, on at least `least` levels. */
    method Subscripts(index: nat, least: nat) returns (sub: Path)
      requires index <= BC_DIM_MAX && least <= NODE_DEPTH
      ensures 0 < |sub| <= NODE_DEPTH && least <= |sub| && sub == PathTo(index, |sub|) && index < Room(|sub|)
    {
      ShiftedStep(index, 0);
      assert [index % 16] + PathTo(index, 0) == [index % 16];
      sub := [index % 16];
      var ix := index / 16;
      while ix > 0 || |sub| < least
        invariant 0 < |sub| <= NODE_DEPTH && sub == PathTo(index, |sub|) && ix == Shifted(index, |sub|)
        decreases NODE_DEPTH - |sub|
      {
        ShiftedStep(index, |sub|);
        ShiftedZero(index, |sub|);
        sub, ix := [ix % 16] + sub, ix / 16;
      }
      ShiftedZero(index, |sub|);
    }

    /** One more level at the root. */
    method Deepen()
      requires Valid() && depth < NODE_DEPTH
      modifies this
      ensures Valid() && depth == old(depth) + 1 && fresh(Parts() - old(Parts()))
      ensures forall i: nat :: i <= BC_DIM_MAX ==> Get(i) == old(Get(i))
    {
      var root := new Node(depth + 1);
      if depth != 0 {
        root.Hang(depth + 1, 0, tree);
      }
      tree, depth := root, depth + 1;
      forall i: nat | i <= BC_DIM_MAX ensures Get(i) == old(Get(i)) {
        ghost var d := old(depth);
        RoomGrows(d, d + 1);
        if i < Room(d + 1) {
          PathDeeper(i, d);
          if i < Room(d) && d > 0 {
            assert PathTo(i, d + 1)[0] == 0 && PathTo(i, d + 1)[1..] == PathTo(i, d);
          }
        }
      }
    }

    /** get_array_num, and what its callers do with the number it finds. */
    method Access(index: nat, v: Option<Num>) returns (n: Num)
      requires Valid() && index <= BC_DIM_MAX
      modifies this, Parts()
      ensures Valid() && fresh(Parts() - old(Parts())) && depth >= old(depth)
      ensures n == (if v.Some? then v.value else old(Get(index)))
      ensures forall i: nat :: i <= BC_DIM_MAX ==> Get(i) == if i == index then n else old(Get(i))
    {
      var sub := Subscripts(index, depth);
      while depth < |sub|
        invariant Valid() && old(depth) <= depth <= |sub| && fresh(Parts() - old(Parts()))
        invariant forall i: nat :: i <= BC_DIM_MAX ==> Get(i) == old(Get(i))
        decreases |sub| - depth
      {
        Deepen();
      }
      n := tree.Access(depth, sub, v);
      forall i: nat | i <= BC_DIM_MAX ensures Get(i) == if i == index then n else old(Get(i)) {
        if i < Room(depth) && i != index && PathTo(i, depth) == sub {
          PathInjective(i, index, depth);
        }
      }
    }

    /** copy_array: an equal array that shares nothing with this one. */
    method Copy() returns (c: BcArray)
      requires Valid() && tree != null
      ensures c.Valid() && fresh(c) && fresh(c.Parts()) && c.depth == depth
      ensures forall i: nat :: c.Get(i) == Get(i)
    {
      var t := tree.CopyTree(depth);
      c := new BcArray();
      c.tree, c.depth := t, depth;
    }
  }

  // ---------------------------------------------------------------------
  // Any sequence of loads and stores.
  // ---------------------------------------------------------------------

  datatype Op = Store(index: nat, n: Num) | Fetch(index: nat)

  predicate GoodOps(ops: seq<Op>) { forall k :: 0 <= k < |ops| ==> ops[k].index <= BC_DIM_MAX }

  function AfterOp(m: map<nat, Num>, op: Op): map<nat, Num> { if op.Store? then Put(m, op.index, op.n) else m }

  /** The numbers a sequence of operations on such a map yields. */
  function Yields(m: map<nat, Num>, ops: seq<Op>): seq<Num>
    decreases |ops|
  {
    if ops == [] then [] else [Cell(AfterOp(m, ops[0]), ops[0].index)] + Yields(AfterOp(m, ops[0]), ops[1..])
  }

  /** The tree holds the numbers that the machine's store keeps for an array. */
  ghost predicate Represents(a: BcArray, m: map<nat, Num>)
    reads a, a.tree, a.Parts()
  {
    a.Valid() && forall i: nat :: i <= BC_DIM_MAX ==> a.Get(i) == Cell(m, i)
  }

  method RunOp(a: BcArray, op: Op, ghost m: map<nat, Num>) returns (n: Num)
    requires Represents(a, m) && op.index <= BC_DIM_MAX
    modifies a, a.Parts()
    ensures n == Cell(AfterOp(m, op), op.index) && Represents(a, AfterOp(m, op)) && fresh(a.Parts() - old(a.Parts()))
  {
    n := a.Access(op.index, if op.Store? then Some(op.n) else None);
  }

  /** Run operations on the tree: it yields what the map yields. */
  method RunOps(a: BcArray, ops: seq<Op>, ghost m: map<nat, Num>) returns (out: seq<Num>, ghost m': map<nat, Num>)
    requires Represents(a, m) && GoodOps(ops)
    modifies a, a.Parts()
    ensures out == Yields(m, ops) && Represents(a, m') && fresh(a.Parts() - old(a.Parts()))
  {
    out, m' := [], m;
    var k := 0;
    while k < |ops|
      invariant 0 <= k <= |ops| && Represents(a, m') && fresh(a.Parts() - old(a.Parts()))
      invariant Yields(m, ops) == out + Yields(m', ops[k..])
    {
      var op := ops[k];
      var n := RunOp(a, op, m');
      assert ops[k..][0] == op && ops[k..][1..] == ops[k + 1..];
      out, m' := out + [n], AfterOp(m', op);
      k := k + 1;
    }
    assert ops[k..] == [];
  }

  /** Whatever is done to a copy, the original keeps its numbers. */
  method RunOnCopy(a: BcArray, ops: seq<Op>, ghost m: map<nat, Num>) returns (out: seq<Num>)
    requires Represents(a, m) && a.tree != null && GoodOps(ops)
    ensures out == Yields(m, ops) && Represents(a, m)
  {
    var c := a.Copy();
    ghost var m';
    out, m' := RunOps(c, ops, m);
  }
}
