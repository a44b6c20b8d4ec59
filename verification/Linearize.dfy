/** Straight-line code of an expression graph: every distinct sub-expression once. Equality of
    nodes stands for equality of their hashes. */
module Linearize {
  import opened Ast

  // ----- sub-expressions -----

  function Kids(n: Node): (r: seq<Node>)
    ensures forall i :: 0 <= i < |r| ==> r[i] < n
  {
    match n
    case Const(_) => []
    case Var(_, _) => []
    case Oper(_, args) => args
    case Call(_, args) => args
    case Hole(_, _, _, args) => args
    case Disj(cands) => cands
  }

  predicate IsSub(m: Node, n: Node)
    decreases n
  {
    m == n || exists i :: 0 <= i < |Kids(n)| && IsSub(m, Kids(n)[i])
  }

  lemma {:induction false} SubSmaller(m: Node, n: Node)
    requires IsSub(m, n)
    ensures m == n || m < n
    decreases n
  {
    if m != n {
      var i :| 0 <= i < |Kids(n)| && IsSub(m, Kids(n)[i]);
      SubSmaller(m, Kids(n)[i]);
    }
  }

  lemma KidSub(m: Node, n: Node, i: nat)
    requires i < |Kids(n)| && IsSub(m, Kids(n)[i])
    ensures IsSub(m, n)
  {
  }

  // ----- slots -----

  datatype Slot =
    | ConstSlot(val: real)
    | VarSlot(sym: string)
    | OperSlot(op: Op, args: seq<nat>)
    | CallSlot(fn: CallFn, args: seq<nat>)
    | HoleSlot(id: string, args: seq<nat>)
    | DisjSlot(cands: seq<nat>)

  function SlotOf(n: Node, at: seq<nat>): Slot {
    match n
    case Const(c) => ConstSlot(c)
    case Var(s, _) => VarSlot(s)
    case Oper(op, _) => OperSlot(op, at)
    case Call(fn, _) => CallSlot(fn, at)
    case Hole(id, _, _, _) => HoleSlot(id, at)
    case Disj(_) => DisjSlot(at)
  }

  function Operands(s: Slot): seq<nat> {
    match s
    case ConstSlot(_) => []
    case VarSlot(_) => []
    case OperSlot(_, args) => args
    case CallSlot(_, args) => args
    case HoleSlot(_, args) => args
    case DisjSlot(cands) => cands
  }

  // ----- meaning, in any algebra of values -----

  datatype Algebra<!V> = Algebra(
    konst: real -> V,
    variable: string -> V,
    oper: (Op, seq<V>) -> V,
    call: (CallFn, seq<V>) -> V,
    hole: (string, seq<V>) -> V,
    disj: seq<V> -> V)

  function TreeVal<V>(a: Algebra<V>, n: Node): V
    decreases n, 0
  {
    match n
    case Const(c) => a.konst(c)
    case Var(s, _) => a.variable(s)
    case Oper(op, args) => a.oper(op, TreeVals(a, args))
    case Call(fn, args) => a.call(fn, TreeVals(a, args))
    case Hole(id, _, _, args) => a.hole(id, TreeVals(a, args))
    case Disj(cands) => a.disj(TreeVals(a, cands))
  }

  function TreeVals<V>(a: Algebra<V>, ns: seq<Node>): (vs: seq<V>)
    ensures |vs| == |ns| && forall i :: 0 <= i < |ns| ==> vs[i] == TreeVal(a, ns[i])
    decreases ns, 1
  {
    if |ns| == 0 then [] else TreeVals(a, ns[..|ns| - 1]) + [TreeVal(a, ns[|ns| - 1])]
  }

  predicate Backward(slots: seq<Slot>) {
    forall i, j :: 0 <= i < |slots| && 0 <= j < |Operands(slots[i])| ==> Operands(slots[i])[j] < i
  }

  function Fetch<V>(vals: seq<V>, at: seq<nat>): (vs: seq<V>)
    requires forall j :: 0 <= j < |at| ==> at[j] < |vals|
    ensures |vs| == |at| && forall j :: 0 <= j < |at| ==> vs[j] == vals[at[j]]
  {
    if |at| == 0 then [] else Fetch(vals, at[..|at| - 1]) + [vals[at[|at| - 1]]]
  }

  function SlotVal<V>(a: Algebra<V>, s: Slot, vals: seq<V>): V
    requires forall j :: 0 <= j < |Operands(s)| ==> Operands(s)[j] < |vals|
  {
    match s
    case ConstSlot(c) => a.konst(c)
    case VarSlot(sym) => a.variable(sym)
    case OperSlot(op, _) => a.oper(op, Fetch(vals, Operands(s)))
    case CallSlot(fn, _) => a.call(fn, Fetch(vals, Operands(s)))
    case HoleSlot(id, _) => a.hole(id, Fetch(vals, Operands(s)))
    case DisjSlot(_) => a.disj(Fetch(vals, Operands(s)))
  }

  /** The slots' values, computed in order. */
  function Run<V>(a: Algebra<V>, slots: seq<Slot>): (vals: seq<V>)
    requires Backward(slots)
    ensures |vals| == |slots|
  {
    if |slots| == 0 then []
    else
      assert forall i :: 0 <= i < |slots| - 1 ==> slots[..|slots| - 1][i] == slots[i];
      var vals := Run(a, slots[..|slots| - 1]);
      vals + [SlotVal(a, slots[|slots| - 1], vals)]
  }

  // ----- emission -----

  /** Slot i stands for nodes[i], and its operands for that node's children. */
  predicate Stands(nodes: seq<Node>, slots: seq<Slot>, i: nat)
    requires i < |nodes| && i < |slots|
  {
    var at, kids := Operands(slots[i]), Kids(nodes[i]);
    && slots[i] == SlotOf(nodes[i], at) && |at| == |kids|
    && forall j :: 0 <= j < |kids| ==> at[j] < i && nodes[at[j]] == kids[j]
  }

  ghost predicate Codes(nodes: seq<Node>, slots: seq<Slot>) {
    && |nodes| == |slots| && (forall i :: 0 <= i < |slots| ==> Stands(nodes, slots, i))
    && forall i, j :: 0 <= i < j < |nodes| ==> nodes[i] != nodes[j]
  }

  lemma CodesBackward(nodes: seq<Node>, slots: seq<Slot>)
    requires Codes(nodes, slots)
    ensures Backward(slots)
  {
    forall i, j | 0 <= i < |slots| && 0 <= j < |Operands(slots[i])|
      ensures Operands(slots[i])[j] < i
    {
      assert Stands(nodes, slots, i);
    }
  }

  lemma CodesPrefix(nodes: seq<Node>, slots: seq<Slot>, n: nat)
    requires Codes(nodes, slots) && n <= |slots|
    ensures Codes(nodes[..n], slots[..n])
  {
    forall i | 0 <= i < n
      ensures Stands(nodes[..n], slots[..n], i)
    {
      assert Stands(nodes, slots, i);
    }
  }

  /** In every algebra the value of slot i is the value of the sub-expression it stands for. */
  lemma {:induction false} RunMeaning<V>(a: Algebra<V>, nodes: seq<Node>, slots: seq<Slot>)
    requires Codes(nodes, slots)
    ensures Backward(slots) && forall i :: 0 <= i < |slots| ==> Run(a, slots)[i] == TreeVal(a, nodes[i])
    decreases |slots|
  {
    hide Codes;
    hide Stands;
    hide TreeVal;
    hide SlotVal;
    CodesBackward(nodes, slots);
    if |slots| > 0 {
      var n := |slots| - 1;
      LastStands(nodes, slots);
      CodesPrefix(nodes, slots, n);
      var before, earlier := nodes[..n], slots[..n];
      RunMeaning(a, before, earlier);
      LastMeaning(a, nodes, slots, Run(a, earlier));
    }
  }

  lemma LastStands(nodes: seq<Node>, slots: seq<Slot>)
    requires Codes(nodes, slots) && |slots| > 0
    ensures |nodes| == |slots| && Stands(nodes, slots, |slots| - 1)
  {
  }

  lemma LastMeaning<V>(a: Algebra<V>, nodes: seq<Node>, slots: seq<Slot>, vals: seq<V>)
    requires |slots| == |nodes| == |vals| + 1 && Stands(nodes, slots, |vals|)
    requires forall i :: 0 <= i < |vals| ==> vals[i] == TreeVal(a, nodes[i])
    ensures SlotVal(a, slots[|vals|], vals) == TreeVal(a, nodes[|vals|])
  {
    var s, n := slots[|vals|], nodes[|vals|];
    assert Fetch(vals, Operands(s)) == TreeVals(a, Kids(n));
  }

  lemma CodesSnoc(nodes: seq<Node>, slots: seq<Slot>, n: Node, at: seq<nat>)
    requires Codes(nodes, slots) && n !in nodes && |at| == |Kids(n)|
    requires forall j :: 0 <= j < |at| ==> at[j] < |nodes| && nodes[at[j]] == Kids(n)[j]
    ensures |nodes| == |slots| && Codes(nodes + [n], slots + [SlotOf(n, at)])
  {
    var more, longer := nodes + [n], slots + [SlotOf(n, at)];
    forall i | 0 <= i < |longer|
      ensures Stands(more, longer, i)
    {
      if i < |slots| { assert Stands(nodes, slots, i); }
    }
  }

  class Linearizer {
    var seen: map<Node, nat>
    var out: seq<Slot>
    ghost var nodes: seq<Node>

    constructor ()
      ensures Valid() && out == [] && nodes == []
    {
      seen, out, nodes := map[], [], [];
    }

    ghost predicate Valid()
      reads this
    {
      && Codes(nodes, out)
      && (forall n :: n in seen ==> seen[n] < |nodes| && nodes[seen[n]] == n)
      && (forall i :: 0 <= i < |nodes| ==> nodes[i] in seen)
    }

    method Emit(n: Node) returns (idx: nat)
      requires Valid()
      modifies this
      ensures Valid() && n in seen && seen[n] == idx < |nodes| && nodes[idx] == n
      ensures old(nodes) <= nodes && forall i :: |old(nodes)| <= i < |nodes| ==> IsSub(nodes[i], n)
      ensures n !in old(seen) ==> idx == |nodes| - 1
      decreases n, 0
    {
      if n in seen {
        return seen[n];
      }
      NotYet(n);
      var at := EmitAll(n, Kids(n));
      assert n !in seen;
      CodesSnoc(nodes, out, n, at);
      hide Codes;
      idx := |out|;
      nodes := nodes + [n];
      out := out + [SlotOf(n, at)];
      seen := seen[n := idx];
    }

    lemma NotYet(n: Node)
      requires Valid() && n !in seen
      ensures n !in nodes
    {
    }

    method EmitAll(n: Node, ns: seq<Node>) returns (at: seq<nat>)
      requires Valid() && ns == Kids(n) && n !in nodes
      modifies this
      ensures Valid() && |at| == |ns| && forall j :: 0 <= j < |ns| ==> at[j] < |nodes| && nodes[at[j]] == ns[j]
      ensures old(nodes) <= nodes && n !in nodes
      ensures forall i :: |old(nodes)| <= i < |nodes| ==> IsSub(nodes[i], n)
      decreases n, 0, 0
    {
      hide Valid;
      hide IsSub;
      at := [];
      var i := 0;
      while i < |ns|
        invariant 0 <= i <= |ns| && Valid() && |at| == i && old(nodes) <= nodes && n !in nodes
        invariant forall j :: 0 <= j < i ==> at[j] < |nodes| && nodes[at[j]] == ns[j]
        invariant forall k :: |old(nodes)| <= k < |nodes| ==> IsSub(nodes[k], n)
      {
        ghost var before := nodes;
        var x := Emit(ns[i]);
        forall k | |before| <= k < |nodes|
          ensures IsSub(nodes[k], n) && nodes[k] != n
        {
          SubSmaller(nodes[k], ns[i]);
          KidSub(nodes[k], n, i);
        }
        at := at + [x];
        i := i + 1;
      }
    }
  }

  lemma {:induction false} SubListed(nodes: seq<Node>, slots: seq<Slot>, m: Node, i: nat)
    requires Codes(nodes, slots) && i < |nodes| && IsSub(m, nodes[i])
    ensures m in nodes
    decreases i
  {
    if m != nodes[i] {
      assert Stands(nodes, slots, i);
      var j :| 0 <= j < |Kids(nodes[i])| && IsSub(m, Kids(nodes[i])[j]);
      SubListed(nodes, slots, m, Operands(slots[i])[j]);
    }
  }

  /** The slots stand one to one for the distinct sub-expressions, the root's comes last, and
      every operand refers back. */
  method Linearized(n: Node) returns (out: seq<Slot>, ghost nodes: seq<Node>)
    ensures Codes(nodes, out) && Backward(out) && |out| > 0 && nodes[|out| - 1] == n
    ensures forall m :: IsSub(m, n) <==> m in nodes
  {
    var lin := new Linearizer();
    var root := lin.Emit(n);
    out, nodes := lin.out, lin.nodes;
    CodesBackward(nodes, out);
    forall m | IsSub(m, n)
      ensures m in nodes
    {
      SubListed(nodes, out, m, root);
    }
  }

  /** Run in order, the last slot has the value of the whole tree, in every algebra. */
  lemma LinearizedMeaning<V>(a: Algebra<V>, n: Node, out: seq<Slot>, nodes: seq<Node>)
    requires Codes(nodes, out) && |out| > 0 && nodes[|out| - 1] == n
    ensures Backward(out) && Run(a, out)[|out| - 1] == TreeVal(a, n)
  {
    RunMeaning(a, nodes, out);
  }
}
