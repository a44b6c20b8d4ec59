/** The import graph of artifacts: bounded collection, dependency order, reverse reachability. */
module ArtifactGraph {

  datatype Edge<T> = Edge(src: T, dst: T, symbol: string)

  // ----- walks -----

  predicate HasEdge<T(==)>(es: seq<Edge<T>>, u: T, v: T) {
    exists i :: 0 <= i < |es| && es[i].src == u && es[i].dst == v
  }

  predicate Walk<T(==)>(es: seq<Edge<T>>, p: seq<T>) {
    |p| > 0 && forall i :: 0 <= i < |p| - 1 ==> HasEdge(es, p[i], p[i + 1])
  }

  ghost predicate Leads<T>(es: seq<Edge<T>>, p: seq<T>, u: T, v: T) {
    Walk(es, p) && p[0] == u && p[|p| - 1] == v
  }

  /** A walk of at least one edge. */
  ghost predicate Reaches<T(!new)>(es: seq<Edge<T>>, u: T, v: T) {
    exists p: seq<T> :: Leads(es, p, u, v) && |p| > 1
  }

  /** A walk of any length. */
  ghost predicate Within<T(!new)>(es: seq<Edge<T>>, u: T, v: T) {
    u == v || Reaches(es, u, v)
  }

  ghost predicate Cyclic<T(!new)>(es: seq<Edge<T>>) {
    exists u: T :: Reaches(es, u, u)
  }

  lemma EdgeReaches<T(!new)>(es: seq<Edge<T>>, u: T, v: T)
    requires HasEdge(es, u, v)
    ensures Reaches(es, u, v)
  {
    assert Leads(es, [u, v], u, v);
  }

  lemma ReachesSnoc<T(!new)>(es: seq<Edge<T>>, u: T, v: T, w: T)
    requires Within(es, u, v) && HasEdge(es, v, w)
    ensures Reaches(es, u, w)
  {
    if u == v {
      EdgeReaches(es, u, w);
    } else {
      var p :| Leads(es, p, u, v) && |p| > 1;
      assert Leads(es, p + [w], u, w);
    }
  }

  lemma ReachesCons<T(!new)>(es: seq<Edge<T>>, u: T, v: T, w: T)
    requires HasEdge(es, u, v) && Within(es, v, w)
    ensures Reaches(es, u, w)
  {
    if v == w {
      EdgeReaches(es, u, w);
    } else {
      var p :| Leads(es, p, v, w) && |p| > 1;
      assert Leads(es, [u] + p, u, w);
    }
  }

  // ----- edges by node -----

  /** The edges out of u, in order. */
  function OutOf<T(==)>(es: seq<Edge<T>>, u: T): seq<Edge<T>> {
    if |es| == 0 then []
    else OutOf(es[..|es| - 1], u) + (if es[|es| - 1].src == u then [es[|es| - 1]] else [])
  }

  lemma {:induction false} OutOfMeaning<T>(es: seq<Edge<T>>, u: T)
    ensures forall v :: HasEdge(es, u, v) <==> exists i :: 0 <= i < |OutOf(es, u)| && OutOf(es, u)[i].dst == v
    ensures forall i :: 0 <= i < |OutOf(es, u)| ==> OutOf(es, u)[i].src == u && OutOf(es, u)[i] in es
  {
    if |es| > 0 {
      var front, last := es[..|es| - 1], es[|es| - 1];
      OutOfMeaning(front, u);
      var out, before := OutOf(es, u), OutOf(front, u);
      forall v
        ensures HasEdge(es, u, v) <==> exists i :: 0 <= i < |out| && out[i].dst == v
      {
        if HasEdge(es, u, v) {
          var i :| 0 <= i < |es| && es[i].src == u && es[i].dst == v;
          if i < |es| - 1 {
            assert HasEdge(front, u, v) by { assert front[i] == es[i]; }
            var j :| 0 <= j < |before| && before[j].dst == v;
            assert out[j] == before[j];
          } else {
            assert out[|before|] == last;
          }
        }
        if i :| 0 <= i < |out| && out[i].dst == v {
          if i < |before| {
            assert out[i] == before[i];
            assert HasEdge(front, u, v);
            var j :| 0 <= j < |front| && front[j].src == u && front[j].dst == v;
            assert es[j] == front[j];
          } else {
            assert es[|es| - 1] == last;
          }
        }
      }
    }
  }

  method Outgoing<T(==)>(es: seq<Edge<T>>, u: T) returns (out: seq<Edge<T>>)
    ensures out == OutOf(es, u)
  {
    out := [];
    for i := 0 to |es|
      invariant out == OutOf(es[..i], u)
    {
      assert es[..i + 1][..i] == es[..i];
      if es[i].src == u {
        out := out + [es[i]];
      }
    }
    assert es[..|es|] == es;
  }

  // ----- the depth-first order -----

  predicate NoRepeats<T(==)>(s: seq<T>) {
    forall i, j :: 0 <= i < j < |s| ==> s[i] != s[j]
  }

  /** In the order every edge leads back: dependencies stand before dependents. */
  predicate DepsFirst<T(==)>(es: seq<Edge<T>>, order: seq<T>) {
    forall k, i :: 0 <= k < |es| && 0 <= i < |order| && order[i] == es[k].src ==> es[k].dst in order[..i]
  }

  lemma DepsFirstSnoc<T>(es: seq<Edge<T>>, order: seq<T>, u: T)
    requires DepsFirst(es, order) && u !in order
    requires forall k :: 0 <= k < |es| && es[k].src == u ==> es[k].dst in order
    ensures DepsFirst(es, order + [u])
  {
    var longer := order + [u];
    forall k, i | 0 <= k < |es| && 0 <= i < |longer| && longer[i] == es[k].src
      ensures es[k].dst in longer[..i]
    {
      if i < |order| {
        assert longer[..i] == order[..i];
      } else {
        assert longer[..i] == order;
      }
    }
  }

  lemma EdgesOut<T>(es: seq<Edge<T>>, u: T, out: seq<Edge<T>>, order: seq<T>)
    requires out == OutOf(es, u) && forall j :: 0 <= j < |out| ==> out[j].dst in order
    ensures forall k :: 0 <= k < |es| && es[k].src == u ==> es[k].dst in order
  {
    OutOfMeaning(es, u);
    forall k | 0 <= k < |es| && es[k].src == u
      ensures es[k].dst in order
    {
      assert HasEdge(es, u, es[k].dst);
    }
  }

  lemma StillIn<T>(a: seq<T>, b: seq<T>)
    requires a <= b
    ensures forall x :: x in a ==> x in b
  {
    assert b == a + b[|a|..];
  }

  class Sorter<T(==, !new)> {
    const es: seq<Edge<T>>
    var state: map<T, int>
    var order: seq<T>
    var hasCycle: bool

    constructor (es: seq<Edge<T>>)
      ensures this.es == es && state == map[] && order == [] && !hasCycle
    {
      this.es, state, order, hasCycle := es, map[], [], false;
    }

    function Mark(u: T): int
      reads `state
    {
      if u in state then state[u] else 0
    }

    ghost function Grey(): set<T>
      reads `state
    {
      set u | u in state && state[u] == 1
    }

    /** Finished nodes are exactly those in the order; a cycle is claimed only when there is
        one, and without a claim the order is right so far. */
    ghost predicate Valid(nodes: set<T>)
      reads this
    {
      && (forall u :: u in state ==> u in nodes && 1 <= state[u] <= 2)
      && (forall u :: Mark(u) == 2 <==> u in order)
      && NoRepeats(order)
      && (hasCycle ==> Cyclic(es))
      && (!hasCycle ==> DepsFirst(es, order))
    }

    ghost predicate Closed(nodes: set<T>) {
      forall u, v :: u in nodes && HasEdge(es, u, v) ==> v in nodes
    }

    ghost function Unvisited(nodes: set<T>): set<T>
      reads `state
    {
      set u | u in nodes && Mark(u) == 0
    }

    method Dfs(u: T, ghost nodes: set<T>)
      requires Valid(nodes) && Closed(nodes) && u in nodes && Mark(u) == 0
      requires forall g :: g in Grey() ==> Reaches(es, g, u)
      modifies this
      ensures Valid(nodes) && Mark(u) == 2 && Grey() == old(Grey())
      ensures Unvisited(nodes) <= old(Unvisited(nodes)) && (old(hasCycle) ==> hasCycle)
      ensures old(order) <= order
      decreases Unvisited(nodes)
    {
      assert u in Unvisited(nodes);
      ghost var before := Grey();
      state := state[u := 1];
      ghost var grey := Grey();
      assert grey == before + {u};
      assert u !in Unvisited(nodes);
      var out := Outgoing(es, u);
      OutOfMeaning(es, u);
      var i := 0;
      while i < |out|
        invariant 0 <= i <= |out| && Valid(nodes) && Grey() == grey
        invariant Unvisited(nodes) < old(Unvisited(nodes)) && (old(hasCycle) ==> hasCycle) && old(order) <= order
        invariant !hasCycle ==> forall j :: 0 <= j < i ==> out[j].dst in order
      {
        var v := out[i].dst;
        if Mark(v) == 1 {
          assert v in grey;
          ReachesSnoc(es, v, u, v);
          hasCycle := true;
        } else if Mark(v) == 0 {
          assert forall g :: g in grey ==> Within(es, g, u);
          forall g | g in Grey()
            ensures Reaches(es, g, v)
          {
            ReachesSnoc(es, g, u, v);
          }
          ghost var shorter := order;
          Dfs(v, nodes);
          StillIn(shorter, order);
        }
        i := i + 1;
      }
      assert u in grey;
      if !hasCycle { EdgesOut(es, u, out, order); }
      Finish(u, nodes);
      assert Grey() == before;
    }

    method Finish(u: T, ghost nodes: set<T>)
      requires Valid(nodes) && Mark(u) == 1
      requires !hasCycle ==> forall k :: 0 <= k < |es| && es[k].src == u ==> es[k].dst in order
      modifies `state, `order
      ensures Valid(nodes) && Mark(u) == 2 && order == old(order) + [u] && Grey() == old(Grey()) - {u}
      ensures Unvisited(nodes) == old(Unvisited(nodes))
    {
      assert u !in order;
      if !hasCycle { DepsFirstSnoc(es, order, u); }
      state := state[u := 2];
      order := order + [u];
    }
  }

  /** Along a walk the order only goes down. */
  lemma {:induction false} WalkDescends<T>(es: seq<Edge<T>>, order: seq<T>, p: seq<T>, i: nat)
    requires DepsFirst(es, order) && Walk(es, p) && |p| > 1 && i < |order| && p[0] == order[i]
    ensures p[|p| - 1] in order[..i]
    decreases |p|
  {
    assert HasEdge(es, p[0], p[1]);
    var k :| 0 <= k < |es| && es[k].src == p[0] && es[k].dst == p[1];
    var j :| 0 <= j < i && order[j] == p[1];
    if |p| > 2 {
      forall m | 0 <= m < |p[1..]| - 1
        ensures HasEdge(es, p[1..][m], p[1..][m + 1])
      {
        assert HasEdge(es, p[m + 1], p[m + 2]);
      }
      WalkDescends(es, order, p[1..], j);
    }
  }

  /** An order with dependencies first exists only without a cycle. */
  lemma OrderedIsAcyclic<T(!new)>(es: seq<Edge<T>>, order: seq<T>)
    requires DepsFirst(es, order) && NoRepeats(order) && forall k :: 0 <= k < |es| ==> es[k].src in order
    ensures !Cyclic(es)
  {
    if Cyclic(es) {
      var u :| Reaches(es, u, u);
      var p :| Leads(es, p, u, u) && |p| > 1;
      assert HasEdge(es, p[0], p[1]);
      var i :| 0 <= i < |order| && order[i] == u;
      WalkDescends(es, order, p, i);
    }
  }

  /** The nodes in dependency order, each once, and whether the edges hold a cycle. */
  method Order<T(==, !new)>(es: seq<Edge<T>>, nodes: set<T>) returns (order: seq<T>, hasCycle: bool)
    requires forall k :: 0 <= k < |es| ==> es[k].src in nodes && es[k].dst in nodes
    ensures NoRepeats(order) && forall u :: u in order <==> u in nodes
    ensures hasCycle <==> Cyclic(es)
    ensures !hasCycle ==> DepsFirst(es, order)
  {
    var s := new Sorter(es);
    var todo := nodes;
    while todo != {}
      invariant todo <= nodes && s.es == es && fresh(s) && s.Valid(nodes) && s.Grey() == {}
      invariant forall u :: u in nodes && u !in todo ==> u in s.order
    {
      var n :| n in todo;
      todo := todo - {n};
      if s.Mark(n) == 0 {
        ghost var shorter := s.order;
        s.Dfs(n, nodes);
        StillIn(shorter, s.order);
      } else {
        assert n !in s.Grey();
      }
    }
    order, hasCycle := s.order, s.hasCycle;
    if !hasCycle { OrderedIsAcyclic(es, order); }
  }

  // ----- what a change affects -----

  /** Sources of edges into u, in order. */
  function Into<T(==)>(es: seq<Edge<T>>, u: T): seq<T> {
    if |es| == 0 then []
    else Into(es[..|es| - 1], u) + (if es[|es| - 1].dst == u then [es[|es| - 1].src] else [])
  }

  lemma {:induction false} IntoMeaning<T>(es: seq<Edge<T>>, u: T)
    ensures forall i :: 0 <= i < |es| && es[i].dst == u ==> es[i].src in Into(es, u)
    ensures forall v :: v in Into(es, u) ==> HasEdge(es, v, u)
  {
    if |es| > 0 {
      var front := es[..|es| - 1];
      IntoMeaning(front, u);
      forall v | v in Into(es, u)
        ensures HasEdge(es, v, u)
      {
        if v in Into(front, u) {
          var i :| 0 <= i < |front| && front[i].src == v && front[i].dst == u;
          assert es[i] == front[i];
        } else {
          assert es[|es| - 1].src == v;
        }
      }
      forall i | 0 <= i < |es| && es[i].dst == u
        ensures es[i].src in Into(es, u)
      {
        if i < |front| { assert front[i] == es[i]; }
      }
    }
  }

  method Incoming<T(==)>(es: seq<Edge<T>>, u: T) returns (out: seq<T>)
    ensures out == Into(es, u)
  {
    out := [];
    for i := 0 to |es|
      invariant out == Into(es[..i], u)
    {
      assert es[..i + 1][..i] == es[..i];
      if es[i].dst == u {
        out := out + [es[i].src];
      }
    }
    assert es[..|es|] == es;
  }

  function Sources<T(==)>(es: seq<Edge<T>>): (s: set<T>)
    ensures forall i :: 0 <= i < |es| ==> es[i].src in s
  {
    if |es| == 0 then {} else Sources(es[..|es| - 1]) + {es[|es| - 1].src}
  }

  /** A set that holds the sources of every edge into it, and into the target, holds all that
      reach the target. */
  lemma {:induction false} BackClosed<T(!new)>(es: seq<Edge<T>>, seen: set<T>, target: T, p: seq<T>)
    requires forall i :: 0 <= i < |es| && (es[i].dst == target || es[i].dst in seen) ==> es[i].src in seen
    requires Walk(es, p) && |p| > 1 && p[|p| - 1] == target
    ensures p[0] in seen
    decreases |p|
  {
    assert HasEdge(es, p[0], p[1]);
    if |p| > 2 {
      forall m | 0 <= m < |p[1..]| - 1
        ensures HasEdge(es, p[1..][m], p[1..][m + 1])
      {
        assert HasEdge(es, p[m + 1], p[m + 2]);
      }
      BackClosed(es, seen, target, p[1..]);
    }
  }

  /** Exactly the artifacts with a non-empty walk to the changed one, each once. */
  method Affected<T(==, !new)>(es: seq<Edge<T>>, changed: T) returns (out: seq<T>)
    ensures NoRepeats(out) && forall u :: u in out <==> Reaches(es, u, changed)
  {
    var seen: set<T> := {};
    var stack := [changed];
    out := [];
    ghost var scanned: set<T> := {};
    while |stack| > 0
      invariant NoRepeats(out) && (forall u :: u in out <==> u in seen) && seen <= Sources(es)
      invariant forall u :: u in seen ==> Reaches(es, u, changed)
      invariant forall u :: u in stack ==> u == changed || u in seen
      invariant forall u :: u == changed || u in seen ==> u in stack || u in scanned
      invariant forall i :: 0 <= i < |es| && es[i].dst in scanned ==> es[i].src in seen
      decreases Sources(es) - seen, |stack|
    {
      var u := stack[|stack| - 1];
      stack := stack[..|stack| - 1];
      seen, stack, out := Expand(es, u, changed, seen, stack, out);
      scanned := scanned + {u};
    }
    forall u | Reaches(es, u, changed)
      ensures u in out
    {
      var p :| Leads(es, p, u, changed) && |p| > 1;
      BackClosed(es, seen, changed, p);
    }
  }

  /** Sources not seen before are taken over and put on the stack. */
  method Expand<T(==, !new)>(es: seq<Edge<T>>, u: T, changed: T, seen0: set<T>, stack0: seq<T>, out0: seq<T>)
    returns (seen: set<T>, stack: seq<T>, out: seq<T>)
    requires NoRepeats(out0) && (forall x :: x in out0 <==> x in seen0) && seen0 <= Sources(es)
    requires forall x :: x in seen0 ==> Reaches(es, x, changed)
    requires u == changed || u in seen0
    ensures NoRepeats(out) && (forall x :: x in out <==> x in seen) && seen0 <= seen <= Sources(es)
    ensures forall x :: x in seen ==> Reaches(es, x, changed)
    ensures forall x :: x in stack0 ==> x in stack
    ensures forall x :: x in stack ==> x in stack0 || x in seen
    ensures forall x :: x in seen && x !in seen0 ==> x in stack
    ensures forall i :: 0 <= i < |es| && es[i].dst == u ==> es[i].src in seen
    ensures seen == seen0 ==> stack == stack0
  {
    var ins := Incoming(es, u);
    IntoMeaning(es, u);
    seen, stack, out := seen0, stack0, out0;
    var i := 0;
    while i < |ins|
      invariant 0 <= i <= |ins|
      invariant NoRepeats(out) && (forall x :: x in out <==> x in seen) && seen0 <= seen <= Sources(es)
      invariant forall x :: x in seen ==> Reaches(es, x, changed)
      invariant forall x :: x in stack0 ==> x in stack
      invariant forall x :: x in stack ==> x in stack0 || x in seen
      invariant forall x :: x in seen && x !in seen0 ==> x in stack
      invariant forall j :: 0 <= j < i ==> ins[j] in seen
      invariant seen == seen0 ==> stack == stack0
    {
      var v := ins[i];
      if v !in seen {
        assert HasEdge(es, v, u);
        ReachesCons(es, v, u, changed);
        seen := seen + {v};
        out := out + [v];
        stack := stack + [v];
      }
      i := i + 1;
    }
  }

  // ----- collecting from a root, to a bounded depth -----

  function Targets<T(==)>(es: seq<Edge<T>>): (s: set<T>)
    ensures forall i :: 0 <= i < |es| ==> es[i].dst in s
  {
    if |es| == 0 then {} else Targets(es[..|es| - 1]) + {es[|es| - 1].dst}
  }

  datatype Found<T> = Found(nodes: set<T>, edges: seq<Edge<T>>)

  /** New targets are entered one level deeper, on top of the stack. */
  function Visit<T(==)>(out: seq<Edge<T>>, d: nat, nodes: set<T>, q: seq<(T, nat)>): (r: (set<T>, seq<(T, nat)>))
    ensures nodes <= r.0 <= nodes + Targets(out)
    ensures r.0 == nodes ==> r.1 == q
  {
    if |out| == 0 then (nodes, q)
    else
      var (n, s) := Visit(out[..|out| - 1], d, nodes, q);
      var v := out[|out| - 1].dst;
      if v in n then (n, s) else (n + {v}, s + [(v, d + 1)])
  }

  predicate WithinTargets<T(==)>(out: seq<Edge<T>>, es: seq<Edge<T>>) {
    forall i :: 0 <= i < |out| ==> out[i] in es
  }

  lemma {:induction false} TargetsWithin<T>(out: seq<Edge<T>>, es: seq<Edge<T>>)
    requires WithinTargets(out, es)
    ensures Targets(out) <= Targets(es)
  {
    if |out| > 0 {
      TargetsWithin(out[..|out| - 1], es);
      assert out[|out| - 1] in es;
    }
  }

  lemma OutOfTargets<T>(es: seq<Edge<T>>, u: T)
    ensures Targets(OutOf(es, u)) <= Targets(es)
  {
    OutOfMeaning(es, u);
    TargetsWithin(OutOf(es, u), es);
  }

  /** The stack of nodes to expand, the last first; at the depth limit a node is not expanded. */
  function Collect<T(==)>(es: seq<Edge<T>>, root: T, max: nat, q: seq<(T, nat)>, found: Found<T>): Found<T>
    requires found.nodes <= Targets(es) + {root}
    decreases Targets(es) + {root} - found.nodes, |q|
  {
    if |q| == 0 then found
    else
      var rest, (u, d) := q[..|q| - 1], q[|q| - 1];
      if d >= max then Collect(es, root, max, rest, found)
      else
        var out := OutOf(es, u);
        var (n, s) := Visit(out, d, found.nodes, rest);
        OutOfTargets(es, u);
        Collect(es, root, max, s, Found(n, found.edges + out))
  }

  function Collected<T(==)>(es: seq<Edge<T>>, root: T, max: nat): Found<T> {
    Collect(es, root, max, [(root, 0)], Found({root}, []))
  }

  method CollectGraph<T(==)>(es: seq<Edge<T>>, root: T, max: nat) returns (found: Found<T>)
    ensures found == Collected(es, root, max)
  {
    var q: seq<(T, nat)> := [(root, 0)];
    var nodes, edges := {root}, [];
    while |q| > 0
      invariant nodes <= Targets(es) + {root}
      invariant Collect(es, root, max, q, Found(nodes, edges)) == Collected(es, root, max)
      decreases Targets(es) + {root} - nodes, |q|
    {
      var (u, d) := q[|q| - 1];
      q := q[..|q| - 1];
      if d < max {
        var out := Outgoing(es, u);
        OutOfTargets(es, u);
        ghost var rest, before := q, nodes;
        for i := 0 to |out|
          invariant (nodes, q) == Visit(out[..i], d, before, rest)
        {
          assert out[..i + 1][..i] == out[..i];
          if out[i].dst !in nodes {
            nodes := nodes + {out[i].dst};
            q := q + [(out[i].dst, d + 1)];
          }
        }
        assert out[..|out|] == out;
        edges := edges + out;
      }
    }
    found := Found(nodes, edges);
  }

  lemma {:induction false} VisitMeaning<T>(out: seq<Edge<T>>, d: nat, nodes: set<T>, q: seq<(T, nat)>)
    ensures var r := Visit(out, d, nodes, q);
      && r.0 == nodes + Targets(out) && q <= r.1
      && (forall i :: |q| <= i < |r.1| ==> r.1[i].1 == d + 1 && r.1[i].0 in r.0 && r.1[i].0 !in nodes)
      && (forall x :: x in r.0 && x !in nodes ==> exists i :: |q| <= i < |r.1| && r.1[i].0 == x)
  {
    if |out| > 0 {
      VisitMeaning(out[..|out| - 1], d, nodes, q);
      var (n, s) := Visit(out[..|out| - 1], d, nodes, q);
      var v := out[|out| - 1].dst;
      var r := Visit(out, d, nodes, q);
      forall x | x in r.0 && x !in nodes
        ensures exists i :: |q| <= i < |r.1| && r.1[i].0 == x
      {
        if x in n {
          var i :| |q| <= i < |s| && s[i].0 == x;
          assert r.1[i] == s[i];
        } else {
          assert r.1[|s|].0 == x;
        }
      }
    }
  }

  // ----- depths stay below the number of nodes -----

  /** Every depth above zero has a node one level higher. */
  predicate Layered<T(==)>(dep: map<T, nat>) {
    forall x :: x in dep && dep[x] > 0 ==> HasDepth(dep, dep[x] - 1)
  }

  predicate HasDepth<T(==)>(dep: map<T, nat>, d: int) {
    exists y :: y in dep && dep[y] == d
  }

  lemma {:induction false} LayersCount<T>(dep: map<T, nat>, d: nat)
    requires Layered(dep) && HasDepth(dep, d)
    ensures |set x | x in dep && dep[x] <= d| >= d + 1
  {
    var y :| y in dep && dep[y] == d;
    var here := set x | x in dep && dep[x] <= d;
    if d == 0 {
      assert y in here;
    } else {
      LayersCount(dep, d - 1);
      var above := set x | x in dep && dep[x] <= d - 1;
      assert y !in above && above + {y} <= here;
      SubsetSize(above + {y}, here);
    }
  }

  lemma {:induction false} SubsetSize<T>(a: set<T>, b: set<T>)
    requires a <= b
    ensures |a| <= |b|
  {
    if a != {} {
      var x :| x in a;
      SubsetSize(a - {x}, b - {x});
    }
  }

  lemma DepthBelow<T>(dep: map<T, nat>, x: T, all: set<T>)
    requires Layered(dep) && x in dep && dep.Keys <= all
    ensures dep[x] < |all|
  {
    LayersCount(dep, dep[x]);
    SubsetSize((set y | y in dep && dep[y] <= dep[x]), all);
  }

  // ----- with room for every node, collection is complete -----

  /** Where collection stands: what is found is reachable; a found node is on the stack or done,
      and a done one has all its edges and their targets found. */
  ghost predicate Standing<T(!new)>(es: seq<Edge<T>>, root: T, q: seq<(T, nat)>, found: Found<T>, done: set<T>,
                                    dep: map<T, nat>) {
    && root in found.nodes && dep.Keys == found.nodes && done <= found.nodes && Layered(dep)
    && (forall x :: x in found.nodes ==> Within(es, root, x))
    && (forall i :: 0 <= i < |q| ==> q[i].0 in found.nodes && dep[q[i].0] == q[i].1)
    && (forall x :: x in found.nodes && x !in done ==> OnStack(q, x))
    && (forall i :: 0 <= i < |es| && es[i].src in done ==> es[i].dst in found.nodes && es[i] in found.edges)
    && (forall e :: e in found.edges ==> e in es && e.src in found.nodes && e.dst in found.nodes)
  }

  predicate OnStack<T(==)>(q: seq<(T, nat)>, x: T) { exists i :: 0 <= i < |q| && q[i].0 == x }

  /** Depths after u was expanded at depth d. */
  function Deeper<T>(dep: map<T, nat>, nodes: set<T>, d: nat): map<T, nat> {
    map x | x in nodes :: if x in dep then dep[x] else d + 1
  }

  lemma DeeperLayered<T>(dep: map<T, nat>, nodes: set<T>, d: nat)
    requires Layered(dep) && HasDepth(dep, d) && dep.Keys <= nodes
    ensures Layered(Deeper(dep, nodes, d))
  {
    var deeper := Deeper(dep, nodes, d);
    forall x | x in deeper && deeper[x] > 0
      ensures HasDepth(deeper, deeper[x] - 1)
    {
      var y :| y in dep && dep[y] == deeper[x] - 1;
      assert y in deeper && deeper[y] == dep[y];
    }
  }

  lemma ExpandStanding<T(!new)>(es: seq<Edge<T>>, root: T, q: seq<(T, nat)>, found: Found<T>, done: set<T>,
                                dep: map<T, nat>)
    returns (next: map<T, nat>)
    requires Standing(es, root, q, found, done, dep) && |q| > 0
    ensures var (u, d) := q[|q| - 1];
      var out := OutOf(es, u);
      var (n, s) := Visit(out, d, found.nodes, q[..|q| - 1]);
      Standing(es, root, s, Found(n, found.edges + out), done + {u}, next)
  {
    var (u, d) := q[|q| - 1];
    var rest := q[..|q| - 1];
    var out := OutOf(es, u);
    var (n, s) := Visit(out, d, found.nodes, rest);
    VisitMeaning(out, d, found.nodes, rest);
    OutOfMeaning(es, u);
    next := Deeper(dep, n, d);
    assert dep[u] == d;
    DeeperLayered(dep, n, d);
    forall x | x in n
      ensures Within(es, root, x)
    {
      if x !in found.nodes {
        var i := TargetAt(out, x);
        assert HasEdge(es, u, x);
        ReachesSnoc(es, root, u, x);
      }
    }
    forall x | x in n && x !in done + {u}
      ensures OnStack(s, x)
    {
      if x in found.nodes {
        var i :| 0 <= i < |q| && q[i].0 == x;
        assert s[i] == q[i];
      } else {
        var i :| |rest| <= i < |s| && s[i].0 == x;
      }
    }
    forall i | 0 <= i < |es| && es[i].src in done + {u}
      ensures es[i].dst in n && es[i] in found.edges + out
    {
      if es[i].src == u { EdgeListed(es, u, i); }
    }
  }

  lemma {:induction false} TargetAt<T>(out: seq<Edge<T>>, x: T) returns (i: nat)
    requires x in Targets(out)
    ensures i < |out| && out[i].dst == x
  {
    if out[|out| - 1].dst == x { i := |out| - 1; } else { i := TargetAt(out[..|out| - 1], x); }
  }

  lemma {:induction false} EdgeListed<T>(es: seq<Edge<T>>, u: T, i: nat)
    requires i < |es| && es[i].src == u
    ensures es[i] in OutOf(es, u) && es[i].dst in Targets(OutOf(es, u))
  {
    hide OutOf;
    hide Targets;
    var front := es[..|es| - 1];
    if i < |front| {
      assert front[i] == es[i];
      EdgeListed(front, u, i);
    }
    OutOfSnoc(front, es[|es| - 1], u);
    assert es == front + [es[|es| - 1]];
  }

  lemma OutOfSnoc<T>(es: seq<Edge<T>>, e: Edge<T>, u: T)
    ensures OutOf(es + [e], u) == if e.src == u then OutOf(es, u) + [e] else OutOf(es, u)
    ensures Targets(OutOf(es, u) + [e]) == Targets(OutOf(es, u)) + {e.dst}
  {
    assert (es + [e])[..|es|] == es;
    assert (OutOf(es, u) + [e])[..|OutOf(es, u)|] == OutOf(es, u);
  }

  lemma {:induction false} CollectComplete<T(!new)>(es: seq<Edge<T>>, root: T, max: nat, q: seq<(T, nat)>,
                                                    found: Found<T>, done: set<T>, dep: map<T, nat>)
    requires found.nodes <= Targets(es) + {root} && |Targets(es) + {root}| <= max
    requires Standing(es, root, q, found, done, dep)
    ensures var r := Collect(es, root, max, q, found); Standing(es, root, [], r, r.nodes, map x | x in r.nodes :: 0)
    decreases Targets(es) + {root} - found.nodes, |q|
  {
    hide Standing;
    hide Visit;
    hide OutOf;
    hide Targets;
    if |q| == 0 {
      StandingDone(es, root, q, found, done, dep);
    } else {
      var (u, d) := q[|q| - 1];
      LastDepth(es, root, q, found, done, dep);
      var out := OutOf(es, u);
      var (n, s) := Visit(out, d, found.nodes, q[..|q| - 1]);
      OutOfTargets(es, u);
      var next := ExpandStanding(es, root, q, found, done, dep);
      CollectComplete(es, root, max, s, Found(n, found.edges + out), done + {u}, next);
    }
  }

  lemma StandingDone<T(!new)>(es: seq<Edge<T>>, root: T, q: seq<(T, nat)>, found: Found<T>, done: set<T>,
                              dep: map<T, nat>)
    requires |q| == 0 && Standing(es, root, q, found, done, dep)
    ensures Standing(es, root, [], found, found.nodes, map x | x in found.nodes :: 0)
  {
    assert forall x :: x in found.nodes ==> x in done;
    assert done == found.nodes;
  }

  lemma LastDepth<T(!new)>(es: seq<Edge<T>>, root: T, q: seq<(T, nat)>, found: Found<T>, done: set<T>, dep: map<T, nat>)
    requires |q| > 0 && Standing(es, root, q, found, done, dep) && found.nodes <= Targets(es) + {root}
    ensures q[|q| - 1].1 < |Targets(es) + {root}|
  {
    DepthBelow(dep, q[|q| - 1].0, Targets(es) + {root});
  }

  lemma {:induction false} ClosedReach<T(!new)>(es: seq<Edge<T>>, nodes: set<T>, p: seq<T>)
    requires forall i :: 0 <= i < |es| && es[i].src in nodes ==> es[i].dst in nodes
    requires Walk(es, p) && p[0] in nodes
    ensures p[|p| - 1] in nodes
    decreases |p|
  {
    if |p| > 1 {
      var shorter := p[..|p| - 1];
      assert HasEdge(es, p[|p| - 2], p[|p| - 1]);
      forall m | 0 <= m < |shorter| - 1
        ensures HasEdge(es, shorter[m], shorter[m + 1])
      {
        assert HasEdge(es, p[m], p[m + 1]);
      }
      ClosedReach(es, nodes, shorter);
    }
  }

  /** Exactly what the root reaches is found, with exactly the edges between. */
  ghost predicate Complete<T(!new)>(es: seq<Edge<T>>, root: T, r: Found<T>) {
    && (forall x :: x in r.nodes <==> Within(es, root, x))
    && (forall e :: e in r.edges <==> e in es && Within(es, root, e.src))
  }

  /** With a depth limit of at least the number of artifacts nothing is missed. */
  lemma CollectedExactly<T(!new)>(es: seq<Edge<T>>, root: T, max: nat)
    requires |Targets(es) + {root}| <= max
    ensures Complete(es, root, Collected(es, root, max))
  {
    var start: Found<T> := Found({root}, []);
    assert Standing(es, root, [(root, 0)], start, {}, map[root := 0]) by {
      assert [(root, 0)][0].0 == root;
    }
    CollectComplete(es, root, max, [(root, 0)], start, {}, map[root := 0]);
    var r := Collected(es, root, max);
    forall x | Within(es, root, x)
      ensures x in r.nodes
    {
      if x != root {
        var p :| Leads(es, p, root, x) && |p| > 1;
        ClosedReach(es, r.nodes, p);
      }
    }
    forall e | e in es && Within(es, root, e.src)
      ensures e in r.edges
    {
      var i :| 0 <= i < |es| && es[i] == e;
    }
  }

  /** At any limit, what is found is reachable and holds its edges' ends. */
  ghost predicate Inside<T(!new)>(es: seq<Edge<T>>, root: T, q: seq<(T, nat)>, found: Found<T>) {
    && (forall x :: x in found.nodes ==> Within(es, root, x))
    && (forall i :: 0 <= i < |q| ==> q[i].0 in found.nodes)
    && (forall e :: e in found.edges ==> e in es && e.src in found.nodes && e.dst in found.nodes)
  }

  lemma ExpandInside<T(!new)>(es: seq<Edge<T>>, root: T, q: seq<(T, nat)>, found: Found<T>)
    requires Inside(es, root, q, found) && |q| > 0
    ensures var (u, d) := q[|q| - 1];
      var out := OutOf(es, u);
      var (n, s) := Visit(out, d, found.nodes, q[..|q| - 1]);
      Inside(es, root, s, Found(n, found.edges + out))
  {
    var (u, d) := q[|q| - 1];
    var rest := q[..|q| - 1];
    var out := OutOf(es, u);
    var (n, s) := Visit(out, d, found.nodes, rest);
    VisitMeaning(out, d, found.nodes, rest);
    OutOfMeaning(es, u);
    forall x | x in n
      ensures Within(es, root, x)
    {
      if x !in found.nodes {
        var i := TargetAt(out, x);
        assert HasEdge(es, u, x);
        ReachesSnoc(es, root, u, x);
      }
    }
    forall i | 0 <= i < |s|
      ensures s[i].0 in n
    {
      if i < |rest| { assert s[i] == rest[i]; }
    }
  }

  lemma {:induction false} CollectInside<T(!new)>(es: seq<Edge<T>>, root: T, max: nat, q: seq<(T, nat)>,
                                                  found: Found<T>)
    requires found.nodes <= Targets(es) + {root} && Inside(es, root, q, found)
    ensures Inside(es, root, [], Collect(es, root, max, q, found))
    ensures found.nodes <= Collect(es, root, max, q, found).nodes
    decreases Targets(es) + {root} - found.nodes, |q|
  {
    hide Visit;
    hide OutOf;
    hide Targets;
    if |q| > 0 {
      var (u, d) := q[|q| - 1];
      if d >= max {
        CollectInside(es, root, max, q[..|q| - 1], found);
      } else {
        var out := OutOf(es, u);
        var (n, s) := Visit(out, d, found.nodes, q[..|q| - 1]);
        OutOfTargets(es, u);
        ExpandInside(es, root, q, found);
        CollectInside(es, root, max, s, Found(n, found.edges + out));
      }
    }
  }

  datatype Graph<T> = Graph(artifacts: seq<T>, edges: seq<Edge<T>>, hasCycle: bool)

  /** The collected nodes, each once, dependencies first unless the collected edges have a
      cycle; all that the root reaches when the limit leaves room. */
  method BuildArtifactGraph<T(==, !new)>(es: seq<Edge<T>>, root: T, max: nat) returns (g: Graph<T>)
    ensures var found := Collected(es, root, max);
      && NoRepeats(g.artifacts) && (forall x :: x in g.artifacts <==> x in found.nodes) && g.edges == found.edges
      && root in g.artifacts && forall x :: x in g.artifacts ==> Within(es, root, x)
    ensures g.hasCycle <==> Cyclic(g.edges)
    ensures !g.hasCycle ==> DepsFirst(g.edges, g.artifacts)
    ensures |Targets(es) + {root}| <= max ==>
      && (forall x :: x in g.artifacts <==> Within(es, root, x))
      && forall e :: e in g.edges <==> e in es && Within(es, root, e.src)
  {
    hide Collect;
    hide Targets;
    var found := CollectGraph(es, root, max);
    CollectInside(es, root, max, [(root, 0)], Found({root}, []));
    if |Targets(es) + {root}| <= max { CollectedExactly(es, root, max); }
    var order, cycle := Order(found.edges, found.nodes);
    g := Graph(order, found.edges, cycle);
  }

  // ----- without that room a near node can be missed -----

  function To(u: int, v: int): Edge<int> { Edge(u, v, "") }

  const DETOUR_1: seq<Edge<int>> := [] + [To(0, 1)]
  const DETOUR_2: seq<Edge<int>> := DETOUR_1 + [To(0, 2)]
  const DETOUR_3: seq<Edge<int>> := DETOUR_2 + [To(2, 3)]
  const DETOUR_4: seq<Edge<int>> := DETOUR_3 + [To(3, 4)]
  const DETOUR_5: seq<Edge<int>> := DETOUR_4 + [To(1, 4)]

  /** Two edges and then a third lead from 0 to 4 the long way, by 2 and 3; the short way is by 1. */
  const DETOUR: seq<Edge<int>> := DETOUR_5 + [To(4, 5)]

  function Put(out: seq<Edge<int>>, e: Edge<int>, u: int): seq<Edge<int>> {
    if e.src == u then out + [e] else out
  }

  lemma PutStep(es: seq<Edge<int>>, e: Edge<int>, u: int)
    ensures OutOf(es + [e], u) == Put(OutOf(es, u), e, u)
  {
    OutOfSnoc(es, e, u);
  }

  lemma OutSteps(u: int)
    ensures var half := Put(Put(Put([], To(0, 1), u), To(0, 2), u), To(2, 3), u);
      OutOf(DETOUR, u) == Put(Put(Put(half, To(3, 4), u), To(1, 4), u), To(4, 5), u)
  {
    assert OutOf<int>([], u) == [];
    hide OutOf;
    hide Put;
    PutStep([], To(0, 1), u);
    PutStep(DETOUR_1, To(0, 2), u);
    PutStep(DETOUR_2, To(2, 3), u);
    PutStep(DETOUR_3, To(3, 4), u);
    PutStep(DETOUR_4, To(1, 4), u);
    PutStep(DETOUR_5, To(4, 5), u);
  }

  lemma DetourOut()
    ensures OutOf(DETOUR, 0) == [To(0, 1), To(0, 2)] && OutOf(DETOUR, 1) == [To(1, 4)]
    ensures OutOf(DETOUR, 2) == [To(2, 3)] && OutOf(DETOUR, 3) == [To(3, 4)]
  {
    hide OutOf;
    OutSteps(0);
    OutSteps(1);
    OutSteps(2);
    OutSteps(3);
  }

  lemma VisitOne<T>(e: Edge<T>, d: nat, nodes: set<T>, q: seq<(T, nat)>)
    ensures Visit([e], d, nodes, q) == if e.dst in nodes then (nodes, q) else (nodes + {e.dst}, q + [(e.dst, d + 1)])
  {
    assert [e][..0] == [];
    assert Visit([e][..0], d, nodes, q) == (nodes, q);
  }

  /** One step of collection. */
  lemma CollectStep<T>(es: seq<Edge<T>>, root: T, max: nat, q: seq<(T, nat)>, u: T, d: nat, found: Found<T>)
    requires found.nodes <= Targets(es) + {root}
    ensures d >= max ==> Collect(es, root, max, q + [(u, d)], found) == Collect(es, root, max, q, found)
    ensures d < max ==>
      var (n, s) := Visit(OutOf(es, u), d, found.nodes, q);
      n <= Targets(es) + {root} &&
      Collect(es, root, max, q + [(u, d)], found) == Collect(es, root, max, s, Found(n, found.edges + OutOf(es, u)))
  {
    var whole := q + [(u, d)];
    assert whole[..|whole| - 1] == q && whole[|whole| - 1] == (u, d);
    OutOfTargets(es, u);
  }

  lemma CollectEnd<T>(es: seq<Edge<T>>, root: T, max: nat, found: Found<T>)
    requires found.nodes <= Targets(es) + {root}
    ensures Collect(es, root, max, [], found) == found
  {
  }

  lemma DetourWalk()
    ensures Leads(DETOUR, [0, 1, 4, 5], 0, 5)
  {
    assert HasEdge(DETOUR, 0, 1) by { assert DETOUR[0] == To(0, 1); }
    assert HasEdge(DETOUR, 1, 4) by { assert DETOUR[4] == To(1, 4); }
    assert HasEdge(DETOUR, 4, 5) by { assert DETOUR[5] == To(4, 5); }
  }

  /** Node 5 is three edges from node 0, but with a limit of three it is not collected: node 4
      is first met at depth three, on the longer way round. */
  lemma DetourMisses()
    ensures 5 !in Collected(DETOUR, 0, 3).nodes
    ensures Leads(DETOUR, [0, 1, 4, 5], 0, 5)
  {
    DetourWalk();
    assert Collected(DETOUR, 0, 3) == Collect(DETOUR, 0, 3, [] + [(0, 0)], Found({0}, []));
    hide Collect;
    hide Visit;
    hide OutOf;
    hide Targets;
    hide Leads;
    var f3 := DetourStart();
    VisitOne(To(1, 4), 1, f3.nodes, []);
    DetourOut();
    CollectStep(DETOUR, 0, 3, [], 1, 1, f3);
    CollectEnd(DETOUR, 0, 3, Found(f3.nodes, f3.edges + [To(1, 4)]));
  }

  /** Down to node 4 by the long way. */
  lemma DetourStart() returns (found: Found<int>)
    ensures found.nodes == {0, 1, 2, 3, 4} && found.nodes <= Targets(DETOUR) + {0}
    ensures Collect(DETOUR, 0, 3, [] + [(0, 0)], Found({0}, [])) == Collect(DETOUR, 0, 3, [] + [(1, 1)], found)
  {
    hide Collect;
    hide Visit;
    hide OutOf;
    hide Targets;
    DetourOut();
    var f0: Found<int> := Found({0}, []);
    VisitTwo(To(0, 1), To(0, 2), 0, {0}, []);
    CollectStep(DETOUR, 0, 3, [], 0, 0, f0);
    var f1 := Found({0} + {1} + {2}, f0.edges + [To(0, 1), To(0, 2)]);
    var q := [] + [(1, 1)];
    VisitOne(To(2, 3), 1, f1.nodes, q);
    CollectStep(DETOUR, 0, 3, q, 2, 1, f1);
    var f2 := Found(f1.nodes + {3}, f1.edges + [To(2, 3)]);
    VisitOne(To(3, 4), 2, f2.nodes, q);
    CollectStep(DETOUR, 0, 3, q, 3, 2, f2);
    found := Found(f2.nodes + {4}, f2.edges + [To(3, 4)]);
    CollectStep(DETOUR, 0, 3, q, 4, 3, found);
  }

  lemma VisitTwo(e: Edge<int>, g: Edge<int>, d: nat, nodes: set<int>, q: seq<(int, nat)>)
    requires e.dst !in nodes && g.dst !in nodes && e.dst != g.dst
    ensures Visit([e, g], d, nodes, q) == (nodes + {e.dst} + {g.dst}, q + [(e.dst, d + 1)] + [(g.dst, d + 1)])
  {
    assert [e, g][..1] == [e];
    VisitOne(e, d, nodes, q);
  }

  // ----- that much room is needed -----

  /** 0 -> 1 -> ... -> k. */
  function Chain(k: nat): seq<Edge<int>> { if k == 0 then [] else Chain(k - 1) + [To(k - 1, k)] }

  /** A chain through n nodes and back to the first. */
  function Ring(n: nat): (es: seq<Edge<int>>)
    requires n > 0
    ensures |es| == n
  {
    ChainMeaning(n - 1, 0);
    Chain(n - 1) + [To(n - 1, 0)]
  }

  function Upto(n: nat): set<int> { if n == 0 then {} else Upto(n - 1) + {n - 1} }

  lemma {:induction false} UptoSize(n: nat)
    ensures |Upto(n)| == n && forall i :: i in Upto(n) <==> 0 <= i < n
  {
    if n > 0 { UptoSize(n - 1); }
  }

  lemma TargetsSnoc<T>(es: seq<Edge<T>>, e: Edge<T>)
    ensures Targets(es + [e]) == Targets(es) + {e.dst}
  {
    assert (es + [e])[..|es|] == es;
  }

  lemma {:induction false} ChainMeaning(k: nat, u: int)
    ensures OutOf(Chain(k), u) == if 0 <= u < k then [To(u, u + 1)] else []
    ensures |Chain(k)| == k && forall i :: 0 <= i < k ==> Chain(k)[i] == To(i, i + 1)
    ensures Targets(Chain(k)) + {0} == Upto(k + 1)
  {
    hide OutOf;
    hide Targets;
    if k == 0 {
      OutOfNone<int>(u);
      assert Upto(1) == Upto(0) + {0};
    } else {
      ChainMeaning(k - 1, u);
      OutOfSnoc(Chain(k - 1), To(k - 1, k), u);
      TargetsSnoc(Chain(k - 1), To(k - 1, k));
    }
  }

  lemma OutOfNone<T>(u: T)
    ensures OutOf<T>([], u) == [] && Targets<T>([]) == {}
  {
  }

  lemma RingMeaning(n: nat, u: int)
    requires 0 <= u < n
    ensures OutOf(Ring(n), u) == [Ring(n)[u]] && Ring(n)[u] == To(u, if u < n - 1 then u + 1 else 0)
    ensures Targets(Ring(n)) + {0} == Upto(n)
  {
    hide OutOf;
    hide Targets;
    hide Upto;
    ChainMeaning(n - 1, u);
    OutOfSnoc(Chain(n - 1), To(n - 1, 0), u);
    TargetsSnoc(Chain(n - 1), To(n - 1, 0));
  }

  lemma {:induction false} RingWithin(n: nat, u: nat)
    requires u < n
    ensures Within(Ring(n), 0, u)
  {
    if u > 0 {
      RingWithin(n, u - 1);
      RingMeaning(n, u - 1);
      hide Ring;
      assert Ring(n)[u - 1] == To(u - 1, u);
      assert HasEdge(Ring(n), u - 1, u);
      ReachesSnoc(Ring(n), 0, u - 1, u);
    }
  }

  /** Around the ring no edge out of the node at the limit is taken up. */
  lemma {:induction false} RingCollect(n: nat, max: nat, i: nat, found: Found<int>)
    requires i <= max < n && found.nodes == Upto(i + 1) && found.nodes <= Targets(Ring(n)) + {0}
    requires forall e :: e in found.edges ==> e.src < max
    ensures forall e :: e in Collect(Ring(n), 0, max, [] + [(i as int, i)], found).edges ==> e.src < max
    decreases max - i
  {
    hide Collect;
    hide Visit;
    hide OutOf;
    hide Targets;
    hide Ring;
    CollectStep(Ring(n), 0, max, [], i as int, i, found);
    if i == max {
      CollectEnd(Ring(n), 0, max, found);
    } else {
      RingMeaning(n, i);
      VisitOne(To(i, i + 1), i, found.nodes, []);
      UptoSize(i + 1);
      RingCollect(n, max, i + 1, Found(found.nodes + {i + 1}, found.edges + [To(i, i + 1)]));
    }
  }

  lemma RingMisses(n: nat, max: nat)
    requires max < n
    ensures |Targets(Ring(n)) + {0}| == n && !Complete(Ring(n), 0, Collected(Ring(n), 0, max))
  {
    RingMeaning(n, max);
    RingWithin(n, max);
    UptoSize(n);
    assert 0 in Upto(n);
    assert Upto(1) == Upto(0) + {0};
    hide Collect;
    hide Ring;
    hide Targets;
    hide OutOf;
    hide Within;
    hide Upto;
    RingCollect(n, max, 0, Found({0}, []));
    var none: seq<(int, nat)> := [];
    assert none + [(0, 0)] == [(0, 0)];
    var e := Ring(n)[max];
    assert e in Ring(n) && e.src == max;
  }

  /** Whatever graph of n artifacts is given, nothing is missed exactly when the limit is at
      least n. */
  lemma LimitExactly(n: nat, max: nat)
    requires n > 0
    ensures (forall es: seq<Edge<int>>, root: int :: |Targets(es) + {root}| == n ==>
               Complete(es, root, Collected(es, root, max))) <==> n <= max
  {
    hide Complete;
    hide Collected;
    if n <= max {
      forall es: seq<Edge<int>>, root: int | |Targets(es) + {root}| == n
        ensures Complete(es, root, Collected(es, root, max))
      {
        CollectedExactly(es, root, max);
      }
    } else {
      RingMisses(n, max);
    }
  }
}
