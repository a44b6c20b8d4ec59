/** What an evaluation's trace and residual say: a row for each node, and what the holes add up to. */
module Traces {
  import X = ExtReal
  import opened ExtReal
  import opened Interval
  import opened Ast
  import opened Holes
  import opened Enclosure
  import opened Reals

  function Nodes(n: Node): nat {
    match n
    case Const(_) => 1
    case Var(_, _) => 1
    case Oper(_, args) => 1 + NodesAll(args)
    case Call(_, args) => 1 + NodesAll(args)
    case Hole(_, _, _, args) => 1 + NodesAll(args)
    case Disj(cands) => 1 + NodesAll(cands)
  }

  function NodesAll(ns: seq<Node>): nat {
    if |ns| == 0 then 0 else NodesAll(ns[..|ns| - 1]) + Nodes(ns[|ns| - 1])
  }

  /** The row tells its node's enclosure and that one's width, and whether the node is a hole. */
  predicate Telling(f: Fpu, box: Box, ht: HoleTable, row: TraceRow) {
    && WellFormed(row.node) && row.encl == Encl(f, row.node, box, ht)
    && row.width == Width(f, row.encl) && (row.holed <==> row.node.Hole?)
    && row.regime == (if row.node.Hole? then row.node.regime else 'A')
  }

  predicate AllTelling(f: Fpu, box: Box, ht: HoleTable, rows: seq<TraceRow>) {
    forall i :: 0 <= i < |rows| ==> Telling(f, box, ht, rows[i])
  }

  lemma JoinedTelling(f: Fpu, box: Box, ht: HoleTable, rows: seq<TraceRow>, more: seq<TraceRow>)
    requires AllTelling(f, box, ht, rows) && AllTelling(f, box, ht, more)
    ensures AllTelling(f, box, ht, rows + more)
  {
    hide Telling;
  }

  lemma OneTelling(f: Fpu, box: Box, ht: HoleTable, n: Node)
    requires WellFormed(n)
    ensures AllTelling(f, box, ht, [RowOf(f, n, Encl(f, n, box, ht))])
  {
    hide Encl;
    hide Width;
  }

  /** As many rows as nodes, each telling, the last one the root's. */
  lemma {:induction false} TraceMeaning(f: Fpu, n: Node, box: Box, ht: HoleTable)
    requires WellFormed(n)
    ensures var rows := TraceOf(f, n, box, ht);
      |rows| == Nodes(n) && AllTelling(f, box, ht, rows) && rows[|rows| - 1].node == n
    decreases n, 1
  {
    hide Encl;
    hide Telling;
    OneTelling(f, box, ht, n);
    hide AllTelling;
    var row := RowOf(f, n, Encl(f, n, box, ht));
    match n
    case Const(_) =>
    case Var(_, _) =>
    case Oper(_, args) =>
      TracesMeaning(f, args, box, ht);
      JoinedTelling(f, box, ht, TraceAll(f, args, box, ht), [row]);
    case Call(_, args) =>
      TracesMeaning(f, args, box, ht);
      JoinedTelling(f, box, ht, TraceAll(f, args, box, ht), [row]);
    case Hole(_, _, _, args) =>
      TracesMeaning(f, args, box, ht);
      JoinedTelling(f, box, ht, TraceAll(f, args, box, ht), [row]);
    case Disj(cands) =>
      TracesMeaning(f, cands, box, ht);
      JoinedTelling(f, box, ht, TraceAll(f, cands, box, ht), [row]);
  }

  lemma {:induction false} TracesMeaning(f: Fpu, ns: seq<Node>, box: Box, ht: HoleTable)
    requires AllWellFormed(ns)
    ensures |TraceAll(f, ns, box, ht)| == NodesAll(ns) && AllTelling(f, box, ht, TraceAll(f, ns, box, ht))
    decreases ns, 0
  {
    hide TraceOf;
    hide Telling;
    if |ns| > 0 {
      var front, last := ns[..|ns| - 1], ns[|ns| - 1];
      TracesMeaning(f, front, box, ht);
      TraceMeaning(f, last, box, ht);
      JoinedTelling(f, box, ht, TraceAll(f, front, box, ht), TraceOf(f, last, box, ht));
    }
  }

  // ----- the residual -----

  /** What a row's node adds to the residual: nothing unless it is a hole. */
  function Share(f: Fpu, box: Box, ht: HoleTable, acc: XR, row: TraceRow): XR {
    if row.node.Hole? && WellFormed(row.node) then
      X.Add(acc, HoleEval(f, ht, row.node.id, row.node.phys, EnclAll(f, row.node.args, box, ht)).residual)
    else acc
  }

  function Shares(f: Fpu, box: Box, ht: HoleTable, acc: XR, rows: seq<TraceRow>): XR {
    if |rows| == 0 then acc
    else Share(f, box, ht, Shares(f, box, ht, acc, rows[..|rows| - 1]), rows[|rows| - 1])
  }

  lemma {:induction false} SharesJoin(f: Fpu, box: Box, ht: HoleTable, acc: XR, rows: seq<TraceRow>,
                                      more: seq<TraceRow>)
    ensures Shares(f, box, ht, acc, rows + more) == Shares(f, box, ht, Shares(f, box, ht, acc, rows), more)
  {
    hide Share;
    if |more| == 0 {
      assert rows + more == rows;
    } else {
      assert (rows + more)[..|rows + more| - 1] == rows + more[..|more| - 1];
      SharesJoin(f, box, ht, acc, rows, more[..|more| - 1]);
    }
  }

  lemma OneShare(f: Fpu, box: Box, ht: HoleTable, acc: XR, row: TraceRow)
    ensures Shares(f, box, ht, acc, [row]) == Share(f, box, ht, acc, row)
  {
    hide Share;
    assert [row][..0] == [];
  }

  /** The residual is what the trace's holes add up to, in the order of the rows. */
  lemma {:induction false} ResidualMeaning(f: Fpu, n: Node, box: Box, ht: HoleTable, acc: XR)
    requires WellFormed(n)
    ensures ResidualFrom(f, n, box, ht, acc) == Shares(f, box, ht, acc, TraceOf(f, n, box, ht))
    decreases n, 1
  {
    hide Encl;
    hide Shares;
    hide HoleEval;
    var row := RowOf(f, n, Encl(f, n, box, ht));
    match n
    case Const(_) => OneShare(f, box, ht, acc, row); assert TraceOf(f, n, box, ht) == [row];
    case Var(_, _) => OneShare(f, box, ht, acc, row); assert TraceOf(f, n, box, ht) == [row];
    case Oper(_, args) => LastShare(f, n, args, box, ht, acc);
    case Call(_, args) => LastShare(f, n, args, box, ht, acc);
    case Hole(_, _, _, args) => LastShare(f, n, args, box, ht, acc);
    case Disj(cands) => LastShare(f, n, cands, box, ht, acc);
  }

  lemma LastShare(f: Fpu, n: Node, ns: seq<Node>, box: Box, ht: HoleTable, acc: XR)
    requires AllWellFormed(ns) && WellFormed(n)
    ensures var row := RowOf(f, n, Encl(f, n, box, ht));
      Shares(f, box, ht, acc, TraceAll(f, ns, box, ht) + [row])
      == Share(f, box, ht, ResidualAll(f, ns, box, ht, acc), row)
    decreases ns, 1
  {
    hide Encl;
    hide Shares;
    hide Share;
    hide TraceAll;
    hide ResidualAll;
    var row := RowOf(f, n, Encl(f, n, box, ht));
    ResidualsMeaning(f, ns, box, ht, acc);
    SharesJoin(f, box, ht, acc, TraceAll(f, ns, box, ht), [row]);
    OneShare(f, box, ht, ResidualAll(f, ns, box, ht, acc), row);
  }

  lemma {:induction false} ResidualsMeaning(f: Fpu, ns: seq<Node>, box: Box, ht: HoleTable, acc: XR)
    requires AllWellFormed(ns)
    ensures ResidualAll(f, ns, box, ht, acc) == Shares(f, box, ht, acc, TraceAll(f, ns, box, ht))
    decreases ns, 0
  {
    hide TraceOf;
    hide ResidualFrom;
    hide Share;
    if |ns| > 0 {
      var front, last := ns[..|ns| - 1], ns[|ns| - 1];
      ResidualsMeaning(f, front, box, ht, acc);
      ResidualMeaning(f, last, box, ht, ResidualAll(f, front, box, ht, acc));
      SharesJoin(f, box, ht, acc, TraceAll(f, front, box, ht), TraceOf(f, last, box, ht));
    }
  }

  // ----- one hole -----

  /** r is how far the numbers of a lie from its middle at most. */
  predicate Halfway(a: Ival, r: real) {
    Finite(a) && a.hi.r - a.lo.r == 2.0 * r
  }

  /** A wrapper that answers is believed, enclosure and residual; otherwise the physical range stands in,
      the table's before the node's, and half its width is the residual, unbounded for the whole line. */
  lemma HoleAnswers(f: Fpu, ht: HoleTable, id: string, fallback: Ival, ins: seq<Ival>, r: real)
    requires Exact(f)
    ensures var e := HoleEval(f, ht, id, fallback, ins);
      var range := if id in ht.phys then ht.phys[id] else fallback;
      if id in ht.wrappers && !ht.wrappers[id](ins).refuted && !IsEmpty(ht.wrappers[id](ins).encl)
      then e == ht.wrappers[id](ins)
      else
        && e.encl == range && !e.refuted
        && (range == ENTIRE ==> e.residual == PosInf)
        && (Proper(range) && Halfway(range, r) ==> e.residual == Fin(r))
  {
  }

  /** Width and middle of a bounded interval: no two of its numbers are further apart than its ends,
      and none is further from the middle than half of that. */
  lemma WidthMeaning(f: Fpu, a: Ival, x: real, y: real)
    requires Exact(f) && Proper(a) && Finite(a) && Contains(a, x) && Contains(a, y)
    ensures Width(f, a).Fin? && Mid(a).Fin? && AbsOf(x - y) <= Width(f, a).r && Contains(a, Mid(a).r)
    ensures Contains(a, a.lo.r) && Contains(a, a.hi.r) && Width(f, a).r == a.hi.r - a.lo.r
    ensures Mid(a).r - a.lo.r == a.hi.r - Mid(a).r == Width(f, a).r / 2.0
  {
  }
}
