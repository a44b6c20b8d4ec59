/** What lowering has a graph for: the operators and functions by name, and where a range may stand. */
module Support {
  import A = Ast
  import opened Addresses
  import opened Sequences
  import opened Workbooks
  import opened Meaning
  import opened Lowering

  // ----- what has no graph -----

  predicate Between(x: int, a: int, b: int) { a <= x <= b || b <= x <= a }

  predicate InRange(book: Book, e: Expr, cur: int, id: CellId)
    requires e.RangeRef?
  {
    id.sheet == SheetOf(book, e.sheet, cur) && Between(id.row, e.row, e.endRow) && Between(id.col, e.col, e.endCol)
  }

  /** Something in e that reaches its graph has none: a text, a comparison, a joining of texts, a name
      or a function that is not known, an unreadable formula, or a range where one value is due. */
  ghost predicate Unsupported(book: Book, rank: CellId -> nat, e: Expr, cur: int, k: nat)
    requires Acyclic(book, rank) && Placed(book, rank, e, cur, k)
    decreases k, 1, e, 0
  {
    match e
    case Num(_) => false
    case Str(_) => true
    case CellRef(_, _, _) => UnsupportedCell(book, rank, TargetOf(book, e, cur))
    case RangeRef(_, _, _, _, _) => true
    case NameRef(nm) => nm !in book.names || UnsupportedCell(book, rank, NameTargetFrom(book.names[nm], cur))
    case Un(_, a) => Unsupported(book, rank, a, cur, k)
    case Bin(op, a, b) =>
      || op !in {Plus, Minus, Times, Over, Power}
      || Unsupported(book, rank, a, cur, k) || Unsupported(book, rank, b, cur, k)
    case Call(fn, args) =>
      if fn in {SUM, AVERAGE, MIN, MAX, PRODUCT, SUMSQ} then
        exists i :: 0 <= i < |args| && UnsupportedArg(book, rank, args[i], cur, k)
      else if fn in {ABS, SQRT, EXP, LN, LOG10, SIN, COS, TAN, DEGREES, RADIANS} then
        Unsupported(book, rank, args[0], cur, k)
      else if fn == POWER then
        Unsupported(book, rank, args[0], cur, k) || Unsupported(book, rank, args[1], cur, k)
      else if fn in {LOG, IFERROR} then
        Unsupported(book, rank, args[0], cur, k) || (|args| > 1 && Unsupported(book, rank, args[1], cur, k))
      else if fn == IF then
        Unsupported(book, rank, args[1], cur, k) || (|args| > 2 && Unsupported(book, rank, args[2], cur, k))
      else fn != PI
  }

  /** Only an aggregate takes a range: all its cells. */
  ghost predicate UnsupportedArg(book: Book, rank: CellId -> nat, a: Expr, cur: int, k: nat)
    requires Acyclic(book, rank) && Placed(book, rank, a, cur, k)
    decreases k, 1, a, 1
  {
    if a.RangeRef? then exists id :: InRange(book, a, cur, id) && rank(id) < k && UnsupportedCell(book, rank, id)
    else Unsupported(book, rank, a, cur, k)
  }

  ghost predicate UnsupportedCell(book: Book, rank: CellId -> nat, id: CellId)
    requires Acyclic(book, rank)
    decreases rank(id), 2, 0, 0
  {
    id in book.cells &&
    match book.cells[id].formula
    case Parsed(ast) => rank(id) > 0 && Unsupported(book, rank, ast, id.sheet, rank(id))
    case Unparsable => true
    case NoFormula => false
  }

  // ----- the cells of a range -----

  lemma {:induction false} RowCells(sheet: int, row: int, c0: int, c1: int, id: CellId)
    ensures id in RowIds(sheet, row, c0, c1) <==> id.sheet == sheet && id.row == row && c0 <= id.col <= c1
    decreases c1 - c0
  {
    if c0 <= c1 { RowCells(sheet, row, c0, c1 - 1, id); }
  }

  lemma {:induction false} BlockCells(sheet: int, r0: int, r1: int, c0: int, c1: int, id: CellId)
    ensures id in BlockIds(sheet, r0, r1, c0, c1) <==>
      id.sheet == sheet && r0 <= id.row <= r1 && c0 <= id.col <= c1
    decreases r1 - r0
  {
    if r0 <= r1 {
      BlockCells(sheet, r0, r1 - 1, c0, c1, id);
      RowCells(sheet, r1, c0, c1, id);
    }
  }

  /** A range's cells are those between its corners, whichever corner is written first. */
  lemma RangeCells(book: Book, e: Expr, cur: int, id: CellId)
    requires e.RangeRef?
    ensures id in RangeIds(book, e, cur) <==> InRange(book, e, cur, id)
  {
    BlockCells(SheetOf(book, e.sheet, cur), Smaller(e.row, e.endRow), Larger(e.row, e.endRow),
               Smaller(e.col, e.endCol), Larger(e.col, e.endCol), id);
  }

  // ----- holes, exactly -----

  lemma {:induction false} FlatHoled(xss: seq<seq<Node>>)
    ensures SomeHoled(Flat(xss)) <==> exists i :: 0 <= i < |xss| && SomeHoled(xss[i])
  {
    hide Holed;
    if |xss| > 0 {
      var front, last := xss[..|xss| - 1], xss[|xss| - 1];
      FlatHoled(front);
      JoinedHoled(Flat(front), last);
      assert forall i :: 0 <= i < |front| ==> front[i] == xss[i];
    }
  }

  lemma JoinedHoled(xs: seq<Node>, ys: seq<Node>)
    ensures SomeHoled(xs + ys) <==> SomeHoled(xs) || SomeHoled(ys)
  {
    hide Holed;
    if SomeHoled(xs) {
      var i :| 0 <= i < |xs| && Holed(xs[i]);
      assert (xs + ys)[i] == xs[i];
    }
    if SomeHoled(ys) {
      var i :| 0 <= i < |ys| && Holed(ys[i]);
      assert (xs + ys)[|xs| + i] == ys[i];
    }
  }

  /** The graph of an expression has a hole exactly when something in it has no graph. */
  lemma {:induction false} HolesExactly(book: Book, rank: CellId -> nat, e: Expr, cur: int, k: nat, n: Node)
    requires Acyclic(book, rank) && Placed(book, rank, e, cur, k) && LoweredX(book, rank, e, cur, k, n)
    ensures Holed(n) <==> Unsupported(book, rank, e, cur, k)
    decreases k, 1, e, 3
  {
    hide Acyclic;
    hide LoweredCell;
    hide UnsupportedCell;
    hide LoweredCall;
    match e
    case Num(_) =>
    case Str(_) =>
    case CellRef(_, _, _) => CellHolesExactly(book, rank, TargetOf(book, e, cur), k, n);
    case RangeRef(_, _, _, _, _) =>
    case NameRef(nm) =>
      if nm in book.names { CellHolesExactly(book, rank, NameTargetFrom(book.names[nm], cur), k, n); }
    case Un(_, a) =>
      if e.op.Negate? {
        HolesExactly(book, rank, a, cur, k, n.args[0]);
        Single(n, n.args[0]);
      } else if e.op.Percent? {
        HolesExactly(book, rank, a, cur, k, n.args[0]);
        Pair(n, n.args[0], n.args[1]);
      } else {
        HolesExactly(book, rank, a, cur, k, n);
      }
    case Bin(_, a, b) =>
      if Arithmetic(e.bop) {
        HolesExactly(book, rank, a, cur, k, n.args[0]);
        HolesExactly(book, rank, b, cur, k, n.args[1]);
        Pair(n, n.args[0], n.args[1]);
      }
    case Call(_, _) =>
      PartsPlaced(book, rank, e, cur, k);
      CallHolesExactly(book, rank, e, cur, k, n);
  }

  lemma CallHolesExactly(book: Book, rank: CellId -> nat, e: Expr, cur: int, k: nat, n: Node)
    requires Acyclic(book, rank) && e.Call? && Placed(book, rank, e, cur, k)
    requires |e.args| >= Needs(e.fn) && AllPlaced(book, rank, e.args, cur, k)
    requires LoweredCall(book, rank, e.fn, e.args, cur, k, n)
    ensures Holed(n) <==> Unsupported(book, rank, e, cur, k)
    decreases k, 1, e, 2
  {
    hide Acyclic;
    hide Holed;
    hide ScalarNode;
    hide Operands;
    hide LoweredArgs;
    hide LoweredAll;
    hide AllPlaced;
    hide Placed;
    hide Folded;
    hide Flat;
    if IsFold(e.fn) || e.fn == AVERAGE {
      FoldHolesExactly(book, rank, e, cur, k, n);
    } else if e.fn.OTHER? {
      OpenHoled(n);
    } else {
      hide Unsupported;
      var xs := ScalarParts(book, rank, e, cur, k, n);
      ScalarHolesExactly(book, rank, e, cur, k, xs);
    }
  }

  lemma ScalarParts(book: Book, rank: CellId -> nat, e: Expr, cur: int, k: nat, n: Node) returns (xs: seq<Node>)
    requires Acyclic(book, rank) && e.Call? && IsScalar(e.fn)
    requires |e.args| >= Needs(e.fn) && AllPlaced(book, rank, e.args, cur, k)
    requires LoweredCall(book, rank, e.fn, e.args, cur, k, n)
    ensures LoweredAll(book, rank, e.args, Operands(e.fn, |e.args|), cur, k, xs)
    ensures (e.fn == PI || |xs| > 0) && (e.fn == POWER ==> |xs| > 1) && n == ScalarNode(e.fn, xs)
  {
    hide Acyclic;
    hide LoweredX;
    hide AllPlaced;
    hide ScalarNode;
    xs :| LoweredAll(book, rank, e.args, Operands(e.fn, |e.args|), cur, k, xs) && n == ScalarNode(e.fn, xs);
  }

  lemma FoldHolesExactly(book: Book, rank: CellId -> nat, e: Expr, cur: int, k: nat, n: Node)
    requires Acyclic(book, rank) && e.Call? && Placed(book, rank, e, cur, k) && (IsFold(e.fn) || e.fn == AVERAGE)
    requires |e.args| >= Needs(e.fn) && AllPlaced(book, rank, e.args, cur, k)
    requires LoweredCall(book, rank, e.fn, e.args, cur, k, n)
    ensures Holed(n) <==> exists i :: 0 <= i < |e.args| && UnsupportedArg(book, rank, e.args[i], cur, k)
    decreases k, 1, e, 1
  {
    hide Acyclic;
    hide Holed;
    hide SomeHoled;
    hide Folded;
    hide Flat;
    hide LoweredArgs;
    hide UnsupportedArg;
    hide Placed;
    hide AllPlaced;
    if IsFold(e.fn) {
      var xss :| LoweredArgs(book, rank, e.args, cur, k, xss) && n == Folded(AggOf(e.fn), Flat(xss));
      FoldedFits(AggOf(e.fn), Flat(xss));
      ArgsHolesExactly(book, rank, e, cur, k, xss);
    } else {
      var xss :| LoweredArgs(book, rank, e.args, cur, k, xss) && n == AverageNode(Flat(xss));
      FoldedFits(SumAgg, Flat(xss));
      Leaf(A.Const(|Flat(xss)| as real));
      Pair(n, Folded(SumAgg, Flat(xss)), A.Const(|Flat(xss)| as real));
      ArgsHolesExactly(book, rank, e, cur, k, xss);
    }
  }

  lemma OpenHoled(n: Node)
    requires OpenHole(n)
    ensures Holed(n)
  {
  }

  lemma PartsPlaced(book: Book, rank: CellId -> nat, e: Expr, cur: int, k: nat)
    requires e.Call? && Placed(book, rank, e, cur, k)
    ensures AllPlaced(book, rank, e.args, cur, k) && |e.args| >= Needs(e.fn)
  {
  }

  lemma ScalarHolesExactly(book: Book, rank: CellId -> nat, e: Expr, cur: int, k: nat, xs: seq<Node>)
    requires Acyclic(book, rank) && e.Call? && Placed(book, rank, e, cur, k) && IsScalar(e.fn)
    requires AllPlaced(book, rank, e.args, cur, k) && |e.args| >= Needs(e.fn)
    requires LoweredAll(book, rank, e.args, Operands(e.fn, |e.args|), cur, k, xs)
    ensures Holed(ScalarNode(e.fn, xs)) <==> Unsupported(book, rank, e, cur, k)
    decreases k, 1, e, 1
  {
    hide Acyclic;
    hide Holed;
    hide LoweredX;
    hide ScalarNode;
    hide Placed;
    var js := Operands(e.fn, |e.args|);
    ScalarFits(e.fn, xs);
    forall i | 0 <= i < |js| ensures Holed(xs[i]) <==> Unsupported(book, rank, e.args[js[i]], cur, k) {
      HolesExactly(book, rank, e.args[js[i]], cur, k, xs[i]);
    }
    if |xs| > 0 { OneOrTwo(xs); } else { NoneFits(); assert xs == []; }
  }

  lemma ArgsHolesExactly(book: Book, rank: CellId -> nat, e: Expr, cur: int, k: nat, xss: seq<seq<Node>>)
    requires Acyclic(book, rank) && e.Call? && Placed(book, rank, e, cur, k)
    requires AllPlaced(book, rank, e.args, cur, k) && LoweredArgs(book, rank, e.args, cur, k, xss)
    ensures SomeHoled(Flat(xss)) <==>
      exists i :: 0 <= i < |e.args| && UnsupportedArg(book, rank, e.args[i], cur, k)
    decreases k, 1, e, 0
  {
    hide Acyclic;
    hide SomeHoled;
    hide LoweredArg;
    hide UnsupportedArg;
    hide Placed;
    FlatHoled(xss);
    forall i | 0 <= i < |e.args| ensures SomeHoled(xss[i]) <==> UnsupportedArg(book, rank, e.args[i], cur, k) {
      ArgHolesExactly(book, rank, e.args[i], cur, k, xss[i]);
    }
  }

  lemma ArgHolesExactly(book: Book, rank: CellId -> nat, a: Expr, cur: int, k: nat, xs: seq<Node>)
    requires Acyclic(book, rank) && Placed(book, rank, a, cur, k) && LoweredArg(book, rank, a, cur, k, xs)
    ensures SomeHoled(xs) <==> UnsupportedArg(book, rank, a, cur, k)
    decreases k, 1, a, 4
  {
    hide Acyclic;
    hide Holed;
    hide LoweredX;
    hide LoweredCell;
    hide UnsupportedCell;
    hide InRange;
    hide RangeIds;
    if a.RangeRef? {
      var ids := RangeIds(book, a, cur);
      forall i | 0 <= i < |ids| ensures Holed(xs[i]) <==> UnsupportedCell(book, rank, ids[i]) {
        CellHolesExactly(book, rank, ids[i], k, xs[i]);
      }
      if SomeHoled(xs) {
        var i :| 0 <= i < |xs| && Holed(xs[i]);
        RangeCells(book, a, cur, ids[i]);
      }
      if UnsupportedArg(book, rank, a, cur, k) {
        var id :| InRange(book, a, cur, id) && rank(id) < k && UnsupportedCell(book, rank, id);
        RangeCells(book, a, cur, id);
        var i :| 0 <= i < |ids| && ids[i] == id;
      }
    } else {
      HolesExactly(book, rank, a, cur, k, xs[0]);
    }
  }

  /** The graph of a cell whose references lead to no cycle. */
  lemma CellHolesExactly(book: Book, rank: CellId -> nat, id: CellId, k: nat, n: Node)
    requires Acyclic(book, rank) && RanksBelow(book, rank, id, k) && LoweredCell(book, rank, id, n)
    ensures Holed(n) <==> UnsupportedCell(book, rank, id)
    decreases rank(id), 2, 0, 0
  {
    hide LoweredX;
    hide Unsupported;
    hide Below;
    hide Callable;
    if id in book.cells {
      match book.cells[id].formula
      case Parsed(ast) => HolesExactly(book, rank, ast, id.sheet, rank(id), n);
      case Unparsable => OpenHoled(n);
      case NoFormula =>
    }
  }
}
