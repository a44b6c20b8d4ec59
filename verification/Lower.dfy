/** What it means for a graph to be the lowering of an expression or a cell. */
module Lowering {
  import opened Interval
  import A = Ast
  import opened Addresses
  import opened Sequences
  import opened Workbooks
  import opened Meaning

  type Node = A.Node

  function HoleName(i: nat): string { "h" + Decimal(i) }

  /** The hole that lowering leaves: no arguments, no bounds. */
  ghost predicate OpenHole(n: Node) {
    n.Hole? && n.phys == ENTIRE && |n.args| == 0 && exists i: nat :: n.id == HoleName(i)
  }

  ghost predicate Holed(n: Node) {
    match n
    case Const(_) => false
    case Var(_, _) => false
    case Oper(_, args) => SomeHoled(args)
    case Call(_, args) => SomeHoled(args)
    case Hole(_, _, _, args) => OpenHole(n) || SomeHoled(args)
    case Disj(cands) => SomeHoled(cands)
  }

  ghost predicate SomeHoled(ns: seq<Node>) { exists i :: 0 <= i < |ns| && Holed(ns[i]) }

  const ZERO_NODE: Node := A.Const(0.0)

  // ----- folds -----

  function FoldNode(g: Agg, acc: Node, x: Node): Node {
    match g
    case SumAgg => A.Oper(A.Add, [acc, x])
    case ProductAgg => A.Oper(A.Mul, [acc, x])
    case SquaresAgg => A.Oper(A.Add, [acc, Square(x)])
    case MinAgg => A.Call(A.MinFn, [acc, x])
    case MaxAgg => A.Call(A.MaxFn, [acc, x])
  }

  function Square(x: Node): Node { A.Oper(A.Mul, [x, x]) }

  function Lone(g: Agg, x: Node): Node { if g == SquaresAgg then Square(x) else x }

  /** The left fold of a non-empty list; zero for an empty one. */
  function Folded(g: Agg, xs: seq<Node>): Node {
    if |xs| == 0 then ZERO_NODE
    else if |xs| == 1 then Lone(g, xs[0])
    else FoldNode(g, Folded(g, xs[..|xs| - 1]), xs[|xs| - 1])
  }

  // ----- the relation -----

  function ArithOp(op: BinOp): A.Op
    requires Arithmetic(op)
  {
    match op
    case Plus => A.Add
    case Minus => A.Sub
    case Times => A.Mul
    case Over => A.Div
    case Power => A.Pow
  }

  predicate Arithmetic(op: BinOp) { op == Plus || op == Minus || op == Times || op == Over || op == Power }

  predicate IsOper(n: Node, op: A.Op, arity: nat) { n.Oper? && n.op == op && |n.args| == arity }

  function AggOf(fn: Fn): Agg
    requires IsFold(fn)
  {
    match fn
    case SUM => SumAgg
    case MIN => MinAgg
    case MAX => MaxAgg
    case PRODUCT => ProductAgg
    case SUMSQ => SquaresAgg
  }

  predicate IsFold(fn: Fn) { fn == SUM || fn == MIN || fn == MAX || fn == PRODUCT || fn == SUMSQ }

  function UnaryOp(fn: Fn): A.Op
    requires IsUnary(fn)
  {
    match fn
    case SQRT => A.Sqrt
    case EXP => A.Exp
    case LN => A.Log
    case SIN => A.Sin
    case COS => A.Cos
    case TAN => A.Tan
  }

  predicate IsUnary(fn: Fn) { fn == SQRT || fn == EXP || fn == LN || fn == SIN || fn == COS || fn == TAN }

  function LogOf(x: Node): Node { A.Oper(A.Log, [x]) }

  /** n is the graph of e on sheet cur: the same operators on the graphs of the operands,
      with an open hole exactly where the graph has no counterpart. */
  ghost predicate LoweredX(book: Book, rank: CellId -> nat, e: Expr, cur: int, k: nat, n: Node)
    requires Acyclic(book, rank) && Placed(book, rank, e, cur, k)
    decreases k, 1, e, 1
  {
    match e
    case Num(x) => n == A.Const(x)
    case Str(_) => OpenHole(n)
    case CellRef(_, _, _) => LoweredCell(book, rank, TargetOf(book, e, cur), n)
    case RangeRef(_, _, _, _, _) => OpenHole(n)
    case NameRef(nm) =>
      if nm in book.names then LoweredCell(book, rank, NameTargetFrom(book.names[nm], cur), n) else OpenHole(n)
    case Un(_, _) => LoweredUn(book, rank, e, cur, k, n)
    case Bin(_, _, _) => LoweredBin(book, rank, e, cur, k, n)
    case Call(fn, args) => LoweredCall(book, rank, fn, args, cur, k, n)
  }

  ghost predicate LoweredUn(book: Book, rank: CellId -> nat, e: Expr, cur: int, k: nat, n: Node)
    requires Acyclic(book, rank) && e.Un? && Placed(book, rank, e, cur, k)
    decreases k, 1, e, 0
  {
    match e.op
    case Negate => IsOper(n, A.Neg, 1) && LoweredX(book, rank, e.arg, cur, k, n.args[0])
    case Percent =>
      IsOper(n, A.Mul, 2) && LoweredX(book, rank, e.arg, cur, k, n.args[0]) && n.args[1] == A.Const(0.01)
    case Keep => LoweredX(book, rank, e.arg, cur, k, n)
  }

  ghost predicate LoweredBin(book: Book, rank: CellId -> nat, e: Expr, cur: int, k: nat, n: Node)
    requires Acyclic(book, rank) && e.Bin? && Placed(book, rank, e, cur, k)
    decreases k, 1, e, 0
  {
    if Arithmetic(e.bop) then
      && IsOper(n, ArithOp(e.bop), 2)
      && LoweredX(book, rank, e.left, cur, k, n.args[0]) && LoweredX(book, rank, e.right, cur, k, n.args[1])
    else OpenHole(n)
  }

  ghost predicate LoweredCall(book: Book, rank: CellId -> nat, fn: Fn, args: seq<Expr>, cur: int, k: nat, n: Node)
    requires Acyclic(book, rank) && |args| >= Needs(fn)
    requires AllPlaced(book, rank, args, cur, k)
    decreases k, 1, args, 2
  {
    if IsFold(fn) then
      exists xss :: LoweredArgs(book, rank, args, cur, k, xss) && n == Folded(AggOf(fn), Flat(xss))
    else if fn == AVERAGE then
      exists xss :: LoweredArgs(book, rank, args, cur, k, xss) && n == AverageNode(Flat(xss))
    else if fn.OTHER? then OpenHole(n)
    else
      exists xs :: LoweredAll(book, rank, args, Operands(fn, |args|), cur, k, xs) && n == ScalarNode(fn, xs)
  }

  /** The arguments that reach the graph, by position; the condition of an IF does not. */
  function Operands(fn: Fn, n: nat): (js: seq<nat>)
    requires IsScalar(fn) && n >= Needs(fn)
    ensures forall i :: 0 <= i < |js| ==> js[i] < n
    ensures |js| <= 2 && (|js| == 0 <==> fn == PI) && (fn == POWER ==> |js| == 2) && (|js| == 2 ==> IsBinary(fn))
  {
    if fn == PI then []
    else if fn == POWER then [0, 1]
    else if fn == IF then (if n > 2 then [1, 2] else [1])
    else if (fn == LOG || fn == IFERROR) && n > 1 then [0, 1]
    else [0]
  }

  predicate IsScalar(fn: Fn) { !IsFold(fn) && fn != AVERAGE && !fn.OTHER? }

  predicate IsBinary(fn: Fn) { fn == LOG || fn == POWER || fn == IF || fn == IFERROR }

  function LogQuotient(x: Node, y: Node): Node { A.Oper(A.Div, [LogOf(x), LogOf(y)]) }

  /** The graph of a function of single values. */
  function ScalarNode(fn: Fn, xs: seq<Node>): Node
    requires IsScalar(fn) && (fn == PI || |xs| > 0) && (fn == POWER ==> |xs| > 1)
  {
    if fn == PI then A.Const(PI_VALUE)
    else if IsUnary(fn) then A.Oper(UnaryOp(fn), [xs[0]])
    else if fn == ABS then A.Call(A.AbsFn, [xs[0]])
    else if fn == LOG then LogQuotient(xs[0], if |xs| > 1 then xs[1] else A.Const(10.0))
    else if fn == LOG10 then LogQuotient(xs[0], A.Const(10.0))
    else if fn == DEGREES then A.Oper(A.Mul, [xs[0], A.Const(180.0 / PI_VALUE)])
    else if fn == RADIANS then A.Oper(A.Mul, [xs[0], A.Const(PI_VALUE / 180.0)])
    else if fn == POWER then A.Oper(A.Pow, [xs[0], xs[1]])
    else A.Disj([xs[0], if |xs| > 1 then xs[1] else ZERO_NODE])
  }

  ghost predicate LoweredAll(book: Book, rank: CellId -> nat, args: seq<Expr>, js: seq<nat>, cur: int, k: nat,
                             xs: seq<Node>)
    requires Acyclic(book, rank)
    requires AllPlaced(book, rank, args, cur, k)
    requires forall i :: 0 <= i < |js| ==> js[i] < |args|
    decreases k, 1, args, 1
  {
    |xs| == |js| && forall i :: 0 <= i < |js| ==> LoweredX(book, rank, args[js[i]], cur, k, xs[i])
  }

  function AverageNode(xs: seq<Node>): Node {
    A.Oper(A.Div, [Folded(SumAgg, xs), A.Const(|xs| as real)])
  }

  /** The graphs of an aggregate's arguments, a range giving one for each cell. */
  ghost predicate LoweredArgs(book: Book, rank: CellId -> nat, args: seq<Expr>, cur: int, k: nat, xss: seq<seq<Node>>)
    requires Acyclic(book, rank)
    requires AllPlaced(book, rank, args, cur, k)
    decreases k, 1, args, 1
  {
    |xss| == |args| && forall i :: 0 <= i < |args| ==> LoweredArg(book, rank, args[i], cur, k, xss[i])
  }

  ghost predicate LoweredArg(book: Book, rank: CellId -> nat, a: Expr, cur: int, k: nat, xs: seq<Node>)
    requires Acyclic(book, rank) && Placed(book, rank, a, cur, k)
    decreases k, 1, a, 2
  {
    if a.RangeRef? then LoweredCells(book, rank, RangeIds(book, a, cur), k, xs)
    else |xs| == 1 && LoweredX(book, rank, a, cur, k, xs[0])
  }

  ghost predicate LoweredCells(book: Book, rank: CellId -> nat, ids: seq<CellId>, k: nat, xs: seq<Node>)
    requires Acyclic(book, rank) && AllRankBelow(book, rank, ids, k)
    decreases k, 0, 0, 0
  {
    |xs| == |ids| && forall i :: 0 <= i < |ids| ==> LoweredCell(book, rank, ids[i], xs[i])
  }

  ghost predicate LoweredCell(book: Book, rank: CellId -> nat, id: CellId, n: Node)
    requires Acyclic(book, rank)
    decreases rank(id), 2, 0, 0
  {
    if id !in book.cells then n == ZERO_NODE
    else
      var cell := book.cells[id];
      match cell.formula
      case Parsed(ast) => rank(id) > 0 ==> LoweredX(book, rank, ast, id.sheet, rank(id), n)
      case Unparsable => OpenHole(n)
      case NoFormula => n == if IsInput(cell) then A.Var(Key(book, id), ENTIRE) else ZERO_NODE
  }

  // ----- holes and well-formedness of a graph, from those of its parts -----

  lemma Pair(n: Node, x: Node, y: Node)
    requires n.Oper? || n.Call?
    requires n.args == [x, y]
    ensures Holed(n) <==> Holed(x) || Holed(y)
    ensures A.WellFormed(x) && A.WellFormed(y) <==> A.WellFormed(n)
    ensures A.Vars(n) == A.Vars(x) + A.Vars(y)
  {
    assert n.args[0] == x && n.args[1] == y;
    VarsOfTwo(x, y);
  }

  lemma VarsOfTwo(x: Node, y: Node)
    ensures A.VarsAll([x, y]) == A.Vars(x) + A.Vars(y) && A.VarsAll([x]) == A.Vars(x)
  {
    hide A.Vars;
    assert [x, y][1..] == [y] && [y][1..] == [] && [x][1..] == [];
    assert A.VarsAll([]) == {} && A.VarsAll([x]) == A.Vars(x) && A.VarsAll([y]) == A.Vars(y);
  }

  lemma {:induction false} VarsJoined(xs: seq<Node>, ys: seq<Node>)
    ensures A.VarsAll(xs + ys) == A.VarsAll(xs) + A.VarsAll(ys)
  {
    hide A.Vars;
    if |xs| == 0 {
      assert xs + ys == ys;
    } else {
      assert (xs + ys)[1..] == xs[1..] + ys;
      VarsJoined(xs[1..], ys);
    }
  }

  /** A fold hides no hole and makes none. */
  lemma {:induction false} FoldedFits(g: Agg, xs: seq<Node>)
    ensures Holed(Folded(g, xs)) <==> SomeHoled(xs)
    ensures A.AllWellFormed(xs) <==> A.WellFormed(Folded(g, xs))
    ensures A.Vars(Folded(g, xs)) == A.VarsAll(xs)
  {
    hide Holed;
    hide A.WellFormed;
    hide A.Vars;
    if |xs| == 0 {
      Leaf(ZERO_NODE);
    } else if |xs| == 1 {
      Pair(Square(xs[0]), xs[0], xs[0]);
      VarsOfTwo(xs[0], xs[0]);
      assert xs == [xs[0]];
      assert SomeHoled(xs) <==> Holed(xs[0]);
    } else {
      var front, last := xs[..|xs| - 1], xs[|xs| - 1];
      FoldedFits(g, front);
      Pair(Square(last), last, last);
      Pair(Folded(g, xs), Folded(g, front), if g == SquaresAgg then Square(last) else last);
      SnocFits(front, last);
      assert xs == front + [last];
    }
  }

  lemma NoneFits()
    ensures !SomeHoled([]) && A.AllWellFormed([]) && A.VarsAll([]) == {}
  {
  }

  lemma SnocFits(xs: seq<Node>, x: Node)
    ensures SomeHoled(xs + [x]) <==> SomeHoled(xs) || Holed(x)
    ensures A.AllWellFormed(xs + [x]) <==> A.AllWellFormed(xs) && A.WellFormed(x)
    ensures A.VarsAll(xs + [x]) == A.VarsAll(xs) + A.Vars(x)
  {
    hide Holed;
    hide A.WellFormed;
    VarsJoined(xs, [x]);
    VarsOfTwo(x, x);
    hide A.Vars;
    hide A.VarsAll;
    assert (xs + [x])[|xs|] == x;
    if SomeHoled(xs) {
      var i :| 0 <= i < |xs| && Holed(xs[i]);
      assert (xs + [x])[i] == xs[i];
    }
    assert forall i :: 0 <= i < |xs| ==> (xs + [x])[i] == xs[i];
  }

  lemma Single(n: Node, x: Node)
    requires n.Call? || (n.Oper? && A.Arity(n.op) == 1)
    requires n.args == [x]
    ensures Holed(n) <==> Holed(x)
    ensures A.WellFormed(x) <==> A.WellFormed(n)
    ensures A.Vars(n) == A.Vars(x)
  {
    assert n.args[0] == x;
    VarsOfTwo(x, x);
  }

  lemma Either(x: Node, y: Node)
    ensures Holed(A.Disj([x, y])) <==> Holed(x) || Holed(y)
    ensures A.WellFormed(x) && A.WellFormed(y) <==> A.WellFormed(A.Disj([x, y]))
    ensures A.Vars(A.Disj([x, y])) == A.Vars(x) + A.Vars(y)
  {
    assert [x, y][0] == x && [x, y][1] == y;
    VarsOfTwo(x, y);
  }

  lemma Leaf(n: Node)
    requires n.Const? || n.Var?
    ensures A.WellFormed(n) && !Holed(n)
    ensures A.Vars(n) == if n.Const? then {} else {n.sym}
  {
  }

  lemma LogFits(x: Node, y: Node)
    ensures Holed(LogQuotient(x, y)) <==> Holed(x) || Holed(y)
    ensures A.WellFormed(x) && A.WellFormed(y) <==> A.WellFormed(LogQuotient(x, y))
    ensures A.Vars(LogQuotient(x, y)) == A.Vars(x) + A.Vars(y)
  {
    hide Holed;
    hide A.WellFormed;
    hide A.Vars;
    Single(LogOf(x), x);
    Single(LogOf(y), y);
    Pair(LogQuotient(x, y), LogOf(x), LogOf(y));
  }

  lemma OneOrTwo(xs: seq<Node>)
    requires 1 <= |xs| <= 2
    ensures SomeHoled(xs) <==> Holed(xs[0]) || (|xs| == 2 && Holed(xs[1]))
    ensures A.AllWellFormed(xs) <==> A.WellFormed(xs[0]) && (|xs| == 2 ==> A.WellFormed(xs[1]))
    ensures A.VarsAll(xs) == A.Vars(xs[0]) + if |xs| == 2 then A.Vars(xs[1]) else {}
  {
    VarsOfTwo(xs[0], xs[|xs| - 1]);
    assert xs == if |xs| == 2 then [xs[0], xs[1]] else [xs[0]];
  }

  /** Every operand of a scalar function reaches its graph. */
  lemma ScalarFits(fn: Fn, xs: seq<Node>)
    requires IsScalar(fn) && |xs| <= 2 && (fn == PI <==> |xs| == 0) && (fn == POWER ==> |xs| == 2)
    requires |xs| == 2 ==> IsBinary(fn)
    ensures Holed(ScalarNode(fn, xs)) <==> SomeHoled(xs)
    ensures A.AllWellFormed(xs) <==> A.WellFormed(ScalarNode(fn, xs))
    ensures A.Vars(ScalarNode(fn, xs)) == A.VarsAll(xs)
  {
    hide Holed;
    hide A.WellFormed;
    hide SomeHoled;
    hide A.AllWellFormed;
    hide A.Vars;
    hide A.VarsAll;
    hide LogQuotient;
    if fn == PI {
      NoneFits();
      assert xs == [];
      Leaf(ScalarNode(fn, xs));
    } else {
      var n, x := ScalarNode(fn, xs), xs[0];
      OneOrTwo(xs);
      Leaf(A.Const(10.0));
      Leaf(A.Const(180.0 / PI_VALUE));
      Leaf(A.Const(PI_VALUE / 180.0));
      Leaf(ZERO_NODE);
      if fn == LOG || fn == LOG10 {
        LogFits(x, if |xs| > 1 then xs[1] else A.Const(10.0));
      } else if fn == DEGREES || fn == RADIANS || fn == POWER {
        Pair(n, x, n.args[1]);
      } else if fn == IF || fn == IFERROR {
        Either(x, n.cands[1]);
      } else {
        Single(n, x);
      }
    }
  }
}

/** The lifter: memoised lowering of cells to one graph, with a cycle guard. */
module Lower {
  import opened Interval
  import A = Ast
  import opened Options
  import opened Addresses
  import opened Sequences
  import opened Workbooks
  import opened Meaning
  import opened Lowering
  import opened Support

  // ----- folds -----

  method Fold(g: Agg, xs: seq<Node>) returns (n: Node)
    requires g != SquaresAgg
    ensures n == Folded(g, xs)
  {
    if |xs| == 0 {
      return ZERO_NODE;
    }
    n := xs[0];
    var i := 1;
    while i < |xs|
      invariant 1 <= i <= |xs| && n == Folded(g, xs[..i])
    {
      assert xs[..i + 1][..i] == xs[..i];
      n := FoldNode(g, n, xs[i]);
      i := i + 1;
    }
    assert xs[..i] == xs;
  }

  /** Squaring first and adding then is the fold of squares. */
  method FoldSquares(xs: seq<Node>) returns (n: Node)
    ensures n == Folded(SquaresAgg, xs)
  {
    var sq: seq<Node> := [];
    var i := 0;
    while i < |xs|
      invariant 0 <= i <= |xs| == |xs| && |sq| == i
      invariant Folded(SumAgg, sq) == Folded(SquaresAgg, xs[..i])
    {
      assert xs[..i + 1][..i] == xs[..i];
      assert (sq + [Square(xs[i])])[..i] == sq;
      sq := sq + [Square(xs[i])];
      i := i + 1;
    }
    assert xs[..i] == xs;
    n := Fold(SumAgg, sq);
  }

  class Lifter {
    const book: Book
    ghost const rank: CellId -> nat
    var memo: map<CellId, Node>
    var visiting: set<CellId>
    var base: map<string, real>
    var holes: nat

    constructor (book: Book, ghost rank: CellId -> nat)
      requires ValidBook(book) && CallableBook(book)
      ensures this.book == book && this.rank == rank
      ensures memo == map[] && visiting == {} && base == map[] && holes == 0
    {
      this.book, this.rank := book, rank;
      memo, visiting, base, holes := map[], {}, map[], 0;
    }

    /** The graphs held are well-formed, and hold a hole only when one was made. */
    ghost predicate Valid()
      reads this
    {
      && ValidBook(book) && CallableBook(book) && Recorded()
      && forall id :: id in memo ==> Fit(memo[id])
    }

    /** The base holds the stored value of every input that was lowered, and nothing else. */
    ghost predicate Recorded()
      requires ValidBook(book)
      reads `memo, `base
    {
      && (forall id :: id in memo && id in InputsOf(book) ==> Key(book, id) in base)
      && (forall nm :: nm in base ==> Stored(nm, base[nm]))
    }

    ghost predicate Stored(nm: string, x: real)
      requires ValidBook(book)
    {
      exists id :: id in InputsOf(book) && Key(book, id) == nm && book.cells[id].value == x
    }

    ghost predicate Fit(n: Node)
      reads `holes, `base
    {
      A.WellFormed(n) && (Holed(n) ==> holes > 0) && A.Vars(n) <= base.Keys
    }

    /** No cell under way ranks below k, and every graph held is its cell's lowering. */
    ghost predicate Tidy(k: nat)
      reads `memo, `visiting
    {
      Acyclic(book, rank) && Lowers() && forall id :: id in visiting ==> rank(id) >= k
    }

    ghost predicate Lowers()
      requires Acyclic(book, rank)
      reads this`memo
    {
      forall id :: id in memo ==> LoweredCell(book, rank, id, memo[id])
    }

    ghost function Pending(): nat
      reads this
    {
      |FormulasOf(book).Keys - visiting|
    }

    method MkHole() returns (n: Node)
      requires Valid()
      modifies `holes
      ensures Valid() && holes == old(holes) + 1
      ensures OpenHole(n) && Holed(n) && Fit(n)
    {
      n := A.Hole(HoleName(holes), ENTIRE, 'B', []);
      holes := holes + 1;
    }

    method LowerCell(id: CellId) returns (n: Node)
      requires Valid()
      modifies this
      ensures Valid() && visiting == old(visiting) && holes >= old(holes) && old(base).Keys <= base.Keys
      ensures Fit(n) && (holes > old(holes) ==> Holed(n))
      ensures old(Tidy(rank(id) + 1)) && RanksBelow(book, rank, id, rank(id) + 1) ==>
        Tidy(rank(id) + 1) && LoweredCell(book, rank, id, n)
      decreases Pending(), 0, 1
    {
      hide LoweredX;
      hide Holed;
      hide A.WellFormed;
      hide Below;
      hide Callable;
      hide Recorded;
      hide LoweredCell;
      hide A.Vars;
      hide Key;
      hide ValidBook;
      hide RanksBelow;
      if id in memo {
        return memo[id];
      }
      if id in visiting {
        n := MkHole();
        return;
      }
      assert FormulasOf(book).Keys - (visiting + {id}) == FormulasOf(book).Keys - visiting - {id};
      visiting := visiting + {id};
      n := LowerFresh(id);
      Leave(id, n);
    }

    method Leave(id: CellId, n: Node)
      requires Valid() && Fit(n) && id in visiting
      requires id in InputsOf(book) ==> Key(book, id) in base
      modifies `visiting, `memo
      ensures Valid() && visiting == old(visiting) - {id}
      ensures old(Tidy(rank(id))) && LoweredCell(book, rank, id, n) ==> Acyclic(book, rank) && Lowers()
    {
      hide LoweredCell;
      hide Holed;
      hide A.WellFormed;
      visiting := visiting - {id};
      memo := memo[id := n];
    }

    /** An input is a variable, and its number is stored under its key. */
    method LowerInput(id: CellId) returns (n: Node)
      requires Valid() && id in InputsOf(book)
      modifies `base
      ensures Valid() && Key(book, id) in base && n == A.Var(Key(book, id), ENTIRE) && Fit(n)
      ensures old(base).Keys <= base.Keys
    {
      hide Holed;
      hide A.WellFormed;
      hide Callable;
      hide A1Text;
      var nm := Key(book, id);
      assert Stored(nm, book.cells[id].value);
      base := base[nm := book.cells[id].value];
      n := A.Var(nm, ENTIRE);
      Leaf(n);
    }

    /** The graph of a cell under way. */
    method LowerFresh(id: CellId) returns (n: Node)
      requires Valid() && id in visiting
      modifies this
      ensures Valid() && visiting == old(visiting) && holes >= old(holes) && old(base).Keys <= base.Keys
      ensures Fit(n) && (holes > old(holes) ==> Holed(n))
      ensures id in InputsOf(book) ==> Key(book, id) in base
      ensures old(Tidy(rank(id))) && RanksBelow(book, rank, id, rank(id) + 1) ==>
        Tidy(rank(id)) && LoweredCell(book, rank, id, n)
      decreases Pending(), if id in FormulasOf(book) then 3 else 0, 0
    {
      hide LoweredX;
      hide Below;
      hide Callable;
      hide Holed;
      hide A.WellFormed;
      hide Recorded;
      hide Lowers;
      hide Key;
      Leaf(ZERO_NODE);
      if id !in book.cells {
        return ZERO_NODE;
      }
      var cell := book.cells[id];
      match cell.formula {
        case Parsed(ast) =>
          n := LowerX(ast, id.sheet, rank(id));
        case Unparsable =>
          n := MkHole();
        case NoFormula =>
          if IsInput(cell) {
            n := LowerInput(id);
          } else {
            n := ZERO_NODE;
          }
      }
    }

    method LowerCells(ids: seq<CellId>, ghost k: nat) returns (xs: seq<Node>)
      requires Valid()
      modifies this
      ensures Valid() && visiting == old(visiting) && holes >= old(holes) && old(base).Keys <= base.Keys
      ensures |xs| == |ids| && AllFit(xs) && (holes > old(holes) ==> SomeHoled(xs))
      ensures old(Tidy(k)) && AllRankBelow(book, rank, ids, k) ==> Tidy(k) && LoweredCells(book, rank, ids, k, xs)
      decreases Pending(), 1
    {
      hide Holed;
      hide A.WellFormed;
      hide SomeHoled;
      hide A.AllWellFormed;
      hide A.Vars;
      hide A.VarsAll;
      NoneFits();
      hide LoweredCell;
      hide Valid;
      hide Lowers;
      ghost var tidy := Tidy(k) && AllRankBelow(book, rank, ids, k);
      xs := [];
      var i := 0;
      while i < |ids|
        invariant 0 <= i <= |ids| && |xs| == i
        invariant Valid() && visiting == old(visiting) && holes >= old(holes) && old(base).Keys <= base.Keys
        invariant AllFit(xs) && (holes > old(holes) ==> SomeHoled(xs))
        invariant tidy ==> Tidy(k) && forall j :: 0 <= j < i ==> LoweredCell(book, rank, ids[j], xs[j])
      {
        var n := LowerCell(ids[i]);
        SnocFits(xs, n);
        xs := xs + [n];
        i := i + 1;
      }
    }

    ghost predicate AllFit(xs: seq<Node>)
      reads `holes, `base
    {
      A.AllWellFormed(xs) && (SomeHoled(xs) ==> holes > 0) && A.VarsAll(xs) <= base.Keys
    }

    /** The nodes of an aggregate's arguments, appended in order. */
    method ExpandAll(args: seq<Expr>, cur: int, ghost k: nat) returns (xs: seq<Node>, ghost xss: seq<seq<Node>>)
      requires Valid() && forall i :: 0 <= i < |args| ==> Callable(args[i])
      modifies this
      ensures Valid() && visiting == old(visiting) && holes >= old(holes) && old(base).Keys <= base.Keys
      ensures xs == Flat(xss) && AllFit(xs) && (holes > old(holes) ==> SomeHoled(xs))
      ensures old(Tidy(k)) && (forall i :: 0 <= i < |args| ==> Below(book, rank, args[i], cur, k)) ==>
        Tidy(k) && LoweredArgs(book, rank, args, cur, k, xss)
      decreases Pending(), 2, args, 1
    {
      hide Holed;
      hide A.WellFormed;
      hide SomeHoled;
      hide A.AllWellFormed;
      hide A.Vars;
      hide A.VarsAll;
      NoneFits();
      NothingFlat();
      hide Flat;
      hide Below;
      hide Callable;
      hide LoweredArg;
      hide Valid;
      hide Lowers;
      ghost var tidy := Tidy(k) && forall i :: 0 <= i < |args| ==> Below(book, rank, args[i], cur, k);
      xs, xss := [], [];
      var i := 0;
      while i < |args|
        invariant 0 <= i <= |args| && |xss| == i && xs == Flat(xss)
        invariant Valid() && visiting == old(visiting) && holes >= old(holes) && old(base).Keys <= base.Keys
        invariant AllFit(xs) && (holes > old(holes) ==> SomeHoled(xs))
        invariant tidy ==> Tidy(k) && forall j :: 0 <= j < i ==> LoweredArg(book, rank, args[j], cur, k, xss[j])
      {
        var more := Expand(args[i], cur, k);
        AppendFits(xs, more);
        FlatSnoc(xss, more);
        xs := xs + more;
        xss := xss + [more];
        i := i + 1;
      }
    }

    method Expand(a: Expr, cur: int, ghost k: nat) returns (xs: seq<Node>)
      requires Valid() && Callable(a)
      modifies this
      ensures Valid() && visiting == old(visiting) && holes >= old(holes) && old(base).Keys <= base.Keys
      ensures AllFit(xs) && (holes > old(holes) ==> SomeHoled(xs))
      ensures old(Tidy(k)) && Below(book, rank, a, cur, k) ==> Tidy(k) && LoweredArg(book, rank, a, cur, k, xs)
      decreases Pending(), 2, a, 2
    {
      hide Holed;
      hide A.WellFormed;
      hide A.Vars;
      hide A.VarsAll;
      hide LoweredX;
      hide LoweredCells;
      hide Valid;
      hide Lowers;
      if a.RangeRef? {
        var ids := CollectRange(book, a, cur);
        xs := LowerCells(ids, k);
      } else {
        var n := LowerX(a, cur, k);
        xs := [n];
        assert xs[0] == n;
        VarsOfTwo(n, n);
      }
    }

    method LowerRef(id: CellId, ghost k: nat) returns (n: Node)
      requires Valid()
      modifies this
      ensures Valid() && visiting == old(visiting) && holes >= old(holes) && old(base).Keys <= base.Keys
      ensures Fit(n) && (holes > old(holes) ==> Holed(n))
      ensures old(Tidy(k)) && RanksBelow(book, rank, id, k) ==> Tidy(k) && LoweredCell(book, rank, id, n)
      decreases Pending(), 1
    {
      hide LoweredCell;
      hide Holed;
      hide A.WellFormed;
      hide Valid;
      hide Lowers;
      n := LowerCell(id);
    }

    method LowerUn(e: Expr, cur: int, ghost k: nat) returns (n: Node)
      requires Valid() && e.Un? && Callable(e)
      modifies this
      ensures Valid() && visiting == old(visiting) && holes >= old(holes) && old(base).Keys <= base.Keys
      ensures Fit(n) && (holes > old(holes) ==> Holed(n))
      ensures old(Tidy(k)) && Below(book, rank, e, cur, k) ==> Tidy(k) && LoweredUn(book, rank, e, cur, k, n)
      decreases Pending(), 2, e, 0
    {
      hide LoweredX;
      hide Holed;
      hide A.WellFormed;
      hide Valid;
      hide Lowers;
      var x := LowerX(e.arg, cur, k);
      n := UnNode(e.op, x);
      UnFits(e.op, x);
    }

    /** Both operands are lowered even when a comparison then leaves only a hole. */
    method LowerBin(e: Expr, cur: int, ghost k: nat) returns (n: Node)
      requires Valid() && e.Bin? && Callable(e)
      modifies this
      ensures Valid() && visiting == old(visiting) && holes >= old(holes) && old(base).Keys <= base.Keys
      ensures Fit(n) && (holes > old(holes) ==> Holed(n))
      ensures old(Tidy(k)) && Below(book, rank, e, cur, k) ==> Tidy(k) && LoweredBin(book, rank, e, cur, k, n)
      decreases Pending(), 2, e, 0
    {
      hide LoweredX;
      hide LoweredBin;
      hide ArithOp;
      hide Holed;
      hide A.WellFormed;
      hide Valid;
      hide Lowers;
      var x := LowerX(e.left, cur, k);
      var y := LowerX(e.right, cur, k);
      if Arithmetic(e.bop) {
        n := A.Oper(ArithOp(e.bop), [x, y]);
        Pair(n, x, y);
      } else {
        n := MkHole();
      }
      if Acyclic(book, rank) && Below(book, rank, e, cur, k) {
        BinLowered(book, rank, e, cur, k, x, y, n);
      }
    }

    /** What stands without operands: numbers, texts, references and ranges. */
    method LowerPlain(e: Expr, cur: int, ghost k: nat) returns (n: Node)
      requires Valid() && Callable(e) && !e.Un? && !e.Bin? && !e.Call?
      modifies this
      ensures Valid() && visiting == old(visiting) && holes >= old(holes) && old(base).Keys <= base.Keys
      ensures Fit(n) && (holes > old(holes) ==> Holed(n))
      ensures old(Tidy(k)) && Below(book, rank, e, cur, k) ==> Tidy(k) && LoweredX(book, rank, e, cur, k, n)
      decreases Pending(), 2, e, 0
    {
      hide LoweredCell;
      hide Valid;
      hide Lowers;
      hide Tidy;
      hide RanksBelow;
      hide Holed;
      hide A.WellFormed;
      hide A.Vars;
      match e {
        case Num(x) =>
          n := A.Const(x);
          Leaf(n);
        case Str(_) =>
          n := MkHole();
        case CellRef(sheet, row, col) =>
          var found := SheetIndex(book, sheet);
          n := LowerRef(CellId(if |sheet| == 0 || found < 0 then cur else found, row, col), k);
        case RangeRef(_, _, _, _, _) =>
          n := MkHole();
        case NameRef(nm) =>
          if nm in book.names {
            n := LowerRef(NameTargetFrom(book.names[nm], cur), k);
          } else {
            n := MkHole();
          }
      }
    }

    method LowerX(e: Expr, cur: int, ghost k: nat) returns (n: Node)
      requires Valid() && Callable(e)
      modifies this
      ensures Valid() && visiting == old(visiting) && holes >= old(holes) && old(base).Keys <= base.Keys
      ensures Fit(n) && (holes > old(holes) ==> Holed(n))
      ensures old(Tidy(k)) && Below(book, rank, e, cur, k) ==> Tidy(k) && LoweredX(book, rank, e, cur, k, n)
      decreases Pending(), 2, e, 1
    {
      hide LoweredCell;
      hide LoweredCall;
      hide LoweredUn;
      hide LoweredBin;
      hide Valid;
      hide Tidy;
      hide Fit;
      hide Holed;
      match e {
        case Un(_, _) =>
          n := LowerUn(e, cur, k);
        case Bin(_, _, _) =>
          n := LowerBin(e, cur, k);
        case Call(fn, args) =>
          if IsFold(fn) || fn == AVERAGE {
            n := LowerFold(fn, args, cur, k);
          } else {
            n := LowerCall(fn, args, cur, k);
          }
        case _ =>
          n := LowerPlain(e, cur, k);
      }
    }

    method LowerFold(fn: Fn, args: seq<Expr>, cur: int, ghost k: nat) returns (n: Node)
      requires Valid() && (IsFold(fn) || fn == AVERAGE) && |args| >= Needs(fn)
      requires forall i :: 0 <= i < |args| ==> Callable(args[i])
      modifies this
      ensures Valid() && visiting == old(visiting) && holes >= old(holes) && old(base).Keys <= base.Keys
      ensures Fit(n) && (holes > old(holes) ==> Holed(n))
      ensures old(Tidy(k)) && AllPlaced(book, rank, args, cur, k) ==>
        Tidy(k) && LoweredCall(book, rank, fn, args, cur, k, n)
      decreases Pending(), 2, args, 2
    {
      hide LoweredArgs;
      hide LoweredCell;
      hide Valid;
      hide Lowers;
      hide Holed;
      hide A.WellFormed;
      hide Folded;
      hide Flat;
      var xs, xss := ExpandAll(args, cur, k);
      if fn == AVERAGE {
        var s := Fold(SumAgg, xs);
        FoldedFits(SumAgg, xs);
        n := A.Oper(A.Div, [s, A.Const(|xs| as real)]);
        Leaf(A.Const(|xs| as real));
        Pair(n, s, A.Const(|xs| as real));
      } else {
        if fn == SUMSQ {
          n := FoldSquares(xs);
        } else {
          n := Fold(AggOf(fn), xs);
        }
        FoldedFits(AggOf(fn), xs);
      }
    }

    method LowerAll(args: seq<Expr>, js: seq<nat>, cur: int, ghost k: nat) returns (xs: seq<Node>)
      requires Valid() && forall i :: 0 <= i < |args| ==> Callable(args[i])
      requires forall i :: 0 <= i < |js| ==> js[i] < |args|
      modifies this
      ensures Valid() && visiting == old(visiting) && holes >= old(holes) && old(base).Keys <= base.Keys
      ensures |xs| == |js| && AllFit(xs) && (holes > old(holes) ==> SomeHoled(xs))
      ensures old(Tidy(k)) && (forall i :: 0 <= i < |args| ==> Below(book, rank, args[i], cur, k)) ==>
        Tidy(k) && LoweredAll(book, rank, args, js, cur, k, xs)
      decreases Pending(), 2, args, 2
    {
      hide Holed;
      hide A.WellFormed;
      hide SomeHoled;
      hide A.AllWellFormed;
      hide A.Vars;
      hide A.VarsAll;
      NoneFits();
      hide LoweredX;
      hide Valid;
      hide Lowers;
      hide Below;
      hide Callable;
      ghost var tidy := Tidy(k) && forall i :: 0 <= i < |args| ==> Below(book, rank, args[i], cur, k);
      xs := [];
      var i := 0;
      while i < |js|
        invariant 0 <= i <= |js| && |xs| == i
        invariant Valid() && visiting == old(visiting) && holes >= old(holes) && old(base).Keys <= base.Keys
        invariant AllFit(xs) && (holes > old(holes) ==> SomeHoled(xs))
        invariant tidy ==> Tidy(k) && forall j :: 0 <= j < i ==> LoweredX(book, rank, args[js[j]], cur, k, xs[j])
      {
        var n := LowerX(args[js[i]], cur, k);
        SnocFits(xs, n);
        xs := xs + [n];
        i := i + 1;
      }
    }

    method LowerCall(fn: Fn, args: seq<Expr>, cur: int, ghost k: nat) returns (n: Node)
      requires Valid() && !IsFold(fn) && fn != AVERAGE && |args| >= Needs(fn)
      requires forall i :: 0 <= i < |args| ==> Callable(args[i])
      modifies this
      ensures Valid() && visiting == old(visiting) && holes >= old(holes) && old(base).Keys <= base.Keys
      ensures Fit(n) && (holes > old(holes) ==> Holed(n))
      ensures old(Tidy(k)) && (forall i :: 0 <= i < |args| ==> Below(book, rank, args[i], cur, k)) ==>
        Tidy(k) && LoweredCall(book, rank, fn, args, cur, k, n)
      decreases Pending(), 2, args, 3
    {
      hide Holed;
      hide A.WellFormed;
      hide LoweredAll;
      hide ScalarNode;
      hide Operands;
      hide Valid;
      hide Lowers;
      if fn.OTHER? {
        n := MkHole();
        return;
      }
      var xs := LowerAll(args, Operands(fn, |args|), cur, k);
      ScalarFits(fn, xs);
      n := ScalarNode(fn, xs);
    }
  }

  lemma FlatSnoc(xss: seq<seq<Node>>, xs: seq<Node>)
    ensures Flat(xss + [xs]) == Flat(xss) + xs
  {
    assert (xss + [xs])[..|xss|] == xss;
  }

  lemma NothingFlat()
    ensures Flat<Node>([]) == []
  {
  }

  function UnNode(op: UnOp, x: Node): Node {
    match op
    case Negate => A.Oper(A.Neg, [x])
    case Percent => A.Oper(A.Mul, [x, A.Const(0.01)])
    case Keep => x
  }

  lemma UnFits(op: UnOp, x: Node)
    requires A.WellFormed(x)
    ensures A.WellFormed(UnNode(op, x)) && (Holed(UnNode(op, x)) <==> Holed(x)) && A.Vars(UnNode(op, x)) == A.Vars(x)
  {
    match op
    case Negate => Single(UnNode(op, x), x);
    case Percent => Pair(UnNode(op, x), x, A.Const(0.01));
    case Keep =>
  }

  /** What the base says of an input's key is that input's value: keys are not shared. */
  lemma StoredMeaning(lf: Lifter, id: CellId)
    requires lf.Valid() && id in InputsOf(lf.book) && Key(lf.book, id) in lf.base
    ensures lf.base[Key(lf.book, id)] == lf.book.cells[id].value
  {
    var nm := Key(lf.book, id);
    var a :| a in InputsOf(lf.book) && Key(lf.book, a) == nm && lf.book.cells[a].value == lf.base[nm];
    KeyInjective(lf.book, a, id);
  }

  /** The graph of one cell, the stored values of the inputs it reads, and the holes it has. */
  method LowerTarget(book: Book, target: CellId, ghost rank: CellId -> nat)
    returns (root: Node, base: map<string, real>, holes: nat)
    requires ValidBook(book) && CallableBook(book)
    ensures A.WellFormed(root) && (holes > 0 <==> Holed(root)) && A.Vars(root) <= base.Keys
    ensures forall nm :: nm in base ==> exists id :: id in InputsOf(book) && Key(book, id) == nm
    ensures Acyclic(book, rank) ==> LoweredCell(book, rank, target, root)
    ensures Acyclic(book, rank) && RanksBelow(book, rank, target, rank(target) + 1) ==>
      (holes > 0 <==> UnsupportedCell(book, rank, target))
    ensures forall id :: id in InputsOf(book) && Key(book, id) in base ==> base[Key(book, id)] == book.cells[id].value
  {
    var lf := new Lifter(book, rank);
    root := lf.LowerCell(target);
    forall id | id in InputsOf(book) && Key(book, id) in lf.base
      ensures lf.base[Key(book, id)] == book.cells[id].value
    {
      StoredMeaning(lf, id);
    }
    if Acyclic(book, rank) && RanksBelow(book, rank, target, rank(target) + 1) {
      CellHolesExactly(book, rank, target, rank(target) + 1, root);
    }
    base, holes := lf.base, lf.holes;
  }

  lemma BinLowered(book: Book, rank: CellId -> nat, e: Expr, cur: int, k: nat, x: Node, y: Node, n: Node)
    requires Acyclic(book, rank) && e.Bin? && Placed(book, rank, e, cur, k)
    requires if Arithmetic(e.bop) then n == A.Oper(ArithOp(e.bop), [x, y]) else OpenHole(n)
    ensures LoweredX(book, rank, e.left, cur, k, x) && LoweredX(book, rank, e.right, cur, k, y) ==>
      LoweredBin(book, rank, e, cur, k, n)
  {
    hide LoweredX;
  }

  lemma AppendFits(xs: seq<Node>, ys: seq<Node>)
    ensures SomeHoled(xs + ys) <==> SomeHoled(xs) || SomeHoled(ys)
    ensures A.AllWellFormed(xs) && A.AllWellFormed(ys) ==> A.AllWellFormed(xs + ys)
    ensures A.VarsAll(xs + ys) == A.VarsAll(xs) + A.VarsAll(ys)
  {
    hide SomeHoled;
    JoinedHoled(xs, ys);
    VarsJoined(xs, ys);
    hide A.VarsAll;
  }
}
