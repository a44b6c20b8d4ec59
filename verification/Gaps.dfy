/** Where the interpreter and the graph part: exactly when, with an input each. */
module Gaps {
  import opened ExtReal
  import opened Interval
  import A = Ast
  import opened Holes
  import opened Enclosure
  import opened Verifier
  import opened Sequences
  import opened Workbooks
  import opened Meaning
  import opened Oracle
  import opened Answers
  import opened Lowering
  import opened Preservation

  const NO_VALUES: (string, seq<real>, real) -> bool := (id, xs, x) => false

  /** If the interpreter finds a number at this assignment, that is a value of n. */
  ghost predicate Agrees(c: Ctx, e: Expr, cur: int, k: nat, n: Node)
    requires Acyclic(c.book, c.rank) && Placed(c.book, c.rank, e, cur, k)
  {
    forall v :: SemX(c, e, cur, k) == Fin(v) ==> Holds(Stage(c, World(c.env, NO_VALUES), map[], NO_HOLES), n, v)
  }

  // ----- names -----

  lemma InputMeaning(c: Ctx, id: CellId)
    requires Acyclic(c.book, c.rank) && id in InputsOf(c.book)
    ensures OnSheet(c.book, id) && SemCell(c, id) == Fin(c.env(Key(c.book, id)))
    ensures forall n :: LoweredCell(c.book, c.rank, id, n) <==> n == A.Var(Key(c.book, id), ENTIRE)
  {
    hide Key;
  }

  /** A name whose two readings are inputs is the same to both sides at every assignment exactly
      when it gives its sheet or stands on the first one. */
  lemma NamesExactly(book: Book, f: Fpu, other: (Fn, seq<seq<XR>>) -> XR, rank: CellId -> nat,
                     nm: string, cur: int, k: nat, n: Node)
    requires Acyclic(book, rank) && Placed(book, rank, NameRef(nm), cur, k) && nm in book.names
    requires LoweredX(book, rank, NameRef(nm), cur, k, n)
    requires var t := book.names[nm]; NameTarget(t) in InputsOf(book) && NameTargetFrom(t, cur) in InputsOf(book)
    ensures (forall env: string -> real :: Agrees(Ctx(book, f, other, env, rank), NameRef(nm), cur, k, n)) <==>
      book.names[nm].sheet >= 0 || cur == 0
  {
    hide Key;
    hide Acyclic;
    hide SemCell;
    hide LoweredCell;
    var t := book.names[nm];
    var (there, here) := (NameTarget(t), NameTargetFrom(t, cur));
    if there == here {
      forall env: string -> real
        ensures Agrees(Ctx(book, f, other, env, rank), NameRef(nm), cur, k, n)
      {
        InputMeaning(Ctx(book, f, other, env, rank), here);
      }
    } else {
      var env := (key: string) => if OnSheet(book, there) && key == Key(book, there) then 1.0 else 0.0;
      var c := Ctx(book, f, other, env, rank);
      InputMeaning(c, there);
      InputMeaning(c, here);
      if Key(book, there) == Key(book, here) { InputKeys(book, rank, there, here); }
      assert SemX(c, NameRef(nm), cur, k) == Fin(1.0);
      assert !Agrees(c, NameRef(nm), cur, k, n);
    }
  }

  lemma InputKeys(book: Book, rank: CellId -> nat, a: CellId, b: CellId)
    requires Acyclic(book, rank) && OnSheet(book, a) && OnSheet(book, b) && Key(book, a) == Key(book, b)
    ensures a == b
  {
    KeyInjective(book, a, b);
  }

  const HERE: CellId := CellId(1, 0, 0)

  const THERE: CellId := CellId(0, 0, 0)

  const TARGET: CellId := CellId(1, 0, 1)

  /** Sheet B holds the formula N; the name N means A1 on no sheet in particular. */
  const TWO_SHEETS: Book := Book(["A", "B"],
                                 map[THERE := Cell(true, -5.0, "", NoFormula),
                                     HERE := Cell(true, 5.0, "", NoFormula),
                                     TARGET := Cell(false, 0.0, "", Parsed(NameRef("N")))],
                                 map["N" := CellId(-1, 0, 0)])

  const TWO_RANKS: CellId -> nat := id => if id == TARGET then 1 else 0

  lemma TwoSheetsAcyclic()
    ensures Acyclic(TWO_SHEETS, TWO_RANKS) && OnSheet(TWO_SHEETS, HERE) && OnSheet(TWO_SHEETS, THERE)
  {
    assert "A" != "B" by { assert "A"[0] != "B"[0]; }
  }

  lemma NameReadThere(c: Ctx)
    requires c.book == TWO_SHEETS && c.rank == TWO_RANKS && Acyclic(c.book, c.rank) && OnSheet(c.book, THERE)
    ensures SemCell(c, TARGET) == Fin(c.env(Key(c.book, THERE)))
  {
    hide Acyclic;
    hide Key;
    assert SemCell(c, THERE) == Fin(c.env(Key(c.book, THERE)));
    assert c.book.cells[TARGET].formula.ast == NameRef("N");
    assert NameTarget(c.book.names["N"]) == THERE;
    TargetPlaced();
    assert SemX(c, NameRef("N"), 1, 1) == SemCell(c, THERE);
  }

  lemma TargetPlaced()
    ensures Placed(TWO_SHEETS, TWO_RANKS, NameRef("N"), 1, 1)
  {
  }

  lemma NameLoweredHere()
    requires Acyclic(TWO_SHEETS, TWO_RANKS) && OnSheet(TWO_SHEETS, HERE)
    ensures LoweredCell(TWO_SHEETS, TWO_RANKS, TARGET, A.Var(Key(TWO_SHEETS, HERE), ENTIRE))
  {
    hide Acyclic;
    hide Key;
    TargetPlaced();
    var n := A.Var(Key(TWO_SHEETS, HERE), ENTIRE);
    assert TWO_SHEETS.cells[TARGET].formula.ast == NameRef("N");
    assert NameTargetFrom(TWO_SHEETS.names["N"], 1) == HERE;
    assert LoweredCell(TWO_SHEETS, TWO_RANKS, HERE, n);
    assert LoweredX(TWO_SHEETS, TWO_RANKS, NameRef("N"), 1, 1, n);
  }

  lemma PointSafe(f: Fpu, nm: string, x: real)
    requires x > 0.0
    ensures DecideEval(Evaluated(f, Program(A.Var(nm, ENTIRE), map[nm := Point(Fin(x))], NO_HOLES, ZERO))) == Safe
  {
  }

  /** The interpreter reads -5 on sheet A, the graph reads 5 on sheet B and is Safe. */
  lemma NameFalseSafe(f: Fpu, other: (Fn, seq<seq<XR>>) -> XR, env: string -> real)
    requires OnSheet(TWO_SHEETS, HERE) && env(Key(TWO_SHEETS, HERE)) == 5.0
    requires OnSheet(TWO_SHEETS, THERE) && env(Key(TWO_SHEETS, THERE)) == -5.0
    ensures var c := Ctx(TWO_SHEETS, f, other, env, TWO_RANKS);
      var nm := Key(TWO_SHEETS, HERE);
      var p := Program(A.Var(nm, ENTIRE), map[nm := Point(Fin(5.0))], NO_HOLES, ZERO);
      && Acyclic(c.book, c.rank) && LoweredCell(c.book, c.rank, TARGET, p.root)
      && Contains(p.box[nm], env(nm))
      && DecideEval(Evaluated(f, p)) == Safe && SemCell(c, TARGET) == Fin(-5.0)
  {
    hide SemCell;
    hide LoweredCell;
    hide DecideEval;
    hide Evaluated;
    hide Key;
    TwoSheetsAcyclic();
    hide Acyclic;
    NameReadThere(Ctx(TWO_SHEETS, f, other, env, TWO_RANKS));
    NameLoweredHere();
    PointSafe(f, Key(TWO_SHEETS, HERE), 5.0);
  }

  // ----- the condition of an IF -----

  function If(cond: Expr, a: real, b: real): Expr { Call(IF, [cond, Num(a), Num(b)]) }

  function Branches(a: real, b: real): Node { A.Disj([A.Const(a), A.Const(b)]) }

  lemma IfPlaced(book: Book, rank: CellId -> nat, cond: Expr, a: real, b: real, cur: int, k: nat)
    requires Placed(book, rank, cond, cur, k)
    ensures Placed(book, rank, If(cond, a, b), cur, k) && AllPlaced(book, rank, [cond, Num(a), Num(b)], cur, k)
  {
  }

  /** The condition never reaches the graph. */
  lemma IfLowered(book: Book, rank: CellId -> nat, cond: Expr, a: real, b: real, cur: int, k: nat)
    requires Acyclic(book, rank) && Placed(book, rank, cond, cur, k) && Placed(book, rank, If(cond, a, b), cur, k)
    ensures LoweredX(book, rank, If(cond, a, b), cur, k, Branches(a, b))
  {
    hide Acyclic;
    IfPlaced(book, rank, cond, a, b, cur, k);
    hide Placed;
    var args, xs := [cond, Num(a), Num(b)], [A.Const(a), A.Const(b)];
    assert Operands(IF, 3) == [1, 2];
    assert LoweredAll(book, rank, args, Operands(IF, 3), cur, k, xs);
    assert ScalarNode(IF, xs) == Branches(a, b);
  }

  lemma IfArguments(c: Ctx, cond: Expr, a: real, b: real, cur: int, k: nat)
    requires Acyclic(c.book, c.rank) && Placed(c.book, c.rank, cond, cur, k)
    requires AllPlaced(c.book, c.rank, [cond, Num(a), Num(b)], cur, k)
    ensures SemArgs(c, [cond, Num(a), Num(b)], cur, k) == [SemArg(c, cond, cur, k), [Fin(a)], [Fin(b)]]
  {
    hide Acyclic;
    hide SemCell;
    var args := [cond, Num(a), Num(b)];
    assert args[1] == Num(a) && args[2] == Num(b);
    assert SemX(c, Num(a), cur, k) == Fin(a) && SemX(c, Num(b), cur, k) == Fin(b);
  }

  /** The interpreter indexes the flattened arguments, so the cells of a range count one by one. */
  lemma IfMeaning(c: Ctx, cond: Expr, a: real, b: real, cur: int, k: nat)
    requires Acyclic(c.book, c.rank) && Placed(c.book, c.rank, cond, cur, k)
    ensures Placed(c.book, c.rank, If(cond, a, b), cur, k)
    ensures var v := SemArg(c, cond, cur, k) + [Fin(a), Fin(b)];
      SemX(c, If(cond, a, b), cur, k) == if !Same(v[0], ZERO) then v[1] else v[2]
  {
    hide Acyclic;
    IfPlaced(c.book, c.rank, cond, a, b, cur, k);
    hide Placed;
    hide SemCell;
    hide SemArgs;
    hide SemArg;
    var v := SemArg(c, cond, cur, k);
    IfArguments(c, cond, a, b, cur, k);
    FlatThree(v, [Fin(a)], [Fin(b)]);
    assert v + [Fin(a)] + [Fin(b)] == v + [Fin(a), Fin(b)];
  }

  lemma BranchValues(s: Stage, a: real, b: real, v: real)
    ensures Holds(s, Branches(a, b), v) <==> v == a || v == b
  {
    var cands := [A.Const(a), A.Const(b)];
    assert A.AllWellFormed(cands);
    assert Value(s.c.f, s.w, s.box, s.ht, cands[0], v) <==> v == a;
    assert Value(s.c.f, s.w, s.box, s.ht, cands[1], v) <==> v == b;
    assert SomeValue(s.c.f, s.w, s.box, s.ht, cands, v) <==> v == a || v == b;
  }

  /** With a range of inputs for its condition, IF gives one of its branches at every assignment
      exactly when the range is a single cell. */
  lemma IfRangeExactly(book: Book, f: Fpu, other: (Fn, seq<seq<XR>>) -> XR, rank: CellId -> nat,
                       cond: Expr, cur: int, k: nat)
    requires Acyclic(book, rank) && Placed(book, rank, cond, cur, k) && cond.RangeRef?
    requires forall i :: 0 <= i < |RangeIds(book, cond, cur)| ==> RangeIds(book, cond, cur)[i] in InputsOf(book)
    requires forall a, b :: Placed(book, rank, If(cond, a, b), cur, k)
    ensures (forall env: string -> real, a, b ::
               Agrees(Ctx(book, f, other, env, rank), If(cond, a, b), cur, k, Branches(a, b))) <==>
      |RangeIds(book, cond, cur)| == 1
  {
    hide Acyclic;
    hide Placed;
    hide SemX;
    hide SemCell;
    hide Holds;
    hide RangeIds;
    var ids := RangeIds(book, cond, cur);
    RangeNonEmpty(book, cond, cur);
    if |ids| == 1 {
      forall env: string -> real, a, b
        ensures Agrees(Ctx(book, f, other, env, rank), If(cond, a, b), cur, k, Branches(a, b))
      {
        var c := Ctx(book, f, other, env, rank);
        IfMeaning(c, cond, a, b, cur, k);
        BranchesAgree(c, cond, a, b, cur, k);
      }
    } else {
      var env := (key: string) => -5.0;
      var c := Ctx(book, f, other, env, rank);
      IfMeaning(c, cond, 10.0, 20.0, cur, k);
      InputMeaning(c, ids[0]);
      InputMeaning(c, ids[1]);
      assert SemX(c, If(cond, 10.0, 20.0), cur, k) == Fin(-5.0);
      BranchValues(Stage(c, World(c.env, NO_VALUES), map[], NO_HOLES), 10.0, 20.0, -5.0);
      assert !Agrees(c, If(cond, 10.0, 20.0), cur, k, Branches(10.0, 20.0));
    }
  }

  lemma BranchesAgree(c: Ctx, cond: Expr, a: real, b: real, cur: int, k: nat)
    requires Acyclic(c.book, c.rank) && Placed(c.book, c.rank, If(cond, a, b), cur, k)
    requires SemX(c, If(cond, a, b), cur, k) in {Fin(a), Fin(b)}
    ensures Agrees(c, If(cond, a, b), cur, k, Branches(a, b))
  {
    hide Acyclic;
    hide Placed;
    hide SemX;
    hide Holds;
    var s := Stage(c, World(c.env, NO_VALUES), map[], NO_HOLES);
    BranchValues(s, a, b, a);
    BranchValues(s, a, b, b);
  }

  const UPPER: CellId := CellId(0, 0, 0)

  const LOWER: CellId := CellId(0, 1, 0)

  const GOAL: CellId := CellId(0, 0, 1)

  const COLUMN: Expr := RangeRef("", 0, 0, 1, 0)

  /** One sheet: inputs in A1 and A2, a formula in B1. */
  function GoalBook(x: real, y: real, e: Expr): Book {
    Book(["S"], map[UPPER := Cell(true, x, "", NoFormula), LOWER := Cell(true, y, "", NoFormula),
                    GOAL := Cell(false, 0.0, "", Parsed(e))], map[])
  }

  const GOAL_RANKS: CellId -> nat := id => if id == GOAL then 1 else 0

  lemma GoalAcyclic(x: real, y: real, e: Expr)
    requires Placed(GoalBook(x, y, e), GOAL_RANKS, e, 0, 1)
    ensures var book := GoalBook(x, y, e);
      && Acyclic(book, GOAL_RANKS) && UPPER in InputsOf(book) && LOWER in InputsOf(book)
      && GOAL in book.cells && book.cells[GOAL].formula == Parsed(e)
  {
    hide Below;
    hide Callable;
  }

  /** IF(A1:A2, 10, 20) with A1 = 1 and A2 = -5. */
  const RANGE_BOOK: Book := GoalBook(1.0, -5.0, If(COLUMN, 10.0, 20.0))

  lemma ColumnIds(book: Book)
    ensures RangeIds(book, COLUMN, 0) == [UPPER, LOWER]
  {
    assert RowIds(0, 0, 0, 0) == [UPPER] && RowIds(0, 1, 0, 0) == [LOWER];
    assert BlockIds(0, 0, 0, 0, 0) == [UPPER];
  }

  lemma ColumnPlaced(book: Book)
    requires UPPER in InputsOf(book) && LOWER in InputsOf(book)
    ensures Placed(book, GOAL_RANKS, COLUMN, 0, 1) && Placed(book, GOAL_RANKS, If(COLUMN, 10.0, 20.0), 0, 1)
  {
    ColumnIds(book);
    IfPlaced(book, GOAL_RANKS, COLUMN, 10.0, 20.0, 0, 1);
  }

  lemma RangeGoal(c: Ctx)
    requires c.rank == GOAL_RANKS && Acyclic(c.book, c.rank)
    requires UPPER in InputsOf(c.book) && OnSheet(c.book, UPPER) && c.env(Key(c.book, UPPER)) == 1.0
    requires LOWER in InputsOf(c.book) && OnSheet(c.book, LOWER) && c.env(Key(c.book, LOWER)) == -5.0
    ensures Placed(c.book, GOAL_RANKS, If(COLUMN, 10.0, 20.0), 0, 1)
    ensures SemX(c, If(COLUMN, 10.0, 20.0), 0, 1) == Fin(-5.0)
    ensures LoweredX(c.book, c.rank, If(COLUMN, 10.0, 20.0), 0, 1, Branches(10.0, 20.0))
  {
    hide Acyclic;
    hide Key;
    InputMeaning(c, UPPER);
    InputMeaning(c, LOWER);
    ColumnPlaced(c.book);
    ColumnIds(c.book);
    hide Placed;
    hide RangeIds;
    IfMeaning(c, COLUMN, 10.0, 20.0, 0, 1);
    IfLowered(c.book, c.rank, COLUMN, 10.0, 20.0, 0, 1);
    hide SemX;
    hide LoweredX;
  }

  lemma BranchesSafe(f: Fpu)
    ensures A.WellFormed(Branches(10.0, 20.0))
    ensures DecideEval(Evaluated(f, Program(Branches(10.0, 20.0), map[], NO_HOLES, ZERO))) == Safe
  {
    var cands := [A.Const(10.0), A.Const(20.0)];
    assert A.AllWellFormed(cands);
    NoResidual(f, cands, map[], NO_HOLES);
    assert EnclAll(f, cands, map[], NO_HOLES) == [Point(Fin(10.0)), Point(Fin(20.0))];
    HullOfTwo(Point(Fin(10.0)), Point(Fin(20.0)));
    hide BundleHull;
    hide DecideEval;
    hide Evaluated;
    PositiveIsSafe(f, Program(Branches(10.0, 20.0), map[], NO_HOLES, ZERO));
  }

  lemma HullOfTwo(a: Ival, b: Ival)
    ensures BundleHull([a, b]) == Hull(Hull(EMPTY, a), b)
  {
    assert [a, b][1..] == [b] && [b][1..] == [];
    assert BundleFrom(Hull(EMPTY, a), [b]) == Hull(Hull(EMPTY, a), b);
  }

  /** The interpreter takes the second cell of the range for the branch; the graph is Safe. */
  lemma RangeFalseSafe(f: Fpu, other: (Fn, seq<seq<XR>>) -> XR, env: string -> real)
    requires OnSheet(RANGE_BOOK, UPPER) && env(Key(RANGE_BOOK, UPPER)) == 1.0
    requires OnSheet(RANGE_BOOK, LOWER) && env(Key(RANGE_BOOK, LOWER)) == -5.0
    ensures var c := Ctx(RANGE_BOOK, f, other, env, GOAL_RANKS);
      var p := Program(Branches(10.0, 20.0), map[], NO_HOLES, ZERO);
      && Acyclic(c.book, c.rank) && A.WellFormed(p.root) && LoweredCell(c.book, c.rank, GOAL, p.root)
      && DecideEval(Evaluated(f, p)) == Safe && SemCell(c, GOAL) == Fin(-5.0)
  {
    var c := Ctx(RANGE_BOOK, f, other, env, GOAL_RANKS);
    ColumnPlaced(RANGE_BOOK);
    GoalAcyclic(1.0, -5.0, If(COLUMN, 10.0, 20.0));
    assert GOAL_RANKS(GOAL) == 1;
    hide *;
    FormulaCell(c, GOAL, If(COLUMN, 10.0, 20.0), Branches(10.0, 20.0));
    RangeGoal(c);
    BranchesSafe(f);
  }

  // ----- aggregates -----

  /** What the fold of the graph says: zero of nothing, no value unless all are numbers. */
  function FoldValue(g: Agg, v: seq<XR>): XR {
    if !AllFin(v) then NaN else if |v| == 0 then ZERO else Fin(Total(g, v))
  }

  lemma {:induction false} AggregatedIsNumber(g: Agg, v: seq<XR>)
    requires forall i :: 0 <= i < |v| ==> v[i].Fin? || v[i].NaN?
    ensures Aggregated(g, v).Fin?
  {
    if |v| > 0 { AggregatedIsNumber(g, v[..|v| - 1]); }
  }

  lemma {:induction false} TotalAttained(v: seq<XR>) returns (i: nat, j: nat)
    requires |v| > 0 && AllFin(v)
    ensures i < |v| && v[i].r == Total(MinAgg, v) && j < |v| && v[j].r == Total(MaxAgg, v)
  {
    i, j := |v| - 1, |v| - 1;
    if |v| > 1 {
      var front := v[..|v| - 1];
      var p, q := TotalAttained(front);
      if Total(MinAgg, front) < v[i].r { i := p; }
      if Total(MaxAgg, front) > v[j].r { j := q; }
    }
  }

  /** An aggregate of numbers and of what is no number is the fold of its arguments' graphs exactly
      when all are numbers and no starting value shows through. */
  lemma {:induction false} FoldExactly(fn: Fn, v: seq<XR>)
    requires IsFold(fn) && forall i :: 0 <= i < |v| ==> v[i].Fin? || v[i].NaN?
    ensures Aggregated(AggOf(fn), v) == FoldValue(AggOf(fn), v) <==> AllFin(v) && FoldTame(fn, v)
  {
    var g := AggOf(fn);
    AggregatedIsNumber(g, v);
    if AllFin(v) && |v| > 0 {
      AggregatedTotal(g, v);
      var i, j := TotalAttained(v);
      if l :| 0 <= l < |v| && Le(v[l], Start(MinAgg)) { TotalBound(v, l); }
      if l :| 0 <= l < |v| && Le(Start(MaxAgg), v[l]) { TotalBound(v, l); }
    }
  }

  /** Of nothing the interpreter gives the starting value, the graph zero. */
  lemma EmptyFolds(c: Ctx, fn: Fn, cur: int, k: nat, n: Node)
    requires fn == MIN || fn == MAX || fn == PRODUCT
    requires Acyclic(c.book, c.rank) && AllPlaced(c.book, c.rank, [], cur, k)
    requires LoweredCall(c.book, c.rank, fn, [], cur, k, n)
    ensures n == ZERO_NODE && CallVal(c.f, c.other, fn, SemArgs(c, [], cur, k)) ==
      Fin(if fn == MIN then MIN_START else if fn == MAX then -MIN_START else 1.0)
  {
    var xss :| LoweredArgs(c.book, c.rank, [], cur, k, xss) && n == Folded(AggOf(fn), Flat(xss));
    assert xss == [];
  }

  /** Beyond the starting value even one argument is not its own minimum or maximum. */
  lemma BeyondStart(x: real)
    requires x > MIN_START
    ensures Aggregated(MinAgg, [Fin(x)]) == Fin(MIN_START) && FoldValue(MinAgg, [Fin(x)]) == Fin(x)
    ensures Aggregated(MaxAgg, [Fin(-x)]) == Fin(-MIN_START) && FoldValue(MaxAgg, [Fin(-x)]) == Fin(-x)
  {
    assert [Fin(x)][..0] == [] && [Fin(-x)][..0] == [];
  }

  lemma PairPlaced(book: Book, rank: CellId -> nat, fn: Fn, d: Expr, e: Expr, cur: int, k: nat)
    requires IsFold(fn) && Placed(book, rank, d, cur, k) && Placed(book, rank, e, cur, k)
    ensures Placed(book, rank, Call(fn, [d, e]), cur, k) && AllPlaced(book, rank, [d, e], cur, k)
  {
  }

  lemma AggregatedTwo(g: Agg, x: XR, y: XR)
    ensures Aggregated(g, [x, y]) == Step(g, Step(g, Start(g), x), y)
  {
    hide Step;
    assert [x, y][..1] == [x] && [x][..0] == [];
    assert Aggregated(g, [x]) == Step(g, Aggregated(g, []), x);
  }

  /** A call is applied to its arguments' values. */
  lemma CallMeaning(c: Ctx, fn: Fn, args: seq<Expr>, cur: int, k: nat)
    requires Acyclic(c.book, c.rank) && Placed(c.book, c.rank, Call(fn, args), cur, k)
    ensures AllPlaced(c.book, c.rank, args, cur, k)
    ensures var av := SemArgs(c, args, cur, k);
      |Flat(av)| >= Needs(fn) && SemX(c, Call(fn, args), cur, k) == CallVal(c.f, c.other, fn, av)
  {
    hide Acyclic;
    hide SemCell;
    hide SemArg;
    hide CallVal;
    FlatLength(SemArgs(c, args, cur, k));
    hide SemArgs;
    hide Flat;
  }

  lemma FoldCall(f: Fpu, other: (Fn, seq<seq<XR>>) -> XR, fn: Fn, av: seq<seq<XR>>)
    requires IsFold(fn)
    ensures |Flat(av)| >= Needs(fn) && CallVal(f, other, fn, av) == Aggregated(AggOf(fn), Flat(av))
  {
    hide Flat;
    hide Aggregated;
  }

  lemma PairArguments(c: Ctx, d: Expr, e: Expr, cur: int, k: nat)
    requires !d.RangeRef? && !e.RangeRef? && Acyclic(c.book, c.rank) && AllPlaced(c.book, c.rank, [d, e], cur, k)
    requires Placed(c.book, c.rank, d, cur, k) && Placed(c.book, c.rank, e, cur, k)
    ensures SemArgs(c, [d, e], cur, k) == [[SemX(c, d, cur, k)], [SemX(c, e, cur, k)]]
  {
    hide Acyclic;
    hide Placed;
    hide SemCell;
    hide SemX;
    var args := [d, e];
    assert args[0] == d && args[1] == e;
    assert SemArg(c, d, cur, k) == [SemX(c, d, cur, k)] && SemArg(c, e, cur, k) == [SemX(c, e, cur, k)];
    hide SemArg;
  }

  /** An aggregate of two single values, on both sides. */
  lemma PairMeaning(c: Ctx, fn: Fn, d: Expr, e: Expr, cur: int, k: nat)
    requires IsFold(fn) && !d.RangeRef? && !e.RangeRef?
    requires Acyclic(c.book, c.rank) && Placed(c.book, c.rank, d, cur, k) && Placed(c.book, c.rank, e, cur, k)
    ensures Placed(c.book, c.rank, Call(fn, [d, e]), cur, k)
    ensures SemX(c, Call(fn, [d, e]), cur, k) == Aggregated(AggOf(fn), [SemX(c, d, cur, k), SemX(c, e, cur, k)])
  {
    PairPlaced(c.book, c.rank, fn, d, e, cur, k);
    PairArguments(c, d, e, cur, k);
    CallMeaning(c, fn, [d, e], cur, k);
    var (x, y) := (SemX(c, d, cur, k), SemX(c, e, cur, k));
    FlatTwo([x], [y]);
    FoldCall(c.f, c.other, fn, [[x], [y]]);
    assert [x] + [y] == [x, y];
    hide *;
  }

  lemma PairLowered(book: Book, rank: CellId -> nat, fn: Fn, d: Expr, e: Expr, cur: int, k: nat, x: Node, y: Node)
    requires IsFold(fn) && !d.RangeRef? && !e.RangeRef?
    requires Acyclic(book, rank) && Placed(book, rank, d, cur, k) && Placed(book, rank, e, cur, k)
    requires LoweredX(book, rank, d, cur, k, x) && LoweredX(book, rank, e, cur, k, y)
    ensures Placed(book, rank, Call(fn, [d, e]), cur, k)
    ensures LoweredX(book, rank, Call(fn, [d, e]), cur, k, Folded(AggOf(fn), [x, y]))
  {
    hide Acyclic;
    PairPlaced(book, rank, fn, d, e, cur, k);
    hide Placed;
    hide LoweredCell;
    assert LoweredArg(book, rank, [d, e][0], cur, k, [x]) && LoweredArg(book, rank, [d, e][1], cur, k, [y]);
    assert LoweredArgs(book, rank, [d, e], cur, k, [[x], [y]]);
    FlatTwo([x], [y]);
    assert [x] + [y] == [x, y];
  }

  lemma SqrtMeaning(c: Ctx, e: Expr, cur: int, k: nat)
    requires Acyclic(c.book, c.rank) && Placed(c.book, c.rank, e, cur, k) && !e.RangeRef?
    ensures Placed(c.book, c.rank, Call(SQRT, [e]), cur, k)
    ensures SemX(c, Call(SQRT, [e]), cur, k) == SqrtVal(c.f, SemX(c, e, cur, k))
  {
    SqrtPlaced(c.book, c.rank, e, cur, k);
    CallMeaning(c, SQRT, [e], cur, k);
    SqrtArgument(c, e, cur, k);
    SqrtCall(c.f, c.other, SemX(c, e, cur, k));
    hide *;
  }

  lemma SqrtPlaced(book: Book, rank: CellId -> nat, e: Expr, cur: int, k: nat)
    requires Placed(book, rank, e, cur, k)
    ensures Placed(book, rank, Call(SQRT, [e]), cur, k) && AllPlaced(book, rank, [e], cur, k)
  {
  }

  lemma SqrtArgument(c: Ctx, e: Expr, cur: int, k: nat)
    requires Acyclic(c.book, c.rank) && Placed(c.book, c.rank, e, cur, k) && !e.RangeRef?
    requires AllPlaced(c.book, c.rank, [e], cur, k)
    ensures SemArgs(c, [e], cur, k) == [[SemX(c, e, cur, k)]]
  {
    hide Acyclic;
    hide Placed;
    hide SemCell;
    hide SemX;
    assert [e][0] == e && SemArg(c, e, cur, k) == [SemX(c, e, cur, k)];
    hide SemArg;
  }

  lemma SqrtCall(f: Fpu, other: (Fn, seq<seq<XR>>) -> XR, x: XR)
    ensures |Flat([[x]])| >= Needs(SQRT) && CallVal(f, other, SQRT, [[x]]) == SqrtVal(f, x)
  {
    assert Flat([[x]]) == [x] by { assert [[x]][..0] == []; }
    hide Flat;
    hide SqrtVal;
  }

  lemma SqrtLowered(book: Book, rank: CellId -> nat, e: Expr, cur: int, k: nat, x: Node)
    requires Acyclic(book, rank) && Placed(book, rank, e, cur, k) && LoweredX(book, rank, e, cur, k, x)
    ensures Placed(book, rank, Call(SQRT, [e]), cur, k)
    ensures LoweredX(book, rank, Call(SQRT, [e]), cur, k, A.Oper(A.Sqrt, [x]))
  {
    hide Acyclic;
    hide LoweredCell;
    assert LoweredAll(book, rank, [e], Operands(SQRT, 1), cur, k, [x]);
    assert ScalarNode(SQRT, [x]) == A.Oper(A.Sqrt, [x]);
  }

  lemma FoldedPair(g: Agg, x: Node, y: Node)
    requires g != SquaresAgg
    ensures Folded(g, [x, y]) == FoldNode(g, x, y)
  {
    assert [x, y][..1] == [x];
  }

  /** A ranked formula cell is what its formula is. */
  lemma FormulaCell(c: Ctx, id: CellId, e: Expr, n: Node)
    requires Acyclic(c.book, c.rank) && id in c.book.cells && c.book.cells[id].formula == Parsed(e)
    requires c.rank(id) > 0
    ensures Placed(c.book, c.rank, e, id.sheet, c.rank(id))
    ensures SemCell(c, id) == SemX(c, e, id.sheet, c.rank(id))
    ensures LoweredCell(c.book, c.rank, id, n) <==> LoweredX(c.book, c.rank, e, id.sheet, c.rank(id), n)
  {
    hide SemX;
    hide LoweredX;
  }

  function Root(e: Expr): Expr { Bin(Plus, Num(2.0), Call(SQRT, [e])) }

  function Skipping(e: Expr): Expr { Call(SUM, [Num(-1.0), Root(e)]) }

  function RootNode(x: Node): Node { A.Oper(A.Add, [A.Const(2.0), A.Oper(A.Sqrt, [x])]) }

  function SkipNode(x: Node): Node { A.Oper(A.Add, [A.Const(-1.0), RootNode(x)]) }

  lemma RootPlaced(book: Book, rank: CellId -> nat, e: Expr, cur: int, k: nat)
    requires Placed(book, rank, e, cur, k)
    ensures Placed(book, rank, Num(-1.0), cur, k) && Placed(book, rank, Num(2.0), cur, k)
    ensures Placed(book, rank, Call(SQRT, [e]), cur, k) && Placed(book, rank, Root(e), cur, k)
  {
  }

  /** The sum passes over the root of a negative number. */
  lemma SkipMeaning(c: Ctx, e: Expr, cur: int, k: nat)
    requires Acyclic(c.book, c.rank) && Placed(c.book, c.rank, e, cur, k) && !e.RangeRef?
    requires SemX(c, e, cur, k) == Fin(-1.0)
    ensures Placed(c.book, c.rank, Skipping(e), cur, k) && SemX(c, Skipping(e), cur, k) == Fin(-1.0)
  {
    hide Acyclic;
    RootPlaced(c.book, c.rank, e, cur, k);
    hide Placed;
    SqrtMeaning(c, e, cur, k);
    assert SemX(c, Root(e), cur, k) == NaN by { hide SemArgs; hide CallVal; }
    AggregatedTwo(SumAgg, Fin(-1.0), NaN);
    PairMeaning(c, SUM, Num(-1.0), Root(e), cur, k);
    assert SemX(c, Num(-1.0), cur, k) == Fin(-1.0);
    hide *;
  }

  lemma SkipLowered(book: Book, rank: CellId -> nat, e: Expr, cur: int, k: nat, x: Node)
    requires Acyclic(book, rank) && Placed(book, rank, e, cur, k) && !e.RangeRef?
    requires LoweredX(book, rank, e, cur, k, x)
    ensures Placed(book, rank, Skipping(e), cur, k) && LoweredX(book, rank, Skipping(e), cur, k, SkipNode(x))
  {
    hide Acyclic;
    RootPlaced(book, rank, e, cur, k);
    hide Placed;
    SqrtLowered(book, rank, e, cur, k, x);
    hide LoweredCall;
    assert LoweredX(book, rank, Root(e), cur, k, RootNode(x)) by {
      assert LoweredX(book, rank, Num(2.0), cur, k, A.Const(2.0));
      assert LoweredBin(book, rank, Root(e), cur, k, RootNode(x));
    }
    assert LoweredX(book, rank, Num(-1.0), cur, k, A.Const(-1.0));
    PairLowered(book, rank, SUM, Num(-1.0), Root(e), cur, k, A.Const(-1.0), RootNode(x));
    FoldedPair(SumAgg, A.Const(-1.0), RootNode(x));
    hide *;
  }

  const AROUND: Ival := Ival(Fin(-1.0), Fin(1.0))

  lemma SqrtEnclosure(f: Fpu, nm: string)
    requires Exact(f)
    ensures var (n, box) := (A.Oper(A.Sqrt, [A.Var(nm, ENTIRE)]), map[nm := AROUND]);
      && A.WellFormed(n) && ResidualFrom(f, n, box, NO_HOLES, ZERO) == ZERO
      && Encl(f, n, box, NO_HOLES) == Ival(Fin(f.sqrt(0.0)), Fin(f.sqrt(1.0)))
  {
    var (x, box) := (A.Var(nm, ENTIRE), map[nm := AROUND]);
    Single(A.Oper(A.Sqrt, [x]), x);
    assert ResidualAll(f, [x], box, NO_HOLES, ZERO) == ZERO by { assert [x][..0] == []; }
  }

  lemma AddEnclosure(f: Fpu, k: real, n: Node, box: Box, lo: real, hi: real)
    requires Exact(f) && A.WellFormed(n) && ResidualFrom(f, n, box, NO_HOLES, ZERO) == ZERO && lo <= hi
    requires Encl(f, n, box, NO_HOLES) == Ival(Fin(lo), Fin(hi))
    ensures var sum := A.Oper(A.Add, [A.Const(k), n]);
      && A.WellFormed(sum) && ResidualFrom(f, sum, box, NO_HOLES, ZERO) == ZERO
      && Encl(f, sum, box, NO_HOLES) == Ival(Fin(k + lo), Fin(k + hi))
  {
    var args := [A.Const(k), n];
    Pair(A.Oper(A.Add, args), args[0], n);
    NoResidual(f, args, box, NO_HOLES);
    assert EnclAll(f, args, box, NO_HOLES) == [Point(Fin(k)), Ival(Fin(lo), Fin(hi))];
  }

  /** Over [-1, 1] the root's enclosure leaves out where it is no number. */
  lemma SkipEnclosure(f: Fpu, nm: string)
    requires Exact(f) && Monotone(f)
    ensures var (n, box) := (SkipNode(A.Var(nm, ENTIRE)), map[nm := AROUND]);
      && A.WellFormed(n) && ResidualFrom(f, n, box, NO_HOLES, ZERO) == ZERO
      && Encl(f, n, box, NO_HOLES) == Ival(Fin(1.0 + f.sqrt(0.0)), Fin(1.0 + f.sqrt(1.0)))
  {
    var (x, box) := (A.Var(nm, ENTIRE), map[nm := AROUND]);
    SqrtEnclosure(f, nm);
    AddEnclosure(f, 2.0, A.Oper(A.Sqrt, [x]), box, f.sqrt(0.0), f.sqrt(1.0));
    AddEnclosure(f, -1.0, RootNode(x), box, 2.0 + f.sqrt(0.0), 2.0 + f.sqrt(1.0));
    hide *;
  }

  /** SUM(-1, 2 + SQRT(A1)) with A1 = -1. */
  const SKIP_BOOK: Book := GoalBook(-1.0, 0.0, Skipping(CellRef("", 0, 0)))

  lemma FirstPlaced(book: Book)
    requires UPPER in InputsOf(book)
    ensures Placed(book, GOAL_RANKS, CellRef("", 0, 0), 0, 1)
    ensures Placed(book, GOAL_RANKS, Skipping(CellRef("", 0, 0)), 0, 1)
  {
    RootPlaced(book, GOAL_RANKS, CellRef("", 0, 0), 0, 1);
    PairPlaced(book, GOAL_RANKS, SUM, Num(-1.0), Root(CellRef("", 0, 0)), 0, 1);
  }

  lemma FirstMeaning(c: Ctx, n: Node)
    requires c.rank == GOAL_RANKS && Acyclic(c.book, c.rank) && UPPER in InputsOf(c.book)
    ensures Placed(c.book, GOAL_RANKS, CellRef("", 0, 0), 0, 1)
    ensures SemX(c, CellRef("", 0, 0), 0, 1) == SemCell(c, UPPER)
    ensures LoweredX(c.book, GOAL_RANKS, CellRef("", 0, 0), 0, 1, n) <==> LoweredCell(c.book, GOAL_RANKS, UPPER, n)
  {
    hide Acyclic;
    hide SemCell;
    hide LoweredCell;
  }

  /** At A1 = -1 the interpreter's sum is -1; over [-1, 1] the graph is Safe. */
  lemma SkipFalseSafe(f: Fpu, other: (Fn, seq<seq<XR>>) -> XR, env: string -> real)
    requires Exact(f) && Monotone(f)
    requires OnSheet(SKIP_BOOK, UPPER) && env(Key(SKIP_BOOK, UPPER)) == -1.0
    ensures var c := Ctx(SKIP_BOOK, f, other, env, GOAL_RANKS);
      var nm := Key(SKIP_BOOK, UPPER);
      var p := Program(SkipNode(A.Var(nm, ENTIRE)), map[nm := AROUND], NO_HOLES, ZERO);
      && Acyclic(c.book, c.rank) && A.WellFormed(p.root) && LoweredCell(c.book, c.rank, GOAL, p.root)
      && Contains(p.box[nm], env(nm))
      && DecideEval(Evaluated(f, p)) == Safe && SemCell(c, GOAL) == Fin(-1.0)
  {
    var (c, nm, e) := (Ctx(SKIP_BOOK, f, other, env, GOAL_RANKS), Key(SKIP_BOOK, UPPER), CellRef("", 0, 0));
    var x := A.Var(nm, ENTIRE);
    assert 0.0 <= f.sqrt(0.0) <= f.sqrt(1.0);
    assert GOAL_RANKS(GOAL) == 1;
    hide *;
    FirstPlaced(SKIP_BOOK);
    GoalAcyclic(-1.0, 0.0, Skipping(e));
    InputMeaning(c, UPPER);
    FirstMeaning(c, x);
    SkipMeaning(c, e, 0, 1);
    SkipLowered(SKIP_BOOK, GOAL_RANKS, e, 0, 1, x);
    FormulaCell(c, GOAL, Skipping(e), SkipNode(x));
    SkipEnclosure(f, nm);
    PositiveIsSafe(f, Program(SkipNode(x), map[nm := AROUND], NO_HOLES, ZERO));
    AroundHolds();
  }

  lemma AroundHolds()
    ensures Contains(AROUND, -1.0)
  {
  }

  // ----- references too deep -----

  function Row(i: nat): CellId { CellId(0, i, 0) }

  /** Rows 0 to n - 1 each refer to the next, and row n is an input. */
  predicate IsChain(book: Book, n: nat) {
    && (forall i: nat :: i < n ==> Row(i) in book.cells && book.cells[Row(i)].formula == Parsed(CellRef("", i + 1, 0)))
    && Row(n) in InputsOf(book)
  }

  lemma LinkMeaning(c: Ctx, n: nat, i: nat, x: Node)
    requires Acyclic(c.book, c.rank) && IsChain(c.book, n) && i < n && c.rank(Row(i)) > 0
    ensures SemCell(c, Row(i)) == SemCell(c, Row(i + 1))
    ensures LoweredCell(c.book, c.rank, Row(i + 1), x) ==> LoweredCell(c.book, c.rank, Row(i), x)
  {
    hide Acyclic;
    var e := CellRef("", i + 1, 0);
    FormulaCell(c, Row(i), e, x);
    assert TargetOf(c.book, e, 0) == Row(i + 1);
    hide SemCell;
    hide LoweredCell;
  }

  lemma {:induction false} ChainMeaning(c: Ctx, n: nat, i: nat)
    requires Acyclic(c.book, c.rank) && IsChain(c.book, n) && i <= n
    requires forall j: nat :: j < n ==> c.rank(Row(j)) > 0
    ensures OnSheet(c.book, Row(n)) && SemCell(c, Row(i)) == Fin(c.env(Key(c.book, Row(n))))
    ensures LoweredCell(c.book, c.rank, Row(i), A.Var(Key(c.book, Row(n)), ENTIRE))
    decreases n - i
  {
    InputMeaning(c, Row(n));
    hide Key;
    hide Acyclic;
    hide SemCell;
    hide LoweredCell;
    if i < n {
      ChainMeaning(c, n, i + 1);
      LinkMeaning(c, n, i, A.Var(Key(c.book, Row(n)), ENTIRE));
    }
  }

  /** Only the chain's input is held. */
  predicate HoldsEnd(memo: Memo, n: nat, x: real) {
    Row(n) in memo && memo[Row(n)] == Fin(x) && forall i: nat :: i < n ==> Row(i) !in memo
  }

  /** The interpreter comes to the end of the chain exactly when no formula lies too deep. */
  lemma {:induction false} ChainRun(m: Machine, memo: Memo, n: nat, x: real, i: nat, depth: nat)
    requires CallableBook(m.book) && IsChain(m.book, n) && HoldsEnd(memo, n, x)
    requires i <= n && depth <= MAX_DEPTH + 1
    ensures RunCell(m, memo, Row(i), depth).0 == if n - i + depth <= MAX_DEPTH + 1 then Fin(x) else NaN
    decreases n - i
  {
    hide CallableBook;
    if i < n && depth <= MAX_DEPTH {
      ChainRun(m, memo, n, x, i + 1, depth + 1);
      LinkRun(m, memo, n, i, depth);
    }
  }

  lemma LinkRun(m: Machine, memo: Memo, n: nat, i: nat, depth: nat)
    requires CallableBook(m.book) && IsChain(m.book, n) && Row(i) !in memo && i < n && depth <= MAX_DEPTH
    ensures RunCell(m, memo, Row(i), depth).0 == RunCell(m, memo, Row(i + 1), depth + 1).0
  {
    hide CallableBook;
    var e := CellRef("", i + 1, 0);
    assert m.book.cells[Row(i)].formula.ast == e;
    assert TargetOf(m.book, e, 0) == Row(i + 1);
    assert RunX(m, memo, e, 0, depth + 1) == RunCell(m, memo, Row(i + 1), depth + 1);
  }

  /** MAX(-5, A1). */
  const DEEP: Expr := Call(MAX, [Num(-5.0), CellRef("", 0, 0)])

  /** An aggregate of two single values, as the interpreter runs it. */
  lemma PairRun(m: Machine, memo: Memo, fn: Fn, d: Expr, e: Expr, depth: nat)
    requires CallableBook(m.book) && Callable(d) && Callable(e) && !d.RangeRef? && !e.RangeRef?
    requires depth <= MAX_DEPTH + 1
    requires IsFold(fn)
    ensures Callable(Call(fn, [d, e]))
    ensures var (x, between) := RunX(m, memo, d, 0, depth);
      var (y, after) := RunX(m, between, e, 0, depth);
      RunX(m, memo, Call(fn, [d, e]), 0, depth) == (Aggregated(AggOf(fn), [x, y]), after)
  {
    hide CallableBook;
    hide RunArgs;
    hide RunCell;
    hide RunCells;
    hide CallVal;
    hide Aggregated;
    hide Flat;
    PairArgs(m, memo, d, e, 0, depth);
    var (x, between) := RunX(m, memo, d, 0, depth);
    var y := RunX(m, between, e, 0, depth).0;
    FlatTwo([x], [y]);
    FoldCall(m.f, m.other, fn, [[x], [y]]);
    assert [x] + [y] == [x, y];
  }

  lemma DeepRun(m: Machine, memo: Memo)
    requires CallableBook(m.book)
    ensures RunX(m, memo, DEEP, 0, 0).0 == Aggregated(MaxAgg, [Fin(-5.0), RunCell(m, memo, Row(0), 0).0])
  {
    hide CallableBook;
    hide RunCell;
    hide RunArgs;
    var e := CellRef("", 0, 0);
    assert TargetOf(m.book, e, 0) == Row(0);
    PairRun(m, memo, MAX, Num(-5.0), e, 0);
    hide Aggregated;
  }

  function Link(n: nat, i: nat): Cell {
    if i < n then Cell(false, 0.0, "", Parsed(CellRef("", i + 1, 0))) else Cell(true, 100.0, "", NoFormula)
  }

  /** A chain of n references in column A and MAX(-5, A1) in B1. */
  function ChainBook(n: nat): Book {
    Book(["S"], (map i: nat | 0 <= i <= n :: Row(i) := Link(n, i))[GOAL := Cell(false, 0.0, "", Parsed(DEEP))], map[])
  }

  function ChainRank(n: nat): CellId -> nat {
    id => if id == GOAL then n + 1 else if 0 <= id.row <= n then n - id.row else 0
  }

  lemma DeepPlaced(book: Book, rank: CellId -> nat, k: nat)
    requires RanksBelow(book, rank, Row(0), k)
    ensures Placed(book, rank, DEEP, 0, k) && Placed(book, rank, CellRef("", 0, 0), 0, k)
    ensures Placed(book, rank, Num(-5.0), 0, k)
  {
  }

  /** A cell of a book with one sheet: in place, and if it is ranked above what it refers to. */
  predicate Settled(book: Book, rank: CellId -> nat, id: CellId)
    requires id in book.cells
  {
    && id.sheet == 0 && id.row >= 0 && id.col >= 0
    && (IsFormula(book.cells[id]) ==>
          var e := book.cells[id].formula.ast;
          Callable(e) && (rank(id) > 0 ==> Below(book, rank, e, 0, rank(id))))
  }

  lemma SettledAcyclic(book: Book, rank: CellId -> nat)
    requires |book.sheets| == 1 && |book.names| == 0 && forall id :: id in book.cells ==> Settled(book, rank, id)
    ensures Acyclic(book, rank)
  {
    hide Below;
    hide Callable;
  }

  lemma ChainCell(n: nat, id: CellId)
    requires id in ChainBook(n).cells
    ensures Settled(ChainBook(n), ChainRank(n), id) && (IsInput(ChainBook(n).cells[id]) <==> id == Row(n))
  {
    var (book, rank) := (ChainBook(n), ChainRank(n));
    DeepPlaced(book, rank, n + 1);
    if id != GOAL {
      assert id == Row(id.row) && book.cells[id] == Link(n, id.row);
      if id.row < n { assert Placed(book, rank, CellRef("", id.row + 1, 0), 0, n - id.row); }
    }
  }

  lemma ChainIsChain(n: nat)
    ensures var book := ChainBook(n);
      && IsChain(book, n) && GOAL in book.cells && book.cells[GOAL].formula == Parsed(DEEP)
      && Row(n) in book.cells && |book.sheets| == 1 && |book.names| == 0
  {
    hide ChainRank;
  }

  lemma ChainAcyclic(n: nat)
    ensures var book := ChainBook(n);
      && Acyclic(book, ChainRank(n)) && InputsOf(book).Keys == {Row(n)}
  {
    hide ChainBook;
    hide ChainRank;
    hide Settled;
    hide IsInput;
    hide IsChain;
    hide Acyclic;
    ChainIsChain(n);
    forall id | id in ChainBook(n).cells
      ensures Settled(ChainBook(n), ChainRank(n), id) && (IsInput(ChainBook(n).cells[id]) <==> id == Row(n))
    {
      ChainCell(n, id);
    }
    SettledAcyclic(ChainBook(n), ChainRank(n));
  }

  lemma DeepLeaves(c: Ctx, k: nat, x: Node)
    requires Acyclic(c.book, c.rank) && RanksBelow(c.book, c.rank, Row(0), k) && LoweredCell(c.book, c.rank, Row(0), x)
    ensures Placed(c.book, c.rank, Num(-5.0), 0, k) && Placed(c.book, c.rank, CellRef("", 0, 0), 0, k)
    ensures SemX(c, Num(-5.0), 0, k) == Fin(-5.0) && SemX(c, CellRef("", 0, 0), 0, k) == SemCell(c, Row(0))
    ensures LoweredX(c.book, c.rank, Num(-5.0), 0, k, A.Const(-5.0))
    ensures LoweredX(c.book, c.rank, CellRef("", 0, 0), 0, k, x)
  {
    hide Acyclic;
    hide SemCell;
    hide LoweredCell;
    assert TargetOf(c.book, CellRef("", 0, 0), 0) == Row(0);
  }

  lemma DeepX(c: Ctx, k: nat, x: Node)
    requires Acyclic(c.book, c.rank) && RanksBelow(c.book, c.rank, Row(0), k) && LoweredCell(c.book, c.rank, Row(0), x)
    ensures Placed(c.book, c.rank, DEEP, 0, k)
    ensures SemX(c, DEEP, 0, k) == Aggregated(MaxAgg, [Fin(-5.0), SemCell(c, Row(0))])
    ensures LoweredX(c.book, c.rank, DEEP, 0, k, A.Call(A.MaxFn, [A.Const(-5.0), x]))
  {
    DeepLeaves(c, k, x);
    PairMeaning(c, MAX, Num(-5.0), CellRef("", 0, 0), 0, k);
    PairLowered(c.book, c.rank, MAX, Num(-5.0), CellRef("", 0, 0), 0, k, A.Const(-5.0), x);
    FoldedPair(MaxAgg, A.Const(-5.0), x);
    assert AggOf(MAX) == MaxAgg && FoldNode(MaxAgg, A.Const(-5.0), x) == A.Call(A.MaxFn, [A.Const(-5.0), x]);
    assert DEEP == Call(MAX, [Num(-5.0), CellRef("", 0, 0)]);
    hide *;
  }

  lemma ChainRanks(n: nat)
    ensures var rank := ChainRank(n);
      && rank(GOAL) == n + 1 && GOAL.sheet == 0 && (forall j: nat :: j < n ==> rank(Row(j)) > 0)
      && RanksBelow(ChainBook(n), rank, Row(0), n + 1)
  {
  }

  lemma DeepMeaning(c: Ctx, n: nat)
    requires c.book == ChainBook(n) && c.rank == ChainRank(n) && Acyclic(c.book, c.rank)
    ensures OnSheet(c.book, Row(n))
    ensures SemCell(c, GOAL) == Aggregated(MaxAgg, [Fin(-5.0), Fin(c.env(Key(c.book, Row(n))))])
    ensures LoweredCell(c.book, c.rank, GOAL, A.Call(A.MaxFn, [A.Const(-5.0), A.Var(Key(c.book, Row(n)), ENTIRE)]))
  {
    hide *;
    ChainRanks(n);
    ChainIsChain(n);
    ChainMeaning(c, n, 0);
    var x := A.Var(Key(c.book, Row(n)), ENTIRE);
    DeepX(c, n + 1, x);
    FormulaCell(c, GOAL, DEEP, A.Call(A.MaxFn, [A.Const(-5.0), x]));
  }

  lemma DeepValue(m: Machine, memo: Memo, n: nat, env: string -> real)
    requires m.book == ChainBook(n) && Acyclic(m.book, ChainRank(n)) && Assigned(m, memo, env)
    ensures OnSheet(m.book, Row(n)) && RunValue(m, memo, GOAL).0 ==
      Aggregated(MaxAgg, [Fin(-5.0), if n <= MAX_DEPTH + 1 then Fin(env(Key(m.book, Row(n)))) else NaN])
  {
    ChainIsChain(n);
    ChainAcyclic(n);
    hide ChainBook;
    hide ChainRank;
    hide Key;
    hide RunX;
    hide RunCell;
    assert HoldsEnd(memo, n, env(Key(m.book, Row(n))));
    ChainRun(m, memo, n, env(Key(m.book, Row(n))), 0, 0);
    DeepRun(m, memo);
  }

  /** The greater of -5 and what an unskipped argument is. */
  lemma MaxOfTwo(x: real)
    ensures Aggregated(MaxAgg, [Fin(-5.0), Fin(x)]) == Fin(if x > -5.0 then x else -5.0)
    ensures Aggregated(MaxAgg, [Fin(-5.0), NaN]) == Fin(-5.0)
  {
    AggregatedTwo(MaxAgg, Fin(-5.0), Fin(x));
    AggregatedTwo(MaxAgg, Fin(-5.0), NaN);
  }

  /** However the input is set, the interpreter's value is the meaning exactly when the chain is
      no longer than the depth limit allows. */
  lemma ChainExactly(m: Machine, n: nat)
    requires m.book == ChainBook(n) && Acyclic(m.book, ChainRank(n))
    ensures (forall memo, env: string -> real :: Assigned(m, memo, env) ==>
               RunValue(m, memo, GOAL).0 == SemCell(Ctx(m.book, m.f, m.other, env, ChainRank(n)), GOAL)) <==>
      n <= 257
  {
    hide RunValue;
    hide SemCell;
    hide Key;
    hide Assigned;
    hide ChainBook;
    hide ChainRank;
    hide Ranked;
    hide ValidBook;
    hide CallableBook;
    forall memo, env: string -> real | Assigned(m, memo, env) && n <= MAX_DEPTH + 1
      ensures RunValue(m, memo, GOAL).0 == SemCell(Ctx(m.book, m.f, m.other, env, ChainRank(n)), GOAL)
    {
      DeepValue(m, memo, n, env);
      DeepMeaning(Ctx(m.book, m.f, m.other, env, ChainRank(n)), n);
    }
    if n > MAX_DEPTH + 1 {
      var env := (key: string) => 100.0;
      var memo := map[Row(n) := Fin(100.0)];
      HundredAssigned(m, n, memo, env);
      DeepValue(m, memo, n, env);
      DeepMeaning(Ctx(m.book, m.f, m.other, env, ChainRank(n)), n);
      MaxOfTwo(100.0);
    }
  }

  lemma HundredAssigned(m: Machine, n: nat, memo: Memo, env: string -> real)
    requires m.book == ChainBook(n) && Acyclic(m.book, ChainRank(n))
    requires memo == map[Row(n) := Fin(100.0)] && forall key :: env(key) == 100.0
    ensures Assigned(m, memo, env)
  {
    ChainAcyclic(n);
    hide ChainBook;
    hide ChainRank;
    hide InputsOf;
  }

  function MaxNode(nm: string): Node { A.Call(A.MaxFn, [A.Const(-5.0), A.Var(nm, ENTIRE)]) }

  lemma MaxEnclosure(f: Fpu, nm: string)
    ensures var (n, box) := (MaxNode(nm), map[nm := Point(Fin(100.0))]);
      && A.WellFormed(n) && ResidualFrom(f, n, box, NO_HOLES, ZERO) == ZERO
      && Encl(f, n, box, NO_HOLES) == Point(Fin(100.0))
  {
    var (x, box) := (A.Var(nm, ENTIRE), map[nm := Point(Fin(100.0))]);
    var args := [A.Const(-5.0), x];
    Pair(A.Call(A.MaxFn, args), args[0], x);
    NoResidual(f, args, box, NO_HOLES);
    assert EnclAll(f, args, box, NO_HOLES) == [Point(Fin(-5.0)), Point(Fin(100.0))];
  }

  lemma MaxSafe(f: Fpu, nm: string)
    ensures A.WellFormed(MaxNode(nm))
    ensures DecideEval(Evaluated(f, Program(MaxNode(nm), map[nm := Point(Fin(100.0))], NO_HOLES, ZERO))) == Safe
  {
    MaxEnclosure(f, nm);
    hide Encl;
    hide ResidualFrom;
    hide MaxNode;
    PositiveIsSafe(f, Program(MaxNode(nm), map[nm := Point(Fin(100.0))], NO_HOLES, ZERO));
  }

  /** Past the limit the interpreter takes the input for no number and returns -5, while the graph
      of the same cell is Safe at the same input. */
  lemma DepthFalseSafe(m: Machine, memo: Memo, n: nat, env: string -> real)
    requires m.book == ChainBook(n) && n > 257
    requires OnSheet(m.book, Row(n)) && env(Key(m.book, Row(n))) == 100.0
    requires ValidBook(m.book) && Assigned(m, memo, env)
    ensures var nm := Key(m.book, Row(n));
      var box := map[nm := Point(Fin(100.0))];
      var p := Program(MaxNode(nm), box, NO_HOLES, ZERO);
      && Acyclic(m.book, ChainRank(n)) && A.WellFormed(p.root) && LoweredCell(m.book, ChainRank(n), GOAL, p.root)
      && Contains(p.box[nm], env(nm))
      && DecideEval(Evaluated(m.f, p)) == Safe && RunValue(m, memo, GOAL).0 == Fin(-5.0)
  {
    hide RunValue;
    hide LoweredCell;
    hide Key;
    hide Assigned;
    hide DecideEval;
    hide Evaluated;
    hide ChainBook;
    hide ChainRank;
    ChainAcyclic(n);
    hide Acyclic;
    DeepMeaning(Ctx(m.book, m.f, m.other, env, ChainRank(n)), n);
    DeepValue(m, memo, n, env);
    MaxOfTwo(100.0);
    MaxSafe(m.f, Key(m.book, Row(n)));
  }

  // ----- a cycle behind a condition -----

  const NEAR: CellId := CellId(0, 1, 0)

  const FAR: CellId := CellId(0, 2, 0)

  const LOOP: CellId := CellId(0, 0, 2)

  function Near(): Expr { CellRef("", 0, 0) }

  function Far(): Expr { CellRef("", 1, 0) }

  /** SUM(C1, A3) in C1. */
  function Loop(): Expr { Call(SUM, [CellRef("", 0, 2), CellRef("", 2, 0)]) }

  function Guarded(): Expr { Call(MAX, [Num(-5.0), CellRef("", 2, 0)]) }

  /** IF(C1, 20, MAX(-5, A3)), where A3 is A2 and A2 is A1. */
  function LoopGoal(): Expr { Call(IF, [CellRef("", 0, 2), Num(20.0), Guarded()]) }

  predicate HasFormula(book: Book, id: CellId, e: Expr) { id in book.cells && book.cells[id].formula == Parsed(e) }

  predicate IsLoop(book: Book) {
    && UPPER in InputsOf(book) && HasFormula(book, NEAR, Near()) && HasFormula(book, FAR, Far())
    && HasFormula(book, LOOP, Loop()) && HasFormula(book, GOAL, LoopGoal())
  }

  /** Two steps below the limit the far cell is found to be no number, and that is kept. */
  lemma FarRun(m: Machine, memo: Memo, depth: nat)
    requires CallableBook(m.book) && IsLoop(m.book) && MAX_DEPTH <= depth <= MAX_DEPTH + 1
    requires NEAR !in memo && FAR !in memo
    ensures RunCell(m, memo, FAR, depth) == (NaN, if depth == MAX_DEPTH then memo[FAR := NaN] else memo)
  {
    hide CallableBook;
    hide RunX;
    if depth == MAX_DEPTH {
      RefRun(m, memo, NEAR, MAX_DEPTH + 1);
      assert m.book.cells[FAR].formula.ast == Far();
    }
  }

  lemma SumOfNone()
    ensures Aggregated(SumAgg, [NaN, NaN]) == ZERO && Aggregated(SumAgg, [ZERO, NaN]) == ZERO
  {
    AggregatedTwo(SumAgg, NaN, NaN);
    AggregatedTwo(SumAgg, ZERO, NaN);
  }

  /** Around the cycle down to the limit and back: the far cell is remembered as no number. */
  lemma {:induction false} LoopRun(m: Machine, memo: Memo, depth: nat)
    requires CallableBook(m.book) && IsLoop(m.book) && depth <= MAX_DEPTH
    requires NEAR !in memo && FAR !in memo && LOOP !in memo
    ensures RunCell(m, memo, LOOP, depth) ==
      (ZERO, if depth == MAX_DEPTH then memo[LOOP := ZERO] else memo[LOOP := ZERO][FAR := NaN])
    decreases MAX_DEPTH - depth
  {
    hide CallableBook;
    hide RunX;
    hide Aggregated;
    var (d, e) := (CellRef("", 0, 2), CellRef("", 2, 0));
    var deep := depth + 1;
    RefRun(m, memo, LOOP, deep);
    SumOfNone();
    PairRun(m, memo, SUM, d, e, deep);
    assert m.book.cells[LOOP].formula.ast == Loop();
    if depth == MAX_DEPTH {
      RefRun(m, memo, FAR, deep);
      FarRun(m, memo, deep);
    } else {
      LoopRun(m, memo, deep);
      var between := RunCell(m, memo, LOOP, deep).1;
      RefRun(m, between, FAR, deep);
      if deep == MAX_DEPTH { FarRun(m, between, deep); }
      assert memo[LOOP := ZERO][FAR := NaN][LOOP := ZERO] == memo[LOOP := ZERO][FAR := NaN];
    }
  }

  /** The interpreter comes back from the cycle with the far cell lost. */
  lemma LoopValue(m: Machine, memo: Memo, x: real)
    requires CallableBook(m.book) && IsLoop(m.book) && memo == map[UPPER := Fin(x)]
    ensures RunValue(m, memo, GOAL).0 == Fin(-5.0)
  {
    hide CallableBook;
    hide RunX;
    var (c, e) := (CellRef("", 0, 2), CellRef("", 2, 0));
    RefRun(m, memo, LOOP, 0);
    LoopRun(m, memo, 0);
    var between := RunCell(m, memo, LOOP, 0).1;
    RefRun(m, between, FAR, 0);
    PairRun(m, between, MAX, Num(-5.0), e, 0);
    NumRun(m, between, -5.0, 0, 0);
    NumRun(m, between, 20.0, 0, 0);
    MaxOfTwo(x);
    ChoiceRun(m, memo, c, Num(20.0), Guarded(), 0, 0);
    assert m.book.cells[GOAL].formula.ast == LoopGoal();
    hide RunCell;
  }

  function Formula(e: Expr): Cell { Cell(false, 0.0, "", Parsed(e)) }

  const LOOP_BOOK: Book := Book(["S"],
                                map[UPPER := Cell(true, 100.0, "", NoFormula), NEAR := Formula(Near()),
                                    FAR := Formula(Far()), LOOP := Formula(Loop()), GOAL := Formula(LoopGoal())],
                                map[])

  /** What leads to the cycle has no rank. */
  const LOOP_RANKS: CellId -> nat := id => if id == NEAR then 1 else if id == FAR then 2 else 0

  lemma LoopCallable()
    ensures Callable(Loop()) && Callable(LoopGoal()) && Callable(Near()) && Callable(Far())
  {
  }

  lemma LoopIsLoop()
    ensures IsLoop(LOOP_BOOK) && |LOOP_BOOK.sheets| == 1 && |LOOP_BOOK.names| == 0
  {
    hide Loop;
    hide LoopGoal;
  }

  lemma LoopCell(id: CellId)
    requires id in LOOP_BOOK.cells
    ensures Settled(LOOP_BOOK, LOOP_RANKS, id) && (IsInput(LOOP_BOOK.cells[id]) <==> id == UPPER)
  {
    LoopCallable();
    hide Callable;
    hide Loop;
    hide LoopGoal;
    assert Below(LOOP_BOOK, LOOP_RANKS, Near(), 0, 1) && Below(LOOP_BOOK, LOOP_RANKS, Far(), 0, 2);
  }

  lemma LoopAcyclic()
    ensures Acyclic(LOOP_BOOK, LOOP_RANKS) && InputsOf(LOOP_BOOK).Keys == {UPPER}
  {
    LoopIsLoop();
    hide Settled;
    hide IsInput;
    hide Acyclic;
    forall id | id in LOOP_BOOK.cells
      ensures Settled(LOOP_BOOK, LOOP_RANKS, id) && (IsInput(LOOP_BOOK.cells[id]) <==> id == UPPER)
    {
      LoopCell(id);
    }
    SettledAcyclic(LOOP_BOOK, LOOP_RANKS);
  }

  lemma FarLowered(c: Ctx)
    requires c.book == LOOP_BOOK && c.rank == LOOP_RANKS && Acyclic(c.book, c.rank)
    ensures OnSheet(c.book, UPPER) && LoweredCell(c.book, c.rank, FAR, A.Var(Key(c.book, UPPER), ENTIRE))
  {
    LoopIsLoop();
    assert c.rank(NEAR) == 1 && c.rank(FAR) == 2;
    hide LOOP_BOOK;
    hide LOOP_RANKS;
    hide Acyclic;
    hide Key;
    InputMeaning(c, UPPER);
    var x := A.Var(Key(c.book, UPPER), ENTIRE);
    FormulaCell(c, NEAR, Near(), x);
    FormulaCell(c, FAR, Far(), x);
    assert TargetOf(c.book, Near(), 0) == UPPER && TargetOf(c.book, Far(), 0) == NEAR;
    hide LoweredCell;
  }

  lemma GuardedLeaves(c: Ctx, k: nat, x: Node)
    requires Acyclic(c.book, c.rank) && RanksBelow(c.book, c.rank, FAR, k) && LoweredCell(c.book, c.rank, FAR, x)
    ensures Placed(c.book, c.rank, Num(-5.0), 0, k) && Placed(c.book, c.rank, CellRef("", 2, 0), 0, k)
    ensures LoweredX(c.book, c.rank, Num(-5.0), 0, k, A.Const(-5.0))
    ensures LoweredX(c.book, c.rank, CellRef("", 2, 0), 0, k, x)
  {
    hide Acyclic;
    hide LoweredCell;
    assert TargetOf(c.book, CellRef("", 2, 0), 0) == FAR;
  }

  lemma FarBelow()
    ensures RanksBelow(LOOP_BOOK, LOOP_RANKS, FAR, 3)
  {
  }

  lemma MaxFolded(nm: string)
    ensures IsFold(MAX) && Folded(AggOf(MAX), [A.Const(-5.0), A.Var(nm, ENTIRE)]) == MaxNode(nm)
    ensures Guarded() == Call(MAX, [Num(-5.0), CellRef("", 2, 0)])
  {
    FoldedPair(MaxAgg, A.Const(-5.0), A.Var(nm, ENTIRE));
  }

  /** The graph of the branch that the interpreter loses. */
  lemma GuardedLowered(c: Ctx)
    requires c.book == LOOP_BOOK && c.rank == LOOP_RANKS && Acyclic(c.book, c.rank)
    ensures OnSheet(c.book, UPPER) && Placed(c.book, c.rank, Guarded(), 0, 3)
    ensures LoweredX(c.book, c.rank, Guarded(), 0, 3, MaxNode(Key(c.book, UPPER)))
  {
    hide *;
    FarLowered(c);
    FarBelow();
    var x := A.Var(Key(c.book, UPPER), ENTIRE);
    GuardedLeaves(c, 3, x);
    MaxFolded(Key(c.book, UPPER));
    PairLowered(c.book, c.rank, MAX, Num(-5.0), CellRef("", 2, 0), 0, 3, A.Const(-5.0), x);
  }

  lemma EitherSafe(f: Fpu, nm: string)
    ensures var n := A.Disj([A.Const(20.0), MaxNode(nm)]);
      && A.WellFormed(n)
      && DecideEval(Evaluated(f, Program(n, map[nm := Point(Fin(100.0))], NO_HOLES, ZERO))) == Safe
  {
    MaxEnclosure(f, nm);
    hide MaxNode;
    var box := map[nm := Point(Fin(100.0))];
    var cands := [A.Const(20.0), MaxNode(nm)];
    Either(cands[0], cands[1]);
    NoResidual(f, cands, box, NO_HOLES);
    assert EnclAll(f, cands, box, NO_HOLES) == [Point(Fin(20.0)), Point(Fin(100.0))];
    HullOfTwo(Point(Fin(20.0)), Point(Fin(100.0)));
    hide BundleHull;
    hide DecideEval;
    hide Evaluated;
    PositiveIsSafe(f, Program(A.Disj(cands), box, NO_HOLES, ZERO));
  }

  lemma LoopMemo(m: Machine, memo: Memo, env: string -> real)
    requires m.book == LOOP_BOOK && Acyclic(m.book, LOOP_RANKS) && Assigned(m, memo, env)
    requires OnSheet(m.book, UPPER) && env(Key(m.book, UPPER)) == 100.0
    ensures memo == map[UPPER := Fin(100.0)] && CallableBook(m.book)
  {
    LoopAcyclic();
    hide LOOP_BOOK;
    hide InputsOf;
    hide Key;
  }

  lemma LoopFormula(book: Book)
    requires IsLoop(book)
    ensures GOAL in book.cells
    ensures book.cells[GOAL].formula == Parsed(Call(IF, [CellRef("", 0, 2), Num(20.0), Guarded()]))
  {
  }

  lemma IfNode(x: Node, y: Node)
    ensures ScalarNode(IF, [x, y]) == A.Disj([x, y])
  {
  }

  /** A cycle behind a condition that lowering drops: on its way around it the interpreter meets the
      depth limit and keeps no number for a cell that is well defined. The disjunction of the
      branches' graphs is Safe, and the value is -5. */
  lemma CycleFalseSafe(m: Machine, memo: Memo, env: string -> real)
    requires m.book == LOOP_BOOK && ValidBook(m.book) && Assigned(m, memo, env)
    requires OnSheet(m.book, UPPER) && env(Key(m.book, UPPER)) == 100.0
    ensures var nm := Key(m.book, UPPER);
      var branches := [A.Const(20.0), MaxNode(nm)];
      var p := Program(ScalarNode(IF, branches), map[nm := Point(Fin(100.0))], NO_HOLES, ZERO);
      && Acyclic(m.book, LOOP_RANKS) && A.WellFormed(p.root) && Contains(p.box[nm], env(nm))
      && GOAL in m.book.cells
      && m.book.cells[GOAL].formula == Parsed(Call(IF, [CellRef("", 0, 2), Num(20.0), Guarded()]))
      && Placed(m.book, LOOP_RANKS, Guarded(), 0, 3)
      && LoweredX(m.book, LOOP_RANKS, Guarded(), 0, 3, branches[1])
      && DecideEval(Evaluated(m.f, p)) == Safe && RunValue(m, memo, GOAL).0 == Fin(-5.0)
  {
    hide *;
    LoopIsLoop();
    LoopAcyclic();
    LoopMemo(m, memo, env);
    LoopFormula(m.book);
    var nm := Key(m.book, UPPER);
    IfNode(A.Const(20.0), MaxNode(nm));
    PointHolds(100.0, 100.0);
    GuardedLowered(Ctx(m.book, m.f, m.other, env, LOOP_RANKS));
    EitherSafe(m.f, nm);
    LoopValue(m, memo, 100.0);
  }
}
