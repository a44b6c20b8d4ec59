/** Lowering keeps the meaning of a workbook, and a Safe verdict on the lowered graph is
    therefore a statement about the workbook itself. */
module Preservation {
  import opened ExtReal
  import opened Interval
  import A = Ast
  import opened Holes
  import opened Enclosure
  import opened Options
  import opened Reals
  import opened Verifier
  import opened Sequences
  import opened Workbooks
  import opened Meaning
  import opened Oracle
  import opened Lowering

  // ----- where the interpreter's value is computed from numbers -----

  /** Powers are by whole exponents, and zero is not raised to a negative one. */
  predicate PowTame(x: XR, y: XR) {
    x.Fin? && y.Fin? && IsWhole(y.r) && PowDefined(x.r, y.r.Floor)
  }

  predicate AllFin(v: seq<XR>) { forall i :: 0 <= i < |v| ==> v[i].Fin? }

  /** The starting value of a minimum or maximum does not show through. */
  predicate FoldTame(fn: Fn, v: seq<XR>) {
    match fn
    case MIN => exists i :: 0 <= i < |v| && Le(v[i], Start(MinAgg))
    case MAX => exists i :: 0 <= i < |v| && Le(Start(MaxAgg), v[i])
    case PRODUCT => |v| > 0
    case _ => true
  }

  /** Every number from which the value of e is computed is one, names are read alike by
      both sides, and the condition of an IF is not a range of several cells. */
  predicate TameX(c: Ctx, e: Expr, cur: int, k: nat)
    requires Acyclic(c.book, c.rank) && Placed(c.book, c.rank, e, cur, k)
    decreases k, 1, e, 1
  {
    match e
    case Num(_) => true
    case Str(_) => true
    case CellRef(_, _, _) => TameCell(c, TargetOf(c.book, e, cur))
    case RangeRef(_, _, _, _, _) => true
    case NameRef(nm) => nm in c.book.names ==>
      var t := c.book.names[nm];
      NameTarget(t) == NameTargetFrom(t, cur) && TameCell(c, NameTarget(t))
    case Un(_, a) => TameX(c, a, cur, k) && SemX(c, a, cur, k).Fin?
    case Bin(op, a, b) => Arithmetic(op) ==>
      && TameX(c, a, cur, k) && SemX(c, a, cur, k).Fin?
      && TameX(c, b, cur, k) && SemX(c, b, cur, k).Fin?
      && (op == Power ==> PowTame(SemX(c, a, cur, k), SemX(c, b, cur, k)))
    case Call(fn, args) => TameCall(c, fn, args, cur, k)
  }

  predicate TameCall(c: Ctx, fn: Fn, args: seq<Expr>, cur: int, k: nat)
    requires Acyclic(c.book, c.rank) && |args| >= Needs(fn)
    requires AllPlaced(c.book, c.rank, args, cur, k)
    decreases k, 1, args, 3
  {
    if IsFold(fn) || fn == AVERAGE then TameFold(c, fn, args, cur, k)
    else if fn == IF then TameIf(c, args, cur, k)
    else if fn == IFERROR then TameIfError(c, args, cur, k)
    else fn.OTHER? || TameScalar(c, fn, args, cur, k)
  }

  /** An aggregate of numbers only. */
  predicate TameFold(c: Ctx, fn: Fn, args: seq<Expr>, cur: int, k: nat)
    requires Acyclic(c.book, c.rank)
    requires AllPlaced(c.book, c.rank, args, cur, k)
    decreases k, 1, args, 2
  {
    && (forall i :: 0 <= i < |args| ==> TameArg(c, args[i], cur, k))
    && FoldTame(fn, Flat(SemArgs(c, args, cur, k)))
  }

  /** One value and no more, so that nothing behind it is shifted. */
  predicate OneValue(book: Book, a: Expr, cur: int) { a.RangeRef? ==> |RangeIds(book, a, cur)| == 1 }

  /** Only the branch that is taken matters. */
  predicate TameIf(c: Ctx, args: seq<Expr>, cur: int, k: nat)
    requires Acyclic(c.book, c.rank) && |args| >= 2
    requires AllPlaced(c.book, c.rank, args, cur, k)
    decreases k, 1, args, 2
  {
    && OneValue(c.book, args[0], cur)
    && if !Same(SemX(c, args[0], cur, k), ZERO) then TameX(c, args[1], cur, k)
       else |args| > 2 ==> TameX(c, args[2], cur, k)
  }

  predicate TameIfError(c: Ctx, args: seq<Expr>, cur: int, k: nat)
    requires Acyclic(c.book, c.rank) && |args| >= 1
    requires AllPlaced(c.book, c.rank, args, cur, k)
    decreases k, 1, args, 2
  {
    if !SemX(c, args[0], cur, k).NaN? then TameX(c, args[0], cur, k)
    else |args| > 1 ==> TameX(c, args[1], cur, k)
  }

  /** A function of one or two numbers, each the value of a tame operand. */
  predicate TameScalar(c: Ctx, fn: Fn, args: seq<Expr>, cur: int, k: nat)
    requires Acyclic(c.book, c.rank) && |args| >= Needs(fn)
    requires AllPlaced(c.book, c.rank, args, cur, k)
    decreases k, 1, args, 2
  {
    && (|args| > 0 && fn != PI ==> TameNumber(c, fn, args[0], cur, k))
    && (|args| > 1 && (fn == LOG || fn == POWER) ==> TameNumber(c, fn, args[1], cur, k))
    && (fn == POWER ==> PowTame(SemX(c, args[0], cur, k), SemX(c, args[1], cur, k)))
  }

  predicate TameNumber(c: Ctx, fn: Fn, a: Expr, cur: int, k: nat)
    requires Acyclic(c.book, c.rank) && Placed(c.book, c.rank, a, cur, k)
    decreases k, 1, a, 2
  {
    var x := SemX(c, a, cur, k);
    TameX(c, a, cur, k) && x.Fin? && (fn == LOG || fn == LOG10 ==> LogVal(c.f, x).Fin?)
  }

  predicate TameArg(c: Ctx, a: Expr, cur: int, k: nat)
    requires Acyclic(c.book, c.rank) && Placed(c.book, c.rank, a, cur, k)
    decreases k, 1, a, 2
  {
    && AllFin(SemArg(c, a, cur, k))
    && if a.RangeRef? then TameCells(c, RangeIds(c.book, a, cur), k) else TameX(c, a, cur, k)
  }

  predicate TameCells(c: Ctx, ids: seq<CellId>, k: nat)
    requires Acyclic(c.book, c.rank) && AllRankBelow(c.book, c.rank, ids, k)
    decreases k, 0, 0, 0
  {
    forall i :: 0 <= i < |ids| ==> TameCell(c, ids[i])
  }

  predicate TameCell(c: Ctx, id: CellId)
    requires Acyclic(c.book, c.rank)
    decreases c.rank(id), 2, 0, 0
  {
    id in c.book.cells && IsFormula(c.book.cells[id]) ==>
      c.rank(id) > 0 && TameX(c, c.book.cells[id].formula.ast, id.sheet, c.rank(id))
  }

  // ----- values of graphs in the same world -----

  /** A workbook under one assignment, and a world in which the graph is evaluated. */
  datatype Stage = Stage(c: Ctx, w: World, box: Box, ht: HoleTable)

  /** The table binds none of the holes that lowering makes. */
  ghost predicate Unbound(ht: HoleTable) {
    forall i: nat :: HoleName(i) !in ht.wrappers && HoleName(i) !in ht.phys
  }

  /** The world assigns the inputs alike. */
  ghost predicate Matching(s: Stage) { s.w.env == s.c.env }

  ghost predicate Holds(s: Stage, n: Node, v: real) {
    A.WellFormed(n) && Value(s.c.f, s.w, s.box, s.ht, n, v)
  }

  ghost predicate AllHold(s: Stage, xs: seq<Node>, v: seq<XR>) {
    |xs| == |v| && forall i :: 0 <= i < |v| ==> v[i].Fin? && Holds(s, xs[i], v[i].r)
  }

  lemma OpenIsHoled(n: Node)
    requires OpenHole(n)
    ensures Holed(n)
  {
  }

  /** Where a range reaches a graph without holes, it is an aggregate's argument. */
  lemma NoRangeLowered(book: Book, rank: CellId -> nat, e: Expr, cur: int, k: nat, n: Node)
    requires Acyclic(book, rank) && Placed(book, rank, e, cur, k) && LoweredX(book, rank, e, cur, k, n) && !Holed(n)
    ensures !e.RangeRef?
  {
    hide Acyclic;
    hide Placed;
    hide LoweredCell;
    hide LoweredUn;
    hide LoweredBin;
    hide LoweredCall;
    if OpenHole(n) { OpenIsHoled(n); }
  }

  lemma EitherHolds(s: Stage, x: Node, y: Node, v: real)
    requires A.WellFormed(x) && A.WellFormed(y) && (Holds(s, x, v) || Holds(s, y, v))
    ensures Holds(s, A.Disj([x, y]), v)
  {
    assert A.AllWellFormed([x, y]);
    assert [x, y][0] == x && [x, y][1] == y;
  }

  lemma AbsHolds(s: Stage, x: Node, v: real)
    requires Holds(s, x, v)
    ensures Holds(s, A.Call(A.AbsFn, [x]), AbsOf(v))
  {
    assert Values(s.c.f, s.w, s.box, s.ht, [x], [v]);
  }

  // ----- folds -----

  function StepReal(g: Agg, a: real, x: real): real {
    match g
    case SumAgg => a + x
    case ProductAgg => Prod(a, x)
    case SquaresAgg => a + Prod(x, x)
    case MinAgg => Interval.Min(a, x)
    case MaxAgg => Interval.Max(a, x)
  }

  /** The fold of a non-empty list from its own first element. */
  function Total(g: Agg, v: seq<XR>): real
    requires |v| > 0 && AllFin(v)
  {
    if |v| == 1 then (if g == SquaresAgg then Prod(v[0].r, v[0].r) else v[0].r)
    else StepReal(g, Total(g, v[..|v| - 1]), v[|v| - 1].r)
  }

  lemma ProdUnit(x: real)
    ensures Prod(1.0, x) == x
  {
  }

  /** On numbers an aggregate is the fold from the first element, up to its starting value. */
  lemma {:induction false} AggregatedTotal(g: Agg, v: seq<XR>)
    requires |v| > 0 && AllFin(v)
    ensures Aggregated(g, v) == Fin(match g
                                    case MinAgg => Interval.Min(MIN_START, Total(g, v))
                                    case MaxAgg => Interval.Max(-MIN_START, Total(g, v))
                                    case _ => Total(g, v))
  {
    hide Prod;
    assert v[..|v| - 1] + [v[|v| - 1]] == v;
    if |v| == 1 {
      ProdUnit(v[0].r);
      assert Aggregated(g, v[..0]) == Start(g);
    } else {
      AggregatedTotal(g, v[..|v| - 1]);
    }
  }

  lemma {:induction false} TotalBound(v: seq<XR>, i: nat)
    requires AllFin(v) && i < |v|
    ensures Total(MinAgg, v) <= v[i].r <= Total(MaxAgg, v)
  {
    if |v| > 1 && i < |v| - 1 { TotalBound(v[..|v| - 1], i); }
  }

  lemma FoldStep(s: Stage, g: Agg, acc: Node, x: Node, a: real, v: real)
    requires Holds(s, acc, a) && Holds(s, x, v)
    ensures Holds(s, FoldNode(g, acc, x), StepReal(g, a, v))
  {
    hide Value;
    hide A.WellFormed;
    hide Prod;
    match g
    case SumAgg => OperValue(s.c.f, s.w, s.box, s.ht, A.Add, acc, x, a, v, a + v);
    case ProductAgg => OperValue(s.c.f, s.w, s.box, s.ht, A.Mul, acc, x, a, v, Prod(a, v));
    case SquaresAgg =>
      OperValue(s.c.f, s.w, s.box, s.ht, A.Mul, x, x, v, v, Prod(v, v));
      OperValue(s.c.f, s.w, s.box, s.ht, A.Add, acc, Square(x), a, Prod(v, v), a + Prod(v, v));
    case MinAgg => FunctionValue(s.c.f, s.w, s.box, s.ht, A.MinFn, acc, x, a, v, Interval.Min(a, v));
    case MaxAgg => FunctionValue(s.c.f, s.w, s.box, s.ht, A.MaxFn, acc, x, a, v, Interval.Max(a, v));
  }

  lemma {:induction false} FoldHolds(s: Stage, g: Agg, xs: seq<Node>, v: seq<XR>)
    requires |v| > 0 && AllHold(s, xs, v)
    ensures AllFin(v) && Holds(s, Folded(g, xs), Total(g, v))
  {
    hide Holds;
    hide FoldNode;
    hide StepReal;
    var last := |v| - 1;
    if last == 0 {
      if g == SquaresAgg { SquareHolds(s, xs[0], v[0].r); }
    } else {
      FoldHolds(s, g, xs[..last], v[..last]);
      FoldStep(s, g, Folded(g, xs[..last]), xs[last], Total(g, v[..last]), v[last].r);
    }
  }

  lemma SquareHolds(s: Stage, x: Node, v: real)
    requires Holds(s, x, v)
    ensures Holds(s, Square(x), Prod(v, v))
  {
    hide Value;
    hide A.WellFormed;
    hide Prod;
    OperValue(s.c.f, s.w, s.box, s.ht, A.Mul, x, x, v, v, Prod(v, v));
  }

  lemma {:induction false} FlatHolds(s: Stage, xss: seq<seq<Node>>, av: seq<seq<XR>>)
    requires |xss| == |av| && forall i :: 0 <= i < |av| ==> AllHold(s, xss[i], av[i])
    ensures AllHold(s, Flat(xss), Flat(av))
  {
    hide Holds;
    if |av| > 0 {
      FlatHolds(s, xss[..|av| - 1], av[..|av| - 1]);
    }
  }

  /** As long as the lists have one element each, the elements keep their places. */
  lemma {:induction false} FlatPrefix(av: seq<seq<XR>>, j: nat)
    requires j <= |av| && (forall i :: 0 <= i < |av| ==> |av[i]| > 0) && forall i :: 0 <= i < j ==> |av[i]| == 1
    ensures |Flat(av)| >= |av| && (j == |av| ==> |Flat(av)| == |av|)
    ensures forall i :: 0 <= i < j ==> Flat(av)[i] == av[i][0]
  {
    if |av| > 0 { FlatPrefix(av[..|av| - 1], if j < |av| then j else j - 1); }
  }

  lemma {:induction false} AllNumbers(v: seq<XR>)
    requires AllFin(v)
    ensures Numbers(v) == |v|
  {
    if |v| > 0 { AllNumbers(v[..|v| - 1]); }
  }

  ghost predicate AllPlain(xs: seq<Node>) { A.AllWellFormed(xs) && !SomeHoled(xs) }

  lemma {:induction false} FlatParts(xss: seq<seq<Node>>)
    requires AllPlain(Flat(xss))
    ensures forall i :: 0 <= i < |xss| ==> AllPlain(xss[i])
  {
    hide A.WellFormed;
    hide Holed;
    if |xss| > 0 {
      var front, last := xss[..|xss| - 1], xss[|xss| - 1];
      forall i | 0 <= i < |Flat(front)|
        ensures A.WellFormed(Flat(front)[i]) && !Holed(Flat(front)[i])
      {
        assert Flat(xss)[i] == Flat(front)[i];
      }
      forall i | 0 <= i < |last|
        ensures A.WellFormed(last[i]) && !Holed(last[i])
      {
        assert Flat(xss)[|Flat(front)| + i] == last[i];
      }
      FlatParts(front);
    }
  }

  // ----- the preservation theorem -----

  /** Wherever the interpreter's value is computed from numbers, it is a value of the graph,
      unless lowering left a hole in it. */
  lemma {:induction false} HoldsX(s: Stage, e: Expr, cur: int, k: nat, n: Node, v: real)
    requires Matching(s) && Acyclic(s.c.book, s.c.rank) && Placed(s.c.book, s.c.rank, e, cur, k)
    requires LoweredX(s.c.book, s.c.rank, e, cur, k, n) && A.WellFormed(n) && !Holed(n)
    requires TameX(s.c, e, cur, k) && SemX(s.c, e, cur, k) == Fin(v)
    ensures Holds(s, n, v)
    decreases k, 1, e, 1
  {
    hide Acyclic;
    hide Holds;
    hide Matching;
    hide LoweredCell;
    hide LoweredCall;
    hide LoweredUn;
    hide LoweredBin;
    hide TameCell;
    hide TameCall;
    hide SemCell;
    hide SemArgs;
    hide CallVal;
    hide UnVal;
    hide BinVal;
    hide RangeIds;
    hide A.WellFormed;
    match e
    case Num(_) => ConstHolds(s, v);
    case Str(_) =>
    case CellRef(_, _, _) => HoldsCell(s, TargetOf(s.c.book, e, cur), n, v);
    case RangeRef(_, _, _, _, _) => NoRangeLowered(s.c.book, s.c.rank, e, cur, k, n);
    case NameRef(nm) => HoldsCell(s, NameTarget(s.c.book.names[nm]), n, v);
    case Un(_, _) => HoldsUn(s, e, cur, k, n, v);
    case Bin(_, _, _) => HoldsBin(s, e, cur, k, n, v);
    case Call(fn, args) => HoldsCall(s, fn, args, cur, k, n, v);
  }

  lemma HoldsCall(s: Stage, fn: Fn, args: seq<Expr>, cur: int, k: nat, n: Node, v: real)
    requires Matching(s) && Acyclic(s.c.book, s.c.rank) && |args| >= Needs(fn)
    requires AllPlaced(s.c.book, s.c.rank, args, cur, k)
    requires LoweredCall(s.c.book, s.c.rank, fn, args, cur, k, n) && A.WellFormed(n) && !Holed(n)
    requires TameCall(s.c, fn, args, cur, k)
    requires |Flat(SemArgs(s.c, args, cur, k))| >= Needs(fn)
    requires CallVal(s.c.f, s.c.other, fn, SemArgs(s.c, args, cur, k)) == Fin(v)
    ensures Holds(s, n, v)
    decreases k, 1, args, 4
  {
    hide Acyclic;
    hide Holds;
    hide A.WellFormed;
    hide LoweredArgs;
    hide LoweredAll;
    hide TameFold;
    hide AllPlaced;
    hide Matching;
    hide SemArgs;
    hide Flat;
    hide CallVal;
    hide Folded;
    hide ScalarNode;
    if IsFold(fn) || fn == AVERAGE {
      var xss :| LoweredArgs(s.c.book, s.c.rank, args, cur, k, xss)
              && n == if fn == AVERAGE then AverageNode(Flat(xss)) else Folded(AggOf(fn), Flat(xss));
      HoldsFold(s, fn, args, cur, k, xss, n, v);
    } else if fn.OTHER? {
      OpenIsHoled(n);
    } else {
      HoldsScalar(s, fn, args, cur, k, n, v);
    }
  }

  lemma HoldsUn(s: Stage, e: Expr, cur: int, k: nat, n: Node, v: real)
    requires Matching(s) && Acyclic(s.c.book, s.c.rank) && e.Un? && Placed(s.c.book, s.c.rank, e, cur, k)
    requires LoweredUn(s.c.book, s.c.rank, e, cur, k, n) && A.WellFormed(n) && !Holed(n)
    requires TameX(s.c, e, cur, k) && SemX(s.c, e, cur, k) == Fin(v)
    ensures Holds(s, n, v)
    decreases k, 1, e, 0
  {
    hide Acyclic;
    hide Value;
    hide Holed;
    var x := SemX(s.c, e.arg, cur, k).r;
    match e.op
    case Negate =>
      Single(n, n.args[0]);
      HoldsX(s, e.arg, cur, k, n.args[0], x);
      assert n == A.Oper(A.Neg, [n.args[0]]);
      UnaryValue(s.c.f, s.w, s.box, s.ht, A.Neg, n.args[0], x, v);
    case Percent =>
      Pair(n, n.args[0], n.args[1]);
      HoldsX(s, e.arg, cur, k, n.args[0], x);
      assert n == A.Oper(A.Mul, [n.args[0], n.args[1]]);
      assert Quot(x, 100.0) == Prod(x, 0.01);
      OperValue(s.c.f, s.w, s.box, s.ht, A.Mul, n.args[0], n.args[1], x, 0.01, v);
    case Keep => HoldsX(s, e.arg, cur, k, n, v);
  }

  lemma HoldsBin(s: Stage, e: Expr, cur: int, k: nat, n: Node, v: real)
    requires Matching(s) && Acyclic(s.c.book, s.c.rank) && e.Bin? && Placed(s.c.book, s.c.rank, e, cur, k)
    requires LoweredBin(s.c.book, s.c.rank, e, cur, k, n) && A.WellFormed(n) && !Holed(n)
    requires TameX(s.c, e, cur, k) && SemX(s.c, e, cur, k) == Fin(v)
    ensures Holds(s, n, v)
    decreases k, 1, e, 0
  {
    hide Value;
    hide Holed;
    if Arithmetic(e.bop) {
      Pair(n, n.args[0], n.args[1]);
      var x, y := SemX(s.c, e.left, cur, k).r, SemX(s.c, e.right, cur, k).r;
      HoldsX(s, e.left, cur, k, n.args[0], x);
      HoldsX(s, e.right, cur, k, n.args[1], y);
      assert n == A.Oper(ArithOp(e.bop), [n.args[0], n.args[1]]);
      ArithValue(s.c.f, e.bop, x, y, v);
      OperValue(s.c.f, s.w, s.box, s.ht, ArithOp(e.bop), n.args[0], n.args[1], x, y, v);
    } else {
      OpenIsHoled(n);
    }
  }

  lemma ArithValue(f: Fpu, op: BinOp, x: real, y: real, v: real)
    requires Arithmetic(op) && BinVal(f, op, Fin(x), Fin(y)) == Fin(v) && (op == Power ==> PowTame(Fin(x), Fin(y)))
    ensures OpValue(f, ArithOp(op), [x, y]) == Some(v)
  {
  }

  // ----- functions of single values -----

  lemma UnaryMeaning(f: Fpu, fn: Fn, u: real, v: real)
    requires IsUnary(fn) && SingleVal(f, fn, Fin(u)) == Fin(v)
    ensures A.Arity(UnaryOp(fn)) == 1 && OpValue(f, UnaryOp(fn), [u]) == Some(v)
  {
  }

  lemma ScaledAngle(u: real, c: real, d: real)
    requires d != 0.0
    ensures Quot(Prod(u, c), d) == Prod(u, c / d)
  {
    QuotientAsProduct(Prod(u, c), d);
    QuotientAsProduct(c, d);
    assert Quot(c, d) == c / d;
    hide Quot;
    hide Prod;
    ProdAssoc(u, c, 1.0 / d);
  }

  lemma AngleMeaning(f: Fpu, u: real, v: real)
    ensures SingleVal(f, DEGREES, Fin(u)) == Fin(v) ==> OpValue(f, A.Mul, [u, 180.0 / PI_VALUE]) == Some(v)
    ensures SingleVal(f, RADIANS, Fin(u)) == Fin(v) ==> OpValue(f, A.Mul, [u, PI_VALUE / 180.0]) == Some(v)
  {
    ScaledAngle(u, 180.0, PI_VALUE);
    ScaledAngle(u, PI_VALUE, 180.0);
    hide Quot;
    hide Prod;
  }

  lemma SingleMeaning(s: Stage, fn: Fn, x: Node, u: real, v: real)
    requires IsSingle(fn) && Holds(s, x, u) && SingleVal(s.c.f, fn, Fin(u)) == Fin(v)
    requires fn == LOG10 ==> LogVal(s.c.f, Fin(u)).Fin?
    ensures Holds(s, ScalarNode(fn, [x]), v)
  {
    hide Value;
    hide A.WellFormed;
    hide OpValue;
    hide LogVal;
    hide UnaryOp;
    var f := s.c.f;
    if fn == ABS {
      AbsHolds(s, x, u);
    } else if fn == LOG10 {
      ConstHolds(s, 10.0);
      LogMeaning(s, x, A.Const(10.0), u, 10.0, v);
    } else if fn == DEGREES {
      AngleMeaning(f, u, v);
      hide SingleVal;
      ConstHolds(s, 180.0 / PI_VALUE);
      OperValue(f, s.w, s.box, s.ht, A.Mul, x, A.Const(180.0 / PI_VALUE), u, 180.0 / PI_VALUE, v);
    } else if fn == RADIANS {
      AngleMeaning(f, u, v);
      hide SingleVal;
      ConstHolds(s, PI_VALUE / 180.0);
      OperValue(f, s.w, s.box, s.ht, A.Mul, x, A.Const(PI_VALUE / 180.0), u, PI_VALUE / 180.0, v);
    } else {
      UnaryMeaning(f, fn, u, v);
      hide SingleVal;
      UnaryValue(f, s.w, s.box, s.ht, UnaryOp(fn), x, u, v);
    }
  }

  lemma LogMeaning(s: Stage, x: Node, y: Node, u: real, b: real, v: real)
    requires Holds(s, x, u) && Holds(s, y, b)
    requires LogVal(s.c.f, Fin(u)).Fin? && LogRatio(LogVal(s.c.f, Fin(u)), LogVal(s.c.f, Fin(b))) == Fin(v)
    requires LogVal(s.c.f, Fin(b)).Fin? || (b == 10.0)
    ensures Holds(s, LogQuotient(x, y), v)
  {
    hide Value;
    hide A.WellFormed;
    var f := s.c.f;
    var p, q := f.log(u), f.log(b);
    UnaryValue(f, s.w, s.box, s.ht, A.Log, x, u, p);
    UnaryValue(f, s.w, s.box, s.ht, A.Log, y, b, q);
    OperValue(f, s.w, s.box, s.ht, A.Div, LogOf(x), LogOf(y), p, q, v);
  }

  lemma HoldsScalar(s: Stage, fn: Fn, args: seq<Expr>, cur: int, k: nat, n: Node, v: real)
    requires Matching(s) && Acyclic(s.c.book, s.c.rank) && IsScalar(fn) && |args| >= Needs(fn)
    requires AllPlaced(s.c.book, s.c.rank, args, cur, k)
    requires LoweredCall(s.c.book, s.c.rank, fn, args, cur, k, n) && A.WellFormed(n) && !Holed(n)
    requires TameCall(s.c, fn, args, cur, k)
    requires |Flat(SemArgs(s.c, args, cur, k))| >= Needs(fn)
    requires CallVal(s.c.f, s.c.other, fn, SemArgs(s.c, args, cur, k)) == Fin(v)
    ensures Holds(s, n, v)
    decreases k, 1, args, 3
  {
    hide Acyclic;
    hide Value;
    hide A.WellFormed;
    hide LoweredX;
    hide TameX;
    hide TameIf;
    hide TameIfError;
    hide TameScalar;
    hide SemX;
    hide Placed;
    hide AllPlaced;
    hide ScalarNode;
    hide SemArgs;
    hide Flat;
    hide Matching;
    hide Holds;
    hide Holed;
    hide SomeHoled;
    var js := Operands(fn, |args|);
    var xs :| LoweredAll(s.c.book, s.c.rank, args, js, cur, k, xs) && n == ScalarNode(fn, xs);
    ScalarFits(fn, xs);
    if fn == PI {
      PiHolds(s, xs);
    } else if fn == IF {
      HoldsIf(s, args, cur, k, xs, v);
    } else if fn == IFERROR {
      HoldsIfError(s, args, cur, k, xs, v);
    } else if IsSingle(fn) {
      HoldsSingle(s, fn, args, cur, k, xs, v);
    } else {
      HoldsPair(s, fn, args, cur, k, xs, v);
    }
  }

  lemma PiHolds(s: Stage, xs: seq<Node>)
    ensures Holds(s, ScalarNode(PI, xs), PI_VALUE)
  {
  }

  lemma HoldsIf(s: Stage, args: seq<Expr>, cur: int, k: nat, xs: seq<Node>, v: real)
    requires Matching(s) && Acyclic(s.c.book, s.c.rank) && |args| >= 2
    requires AllPlaced(s.c.book, s.c.rank, args, cur, k)
    requires LoweredAll(s.c.book, s.c.rank, args, Operands(IF, |args|), cur, k, xs)
    requires AllPlain(xs) && TameIf(s.c, args, cur, k)
    requires |Flat(SemArgs(s.c, args, cur, k))| >= 2
    requires CallVal(s.c.f, s.c.other, IF, SemArgs(s.c, args, cur, k)) == Fin(v)
    ensures Holds(s, ScalarNode(IF, xs), v)
    decreases k, 1, args, 2
  {
    hide Acyclic;
    hide Holds;
    hide Matching;
    hide SemArgs;
    hide Flat;
    hide A.WellFormed;
    hide LoweredX;
    hide TameX;
    hide SemX;
    hide Placed;
    OperandValues(s.c, IF, args, cur, k, xs);
    hide OneValue;
    ZeroHolds(s);
    var other := if |xs| > 1 then xs[1] else ZERO_NODE;
    if !Same(SemX(s.c, args[0], cur, k), ZERO) {
      HoldsX(s, args[1], cur, k, xs[0], v);
    } else if |args| > 2 {
      HoldsX(s, args[2], cur, k, xs[1], v);
    }
    EitherHolds(s, xs[0], other, v);
  }

  lemma HoldsIfError(s: Stage, args: seq<Expr>, cur: int, k: nat, xs: seq<Node>, v: real)
    requires Matching(s) && Acyclic(s.c.book, s.c.rank) && |args| >= 1
    requires AllPlaced(s.c.book, s.c.rank, args, cur, k)
    requires LoweredAll(s.c.book, s.c.rank, args, Operands(IFERROR, |args|), cur, k, xs)
    requires AllPlain(xs) && TameIfError(s.c, args, cur, k)
    requires |Flat(SemArgs(s.c, args, cur, k))| >= 1
    requires CallVal(s.c.f, s.c.other, IFERROR, SemArgs(s.c, args, cur, k)) == Fin(v)
    ensures Holds(s, ScalarNode(IFERROR, xs), v)
    decreases k, 1, args, 2
  {
    hide Acyclic;
    hide Holds;
    hide Matching;
    hide SemArgs;
    hide Flat;
    hide A.WellFormed;
    hide LoweredX;
    hide TameX;
    hide SemX;
    hide Placed;
    OperandValues(s.c, IFERROR, args, cur, k, xs);
    hide OneValue;
    ZeroHolds(s);
    var other := if |xs| > 1 then xs[1] else ZERO_NODE;
    if !SemX(s.c, args[0], cur, k).NaN? {
      HoldsX(s, args[0], cur, k, xs[0], v);
    } else if |args| > 1 {
      HoldsX(s, args[1], cur, k, xs[1], v);
    }
    EitherHolds(s, xs[0], other, v);
  }

  /** As long as the arguments have one value each, the flattened arguments are those values. */
  lemma ArgValues(c: Ctx, args: seq<Expr>, cur: int, k: nat, j: nat)
    requires Acyclic(c.book, c.rank) && AllPlaced(c.book, c.rank, args, cur, k)
    requires j <= |args| && forall i :: 0 <= i < j ==> OneValue(c.book, args[i], cur)
    ensures var v := Flat(SemArgs(c, args, cur, k));
      && |v| >= |args| && (j == |args| ==> |v| == |args|)
      && forall i :: 0 <= i < j ==> v[i] == SemX(c, args[i], cur, k)
  {
    hide Acyclic;
    hide Placed;
    hide Flat;
    hide RangeIds;
    hide SemCell;
    FlatPrefix(SemArgs(c, args, cur, k), j);
  }

  /** The arguments up to the last one that a scalar function looks at. */
  function Reach(fn: Fn, n: nat): nat {
    if fn == IF && n > 2 then 3 else if IsBinary(fn) && n > 1 then 2 else 1
  }

  /** Below a graph without holes no range shifts the arguments that a scalar function looks at. */
  lemma OperandValues(c: Ctx, fn: Fn, args: seq<Expr>, cur: int, k: nat, xs: seq<Node>)
    requires Acyclic(c.book, c.rank) && AllPlaced(c.book, c.rank, args, cur, k)
    requires IsScalar(fn) && fn != PI && |args| >= Needs(fn) && (fn == IF ==> OneValue(c.book, args[0], cur))
    requires LoweredAll(c.book, c.rank, args, Operands(fn, |args|), cur, k, xs) && !SomeHoled(xs)
    ensures var (v, j) := (Flat(SemArgs(c, args, cur, k)), Reach(fn, |args|));
      && j <= |args| <= |v| && (j == |args| ==> |v| == |args|)
      && forall i :: 0 <= i < j ==> v[i] == SemX(c, args[i], cur, k)
  {
    hide Acyclic;
    hide Placed;
    hide LoweredX;
    hide Holed;
    hide RangeIds;
    hide SemX;
    hide SemArgs;
    hide Flat;
    var js := Operands(fn, |args|);
    forall i | 0 <= i < |js|
      ensures OneValue(c.book, args[js[i]], cur)
    {
      NoRangeLowered(c.book, c.rank, args[js[i]], cur, k, xs[i]);
    }
    hide OneValue;
    assert OneValue(c.book, args[js[0]], cur) && (|js| > 1 ==> OneValue(c.book, args[js[1]], cur));
    ArgValues(c, args, cur, k, Reach(fn, |args|));
  }

  lemma HoldsSingle(s: Stage, fn: Fn, args: seq<Expr>, cur: int, k: nat, xs: seq<Node>, v: real)
    requires Matching(s) && Acyclic(s.c.book, s.c.rank) && IsSingle(fn)
    requires |args| >= Needs(fn) && AllPlaced(s.c.book, s.c.rank, args, cur, k)
    requires LoweredAll(s.c.book, s.c.rank, args, Operands(fn, |args|), cur, k, xs)
    requires AllPlain(xs) && TameScalar(s.c, fn, args, cur, k)
    requires |Flat(SemArgs(s.c, args, cur, k))| >= Needs(fn)
    requires CallVal(s.c.f, s.c.other, fn, SemArgs(s.c, args, cur, k)) == Fin(v)
    ensures Holds(s, ScalarNode(fn, xs), v)
    decreases k, 1, args, 2
  {
    hide Acyclic;
    hide Holds;
    hide A.WellFormed;
    hide LoweredX;
    hide TameX;
    hide SemX;
    hide Placed;
    hide SingleVal;
    hide Matching;
    hide SemArgs;
    hide Flat;
    OperandValues(s.c, fn, args, cur, k, xs);
    hide OneValue;
    var u := SemX(s.c, args[0], cur, k).r;
    HoldsX(s, args[0], cur, k, xs[0], u);
    assert xs == [xs[0]];
    SingleMeaning(s, fn, xs[0], u, v);
  }

  lemma HoldsPair(s: Stage, fn: Fn, args: seq<Expr>, cur: int, k: nat, xs: seq<Node>, v: real)
    requires Matching(s) && Acyclic(s.c.book, s.c.rank) && (fn == LOG || fn == POWER)
    requires |args| >= Needs(fn) && AllPlaced(s.c.book, s.c.rank, args, cur, k)
    requires LoweredAll(s.c.book, s.c.rank, args, Operands(fn, |args|), cur, k, xs)
    requires AllPlain(xs) && TameScalar(s.c, fn, args, cur, k)
    requires |Flat(SemArgs(s.c, args, cur, k))| >= Needs(fn)
    requires CallVal(s.c.f, s.c.other, fn, SemArgs(s.c, args, cur, k)) == Fin(v)
    ensures Holds(s, ScalarNode(fn, xs), v)
    decreases k, 1, args, 2
  {
    hide Acyclic;
    hide Holds;
    hide A.WellFormed;
    hide LoweredX;
    hide TameX;
    hide SemX;
    hide Placed;
    hide SingleVal;
    hide Matching;
    hide SemArgs;
    hide Flat;
    OperandValues(s.c, fn, args, cur, k, xs);
    hide OneValue;
    var u := SemX(s.c, args[0], cur, k).r;
    HoldsX(s, args[0], cur, k, xs[0], u);
    if |args| > 1 {
      var b := SemX(s.c, args[1], cur, k).r;
      HoldsX(s, args[1], cur, k, xs[1], b);
      PairMeaning(s, fn, xs[0], xs[1], u, b, v);
    } else {
      ConstHolds(s, 10.0);
      LogMeaning(s, xs[0], A.Const(10.0), u, 10.0, v);
    }
  }

  lemma PairMeaning(s: Stage, fn: Fn, x: Node, y: Node, u: real, b: real, v: real)
    requires (fn == LOG || fn == POWER) && Holds(s, x, u) && Holds(s, y, b)
    requires fn == LOG ==> LogVal(s.c.f, Fin(u)).Fin? && LogVal(s.c.f, Fin(b)).Fin?
    requires fn == LOG ==> LogRatio(LogVal(s.c.f, Fin(u)), LogVal(s.c.f, Fin(b))) == Fin(v)
    requires fn == POWER ==> PowTame(Fin(u), Fin(b)) && PowVal(s.c.f, Fin(u), Fin(b)) == Fin(v)
    ensures Holds(s, if fn == LOG then LogQuotient(x, y) else A.Oper(A.Pow, [x, y]), v)
  {
    hide Value;
    hide A.WellFormed;
    if fn == LOG {
      LogMeaning(s, x, y, u, b, v);
    } else {
      OperValue(s.c.f, s.w, s.box, s.ht, A.Pow, x, y, u, b, v);
    }
  }

  // ----- aggregates, arguments and cells -----

  lemma HoldsFold(s: Stage, fn: Fn, args: seq<Expr>, cur: int, k: nat, xss: seq<seq<Node>>, n: Node, v: real)
    requires Matching(s) && Acyclic(s.c.book, s.c.rank) && (IsFold(fn) || fn == AVERAGE)
    requires AllPlaced(s.c.book, s.c.rank, args, cur, k)
    requires LoweredArgs(s.c.book, s.c.rank, args, cur, k, xss) && A.WellFormed(n) && !Holed(n)
    requires n == if fn == AVERAGE then AverageNode(Flat(xss)) else Folded(AggOf(fn), Flat(xss))
    requires TameFold(s.c, fn, args, cur, k)
    requires |Flat(SemArgs(s.c, args, cur, k))| >= Needs(fn)
    requires CallVal(s.c.f, s.c.other, fn, SemArgs(s.c, args, cur, k)) == Fin(v)
    ensures Holds(s, n, v)
    decreases k, 1, args, 3
  {
    hide Acyclic;
    hide Holds;
    hide A.WellFormed;
    hide LoweredArg;
    hide TameArg;
    hide SemX;
    hide Placed;
    hide Folded;
    hide Flat;
    hide AllHold;
    hide Matching;
    hide FoldTame;
    var g := if fn == AVERAGE then SumAgg else AggOf(fn);
    if fn == AVERAGE { Pair(n, Folded(g, Flat(xss)), n.args[1]); }
    FoldedFits(g, Flat(xss));
    hide Holed;
    hide SomeHoled;
    FlatParts(xss);
    var av := SemArgs(s.c, args, cur, k);
    forall i | 0 <= i < |args|
      ensures AllHold(s, xss[i], av[i])
    {
      HoldsArg(s, args[i], cur, k, xss[i]);
    }
    FlatHolds(s, xss, av);
    FoldMeaning(s, fn, Flat(xss), Flat(av), n, v);
  }

  /** The aggregate of the values is a value of the fold of the graphs. */
  lemma FoldMeaning(s: Stage, fn: Fn, xs: seq<Node>, vs: seq<XR>, n: Node, v: real)
    requires (IsFold(fn) || fn == AVERAGE) && AllHold(s, xs, vs) && FoldTame(fn, vs)
    requires n == if fn == AVERAGE then AverageNode(xs) else Folded(AggOf(fn), xs)
    requires Fin(v) == if fn == AVERAGE then Average(vs) else Aggregated(AggOf(fn), vs)
    ensures Holds(s, n, v)
  {
    hide Value;
    hide A.WellFormed;
    var g := if fn == AVERAGE then SumAgg else AggOf(fn);
    if |vs| == 0 {
      ZeroHolds(s);
    } else {
      FoldHolds(s, g, xs, vs);
      AggregatedTotal(g, vs);
      if fn == MIN {
        var i :| 0 <= i < |vs| && Le(vs[i], Start(MinAgg));
        TotalBound(vs, i);
      } else if fn == MAX {
        var i :| 0 <= i < |vs| && Le(Start(MaxAgg), vs[i]);
        TotalBound(vs, i);
      } else if fn == AVERAGE {
        AllNumbers(vs);
        var count := |vs| as real;
        ConstHolds(s, count);
        OperValue(s.c.f, s.w, s.box, s.ht, A.Div, Folded(g, xs), A.Const(count), Total(g, vs), count, v);
      }
    }
  }

  lemma ZeroHolds(s: Stage)
    ensures Holds(s, ZERO_NODE, 0.0)
  {
  }

  lemma ConstHolds(s: Stage, x: real)
    ensures Holds(s, A.Const(x), x)
  {
  }

  lemma HoldsArg(s: Stage, a: Expr, cur: int, k: nat, xs: seq<Node>)
    requires Matching(s) && Acyclic(s.c.book, s.c.rank) && Placed(s.c.book, s.c.rank, a, cur, k)
    requires LoweredArg(s.c.book, s.c.rank, a, cur, k, xs) && AllPlain(xs) && TameArg(s.c, a, cur, k)
    ensures AllHold(s, xs, SemArg(s.c, a, cur, k))
    decreases k, 1, a, 2
  {
    hide Holds;
    var v := SemArg(s.c, a, cur, k);
    if a.RangeRef? {
      var ids := RangeIds(s.c.book, a, cur);
      forall i | 0 <= i < |ids|
        ensures Holds(s, xs[i], v[i].r)
      {
        HoldsCell(s, ids[i], xs[i], v[i].r);
      }
    } else {
      HoldsX(s, a, cur, k, xs[0], v[0].r);
    }
  }

  lemma HoldsCell(s: Stage, id: CellId, n: Node, v: real)
    requires Matching(s) && Acyclic(s.c.book, s.c.rank)
    requires LoweredCell(s.c.book, s.c.rank, id, n) && A.WellFormed(n) && !Holed(n)
    requires TameCell(s.c, id) && SemCell(s.c, id) == Fin(v)
    ensures Holds(s, n, v)
    decreases s.c.rank(id), 2, 0, 0
  {
    if id in s.c.book.cells {
      var cell := s.c.book.cells[id];
      match cell.formula
      case Parsed(ast) => HoldsX(s, ast, id.sheet, s.c.rank(id), n, v);
      case Unparsable => OpenIsHoled(n);
      case NoFormula =>
    }
  }

  // ----- the workbook's own sign -----

  lemma {:induction false} HoledIsOpen(n: Node, ht: HoleTable)
    requires Unbound(ht) && Holed(n)
    ensures HasOpenHole(n, ht)
  {
    match n
    case Oper(_, args) => SomeHoledOpen(args, ht);
    case Call(_, args) => SomeHoledOpen(args, ht);
    case Hole(_, _, _, args) => if !OpenHole(n) { SomeHoledOpen(args, ht); }
    case Disj(cands) => SomeHoledOpen(cands, ht);
  }

  lemma SomeHoledOpen(ns: seq<Node>, ht: HoleTable)
    requires Unbound(ht) && SomeHoled(ns)
    ensures SomeOpenHole(ns, ht)
    decreases ns, 0
  {
    var i :| 0 <= i < |ns| && Holed(ns[i]);
    HoledIsOpen(ns[i], ht);
  }

  /** A hole made by lowering forces Abstain, whatever the box and the slack. */
  lemma LoweringHoleAbstains(f: Fpu, p: Program)
    requires A.WellFormed(p.root) && Unbound(p.holes) && Holed(p.root)
    ensures DecideEval(Evaluated(f, p)) == Abstain
  {
    HoledIsOpen(p.root, p.holes);
    OpenHoleAbstains(f, p);
  }

  /** Safe means that the interpreter's value is positive, and Fail that it is negative, at
      every assignment in the box where it is computed from numbers. */
  lemma VerdictOnWorkbook(c: Ctx, p: Program, target: CellId, v: real)
    requires Sound(c.f) && Acyclic(c.book, c.rank) && Unbound(p.holes)
    requires LoweredCell(c.book, c.rank, target, p.root) && A.WellFormed(p.root)
    requires forall nm :: nm in p.box ==> Contains(p.box[nm], c.env(nm))
    requires Faithful(c.f, p.root, p.box, p.holes)
    requires TameCell(c, target) && SemCell(c, target) == Fin(v)
    ensures DecideEval(Evaluated(c.f, p)) == Safe ==> v > 0.0
    ensures DecideEval(Evaluated(c.f, p)) == Fail ==> v < 0.0
  {
    hide Acyclic;
    hide LoweredCell;
    hide TameCell;
    hide SemCell;
    hide Faithful;
    hide A.WellFormed;
    hide DecideEval;
    hide Evaluated;
    hide Holed;
    if Holed(p.root) {
      LoweringHoleAbstains(c.f, p);
    } else {
      var w := World(c.env, (id: string, xs: seq<real>, x: real) => false);
      HoldsCell(Stage(c, w, p.box, p.holes), target, p.root, v);
      VerdictSound(c.f, w, p, v);
    }
  }

  /** The same of what the interpreter itself returns once the inputs are set, for targets
      ranked within its depth limit. */
  lemma VerdictOnInterpreter(m: Machine, memo: Memo, env: string -> real, rank: CellId -> nat,
                             p: Program, target: CellId, v: real)
    requires Sound(m.f) && Acyclic(m.book, rank) && Unbound(p.holes)
    requires RanksBelow(m.book, rank, target, MAX_DEPTH + 3) && Assigned(m, memo, env)
    requires LoweredCell(m.book, rank, target, p.root) && A.WellFormed(p.root)
    requires forall nm :: nm in p.box ==> Contains(p.box[nm], env(nm))
    requires Faithful(m.f, p.root, p.box, p.holes)
    requires TameCell(Ctx(m.book, m.f, m.other, env, rank), target) && RunValue(m, memo, target).0 == Fin(v)
    ensures DecideEval(Evaluated(m.f, p)) == Safe ==> v > 0.0
    ensures DecideEval(Evaluated(m.f, p)) == Fail ==> v < 0.0
  {
    hide *;
    var c := Ctx(m.book, m.f, m.other, env, rank);
    AssignmentTracks(m, memo, c);
    ValueTracks(m, memo, target, c);
    VerdictOnWorkbook(c, p, target, v);
  }

  /** Any assignment of the input cells is one of their keys. */
  lemma AnyAssignment(book: Book, at: CellId -> real) returns (env: string -> real)
    requires ValidBook(book)
    ensures forall id :: id in InputsOf(book) ==> env(Key(book, id)) == at(id)
  {
    env := (nm: string) => if Named(book, nm) then at(Owner(book, nm)) else 0.0;
    forall id | id in InputsOf(book)
      ensures env(Key(book, id)) == at(id)
    {
      KeyInjective(book, Owner(book, Key(book, id)), id);
    }
  }

  ghost predicate Named(book: Book, nm: string)
    requires ValidBook(book)
  {
    exists id :: id in InputsOf(book) && Key(book, id) == nm
  }

  ghost function Owner(book: Book, nm: string): (id: CellId)
    requires ValidBook(book) && Named(book, nm)
    ensures id in InputsOf(book) && Key(book, id) == nm
  {
    var id :| id in InputsOf(book) && Key(book, id) == nm;
    id
  }
}
