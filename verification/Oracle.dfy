/** What a workbook means: the value of every expression and every cell. */
module Meaning {
  import opened ExtReal
  import opened Interval
  import opened Enclosure
  import opened Sequences
  import opened Workbooks

  /** One assignment of the inputs, keyed by cell text, with the functions that the
      interpreter takes from its libraries. Ranks say which cells a cell may refer to. */
  datatype Ctx = Ctx(book: Book, f: Fpu, other: (Fn, seq<seq<XR>>) -> XR, env: string -> real, rank: CellId -> nat)

  const PI_VALUE: real := 3.14159265358979311599796346854

  const MIN_START: real := 1000000000000000000000000000000000000000000000000000000000000000000000000000000000000000000000000000000000000000000000000000000000000000000000000000000000000000000000000000000000000000000000000000000000000000000000000000000000000000000000000000000000000000000000000000000000000000000000000000000000000.0

  // ----- operators -----

  predicate Same(x: XR, y: XR) { !x.NaN? && x == y }

  function Truth(b: bool): XR { if b then Fin(1.0) else ZERO }

  function UnVal(op: UnOp, x: XR): XR {
    match op
    case Negate => ExtReal.Neg(x)
    case Percent => Div(x, Fin(100.0))
    case Keep => x
  }

  function PowVal(f: Fpu, x: XR, y: XR): XR {
    if x.Fin? && y.Fin? && IsWhole(y.r) && PowDefined(x.r, y.r.Floor) then Fin(IntPow(x.r, y.r.Floor)) else f.pow(x, y)
  }

  function BinVal(f: Fpu, op: BinOp, x: XR, y: XR): XR {
    match op
    case Plus => ExtReal.Add(x, y)
    case Minus => ExtReal.Sub(x, y)
    case Times => ExtReal.Mul(x, y)
    case Over => if y == ZERO then NaN else Div(x, y)
    case Power => PowVal(f, x, y)
    case Equal => Truth(Same(x, y))
    case NotEqual => Truth(!Same(x, y))
    case Less => Truth(Lt(x, y))
    case Greater => Truth(Lt(y, x))
    case AtMost => Truth(Le(x, y))
    case AtLeast => Truth(Le(y, x))
    case OtherOp => NaN
  }

  // ----- functions over their flattened arguments -----

  datatype Agg = SumAgg | ProductAgg | SquaresAgg | MinAgg | MaxAgg

  function Start(g: Agg): XR {
    match g
    case SumAgg => ZERO
    case ProductAgg => Fin(1.0)
    case SquaresAgg => ZERO
    case MinAgg => Fin(MIN_START)
    case MaxAgg => Fin(-MIN_START)
  }

  /** Aggregates pass over what is not a number. */
  function Step(g: Agg, acc: XR, x: XR): XR {
    if x.NaN? then acc
    else match g
      case SumAgg => ExtReal.Add(acc, x)
      case ProductAgg => ExtReal.Mul(acc, x)
      case SquaresAgg => ExtReal.Add(acc, ExtReal.Mul(x, x))
      case MinAgg => StdMin(acc, x)
      case MaxAgg => StdMax(acc, x)
  }

  function Aggregated(g: Agg, v: seq<XR>): XR {
    if |v| == 0 then Start(g) else Step(g, Aggregated(g, v[..|v| - 1]), v[|v| - 1])
  }

  function Numbers(v: seq<XR>): nat {
    if |v| == 0 then 0 else Numbers(v[..|v| - 1]) + (if v[|v| - 1].NaN? then 0 else 1)
  }

  function Average(v: seq<XR>): XR {
    if Numbers(v) == 0 then NaN else Div(Aggregated(SumAgg, v), Fin(Numbers(v) as real))
  }

  function LogVal(f: Fpu, x: XR): XR {
    match x
    case Fin(a) => if a < 0.0 then NaN else if a == 0.0 then NegInf else Fin(f.log(a))
    case PosInf => PosInf
    case _ => NaN
  }

  function SqrtVal(f: Fpu, x: XR): XR {
    match x
    case Fin(a) => if a < 0.0 then NaN else Fin(f.sqrt(a))
    case PosInf => PosInf
    case _ => NaN
  }

  function ExpVal(f: Fpu, x: XR): XR {
    match x
    case Fin(a) => Fin(f.exp(a))
    case PosInf => PosInf
    case NegInf => ZERO
    case NaN => NaN
  }

  function TrigVal(g: real -> real, x: XR): XR {
    if x.Fin? then Fin(g(x.r)) else NaN
  }

  /** A quotient that is infinite over zero. */
  function LogRatio(x: XR, y: XR): XR {
    if y == ZERO then Infinity(Sign(x), 1) else Div(x, y)
  }

  /** The arguments that a function reads without looking whether they are there. */
  function Needs(fn: Fn): nat {
    match fn
    case SUM => 0
    case AVERAGE => 0
    case MIN => 0
    case MAX => 0
    case PRODUCT => 0
    case SUMSQ => 0
    case PI => 0
    case OTHER(_) => 0
    case POWER => 2
    case IF => 2
    case _ => 1
  }

  /** The functions of one value; they read the first of a range. */
  predicate IsSingle(fn: Fn) {
    fn in {ABS, SQRT, EXP, LN, LOG10, SIN, COS, TAN, DEGREES, RADIANS}
  }

  function SingleVal(f: Fpu, fn: Fn, x: XR): XR
    requires IsSingle(fn)
  {
    match fn
    case ABS => ExtReal.Abs(x)
    case SQRT => SqrtVal(f, x)
    case EXP => ExpVal(f, x)
    case LN => LogVal(f, x)
    case LOG10 => LogRatio(LogVal(f, x), LogVal(f, Fin(10.0)))
    case SIN => TrigVal(f.sin, x)
    case COS => TrigVal(f.cos, x)
    case TAN => TrigVal(f.tan, x)
    case DEGREES => Div(ExtReal.Mul(x, Fin(180.0)), Fin(PI_VALUE))
    case RADIANS => Div(ExtReal.Mul(x, Fin(PI_VALUE)), Fin(180.0))
  }

  function CallVal(f: Fpu, other: (Fn, seq<seq<XR>>) -> XR, fn: Fn, av: seq<seq<XR>>): XR
    requires |Flat(av)| >= Needs(fn)
  {
    var v := Flat(av);
    if IsSingle(fn) then SingleVal(f, fn, v[0])
    else match fn
      case SUM => Aggregated(SumAgg, v)
      case AVERAGE => Average(v)
      case MIN => Aggregated(MinAgg, v)
      case MAX => Aggregated(MaxAgg, v)
      case PRODUCT => Aggregated(ProductAgg, v)
      case SUMSQ => Aggregated(SquaresAgg, v)
      case LOG => LogRatio(LogVal(f, v[0]), LogVal(f, if |v| > 1 then v[1] else Fin(10.0)))
      case POWER => PowVal(f, v[0], v[1])
      case PI => Fin(PI_VALUE)
      case IF => if !Same(v[0], ZERO) then v[1] else if |v| > 2 then v[2] else ZERO
      case IFERROR => if v[0].NaN? then (if |v| > 1 then v[1] else ZERO) else v[0]
      case _ => other(fn, av)
  }

  // ----- references -----

  function TargetOf(book: Book, e: Expr, cur: int): CellId
    requires e.CellRef?
  {
    CellId(SheetOf(book, e.sheet, cur), e.row, e.col)
  }

  /** The interpreter reads a name without a sheet on the first sheet. */
  function NameTarget(t: CellId): CellId { if t.sheet < 0 then CellId(0, t.row, t.col) else t }

  /** Lowering reads it on the sheet of the formula. */
  function NameTargetFrom(t: CellId, cur: int): CellId { if t.sheet < 0 then CellId(cur, t.row, t.col) else t }

  /** Everything e refers to ranks below k, whichever way its names are read. */
  predicate Below(book: Book, rank: CellId -> nat, e: Expr, cur: int, k: nat) {
    match e
    case Num(_) => true
    case Str(_) => true
    case CellRef(_, _, _) => RanksBelow(book, rank, TargetOf(book, e, cur), k)
    case RangeRef(_, _, _, _, _) => AllRankBelow(book, rank, RangeIds(book, e, cur), k)
    case NameRef(nm) => nm in book.names ==>
      && RanksBelow(book, rank, NameTarget(book.names[nm]), k)
      && RanksBelow(book, rank, NameTargetFrom(book.names[nm], cur), k)
    case Un(_, a) => Below(book, rank, a, cur, k)
    case Bin(_, a, b) => Below(book, rank, a, cur, k) && Below(book, rank, b, cur, k)
    case Call(_, args) => forall i :: 0 <= i < |args| ==> Below(book, rank, args[i], cur, k)
  }

  /** The cell has a rank, which a formula's is when it is not zero, and that is below k. */
  predicate RanksBelow(book: Book, rank: CellId -> nat, id: CellId, k: nat) {
    rank(id) < k && (id in book.cells && IsFormula(book.cells[id]) ==> rank(id) > 0)
  }

  predicate AllRankBelow(book: Book, rank: CellId -> nat, ids: seq<CellId>, k: nat) {
    forall i :: 0 <= i < |ids| ==> RanksBelow(book, rank, ids[i], k)
  }

  /** Every function has the arguments it reads. */
  predicate Callable(e: Expr) {
    match e
    case Un(_, a) => Callable(a)
    case Bin(_, a, b) => Callable(a) && Callable(b)
    case Call(fn, args) => |args| >= Needs(fn) && forall i :: 0 <= i < |args| ==> Callable(args[i])
    case _ => true
  }

  predicate Placed(book: Book, rank: CellId -> nat, e: Expr, cur: int, k: nat) {
    Callable(e) && Below(book, rank, e, cur, k)
  }

  predicate AllPlaced(book: Book, rank: CellId -> nat, args: seq<Expr>, cur: int, k: nat) {
    forall i :: 0 <= i < |args| ==> Placed(book, rank, args[i], cur, k)
  }

  predicate CallableBook(book: Book) {
    forall id :: id in book.cells && IsFormula(book.cells[id]) ==> Callable(book.cells[id].formula.ast)
  }

  /** No ranked formula leads back to its own cell: along every reference the rank falls. Formulas
      without a rank may do so. */
  predicate Ranked(book: Book, rank: CellId -> nat) {
    forall id :: id in book.cells && IsFormula(book.cells[id]) && rank(id) > 0 ==>
      Below(book, rank, book.cells[id].formula.ast, id.sheet, rank(id))
  }

  predicate Acyclic(book: Book, rank: CellId -> nat) {
    ValidBook(book) && CallableBook(book) && Ranked(book, rank)
  }

  // ----- values -----

  function SemX(c: Ctx, e: Expr, cur: int, k: nat): XR
    requires Acyclic(c.book, c.rank) && Placed(c.book, c.rank, e, cur, k)
    decreases k, 1, e, 0
  {
    match e
    case Num(x) => Fin(x)
    case Str(_) => NaN
    case CellRef(_, _, _) => SemCell(c, TargetOf(c.book, e, cur))
    case RangeRef(_, _, _, _, _) => First(SemCells(c, RangeIds(c.book, e, cur), k))
    case NameRef(nm) => if nm in c.book.names then SemCell(c, NameTarget(c.book.names[nm])) else NaN
    case Un(op, a) => UnVal(op, SemX(c, a, cur, k))
    case Bin(op, a, b) => BinVal(c.f, op, SemX(c, a, cur, k), SemX(c, b, cur, k))
    case Call(fn, args) =>
      var av := SemArgs(c, args, cur, k);
      FlatLength(av);
      CallVal(c.f, c.other, fn, av)
  }

  function First(v: seq<XR>): XR { if |v| == 0 then NaN else v[0] }

  /** A range gives all its cells, anything else its one value. */
  function SemArg(c: Ctx, a: Expr, cur: int, k: nat): (v: seq<XR>)
    requires Acyclic(c.book, c.rank) && Placed(c.book, c.rank, a, cur, k)
    ensures |v| > 0
    decreases k, 1, a, 1
  {
    if a.RangeRef? then
      RangeNonEmpty(c.book, a, cur);
      SemCells(c, RangeIds(c.book, a, cur), k)
    else [SemX(c, a, cur, k)]
  }

  function SemArgs(c: Ctx, args: seq<Expr>, cur: int, k: nat): (av: seq<seq<XR>>)
    requires Acyclic(c.book, c.rank)
    requires AllPlaced(c.book, c.rank, args, cur, k)
    ensures |av| == |args| && forall i :: 0 <= i < |args| ==> av[i] == SemArg(c, args[i], cur, k)
    decreases k, 1, args, 0
  {
    if |args| == 0 then [] else SemArgs(c, args[..|args| - 1], cur, k) + [SemArg(c, args[|args| - 1], cur, k)]
  }

  function SemCells(c: Ctx, ids: seq<CellId>, k: nat): (v: seq<XR>)
    requires Acyclic(c.book, c.rank) && AllRankBelow(c.book, c.rank, ids, k)
    ensures |v| == |ids| && forall i :: 0 <= i < |ids| ==> v[i] == SemCell(c, ids[i])
    decreases k, 0, |ids|, 0
  {
    if |ids| == 0 then [] else SemCells(c, ids[..|ids| - 1], k) + [SemCell(c, ids[|ids| - 1])]
  }

  /** An input has its assigned value; blank cells, texts and unreadable formulas are zero. What
      formulas without a rank are does not matter: nothing ranked refers to them. */
  function SemCell(c: Ctx, id: CellId): XR
    requires Acyclic(c.book, c.rank)
    decreases c.rank(id), 2, 0, 0
  {
    if id !in c.book.cells then ZERO
    else
      var cell := c.book.cells[id];
      if IsFormula(cell) then if c.rank(id) == 0 then NaN else SemX(c, cell.formula.ast, id.sheet, c.rank(id))
      else if IsInput(cell) then Fin(c.env(Key(c.book, id)))
      else ZERO
  }

  lemma RangeNonEmpty(book: Book, e: Expr, cur: int)
    requires e.RangeRef?
    ensures |RangeIds(book, e, cur)| > 0
  {
    BlockStarts(SheetOf(book, e.sheet, cur), Smaller(e.row, e.endRow), Larger(e.row, e.endRow),
                Smaller(e.col, e.endCol), Larger(e.col, e.endCol));
  }
}

/** The spreadsheet interpreter: memoised values, a depth guard, and no cycle check. */
module Oracle {
  import opened ExtReal
  import opened Interval
  import opened Sequences
  import opened Workbooks
  import opened Meaning

  const MAX_DEPTH: nat := 256

  /** Stored numbers as values. */
  function Held(m: map<CellId, real>): map<CellId, XR> {
    map id | id in m :: Fin(m[id])
  }

  lemma BuildStart(book: Book)
    ensures FormulasOf(book) - book.cells.Keys == map[] && InputsOf(book) - book.cells.Keys == map[]
    ensures Held(map[]) == map[]
  {
  }

  lemma BuildStep(book: Book, todo: set<CellId>, id: CellId)
    requires id in todo && id in book.cells
    ensures var (cell, before) := (book.cells[id], FormulasOf(book) - todo);
      FormulasOf(book) - (todo - {id}) == if IsFormula(cell) then before[id := cell.formula.ast] else before
    ensures var (cell, before) := (book.cells[id], InputsOf(book) - todo);
      InputsOf(book) - (todo - {id}) == if IsInput(cell) then before[id := cell.value] else before
  {
  }

  lemma HeldStep(m: map<CellId, real>, id: CellId, v: real)
    ensures Held(m[id := v]) == Held(m)[id := Fin(v)]
  {
  }

  // ----- the loops over a call's arguments -----

  method Aggregate(g: Agg, v: seq<XR>) returns (acc: XR)
    ensures acc == Aggregated(g, v)
  {
    acc := Start(g);
    var i := 0;
    while i < |v|
      invariant 0 <= i <= |v| && acc == Aggregated(g, v[..i])
    {
      assert v[..i + 1][..i] == v[..i];
      acc := Step(g, acc, v[i]);
      i := i + 1;
    }
    assert v[..i] == v;
  }

  method Mean(v: seq<XR>) returns (r: XR)
    ensures r == Average(v)
  {
    var s, n, i := ZERO, 0, 0;
    while i < |v|
      invariant 0 <= i <= |v| && s == Aggregated(SumAgg, v[..i]) && n == Numbers(v[..i])
    {
      assert v[..i + 1][..i] == v[..i];
      if !v[i].NaN? {
        s := ExtReal.Add(s, v[i]);
        n := n + 1;
      }
      i := i + 1;
    }
    assert v[..i] == v;
    r := if n == 0 then NaN else Div(s, Fin(n as real));
  }

  method Apply(f: Fpu, other: (Fn, seq<seq<XR>>) -> XR, fn: Fn, av: seq<seq<XR>>, v: seq<XR>) returns (r: XR)
    requires v == Flat(av) && |v| >= Needs(fn)
    ensures r == CallVal(f, other, fn, av)
  {
    match fn {
      case SUM => r := Aggregate(SumAgg, v);
      case AVERAGE => r := Mean(v);
      case MIN => r := Aggregate(MinAgg, v);
      case MAX => r := Aggregate(MaxAgg, v);
      case PRODUCT => r := Aggregate(ProductAgg, v);
      case SUMSQ => r := Aggregate(SquaresAgg, v);
      case _ => r := CallVal(f, other, fn, av);
    }
  }

  // ----- the interpreter as a function of its memo -----

  /** What an interpreter is built from. */
  datatype Machine = Machine(book: Book, f: Fpu, other: (Fn, seq<seq<XR>>) -> XR)

  type Memo = map<CellId, XR>

  /** A cell's value and the memo afterwards: what is held, else the formula's value unless it lies
      too deep, else zero. */
  function RunCell(m: Machine, memo: Memo, id: CellId, depth: nat): (XR, Memo)
    requires CallableBook(m.book) && depth <= MAX_DEPTH + 1
    decreases MAX_DEPTH + 1 - depth, 0, 0, 0
  {
    if id in memo then (memo[id], memo)
    else if id !in m.book.cells || !IsFormula(m.book.cells[id]) then (ZERO, memo)
    else if depth > MAX_DEPTH then (NaN, memo)
    else
      var (r, after) := RunX(m, memo, m.book.cells[id].formula.ast, id.sheet, depth + 1);
      (r, after[id := r])
  }

  function RunCells(m: Machine, memo: Memo, ids: seq<CellId>, depth: nat): (o: (seq<XR>, Memo))
    requires CallableBook(m.book) && depth <= MAX_DEPTH + 1
    ensures |o.0| == |ids|
    decreases MAX_DEPTH + 1 - depth, 1, |ids|, 0
  {
    if |ids| == 0 then ([], memo)
    else
      var (v, between) := RunCells(m, memo, ids[..|ids| - 1], depth);
      var (r, after) := RunCell(m, between, ids[|ids| - 1], depth);
      (v + [r], after)
  }

  function RunX(m: Machine, memo: Memo, e: Expr, cur: int, depth: nat): (XR, Memo)
    requires CallableBook(m.book) && depth <= MAX_DEPTH + 1 && Callable(e)
    decreases MAX_DEPTH + 1 - depth, 2, e, 1
  {
    match e
    case Num(x) => (Fin(x), memo)
    case Str(_) => (NaN, memo)
    case CellRef(_, _, _) => RunCell(m, memo, TargetOf(m.book, e, cur), depth)
    case RangeRef(_, _, _, _, _) =>
      var (v, after) := RunCells(m, memo, RangeIds(m.book, e, cur), depth);
      (First(v), after)
    case NameRef(nm) =>
      if nm in m.book.names then RunCell(m, memo, NameTarget(m.book.names[nm]), depth) else (NaN, memo)
    case Un(op, a) =>
      var (x, after) := RunX(m, memo, a, cur, depth);
      (UnVal(op, x), after)
    case Bin(op, a, b) =>
      var (x, between) := RunX(m, memo, a, cur, depth);
      var (y, after) := RunX(m, between, b, cur, depth);
      (BinVal(m.f, op, x, y), after)
    case Call(fn, args) =>
      var (av, after) := RunArgs(m, memo, args, cur, depth);
      FlatLength(av);
      (CallVal(m.f, m.other, fn, av), after)
  }

  function RunArg(m: Machine, memo: Memo, a: Expr, cur: int, depth: nat): (o: (seq<XR>, Memo))
    requires CallableBook(m.book) && depth <= MAX_DEPTH + 1 && Callable(a)
    ensures |o.0| > 0
    decreases MAX_DEPTH + 1 - depth, 2, a, 2
  {
    if a.RangeRef? then
      RangeNonEmpty(m.book, a, cur);
      RunCells(m, memo, RangeIds(m.book, a, cur), depth)
    else
      var (r, after) := RunX(m, memo, a, cur, depth);
      ([r], after)
  }

  function RunArgs(m: Machine, memo: Memo, args: seq<Expr>, cur: int, depth: nat): (o: (seq<seq<XR>>, Memo))
    requires CallableBook(m.book) && depth <= MAX_DEPTH + 1 && forall i :: 0 <= i < |args| ==> Callable(args[i])
    ensures |o.0| == |args| && forall i :: 0 <= i < |args| ==> |o.0[i]| > 0
    decreases MAX_DEPTH + 1 - depth, 2, args, 0
  {
    if |args| == 0 then ([], memo)
    else
      var (av, between) := RunArgs(m, memo, args[..|args| - 1], cur, depth);
      var (v, after) := RunArg(m, between, args[|args| - 1], cur, depth);
      (av + [v], after)
  }

  /** A target's value: its formula starts at depth zero. */
  function RunValue(m: Machine, memo: Memo, id: CellId): (XR, Memo)
    requires CallableBook(m.book)
  {
    if id in memo then (memo[id], memo)
    else if id !in m.book.cells || !IsFormula(m.book.cells[id]) then (ZERO, memo)
    else
      var (r, after) := RunX(m, memo, m.book.cells[id].formula.ast, id.sheet, 0);
      (r, after[id := r])
  }

  // ----- within the depth limit the interpreter computes the meaning -----

  /** Every value held is the cell's meaning in c, and every input is held. */
  ghost predicate Tracks(m: Machine, memo: Memo, c: Ctx)
    requires Acyclic(c.book, c.rank)
  {
    && c.book == m.book && c.f == m.f && c.other == m.other
    && (forall id :: id in memo ==> memo[id] == SemCell(c, id))
    && (forall id :: id in InputsOf(m.book) ==> id in memo)
  }

  /** The depth guard stays out of the way of what ranks below k. */
  ghost predicate Ready(m: Machine, memo: Memo, c: Ctx, k: nat, depth: nat) {
    && Acyclic(c.book, c.rank) && c.book == m.book && CallableBook(m.book)
    && 0 < k && depth + k <= MAX_DEPTH + 2 && Tracks(m, memo, c)
  }

  lemma CellTracks(m: Machine, memo: Memo, id: CellId, depth: nat, c: Ctx, k: nat)
    requires Ready(m, memo, c, k, depth) && RanksBelow(m.book, c.rank, id, k)
    ensures var (r, after) := RunCell(m, memo, id, depth); r == SemCell(c, id) && Ready(m, after, c, k, depth)
    decreases MAX_DEPTH + 1 - depth, 0, 0, 0
  {
    hide SemX;
    hide Key;
    if id !in memo && id in m.book.cells && IsFormula(m.book.cells[id]) {
      XTracks(m, memo, m.book.cells[id].formula.ast, id.sheet, depth + 1, c, c.rank(id));
    }
  }

  lemma {:induction false} CellsTrack(m: Machine, memo: Memo, ids: seq<CellId>, depth: nat, c: Ctx, k: nat)
    requires Ready(m, memo, c, k, depth) && AllRankBelow(m.book, c.rank, ids, k)
    ensures var (v, after) := RunCells(m, memo, ids, depth); v == SemCells(c, ids, k) && Ready(m, after, c, k, depth)
    decreases MAX_DEPTH + 1 - depth, 1, |ids|, 0
  {
    hide SemCell;
    hide RunCell;
    hide Tracks;
    hide Acyclic;
    if |ids| > 0 {
      CellsTrack(m, memo, ids[..|ids| - 1], depth, c, k);
      CellTracks(m, RunCells(m, memo, ids[..|ids| - 1], depth).1, ids[|ids| - 1], depth, c, k);
    }
  }

  lemma {:induction false} XTracks(m: Machine, memo: Memo, e: Expr, cur: int, depth: nat, c: Ctx, k: nat)
    requires Ready(m, memo, c, k, depth) && Placed(m.book, c.rank, e, cur, k)
    ensures c.book == m.book
    ensures var (r, after) := RunX(m, memo, e, cur, depth); r == SemX(c, e, cur, k) && Ready(m, after, c, k, depth)
    decreases MAX_DEPTH + 1 - depth, 2, e, 1
  {
    hide SemCell;
    hide SemCells;
    hide SemArgs;
    hide RunCell;
    hide RunCells;
    hide RunArgs;
    hide Acyclic;
    hide CallVal;
    hide UnVal;
    hide BinVal;
    hide RangeIds;
    match e
    case Num(_) =>
    case Str(_) =>
    case CellRef(_, _, _) => CellTracks(m, memo, TargetOf(m.book, e, cur), depth, c, k);
    case RangeRef(_, _, _, _, _) => CellsTrack(m, memo, RangeIds(m.book, e, cur), depth, c, k);
    case NameRef(nm) => if nm in m.book.names { CellTracks(m, memo, NameTarget(m.book.names[nm]), depth, c, k); }
    case Un(_, a) => XTracks(m, memo, a, cur, depth, c, k);
    case Bin(_, a, b) =>
      XTracks(m, memo, a, cur, depth, c, k);
      XTracks(m, RunX(m, memo, a, cur, depth).1, b, cur, depth, c, k);
    case Call(_, args) => ArgsTrack(m, memo, args, cur, depth, c, k);
  }

  lemma ArgTracks(m: Machine, memo: Memo, a: Expr, cur: int, depth: nat, c: Ctx, k: nat)
    requires Ready(m, memo, c, k, depth) && Placed(m.book, c.rank, a, cur, k)
    ensures c.book == m.book
    ensures var (v, after) := RunArg(m, memo, a, cur, depth); v == SemArg(c, a, cur, k) && Ready(m, after, c, k, depth)
    decreases MAX_DEPTH + 1 - depth, 2, a, 2
  {
    hide SemX;
    hide RunX;
    hide RunCells;
    hide Tracks;
    hide Acyclic;
    hide RangeIds;
    if a.RangeRef? {
      CellsTrack(m, memo, RangeIds(m.book, a, cur), depth, c, k);
    } else {
      XTracks(m, memo, a, cur, depth, c, k);
    }
  }

  lemma {:induction false} ArgsTrack(m: Machine, memo: Memo, args: seq<Expr>, cur: int, depth: nat, c: Ctx, k: nat)
    requires Ready(m, memo, c, k, depth) && AllPlaced(m.book, c.rank, args, cur, k)
    ensures c.book == m.book
    ensures var (av, after) := RunArgs(m, memo, args, cur, depth);
      av == SemArgs(c, args, cur, k) && Ready(m, after, c, k, depth)
    decreases MAX_DEPTH + 1 - depth, 2, args, 0
  {
    hide SemArg;
    hide RunArg;
    hide Below;
    hide Acyclic;
    if |args| > 0 {
      var front := args[..|args| - 1];
      ArgsTrack(m, memo, front, cur, depth, c, k);
      ArgTracks(m, RunArgs(m, memo, front, cur, depth).1, args[|args| - 1], cur, depth, c, k);
    }
  }

  /** A target ranked within the limit gets its meaning. */
  lemma ValueTracks(m: Machine, memo: Memo, id: CellId, c: Ctx)
    requires Acyclic(c.book, c.rank) && Tracks(m, memo, c) && RanksBelow(m.book, c.rank, id, MAX_DEPTH + 3)
    ensures var (r, after) := RunValue(m, memo, id); r == SemCell(c, id) && Tracks(m, after, c)
  {
    hide SemX;
    hide RunX;
    hide Key;
    if id !in memo && id in m.book.cells && IsFormula(m.book.cells[id]) {
      XTracks(m, memo, m.book.cells[id].formula.ast, id.sheet, 0, c, c.rank(id));
    }
  }

  /** The table holds one assignment's inputs and nothing else. */
  predicate Assigned(m: Machine, memo: Memo, env: string -> real)
    requires ValidBook(m.book)
  {
    memo.Keys == InputsOf(m.book).Keys && forall id :: id in memo ==> memo[id] == Fin(env(Key(m.book, id)))
  }

  /** After the inputs are set and nothing else, every value held is the cell's meaning. */
  lemma AssignmentTracks(m: Machine, memo: Memo, c: Ctx)
    requires Acyclic(c.book, c.rank) && c.book == m.book && c.f == m.f && c.other == m.other
    requires Assigned(m, memo, c.env)
    ensures Tracks(m, memo, c)
  {
    hide SemX;
  }

  class Interpreter {
    const book: Book
    const f: Fpu
    const other: (Fn, seq<seq<XR>>) -> XR
    var values: map<CellId, XR>
    var formulas: map<CellId, Expr>
    var inputs: map<CellId, real>

    constructor (book: Book, f: Fpu, other: (Fn, seq<seq<XR>>) -> XR)
      ensures this.book == book && this.f == f && this.other == other
      ensures values == map[] && formulas == map[] && inputs == map[]
    {
      this.book, this.f, this.other := book, f, other;
      values, formulas, inputs := map[], map[], map[];
    }

    /** Formulas that parse are kept as trees, numbers as inputs, everything else as nothing. */
    method Build()
      modifies this
      ensures formulas == FormulasOf(book) && inputs == InputsOf(book) && values == Held(inputs)
    {
      hide FormulasOf;
      hide InputsOf;
      hide Held;
      values, formulas, inputs := map[], map[], map[];
      var todo := book.cells.Keys;
      BuildStart(book);
      while todo != {}
        invariant todo <= book.cells.Keys && values == Held(inputs)
        invariant formulas == FormulasOf(book) - todo && inputs == InputsOf(book) - todo
      {
        var id :| id in todo;
        var cell := book.cells[id];
        BuildStep(book, todo, id);
        HeldStep(inputs, id, cell.value);
        if IsFormula(cell) {
          formulas := formulas[id := cell.formula.ast];
        } else if IsInput(cell) {
          values := values[id := Fin(cell.value)];
          inputs := inputs[id := cell.value];
        }
        todo := todo - {id};
      }
      assert formulas == FormulasOf(book) && inputs == InputsOf(book);
    }

    method Set(id: CellId, v: real)
      modifies `values
      ensures values == old(values)[id := Fin(v)]
    {
      values := values[id := Fin(v)];
    }

    method Reset()
      modifies `values
      ensures values == Held(inputs)
    {
      values := Held(inputs);
    }

    ghost predicate Built()
      reads this
    {
      formulas == FormulasOf(book) && CallableBook(book)
    }

    function Parts(): Machine { Machine(book, f, other) }

    method Value(id: CellId) returns (r: XR)
      requires Built()
      modifies `values
      ensures (r, values) == RunValue(Parts(), old(values), id)
    {
      hide RunX;
      if id in values {
        return values[id];
      }
      if id in formulas {
        r := Eval(formulas[id], id.sheet, 0);
        values := values[id := r];
        return;
      }
      return ZERO;
    }

    method CellVal(id: CellId, depth: nat) returns (r: XR)
      requires Built() && depth <= MAX_DEPTH + 1
      modifies `values
      ensures (r, values) == RunCell(Parts(), old(values), id, depth)
      decreases MAX_DEPTH + 1 - depth, 0, 0, 0
    {
      hide RunX;
      if id in values {
        return values[id];
      }
      if id in formulas {
        if depth > MAX_DEPTH {
          return NaN;
        }
        r := Eval(formulas[id], id.sheet, depth + 1);
        values := values[id := r];
        return;
      }
      return ZERO;
    }

    method RangeVals(e: Expr, cur: int, depth: nat) returns (v: seq<XR>)
      requires Built() && depth <= MAX_DEPTH + 1 && e.RangeRef?
      modifies `values
      ensures (v, values) == RunCells(Parts(), old(values), RangeIds(book, e, cur), depth) && |v| > 0
      decreases MAX_DEPTH + 1 - depth, 1, 0, 0
    {
      hide RunCell;
      hide RangeIds;
      var ids := CollectRange(book, e, cur);
      v := [];
      var i := 0;
      while i < |ids|
        invariant 0 <= i <= |ids| && (v, values) == RunCells(Parts(), old(values), ids[..i], depth)
      {
        assert ids[..i + 1][..i] == ids[..i];
        var x := CellVal(ids[i], depth);
        v := v + [x];
        i := i + 1;
      }
      assert ids[..i] == ids;
    }

    method Eval(e: Expr, cur: int, depth: nat) returns (r: XR)
      requires Built() && depth <= MAX_DEPTH + 1 && Callable(e)
      modifies `values
      ensures (r, values) == RunX(Parts(), old(values), e, cur, depth)
      decreases MAX_DEPTH + 1 - depth, 2, e, 1
    {
      hide RunCell;
      hide RunCells;
      hide RunArgs;
      hide CallVal;
      hide UnVal;
      hide BinVal;
      match e {
        case Num(x) => return Fin(x);
        case Str(_) => return NaN;
        case CellRef(sheet, row, col) =>
          var found := SheetIndex(book, sheet);
          r := CellVal(CellId(if |sheet| == 0 || found < 0 then cur else found, row, col), depth);
        case RangeRef(_, _, _, _, _) =>
          var v := RangeVals(e, cur, depth);
          r := v[0];
        case NameRef(nm) =>
          if nm !in book.names {
            return NaN;
          }
          r := CellVal(NameTarget(book.names[nm]), depth);
        case Un(op, a) =>
          var x := Eval(a, cur, depth);
          r := UnVal(op, x);
        case Bin(op, a, b) =>
          var x := Eval(a, cur, depth);
          var y := Eval(b, cur, depth);
          r := BinVal(f, op, x, y);
        case Call(fn, args) =>
          var av, v := EvalArgs(args, cur, depth);
          FlatLength(av);
          r := Apply(f, other, fn, av, v);
      }
    }

    method EvalArgs(args: seq<Expr>, cur: int, depth: nat) returns (av: seq<seq<XR>>, v: seq<XR>)
      requires Built() && depth <= MAX_DEPTH + 1 && forall i :: 0 <= i < |args| ==> Callable(args[i])
      modifies `values
      ensures (av, values) == RunArgs(Parts(), old(values), args, cur, depth) && v == Flat(av)
      decreases MAX_DEPTH + 1 - depth, 2, args, 0
    {
      hide RunX;
      hide RunCells;
      hide RangeIds;
      hide Callable;
      av, v := [], [];
      var i := 0;
      while i < |args|
        invariant 0 <= i <= |args| && (av, values) == RunArgs(Parts(), old(values), args[..i], cur, depth)
        invariant v == Flat(av)
      {
        assert args[..i + 1][..i] == args[..i];
        var one;
        if args[i].RangeRef? {
          one := RangeVals(args[i], cur, depth);
        } else {
          var x := Eval(args[i], cur, depth);
          one := [x];
        }
        assert (av + [one])[..i] == av;
        av := av + [one];
        v := v + one;
        i := i + 1;
      }
      assert args[..i] == args;
    }
  }
}
