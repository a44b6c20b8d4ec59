/** What the interpreter answers, said in plain arithmetic: comparisons and choices, operators,
    functions of single values, and aggregates. */
module Answers {
  import opened ExtReal
  import opened Interval
  import opened Enclosure
  import opened Sequences
  import opened Workbooks
  import opened Meaning
  import opened Oracle

  // ----- arguments one by one -----

  predicate Lone(m: Machine, e: Expr) { Callable(e) && !e.RangeRef? }

  lemma FlatTwo<T>(x: seq<T>, y: seq<T>)
    ensures Flat([x, y]) == x + y
  {
    assert [x, y][..1] == [x];
    assert Flat([x]) == x by { assert [x][..0] == []; }
  }

  lemma FlatThree<T>(x: seq<T>, y: seq<T>, z: seq<T>)
    ensures Flat([x, y, z]) == x + y + z
  {
    assert [x, y, z][..2] == [x, y];
    FlatTwo(x, y);
  }

  lemma OneArg(m: Machine, memo: Memo, d: Expr, cur: int, depth: nat)
    requires CallableBook(m.book) && Lone(m, d) && depth <= MAX_DEPTH + 1
    ensures var (x, after) := RunX(m, memo, d, cur, depth); RunArgs(m, memo, [d], cur, depth) == ([[x]], after)
  {
    hide CallableBook;
    hide Callable;
    hide RunX;
    var (x, after) := RunX(m, memo, d, cur, depth);
    var none: seq<seq<XR>> := [];
    assert [d][..0] == [] && RunArgs(m, memo, [], cur, depth) == (none, memo);
    assert none + [[x]] == [[x]];
  }

  lemma PairArgs(m: Machine, memo: Memo, d: Expr, e: Expr, cur: int, depth: nat)
    requires CallableBook(m.book) && Lone(m, d) && Lone(m, e) && depth <= MAX_DEPTH + 1
    ensures var (x, between) := RunX(m, memo, d, cur, depth);
      var (y, after) := RunX(m, between, e, cur, depth);
      RunArgs(m, memo, [d, e], cur, depth) == ([[x], [y]], after)
  {
    hide CallableBook;
    hide Callable;
    hide RunX;
    var (x, between) := RunX(m, memo, d, cur, depth);
    var y := RunX(m, between, e, cur, depth).0;
    OneArg(m, memo, d, cur, depth);
    assert [d, e][..1] == [d] && [[x]] + [[y]] == [[x], [y]];
  }

  lemma TripleArgs(m: Machine, memo: Memo, c: Expr, d: Expr, e: Expr, cur: int, depth: nat)
    requires CallableBook(m.book) && Lone(m, c) && Lone(m, d) && Lone(m, e) && depth <= MAX_DEPTH + 1
    ensures var (w, m1) := RunX(m, memo, c, cur, depth);
      var (x, m2) := RunX(m, m1, d, cur, depth);
      var (y, m3) := RunX(m, m2, e, cur, depth);
      RunArgs(m, memo, [c, d, e], cur, depth) == ([[w], [x], [y]], m3)
  {
    hide CallableBook;
    hide Callable;
    hide RunX;
    var (w, m1) := RunX(m, memo, c, cur, depth);
    var (x, m2) := RunX(m, m1, d, cur, depth);
    var y := RunX(m, m2, e, cur, depth).0;
    PairArgs(m, memo, c, d, cur, depth);
    assert [c, d, e][..2] == [c, d] && [[w], [x]] + [[y]] == [[w], [x], [y]];
  }

  lemma CallRun(m: Machine, memo: Memo, fn: Fn, args: seq<Expr>, cur: int, depth: nat)
    requires CallableBook(m.book) && Callable(Call(fn, args)) && depth <= MAX_DEPTH + 1
    ensures var (av, after) := RunArgs(m, memo, args, cur, depth);
      |Flat(av)| >= Needs(fn) && RunX(m, memo, Call(fn, args), cur, depth) == (CallVal(m.f, m.other, fn, av), after)
  {
    hide CallableBook;
    hide CallVal;
    FlatLength(RunArgs(m, memo, args, cur, depth).0);
    hide RunArgs;
    hide Flat;
  }

  // ----- comparisons and choices -----

  predicate Compares(op: BinOp) { op in {Equal, NotEqual, Less, Greater, AtMost, AtLeast} }

  /** How two numbers stand to each other. */
  predicate Related(op: BinOp, x: real, y: real)
    requires Compares(op)
  {
    match op
    case Equal => x == y
    case NotEqual => x != y
    case Less => x < y
    case Greater => x > y
    case AtMost => x <= y
    case AtLeast => x >= y
  }

  /** The same with infinities at the two ends; what is no number only differs. */
  predicate Stands(op: BinOp, x: XR, y: XR)
    requires Compares(op)
  {
    if x.NaN? || y.NaN? then op == NotEqual
    else if x.Fin? && y.Fin? then Related(op, x.r, y.r)
    else if x == y then op == Equal || op == AtMost || op == AtLeast
    else if x == NegInf || y == PosInf then op == NotEqual || op == Less || op == AtMost
    else op == NotEqual || op == Greater || op == AtLeast
  }

  lemma ComparisonRun(m: Machine, memo: Memo, op: BinOp, a: Expr, b: Expr, cur: int, depth: nat)
    requires CallableBook(m.book) && Callable(a) && Callable(b) && Compares(op) && depth <= MAX_DEPTH + 1
    ensures var (x, between) := RunX(m, memo, a, cur, depth);
      var (y, after) := RunX(m, between, b, cur, depth);
      RunX(m, memo, Bin(op, a, b), cur, depth) == (Fin(if Stands(op, x, y) then 1.0 else 0.0), after)
  {
    hide CallableBook;
    hide Callable;
    hide RunCell;
    hide RunCells;
    hide RunArgs;
  }

  /** What is not zero, even if it is no number, takes the second argument, and zero the third. */
  lemma ChoiceRun(m: Machine, memo: Memo, c: Expr, d: Expr, e: Expr, cur: int, depth: nat)
    requires CallableBook(m.book) && Lone(m, c) && Lone(m, d) && Lone(m, e) && depth <= MAX_DEPTH + 1
    ensures Callable(Call(IF, [c, d, e]))
    ensures var (w, m1) := RunX(m, memo, c, cur, depth);
      var (x, m2) := RunX(m, m1, d, cur, depth);
      var (y, m3) := RunX(m, m2, e, cur, depth);
      RunX(m, memo, Call(IF, [c, d, e]), cur, depth) == (if w == Fin(0.0) then y else x, m3)
  {
    var (w, m1) := RunX(m, memo, c, cur, depth);
    var (x, m2) := RunX(m, m1, d, cur, depth);
    var y := RunX(m, m2, e, cur, depth).0;
    assert Callable(Call(IF, [c, d, e]));
    hide RunX;
    hide CallableBook;
    TripleArgs(m, memo, c, d, e, cur, depth);
    CallRun(m, memo, IF, [c, d, e], cur, depth);
    hide Callable;
    hide RunArgs;
    IfAnswer(m.f, m.other, w, x, y);
    hide CallVal;
    hide Flat;
  }

  lemma IfAnswer(f: Fpu, other: (Fn, seq<seq<XR>>) -> XR, w: XR, x: XR, y: XR)
    ensures |Flat([[w], [x], [y]])| >= Needs(IF)
    ensures CallVal(f, other, IF, [[w], [x], [y]]) == if w == Fin(0.0) then y else x
  {
    FlatThree([w], [x], [y]);
    assert [w] + [x] + [y] == [w, x, y];
    hide Flat;
  }

  function Ref(id: CellId): Expr { CellRef("", id.row, id.col) }

  lemma RefRun(m: Machine, memo: Memo, id: CellId, depth: nat)
    requires CallableBook(m.book) && depth <= MAX_DEPTH + 1
    ensures RunX(m, memo, Ref(id), id.sheet, depth) == RunCell(m, memo, id, depth)
  {
    hide CallableBook;
    hide RunCell;
    assert TargetOf(m.book, Ref(id), id.sheet) == id;
  }

  lemma HeldRun(m: Machine, memo: Memo, id: CellId, depth: nat)
    requires CallableBook(m.book) && depth <= MAX_DEPTH + 1 && id in memo
    ensures RunX(m, memo, Ref(id), id.sheet, depth) == (memo[id], memo)
  {
    hide CallableBook;
    RefRun(m, memo, id, depth);
    hide RunX;
  }

  lemma NumRun(m: Machine, memo: Memo, x: real, cur: int, depth: nat)
    requires CallableBook(m.book) && depth <= MAX_DEPTH + 1
    ensures RunX(m, memo, Num(x), cur, depth) == (Fin(x), memo)
  {
  }

  lemma FormulaRun(m: Machine, memo: Memo, goal: CellId, e: Expr)
    requires CallableBook(m.book) && goal in m.book.cells && m.book.cells[goal].formula == Parsed(e) && goal !in memo
    ensures Callable(e) && RunValue(m, memo, goal).0 == RunX(m, memo, e, goal.sheet, 0).0
  {
    hide RunX;
  }

  /** IF over a comparison of two cells, on their sheet: the first branch exactly when the cells'
      values stand so to each other. */
  lemma ComparisonDecides(m: Machine, memo: Memo, goal: CellId, op: BinOp, a: CellId, b: CellId, p: real, q: real)
    requires CallableBook(m.book) && goal in m.book.cells && goal !in memo && Compares(op)
    requires m.book.cells[goal].formula == Parsed(Call(IF, [Bin(op, Ref(a), Ref(b)), Num(p), Num(q)]))
    requires a in memo && b in memo && a.sheet == goal.sheet == b.sheet
    ensures var (x, y) := (memo[a], memo[b]);
      && RunValue(m, memo, goal).0 == Fin(if Stands(op, x, y) then p else q)
      && (x.Fin? && y.Fin? ==> (Stands(op, x, y) <==> Related(op, x.r, y.r)))
      && (x.NaN? || y.NaN? ==> (Stands(op, x, y) <==> op == NotEqual))
  {
    var cur := goal.sheet;
    var cond := Bin(op, Ref(a), Ref(b));
    FormulaRun(m, memo, goal, Call(IF, [cond, Num(p), Num(q)]));
    assert Callable(Ref(a)) && Callable(Ref(b)) && Lone(m, cond) && Lone(m, Num(p)) && Lone(m, Num(q));
    hide Callable;
    hide CallableBook;
    hide RunX;
    hide RunValue;
    HeldRun(m, memo, a, 0);
    HeldRun(m, memo, b, 0);
    ComparisonRun(m, memo, op, Ref(a), Ref(b), cur, 0);
    NumRun(m, memo, p, cur, 0);
    NumRun(m, memo, q, cur, 0);
    ChoiceRun(m, memo, cond, Num(p), Num(q), cur, 0);
  }

  /** An error, and nothing else, takes the second argument. */
  lemma RescueRun(m: Machine, memo: Memo, d: Expr, e: Expr, cur: int, depth: nat)
    requires CallableBook(m.book) && Lone(m, d) && Lone(m, e) && depth <= MAX_DEPTH + 1
    ensures Callable(Call(IFERROR, [d, e]))
    ensures var (x, between) := RunX(m, memo, d, cur, depth);
      var (y, after) := RunX(m, between, e, cur, depth);
      RunX(m, memo, Call(IFERROR, [d, e]), cur, depth) == (if x == NaN then y else x, after)
  {
    var (x, between) := RunX(m, memo, d, cur, depth);
    var y := RunX(m, between, e, cur, depth).0;
    assert Callable(Call(IFERROR, [d, e]));
    hide RunX;
    hide CallableBook;
    PairArgs(m, memo, d, e, cur, depth);
    CallRun(m, memo, IFERROR, [d, e], cur, depth);
    hide Callable;
    hide RunArgs;
    RescueAnswer(m.f, m.other, x, y);
    hide CallVal;
    hide Flat;
  }

  lemma RescueAnswer(f: Fpu, other: (Fn, seq<seq<XR>>) -> XR, x: XR, y: XR)
    ensures |Flat([[x], [y]])| >= Needs(IFERROR)
    ensures CallVal(f, other, IFERROR, [[x], [y]]) == if x == NaN then y else x
  {
    FlatTwo([x], [y]);
    assert [x] + [y] == [x, y];
    hide Flat;
  }

  // ----- operators -----

  /** The arithmetic of two numbers; a quotient by zero is none. */
  lemma ArithmeticRun(m: Machine, memo: Memo, op: BinOp, a: Expr, b: Expr, cur: int, depth: nat, x: real, y: real)
    requires CallableBook(m.book) && Callable(a) && Callable(b) && depth <= MAX_DEPTH + 1
    requires RunX(m, memo, a, cur, depth).0 == Fin(x)
    requires RunX(m, RunX(m, memo, a, cur, depth).1, b, cur, depth).0 == Fin(y)
    ensures var r := RunX(m, memo, Bin(op, a, b), cur, depth).0;
      && (op == Plus ==> r == Fin(x + y)) && (op == Minus ==> r == Fin(x - y)) && (op == Times ==> r == Fin(x * y))
      && (op == Over ==> r == if y == 0.0 then NaN else Fin(x / y))
      && (op == Power && y == 2.0 ==> r == Fin(x * x)) && (op == Power && y == -1.0 && x != 0.0 ==> r == Fin(1.0 / x))
      && (op == OtherOp ==> r == NaN)
  {
    hide CallableBook;
    hide Callable;
    hide RunCell;
    hide RunCells;
    hide RunArgs;
    ArithmeticAnswer(m.f, op, x, y);
    hide BinVal;
  }

  lemma ArithmeticAnswer(f: Fpu, op: BinOp, x: real, y: real)
    ensures var r := BinVal(f, op, Fin(x), Fin(y));
      && (op == Plus ==> r == Fin(x + y)) && (op == Minus ==> r == Fin(x - y)) && (op == Times ==> r == Fin(x * y))
      && (op == Over ==> r == if y == 0.0 then NaN else Fin(x / y))
      && (op == Power && y == 2.0 ==> r == Fin(x * x)) && (op == Power && y == -1.0 && x != 0.0 ==> r == Fin(1.0 / x))
      && (op == OtherOp ==> r == NaN)
  {
    SmallPowers(x);
    hide IntPow;
    hide PowDefined;
  }

  lemma SmallPowers(x: real)
    ensures PowDefined(x, 2) && IntPow(x, 2) == x * x
    ensures x != 0.0 ==> PowDefined(x, -1) && IntPow(x, -1) == 1.0 / x
  {
    assert RealPow(x, 1) == x;
  }

  lemma SignRun(m: Machine, memo: Memo, op: UnOp, a: Expr, cur: int, depth: nat, x: real)
    requires CallableBook(m.book) && Callable(a) && depth <= MAX_DEPTH + 1 && RunX(m, memo, a, cur, depth).0 == Fin(x)
    ensures RunX(m, memo, Un(op, a), cur, depth).0 ==
      Fin(match op case Negate => -x case Percent => x / 100.0 case Keep => x)
  {
    hide CallableBook;
    hide Callable;
    hide RunCell;
    hide RunCells;
    hide RunArgs;
  }

  // ----- functions of single values -----

  /** What the functions of one number are; logarithms of zero are minus infinity. */
  function Applied(f: Fpu, fn: Fn, x: real): XR
    requires IsSingle(fn) && fn != LOG10
  {
    match fn
    case ABS => Fin(if x >= 0.0 then x else -x)
    case SQRT => if x >= 0.0 then Fin(f.sqrt(x)) else NaN
    case EXP => Fin(f.exp(x))
    case LN => if x > 0.0 then Fin(f.log(x)) else if x == 0.0 then NegInf else NaN
    case SIN => Fin(f.sin(x))
    case COS => Fin(f.cos(x))
    case TAN => Fin(f.tan(x))
    case DEGREES => Fin(x * 180.0 / 3.14159265358979311599796346854)
    case RADIANS => Fin(x * 3.14159265358979311599796346854 / 180.0)
  }

  lemma SingleRun(m: Machine, memo: Memo, fn: Fn, d: Expr, cur: int, depth: nat, x: real)
    requires CallableBook(m.book) && Lone(m, d) && depth <= MAX_DEPTH + 1 && IsSingle(fn)
    requires RunX(m, memo, d, cur, depth).0 == Fin(x)
    ensures Callable(Call(fn, [d]))
    ensures var r := RunX(m, memo, Call(fn, [d]), cur, depth).0;
      && (fn != LOG10 ==> r == Applied(m.f, fn, x))
      && (fn == LOG10 && x > 0.0 && m.f.log(10.0) != 0.0 ==> r == Fin(m.f.log(x) / m.f.log(10.0)))
  {
    assert Callable(Call(fn, [d]));
    hide RunX;
    hide CallableBook;
    OneArg(m, memo, d, cur, depth);
    CallRun(m, memo, fn, [d], cur, depth);
    hide Callable;
    hide RunArgs;
    assert Flat([[Fin(x)]]) == [Fin(x)] by { assert [[Fin(x)]][..0] == []; }
    hide Flat;
    SingleAnswer(m.f, fn, x);
    hide SingleVal;
    hide Applied;
  }

  lemma SingleAnswer(f: Fpu, fn: Fn, x: real)
    requires IsSingle(fn)
    ensures fn != LOG10 ==> SingleVal(f, fn, Fin(x)) == Applied(f, fn, x)
    ensures fn == LOG10 && x > 0.0 && f.log(10.0) != 0.0 ==> SingleVal(f, fn, Fin(x)) == Fin(f.log(x) / f.log(10.0))
  {
  }

  /** Functions of two numbers, and the one of none. */
  lemma PairAnswer(f: Fpu, other: (Fn, seq<seq<XR>>) -> XR, x: real, y: real)
    ensures |Flat([[Fin(x)], [Fin(y)]])| >= 2
    ensures y == 2.0 ==> CallVal(f, other, POWER, [[Fin(x)], [Fin(y)]]) == Fin(x * x)
    ensures x > 0.0 && y > 0.0 && f.log(y) != 0.0 ==>
      CallVal(f, other, LOG, [[Fin(x)], [Fin(y)]]) == Fin(f.log(x) / f.log(y))
    ensures CallVal(f, other, PI, []) == Fin(3.14159265358979311599796346854)
  {
    FlatTwo([Fin(x)], [Fin(y)]);
    assert [Fin(x)] + [Fin(y)] == [Fin(x), Fin(y)];
    SmallPowers(x);
    hide Flat;
    hide IntPow;
    hide PowDefined;
  }

  // ----- aggregates -----

  /** The numbers among the values, in order. */
  function Kept(v: seq<XR>): seq<real> {
    if |v| == 0 then [] else (if v[0].Fin? then [v[0].r] else []) + Kept(v[1..])
  }

  function Sum(r: seq<real>): real { if |r| == 0 then 0.0 else r[0] + Sum(r[1..]) }

  function Product(r: seq<real>): real { if |r| == 0 then 1.0 else r[0] * Product(r[1..]) }

  function SumOfSquares(r: seq<real>): real { if |r| == 0 then 0.0 else r[0] * r[0] + SumOfSquares(r[1..]) }

  predicate NoInfinity(v: seq<XR>) { forall i :: 0 <= i < |v| ==> v[i].Fin? || v[i].NaN? }

  lemma {:induction false} KeptSnoc(v: seq<XR>)
    requires |v| > 0
    ensures Kept(v) == Kept(v[..|v| - 1]) + (if v[|v| - 1].Fin? then [v[|v| - 1].r] else [])
  {
    if |v| == 1 {
      assert v[1..] == [] && v[..0] == [];
    } else {
      KeptSnoc(v[1..]);
      assert v[1..][..|v| - 2] == v[..|v| - 1][1..];
    }
  }

  lemma {:induction false} SumSnoc(r: seq<real>, x: real)
    ensures Sum(r + [x]) == Sum(r) + x && SumOfSquares(r + [x]) == SumOfSquares(r) + x * x
    ensures Product(r + [x]) == Product(r) * x
  {
    if |r| == 0 {
      assert r + [x] == [x] && [x][1..] == [];
    } else {
      SumSnoc(r[1..], x);
      assert (r + [x])[1..] == r[1..] + [x];
      TimesAssoc(r[0], Product(r[1..]), x);
    }
  }

  lemma TimesAssoc(a: real, b: real, c: real)
    ensures (a * b) * c == a * (b * c)
  {
  }

  /** Sums, products and counts are those of the numbers among the values. */
  lemma {:induction false} SumAnswer(v: seq<XR>)
    requires NoInfinity(v)
    ensures Aggregated(SumAgg, v) == Fin(Sum(Kept(v))) && Aggregated(ProductAgg, v) == Fin(Product(Kept(v)))
    ensures Aggregated(SquaresAgg, v) == Fin(SumOfSquares(Kept(v))) && Numbers(v) == |Kept(v)|
  {
    hide *;
    if |v| == 0 {
      NothingAggregated(v);
    } else {
      var front, x := v[..|v| - 1], v[|v| - 1];
      FrontFinite(v);
      SumAnswer(front);
      KeptSnoc(v);
      AggregatedSnoc(v);
      if x.Fin? {
        SumSnoc(Kept(front), x.r);
        StepAnswer(Sum(Kept(front)), Product(Kept(front)), SumOfSquares(Kept(front)), x.r);
      } else {
        assert Kept(front) + [] == Kept(front);
      }
    }
  }

  lemma FrontFinite(v: seq<XR>)
    requires NoInfinity(v) && |v| > 0
    ensures NoInfinity(v[..|v| - 1]) && (v[|v| - 1].Fin? || v[|v| - 1].NaN?)
  {
  }

  lemma NothingAggregated(v: seq<XR>)
    requires |v| == 0
    ensures Aggregated(SumAgg, v) == Fin(Sum(Kept(v))) && Aggregated(ProductAgg, v) == Fin(Product(Kept(v)))
    ensures Aggregated(SquaresAgg, v) == Fin(SumOfSquares(Kept(v))) && Numbers(v) == |Kept(v)|
  {
  }

  /** What is no number leaves every aggregate as it was. */
  lemma AggregatedSnoc(v: seq<XR>)
    requires |v| > 0
    ensures var (front, x) := (v[..|v| - 1], v[|v| - 1]);
      && Numbers(v) == Numbers(front) + (if x.NaN? then 0 else 1)
      && forall g :: Aggregated(g, v) == if x.NaN? then Aggregated(g, front) else Step(g, Aggregated(g, front), x)
  {
  }

  lemma StepAnswer(s: real, p: real, q: real, x: real)
    ensures Step(SumAgg, Fin(s), Fin(x)) == Fin(s + x) && Step(ProductAgg, Fin(p), Fin(x)) == Fin(p * x)
    ensures Step(SquaresAgg, Fin(q), Fin(x)) == Fin(q + x * x)
  {
  }

  predicate AtMostAll(x: real, r: seq<real>) { forall i :: 0 <= i < |r| ==> x <= r[i] }

  predicate AtLeastAll(x: real, r: seq<real>) { forall i :: 0 <= i < |r| ==> x >= r[i] }

  predicate IsLeast(l: real, r: seq<real>) { AtMostAll(l, r) && l <= MIN_START && (l in r || l == MIN_START) }

  predicate IsMost(h: real, r: seq<real>) { AtLeastAll(h, r) && h >= -MIN_START && (h in r || h == -MIN_START) }

  /** The least and the greatest of the numbers among the values and the two starting values. */
  lemma {:induction false} ExtremeAnswer(v: seq<XR>)
    requires NoInfinity(v)
    ensures Aggregated(MinAgg, v).Fin? && IsLeast(Aggregated(MinAgg, v).r, Kept(v))
    ensures Aggregated(MaxAgg, v).Fin? && IsMost(Aggregated(MaxAgg, v).r, Kept(v))
  {
    if |v| > 0 {
      var front, x := v[..|v| - 1], v[|v| - 1];
      ExtremeAnswer(front);
      KeptSnoc(v);
      hide Kept;
      hide MIN_START;
      if x.NaN? {
        assert Kept(front) + [] == Kept(front);
      } else {
        ExtremeStep(Kept(front), x.r, Aggregated(MinAgg, front).r, Aggregated(MaxAgg, front).r);
      }
      hide IsLeast;
      hide IsMost;
    }
  }

  lemma ExtremeStep(k: seq<real>, x: real, l: real, h: real)
    requires IsLeast(l, k) && IsMost(h, k)
    ensures IsLeast(if x < l then x else l, k + [x]) && IsMost(if x > h then x else h, k + [x])
  {
    hide MIN_START;
    assert (k + [x])[|k|] == x;
  }

  /** Every aggregate of the flattened arguments. */
  lemma AggregateAnswer(f: Fpu, other: (Fn, seq<seq<XR>>) -> XR, av: seq<seq<XR>>)
    requires NoInfinity(Flat(av))
    ensures var k := Kept(Flat(av));
      && CallVal(f, other, SUM, av) == Fin(Sum(k)) && CallVal(f, other, PRODUCT, av) == Fin(Product(k))
      && CallVal(f, other, SUMSQ, av) == Fin(SumOfSquares(k))
      && CallVal(f, other, AVERAGE, av) == (if |k| == 0 then NaN else Fin(Sum(k) / |k| as real))
      && CallVal(f, other, MIN, av).Fin? && IsLeast(CallVal(f, other, MIN, av).r, k)
      && CallVal(f, other, MAX, av).Fin? && IsMost(CallVal(f, other, MAX, av).r, k)
  {
    SumAnswer(Flat(av));
    ExtremeAnswer(Flat(av));
    AggregateCalls(f, other, av);
    hide *;
    MeanAnswer(Flat(av));
  }

  lemma AggregateCalls(f: Fpu, other: (Fn, seq<seq<XR>>) -> XR, av: seq<seq<XR>>)
    ensures CallVal(f, other, SUM, av) == Aggregated(SumAgg, Flat(av))
    ensures CallVal(f, other, PRODUCT, av) == Aggregated(ProductAgg, Flat(av))
    ensures CallVal(f, other, SUMSQ, av) == Aggregated(SquaresAgg, Flat(av))
    ensures CallVal(f, other, MIN, av) == Aggregated(MinAgg, Flat(av))
    ensures CallVal(f, other, MAX, av) == Aggregated(MaxAgg, Flat(av))
    ensures CallVal(f, other, AVERAGE, av) == Average(Flat(av))
  {
    hide Flat;
    hide Aggregated;
    hide Average;
  }

  lemma MeanAnswer(v: seq<XR>)
    requires Numbers(v) == |Kept(v)| && Aggregated(SumAgg, v) == Fin(Sum(Kept(v)))
    ensures Average(v) == if |Kept(v)| == 0 then NaN else Fin(Sum(Kept(v)) / |Kept(v)| as real)
  {
    hide Kept;
    hide Aggregated;
    hide Numbers;
    hide Sum;
  }

  /** The starting value of a minimum is ten to the power of 300. */
  lemma StartingValue()
    ensures MIN_START == RealPow(10.0, 300)
  {
    hide RealPow;
    FiveTens();
    PowAdd(10.0, 5, 5);
    PowAdd(10.0, 10, 10);
    PowAdd(10.0, 20, 20);
    PowAdd(10.0, 40, 20);
    PowAdd(10.0, 60, 60);
    PowAdd(10.0, 120, 120);
    PowAdd(10.0, 240, 60);
  }

  lemma FiveTens()
    ensures RealPow(10.0, 5) == 100000.0
  {
    assert RealPow(10.0, 2) == 100.0;
  }
}
