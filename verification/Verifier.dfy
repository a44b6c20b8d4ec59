/** The three-valued decision, and what it is worth. */
module Verifier {
  import X = ExtReal
  import opened ExtReal
  import opened Interval
  import A = Ast
  import opened Ast
  import opened Holes
  import opened Enclosure
  import opened Options

  datatype Verdict = Safe | Fail | Abstain

  predicate IsInf(x: XR) { x == NegInf || x == PosInf }

  function Decide(lo: XR, hi: XR, residual: XR): Verdict {
    if lo.NaN? || hi.NaN? then Abstain
    else if IsInf(lo) || IsInf(hi) then Abstain
    else if Lt(residual, ZERO) then Abstain
    else if Lt(ZERO, X.Sub(lo, residual)) then Safe
    else if Lt(X.Add(hi, residual), ZERO) then Fail
    else Abstain
  }

  function DecideEval(r: EvalResult): Verdict {
    if IsEmpty(r.ms) || IsEntire(r.ms) then Abstain else Decide(r.ms.lo, r.ms.hi, r.residual)
  }

  /** A verdict on a faithful evaluation settles the sign of every value over the box. */
  lemma VerdictSound(f: Fpu, w: World, p: Program, v: real)
    requires Sound(f) && WellFormed(p.root) && InBox(w, p.box) && WrappersSound(p.holes, w.hv)
    requires Faithful(f, p.root, p.box, p.holes) && Value(f, w, p.box, p.holes, p.root, v)
    ensures DecideEval(Evaluated(f, p)) == Safe ==> v > 0.0
    ensures DecideEval(Evaluated(f, p)) == Fail ==> v < 0.0
  {
    hide Encl;
    hide ResidualFrom;
    hide TraceOf;
    Fundamental(f, w, p.box, p.holes, p.root, v);
  }

  /** The decision, exactly: finite ends further from zero than a residual that is no negative number. */
  lemma DecideExactly(lo: XR, hi: XR, residual: XR)
    ensures var settled := lo.Fin? && hi.Fin? && residual.Fin? && residual.r >= 0.0;
      && (Decide(lo, hi, residual) == Safe <==> settled && lo.r > residual.r)
      && (Decide(lo, hi, residual) == Fail <==> settled && lo.r <= residual.r && hi.r < -residual.r)
  {
  }

  lemma PositiveDecides(r: EvalResult)
    requires Finite(r.ms) && 0.0 < r.ms.lo.r <= r.ms.hi.r && r.residual == ZERO
    ensures DecideEval(r) == Safe
  {
  }

  lemma EvaluatedParts(f: Fpu, p: Program)
    requires WellFormed(p.root) && ResidualFrom(f, p.root, p.box, p.holes, ZERO) == ZERO && p.ks == ZERO
    ensures Evaluated(f, p).ms == Encl(f, p.root, p.box, p.holes) && Evaluated(f, p).residual == ZERO
  {
    hide Encl;
    hide TraceOf;
    hide ResidualFrom;
    hide WellFormed;
  }

  /** A finite enclosure above zero, without residual and slack, is Safe. */
  lemma PositiveIsSafe(f: Fpu, p: Program)
    requires WellFormed(p.root) && ResidualFrom(f, p.root, p.box, p.holes, ZERO) == ZERO && p.ks == ZERO
    requires var a := Encl(f, p.root, p.box, p.holes); Finite(a) && 0.0 < a.lo.r <= a.hi.r
    ensures DecideEval(Evaluated(f, p)) == Safe
  {
    hide *;
    EvaluatedParts(f, p);
    PositiveDecides(Evaluated(f, p));
  }

  // ----- an opaque part without bounds always forces the verifier to abstain -----

  /** Below n sits a hole that nothing bounds. */
  predicate HasOpenHole(n: Node, ht: HoleTable)
    decreases n, 1
  {
    match n
    case Const(_) => false
    case Var(_, _) => false
    case Oper(_, args) => SomeOpenHole(args, ht)
    case Call(_, args) => SomeOpenHole(args, ht)
    case Hole(id, phys, _, args) => (id !in ht.wrappers && IsEntire(PhysOf(ht, id, phys))) || SomeOpenHole(args, ht)
    case Disj(cands) => SomeOpenHole(cands, ht)
  }

  predicate SomeOpenHole(ns: seq<Node>, ht: HoleTable)
    decreases ns, 0
  {
    exists i :: 0 <= i < |ns| && HasOpenHole(ns[i], ht)
  }

  /** A residual from which no later addition leads back to a finite number. */
  predicate Unbounded(x: XR) { x == PosInf || x == NaN }

  lemma UnboundedSticks(x: XR, y: XR)
    requires Unbounded(x) || Unbounded(y)
    ensures Unbounded(X.Add(x, y))
  {
  }

  lemma {:induction false} ResidualKeeps(f: Fpu, n: Node, box: Box, ht: HoleTable, acc: XR)
    requires WellFormed(n) && (Unbounded(acc) || HasOpenHole(n, ht))
    ensures Unbounded(ResidualFrom(f, n, box, ht, acc))
    decreases n, 1
  {
    match n
    case Const(_) =>
    case Var(_, _) =>
    case Oper(_, args) => ResidualAllKeeps(f, args, box, ht, acc);
    case Call(_, args) => ResidualAllKeeps(f, args, box, ht, acc);
    case Hole(id, phys, _, args) =>
      if Unbounded(acc) || SomeOpenHole(args, ht) { ResidualAllKeeps(f, args, box, ht, acc); }
      UnboundedSticks(ResidualAll(f, args, box, ht, acc),
                      HoleEval(f, ht, id, phys, EnclAll(f, args, box, ht)).residual);
    case Disj(cands) => ResidualAllKeeps(f, cands, box, ht, acc);
  }

  lemma {:induction false} ResidualAllKeeps(f: Fpu, ns: seq<Node>, box: Box, ht: HoleTable, acc: XR)
    requires AllWellFormed(ns) && (Unbounded(acc) || SomeOpenHole(ns, ht))
    ensures Unbounded(ResidualAll(f, ns, box, ht, acc))
    decreases ns, 0
  {
    if ns != [] {
      var front, last := ns[..|ns| - 1], ns[|ns| - 1];
      if Unbounded(acc) || SomeOpenHole(front, ht) { ResidualAllKeeps(f, front, box, ht, acc); }
      ResidualKeeps(f, last, box, ht, ResidualAll(f, front, box, ht, acc));
    }
  }

  /** One unbounded hole anywhere forces Abstain, whatever the slack ks. */
  lemma OpenHoleAbstains(f: Fpu, p: Program)
    requires WellFormed(p.root) && HasOpenHole(p.root, p.holes)
    ensures DecideEval(Evaluated(f, p)) == Abstain
  {
    ResidualKeeps(f, p.root, p.box, p.holes, ZERO);
    UnboundedSticks(ResidualFrom(f, p.root, p.box, p.holes, ZERO), p.ks);
  }

  // ----- without the guard the verdict can be wrong -----

  const SPAN: Ival := Ival(Fin(-1.0), Fin(1.0))

  const UNIT_SPAN: Ival := Ival(ZERO, Fin(1.0))

  const X_VAR: Node := A.Var("x", ENTIRE)
  const Y_VAR: Node := A.Var("y", ENTIRE)
  const INVERSE: Node := Oper(A.Div, [Const(1.0), Y_VAR])
  const SCALED: Node := Oper(A.Mul, [X_VAR, INVERSE])
  const MARGIN: Node := Call(MinFn, [Const(5.0), SCALED])

  const NO_HOLES: HoleTable := HoleTable(map[], map[])

  const SPANS: Box := map["x" := UNIT_SPAN, "y" := SPAN]

  /** min(5, x * (1 / y)) over x in [0, 1] and y in [-1, 1], with no hole and no slack. */
  const UNGUARDED: Program := Program(MARGIN, SPANS, NO_HOLES, ZERO)

  lemma MarginWellFormed()
    ensures WellFormed(MARGIN) && WellFormed(SCALED) && WellFormed(INVERSE)
  {
    assert WellFormed(INVERSE);
    assert WellFormed(SCALED);
  }

  /** Every enclosure on the way to the verdict: the whole line, NaN, and then [5, 5]. */
  lemma MarginEnclosure(f: Fpu)
    requires Exact(f)
    ensures WellFormed(MARGIN) && Encl(f, MARGIN, SPANS, NO_HOLES) == Point(Fin(5.0))
  {
    MarginWellFormed();
    assert EnclAll(f, [Const(1.0), Y_VAR], SPANS, NO_HOLES) == [Point(Fin(1.0)), SPAN];
    assert Encl(f, INVERSE, SPANS, NO_HOLES) == ENTIRE;
    assert EnclAll(f, [X_VAR, INVERSE], SPANS, NO_HOLES) == [UNIT_SPAN, ENTIRE];
    var product := Encl(f, SCALED, SPANS, NO_HOLES);
    assert product == Ival(NaN, NaN);
    assert EnclAll(f, [Const(5.0), SCALED], SPANS, NO_HOLES) == [Point(Fin(5.0)), product];
  }

  lemma MarginResidual(f: Fpu)
    ensures WellFormed(MARGIN) && ResidualFrom(f, MARGIN, SPANS, NO_HOLES, ZERO) == ZERO
  {
    MarginWellFormed();
    NoResidual(f, [Const(1.0), Y_VAR], SPANS, NO_HOLES);
    NoResidual(f, [X_VAR, INVERSE], SPANS, NO_HOLES);
    NoResidual(f, [Const(5.0), SCALED], SPANS, NO_HOLES);
  }

  lemma NoResidual(f: Fpu, ns: seq<Node>, box: Box, ht: HoleTable)
    requires |ns| == 2 && AllWellFormed(ns)
    requires ResidualFrom(f, ns[0], box, ht, ZERO) == ZERO && ResidualFrom(f, ns[1], box, ht, ZERO) == ZERO
    ensures ResidualAll(f, ns, box, ht, ZERO) == ZERO
  {
    assert ns[..1][..0] == [];
    assert ResidualAll(f, ns[..1], box, ht, ZERO) == ZERO;
  }

  const CORNER: World := World(s => if s == "x" then 1.0 else -0.01, (id, xs, v) => true)

  /** At x = 1, y = -0.01 the margin is -100. */
  lemma MarginValue(f: Fpu)
    ensures WellFormed(MARGIN) && Value(f, CORNER, SPANS, NO_HOLES, MARGIN, -100.0)
  {
    MarginWellFormed();
    assert OpValue(f, A.Div, [1.0, -0.01]) == Some(-100.0);
    assert OpValue(f, A.Mul, [1.0, -100.0]) == Some(-100.0);
    OperValue(f, CORNER, SPANS, NO_HOLES, A.Div, Const(1.0), Y_VAR, 1.0, -0.01, -100.0);
    OperValue(f, CORNER, SPANS, NO_HOLES, A.Mul, X_VAR, INVERSE, 1.0, -100.0, -100.0);
    FunctionValue(f, CORNER, SPANS, NO_HOLES, MinFn, Const(5.0), SCALED, 5.0, -100.0, -100.0);
  }

  lemma MarginUnfaithful(f: Fpu)
    requires Exact(f)
    ensures WellFormed(MARGIN) && !Faithful(f, MARGIN, SPANS, NO_HOLES)
  {
    MarginWellFormed();
    assert EnclAll(f, [Const(1.0), Y_VAR], SPANS, NO_HOLES) == [Point(Fin(1.0)), SPAN];
    assert Encl(f, INVERSE, SPANS, NO_HOLES) == ENTIRE;
    assert EnclAll(f, [X_VAR, INVERSE], SPANS, NO_HOLES) == [UNIT_SPAN, ENTIRE];
    assert !Faithful(f, SCALED, SPANS, NO_HOLES);
    assert [Const(5.0), SCALED][1] == SCALED;
  }

  lemma MarginInBox()
    ensures InBox(CORNER, SPANS) && WrappersSound(NO_HOLES, CORNER.hv)
  {
  }

  /** Zero times the whole line is NaN and min keeps its first argument: the verdict is Safe
      although the margin reaches -100 inside the box. */
  lemma FalseSafe(f: Fpu)
    requires Exact(f)
    ensures WellFormed(UNGUARDED.root) && DecideEval(Evaluated(f, UNGUARDED)) == Safe
    ensures InBox(CORNER, UNGUARDED.box) && WrappersSound(UNGUARDED.holes, CORNER.hv)
    ensures Value(f, CORNER, UNGUARDED.box, UNGUARDED.holes, UNGUARDED.root, -100.0)
    ensures !Faithful(f, UNGUARDED.root, UNGUARDED.box, UNGUARDED.holes)
  {
    MarginEnclosure(f);
    MarginResidual(f);
    hide Encl;
    hide ResidualFrom;
    hide WellFormed;
    hide Evaluated;
    hide DecideEval;
    PositiveIsSafe(f, UNGUARDED);
    MarginInBox();
    MarginValue(f);
    MarginUnfaithful(f);
  }

  // ----- exponents that are no constant -----

  const POWER: Node := Oper(A.Pow, [X_VAR, Y_VAR])

  const POWER_MARGIN: Node := Oper(A.Sub, [Const(5.0), POWER])

  const POWER_BOX: Box := map["x" := Point(Fin(2.0)), "y" := Ival(Fin(2.0), Fin(3.0))]

  /** 5 - x ^ y over x = 2 and y in [2, 3]. */
  const POWER_PROGRAM: Program := Program(POWER_MARGIN, POWER_BOX, NO_HOLES, ZERO)

  const POWER_CORNER: World := World(s => if s == "x" then 2.0 else 3.0, (id, xs, v) => true)

  lemma PowerWellFormed()
    ensures WellFormed(POWER_MARGIN) && WellFormed(POWER)
  {
    assert WellFormed(POWER);
  }

  lemma PowerEnclosure(f: Fpu)
    requires Exact(f)
    ensures WellFormed(POWER_MARGIN) && Encl(f, POWER_MARGIN, POWER_BOX, NO_HOLES) == Point(Fin(1.0))
  {
    PowerWellFormed();
    PointPower(f, 2.0, 2);
    assert IntPow(2.0, 2) == 4.0;
    hide IPow;
    assert EnclAll(f, [X_VAR, Y_VAR], POWER_BOX, NO_HOLES) == [Point(Fin(2.0)), Ival(Fin(2.0), Fin(3.0))];
    assert Encl(f, POWER, POWER_BOX, NO_HOLES) == Point(Fin(4.0));
    assert EnclAll(f, [Const(5.0), POWER], POWER_BOX, NO_HOLES) == [Point(Fin(5.0)), Point(Fin(4.0))];
  }

  lemma PowerResidual(f: Fpu)
    ensures WellFormed(POWER_MARGIN) && ResidualFrom(f, POWER_MARGIN, POWER_BOX, NO_HOLES, ZERO) == ZERO
  {
    PowerWellFormed();
    NoResidual(f, [X_VAR, Y_VAR], POWER_BOX, NO_HOLES);
    NoResidual(f, [Const(5.0), POWER], POWER_BOX, NO_HOLES);
  }

  lemma PowerValue(f: Fpu)
    ensures WellFormed(POWER_MARGIN) && Value(f, POWER_CORNER, POWER_BOX, NO_HOLES, POWER_MARGIN, -3.0)
    ensures InBox(POWER_CORNER, POWER_BOX)
  {
    PowerWellFormed();
    assert RealPow(2.0, 1) == 2.0 && RealPow(2.0, 2) == 4.0 && IntPow(2.0, 3) == 8.0;
    OperValue(f, POWER_CORNER, POWER_BOX, NO_HOLES, A.Pow, X_VAR, Y_VAR, 2.0, 3.0, 8.0);
    OperValue(f, POWER_CORNER, POWER_BOX, NO_HOLES, A.Sub, Const(5.0), POWER, 5.0, 8.0, -3.0);
  }

  /** The enclosure takes the exponent for its lower end: the verdict is Safe although the margin
      is -3 at y = 3. */
  lemma ExponentFalseSafe(f: Fpu)
    requires Exact(f)
    ensures WellFormed(POWER_PROGRAM.root) && DecideEval(Evaluated(f, POWER_PROGRAM)) == Safe
    ensures InBox(POWER_CORNER, POWER_PROGRAM.box)
    ensures Value(f, POWER_CORNER, POWER_PROGRAM.box, POWER_PROGRAM.holes, POWER_PROGRAM.root, -3.0)
  {
    PowerEnclosure(f);
    PowerResidual(f);
    hide Encl;
    hide ResidualFrom;
    hide WellFormed;
    hide Evaluated;
    hide DecideEval;
    PositiveIsSafe(f, POWER_PROGRAM);
    PowerValue(f);
  }
}
