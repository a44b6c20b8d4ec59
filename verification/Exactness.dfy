/** Without rounding the enclosure of a graph that names each variable once is just the set of its
    values, and then the verdict is just their sign. */
module Exactness {
  import X = ExtReal
  import opened ExtReal
  import I = Interval
  import opened Interval
  import A = Ast
  import opened Ast
  import opened Holes
  import opened Enclosure
  import opened Options
  import opened Reals
  import R = Ranges
  import P = PowerRanges
  import opened Verifier

  // ----- operators -----

  /** The operator's enclosure has no more than its operands' values: division not by zero, powers that
      are tight, and nothing that is only approached. */
  ghost predicate OpTight(f: Fpu, op: Op, a: seq<Ival>)
    requires |a| >= Arity(op)
  {
    match op
    case Mul => !MulLossy(a[0], a[1])
    case Div =>
      !HoldsZero(a[1]) && !DivLossy(a[0], a[1]) && (Contains(Divi(f, a[0], a[1]), 0.0) ==> Contains(a[0], 0.0))
    case Pow =>
      && a[1].lo == a[1].hi && Integral(a[1].lo)
      && (var n := a[1].lo.r.Floor;
          && !PowLossy(a[0], n) && P.PowerTight(a[0], n)
          && (n < 0 ==> !Contains(IPow(f, a[0], n), 0.0)))
    case Exp => a[0].lo.Fin?
    case Sin => false
    case Cos => false
    case Tan => false
    case _ => true
  }

  lemma PairOnto(f: Fpu, root: (real, nat) -> real, op: Op, a: Ival, b: Ival, v: real) returns (x: real, y: real)
    requires Exact(f) && R.Genuine(f, root) && Proper(a) && Proper(b) && Arity(op) == 2 && OpTight(f, op, [a, b])
    requires Contains(ApplyOp(f, op, [a, b]), v)
    ensures Contains(a, x) && Contains(b, y) && OpValue(f, op, [x, y]) == Some(v)
  {
    hide R.Genuine;
    hide Contains;
    hide Proper;
    hide Exact;
    hide Prod;
    hide Quot;
    match op
    case Add =>
      R.AddRange(f, a, b, v);
      x, y :| Contains(a, x) && Contains(b, y) && v == x + y;
    case Sub =>
      R.SubRange(f, a, b, v);
      x, y :| Contains(a, x) && Contains(b, y) && v == x - y;
    case Mul =>
      R.MulRange(f, a, b, v);
      x, y :| Contains(a, x) && Contains(b, y) && v == Prod(x, y);
    case Div =>
      R.DivRange(f, a, b, v);
      x, y :| Contains(a, x) && Contains(b, y) && y != 0.0 && v == Quot(x, y);
    case Pow =>
      x, y := PowerOnto(f, root, a, b, v);
  }

  lemma PowerOnto(f: Fpu, root: (real, nat) -> real, a: Ival, b: Ival, v: real) returns (x: real, y: real)
    requires Exact(f) && R.Genuine(f, root) && Proper(a) && Proper(b) && OpTight(f, Pow, [a, b])
    requires Contains(ApplyOp(f, Pow, [a, b]), v)
    ensures Contains(a, x) && Contains(b, y) && OpValue(f, Pow, [x, y]) == Some(v)
  {
    hide R.Genuine;
    hide IPow;
    hide IntPow;
    hide PowDefined;
    hide PowLossy;
    hide P.PowerTight;
    y := b.lo.r;
    x := P.IPowOnto(f, root, a, y.Floor, v);
  }

  lemma OneOnto(f: Fpu, root: (real, nat) -> real, op: Op, a: Ival, v: real) returns (x: real)
    requires Exact(f) && Sound(f) && R.Genuine(f, root) && Proper(a) && Arity(op) == 1 && OpTight(f, op, [a])
    requires Contains(ApplyOp(f, op, [a]), v)
    ensures Contains(a, x) && OpValue(f, op, [x]) == Some(v)
  {
    match op
    case Neg =>
      R.NegRange(a, v);
      x :| Contains(a, x) && v == -x;
    case Sqrt =>
      R.SqrtRange(f, root, a, v);
      x :| Contains(a, x) && x >= 0.0 && v == f.sqrt(x);
    case Log =>
      R.LogRange(f, root, a, v);
      x :| Contains(a, x) && x > 0.0 && v == f.log(x);
    case Exp =>
      assert f.exp(a.lo.r) > 0.0;
      R.ExpRange(f, root, a, v);
      x :| Contains(a, x) && v == f.exp(x);
  }

  // ----- graphs -----

  /** The relation of no hole at all. */
  const NOTHING: HoleRel := (id, xs, v) => false

  function Worldly(env: string -> real): World { World(env, NOTHING) }

  predicate Selects(fn: CallFn,
                    n: nat) { (fn == MaxFn && n == 2) || (fn == MinFn && n == 2) || (fn == AbsFn && n == 1) }

  /** Each variable stands once, every enclosure holds a number, and every operator is tight. */
  ghost predicate Tight(f: Fpu, n: Node, box: Box, ht: HoleTable)
    requires WellFormed(n)
    decreases n, 1
  {
    && Proper(Encl(f, n, box, ht))
    && match n
       case Const(_) => true
       case Var(_, _) => true
       case Oper(op, args) =>
         |args| == Arity(op) && AllTight(f, args, box, ht) && OpTight(f, op, EnclAll(f, args, box, ht))
       case Call(fn, args) => Selects(fn, |args|) && AllTight(f, args, box, ht)
       case Hole(_, _, _, _) => false
       case Disj(_) => false
  }

  ghost predicate AllTight(f: Fpu, ns: seq<Node>, box: Box, ht: HoleTable)
    requires AllWellFormed(ns)
    decreases ns, 0
  {
    && (forall i :: 0 <= i < |ns| ==> Tight(f, ns[i], box, ht))
    && forall i, j :: 0 <= i < j < |ns| ==> Vars(ns[i]) !! Vars(ns[j])
  }

  ghost predicate BoxProper(box: Box) { forall s :: s in box ==> Proper(box[s]) }

  /** A value depends on nothing but the variables below. */
  lemma {:induction false} SameValue(f: Fpu, box: Box, ht: HoleTable, n: Node, e1: string -> real, e2: string -> real,
                                     v: real)
    requires WellFormed(n) && (forall s :: s in Vars(n) ==> e1(s) == e2(s))
    requires Value(f, Worldly(e1), box, ht, n, v)
    ensures Value(f, Worldly(e2), box, ht, n, v)
    decreases n, 1
  {
    match n
    case Const(_) =>
    case Var(_, _) =>
    case Oper(op, args) =>
      var xs: seq<real> :| Values(f, Worldly(e1), box, ht, args, xs) && OpValue(f, op, xs) == Some(v);
      SameValues(f, box, ht, args, e1, e2, xs);
    case Call(fn, args) =>
      var xs: seq<real> :| Values(f, Worldly(e1), box, ht, args, xs) && CallValue(fn, xs) == Some(v);
      SameValues(f, box, ht, args, e1, e2, xs);
    case Hole(_, _, _, _) =>
    case Disj(cands) =>
      var i :| 0 <= i < |cands| && Value(f, Worldly(e1), box, ht, cands[i], v);
      SameValue(f, box, ht, cands[i], e1, e2, v);
  }

  lemma SameValues(f: Fpu, box: Box, ht: HoleTable, ns: seq<Node>, e1: string -> real, e2: string -> real,
                   xs: seq<real>)
    requires AllWellFormed(ns) && (forall s :: s in VarsAll(ns) ==> e1(s) == e2(s))
    requires Values(f, Worldly(e1), box, ht, ns, xs)
    ensures Values(f, Worldly(e2), box, ht, ns, xs)
    decreases ns, 0
  {
    forall i | 0 <= i < |ns|
      ensures Value(f, Worldly(e2), box, ht, ns[i], xs[i])
    {
      SameValue(f, box, ht, ns[i], e1, e2, xs[i]);
    }
  }

  /** Operands that share no variable take their values together. */
  lemma Together(f: Fpu, box: Box, ht: HoleTable, l: Node, r: Node, e1: string -> real, e2: string -> real,
                 x: real, y: real) returns (env: string -> real)
    requires WellFormed(l) && WellFormed(r) && Vars(l) !! Vars(r)
    requires InBox(Worldly(e1), box) && InBox(Worldly(e2), box)
    requires Value(f, Worldly(e1), box, ht, l, x) && Value(f, Worldly(e2), box, ht, r, y)
    ensures InBox(Worldly(env), box)
    ensures Value(f, Worldly(env), box, ht, l, x) && Value(f, Worldly(env), box, ht, r, y)
  {
    env := s => if s in Vars(l) then e1(s) else e2(s);
    SameValue(f, box, ht, l, e1, env, x);
    SameValue(f, box, ht, r, e2, env, y);
  }

  /** Some assignment in the box, with any number in a variable's range for that variable. */
  lemma Assigned(box: Box, s: string, v: real) returns (env: string -> real)
    requires BoxProper(box) && (s in box ==> Contains(box[s], v))
    ensures InBox(Worldly(env), box) && env(s) == v
  {
    env := t => if t == s then v else if t in box && Proper(box[t]) then R.Nearest(box[t], 0.0) else 0.0;
  }

  /** Every number that the enclosure holds is a value. */
  lemma {:induction false} Attained(f: Fpu, root: (real, nat) -> real, n: Node, box: Box, ht: HoleTable, v: real)
    returns (env: string -> real)
    requires Exact(f) && Sound(f) && R.Genuine(f, root) && BoxProper(box) && WellFormed(n)
    requires Tight(f, n, box, ht) && Contains(Encl(f, n, box, ht), v)
    ensures InBox(Worldly(env), box) && Value(f, Worldly(env), box, ht, n, v)
    decreases n, 1
  {
    match n
    case Const(_) => env := Assigned(box, "", if "" in box then R.Nearest(box[""], 0.0) else 0.0);
    case Var(s, _) => env := Assigned(box, s, v);
    case Oper(op, args) =>
      if Arity(op) == 2 {
        env := PairAttained(f, root, op, args, box, ht, v);
      } else {
        env := OneAttained(f, root, op, args, box, ht, v);
      }
    case Call(fn, args) => env := CallAttained(f, root, fn, args, box, ht, v);
  }

  lemma PairAttained(f: Fpu, root: (real, nat) -> real, op: Op, args: seq<Node>, box: Box, ht: HoleTable, v: real)
    returns (env: string -> real)
    requires Exact(f) && Sound(f) && R.Genuine(f, root) && BoxProper(box) && WellFormed(Oper(op, args))
    requires Arity(op) == 2 && Tight(f, Oper(op, args), box, ht) && Contains(Encl(f, Oper(op, args), box, ht), v)
    ensures InBox(Worldly(env), box) && Value(f, Worldly(env), box, ht, Oper(op, args), v)
    decreases args, 0
  {
    var (l, r) := (args[0], args[1]);
    var (a, b) := (Encl(f, l, box, ht), Encl(f, r, box, ht));
    assert args == [l, r] && EnclAll(f, args, box, ht) == [a, b];
    assert Tight(f, l, box, ht) && Tight(f, r, box, ht) && Proper(a) && Proper(b);
    hide R.Genuine;
    hide Sound;
    hide Encl;
    hide OpTight;
    hide ApplyOp;
    var x, y := PairOnto(f, root, op, a, b, v);
    var e1 := Attained(f, root, l, box, ht, x);
    var e2 := Attained(f, root, r, box, ht, y);
    env := Together(f, box, ht, l, r, e1, e2, x, y);
    OperValue(f, Worldly(env), box, ht, op, l, r, x, y, v);
  }

  lemma OneAttained(f: Fpu, root: (real, nat) -> real, op: Op, args: seq<Node>, box: Box, ht: HoleTable, v: real)
    returns (env: string -> real)
    requires Exact(f) && Sound(f) && R.Genuine(f, root) && BoxProper(box) && WellFormed(Oper(op, args))
    requires Arity(op) == 1 && Tight(f, Oper(op, args), box, ht) && Contains(Encl(f, Oper(op, args), box, ht), v)
    ensures InBox(Worldly(env), box) && Value(f, Worldly(env), box, ht, Oper(op, args), v)
    decreases args, 0
  {
    var l := args[0];
    var a := Encl(f, l, box, ht);
    assert args == [l] && EnclAll(f, args, box, ht) == [a];
    assert Tight(f, l, box, ht) && Proper(a);
    hide R.Genuine;
    hide Sound;
    hide Encl;
    hide OpTight;
    hide ApplyOp;
    var x := OneOnto(f, root, op, a, v);
    env := Attained(f, root, l, box, ht, x);
    UnaryValue(f, Worldly(env), box, ht, op, l, x, v);
  }

  lemma SelectOnto(fn: CallFn, a: Ival, b: Ival, v: real) returns (x: real, y: real)
    requires Selects(fn, 2) && Proper(a) && Proper(b) && Contains(CallEncl(fn, [a, b]), v)
    ensures Contains(a, x) && Contains(b, y) && CallValue(fn, [x, y]) == Some(v)
  {
    hide Contains;
    hide Proper;
    if fn == MaxFn {
      R.MaxRange(a, b, v);
      x, y :| Contains(a, x) && Contains(b, y) && v == Max(x, y);
    } else {
      R.MinRange(a, b, v);
      x, y :| Contains(a, x) && Contains(b, y) && v == Min(x, y);
    }
  }

  lemma CallAttained(f: Fpu, root: (real, nat) -> real, fn: CallFn, args: seq<Node>, box: Box, ht: HoleTable, v: real)
    returns (env: string -> real)
    requires Exact(f) && Sound(f) && R.Genuine(f, root) && BoxProper(box) && WellFormed(Call(fn, args))
    requires Tight(f, Call(fn, args), box, ht) && Contains(Encl(f, Call(fn, args), box, ht), v)
    ensures InBox(Worldly(env), box) && Value(f, Worldly(env), box, ht, Call(fn, args), v)
    decreases args, 0
  {
    var l := args[0];
    var a := Encl(f, l, box, ht);
    assert Tight(f, l, box, ht) && Proper(a);
    if fn == AbsFn {
      assert args == [l] && EnclAll(f, args, box, ht) == [a];
      hide R.Genuine;
      hide Sound;
      hide Encl;
      R.AbsRange(a, v);
      var x :| Contains(a, x) && v == AbsOf(x);
      env := Attained(f, root, l, box, ht, x);
      assert Values(f, Worldly(env), box, ht, args, [x]) && CallValue(fn, [x]) == Some(v);
    } else {
      var r := args[1];
      var b := Encl(f, r, box, ht);
      assert args == [l, r] && EnclAll(f, args, box, ht) == [a, b];
      assert Tight(f, r, box, ht) && Proper(b);
      hide R.Genuine;
      hide Sound;
      hide Encl;
      hide CallEncl;
      var x, y := SelectOnto(fn, a, b, v);
      var e1 := Attained(f, root, l, box, ht, x);
      var e2 := Attained(f, root, r, box, ht, y);
      env := Together(f, box, ht, l, r, e1, e2, x, y);
      FunctionValue(f, Worldly(env), box, ht, fn, l, r, x, y, v);
    }
  }

  lemma {:induction false} TightFaithful(f: Fpu, n: Node, box: Box, ht: HoleTable)
    requires Exact(f) && WellFormed(n) && Tight(f, n, box, ht)
    ensures Faithful(f, n, box, ht)
    decreases n
  {
    hide Encl;
    hide MulLossy;
    hide DivLossy;
    hide PowLossy;
    match n
    case Const(_) =>
    case Var(_, _) =>
    case Oper(op, args) =>
      forall i | 0 <= i < |args| ensures Faithful(f, args[i], box, ht) { TightFaithful(f, args[i], box, ht); }
    case Call(_, args) =>
      forall i | 0 <= i < |args| ensures Faithful(f, args[i], box, ht) { TightFaithful(f, args[i], box, ht); }
    case Hole(_, _, _, _) =>
    case Disj(_) =>
  }

  /** v is a value of the graph for some assignment in the box. */
  ghost predicate Taken(f: Fpu, n: Node, box: Box, ht: HoleTable, v: real)
    requires WellFormed(n)
  {
    exists env :: InBox(Worldly(env), box) && Value(f, Worldly(env), box, ht, n, v)
  }

  /** The enclosure of a tight graph is exactly the set of its values over the box. */
  lemma EnclosureExactly(f: Fpu, root: (real, nat) -> real, n: Node, box: Box, ht: HoleTable, v: real)
    requires Exact(f) && Sound(f) && R.Genuine(f, root) && BoxProper(box) && WellFormed(n) && Tight(f, n, box, ht)
    ensures Contains(Encl(f, n, box, ht), v) <==> Taken(f, n, box, ht, v)
  {
    hide Tight;
    hide Encl;
    hide Value;
    hide Contains;
    hide R.Genuine;
    if Contains(Encl(f, n, box, ht), v) {
      var env := Attained(f, root, n, box, ht, v);
    }
    if env :| InBox(Worldly(env), box) && Value(f, Worldly(env), box, ht, n, v) {
      TightFaithful(f, n, box, ht);
      Fundamental(f, Worldly(env), box, ht, n, v);
    }
  }

  lemma {:induction false} NoHoleNoResidual(f: Fpu, n: Node, box: Box, ht: HoleTable, acc: XR)
    requires WellFormed(n) && Tight(f, n, box, ht)
    ensures ResidualFrom(f, n, box, ht, acc) == acc
    decreases n, 1
  {
    hide Encl;
    match n
    case Const(_) =>
    case Var(_, _) =>
    case Oper(_, args) => NoHolesNoResidual(f, args, box, ht, acc);
    case Call(_, args) => NoHolesNoResidual(f, args, box, ht, acc);
    case Hole(_, _, _, _) =>
    case Disj(_) =>
  }

  lemma {:induction false} NoHolesNoResidual(f: Fpu, ns: seq<Node>, box: Box, ht: HoleTable, acc: XR)
    requires AllWellFormed(ns) && forall i :: 0 <= i < |ns| ==> Tight(f, ns[i], box, ht)
    ensures ResidualAll(f, ns, box, ht, acc) == acc
    decreases ns, 0
  {
    hide Encl;
    if |ns| > 0 {
      NoHolesNoResidual(f, ns[..|ns| - 1], box, ht, acc);
      NoHoleNoResidual(f, ns[|ns| - 1], box, ht, acc);
    }
  }

  /** On a tight graph with a finite enclosure the verdict misses nothing: SAFE when every value lies
      above the slack, FAIL when every value lies below its negative, ABSTAIN when neither is so. */
  lemma VerdictExactly(f: Fpu, root: (real, nat) -> real, p: Program)
    requires Exact(f) && Sound(f) && R.Genuine(f, root) && BoxProper(p.box) && WellFormed(p.root)
    requires Tight(f, p.root, p.box, p.holes) && Finite(Encl(f, p.root, p.box, p.holes))
    requires p.ks.Fin? && p.ks.r >= 0.0
    ensures DecideEval(Evaluated(f, p)) == Safe <==> forall v :: Taken(f, p.root, p.box, p.holes, v) ==> v > p.ks.r
    ensures DecideEval(Evaluated(f, p)) == Fail <==> forall v :: Taken(f, p.root, p.box, p.holes, v) ==> v < -p.ks.r
  {
    var e := Encl(f, p.root, p.box, p.holes);
    assert Proper(e);
    NoHoleNoResidual(f, p.root, p.box, p.holes, ZERO);
    var r := Evaluated(f, p);
    assert r.ms == e && r.residual == p.ks;
    forall v ensures Contains(e, v) <==> Taken(f, p.root, p.box, p.holes, v) {
      EnclosureExactly(f, root, p.root, p.box, p.holes, v);
    }
    hide *;
    VerdictOfEnds(r, p.ks.r);
    EndsSettle(e, p.ks.r);
  }

  lemma VerdictOfEnds(r: EvalResult, k: real)
    requires Finite(r.ms) && Proper(r.ms) && r.residual == Fin(k) && k >= 0.0
    ensures DecideEval(r) == Safe <==> r.ms.lo.r > k
    ensures DecideEval(r) == Fail <==> r.ms.hi.r < -k
  {
  }

  lemma EndsSettle(e: Ival, k: real)
    requires Finite(e) && Proper(e)
    ensures e.lo.r > k <==> forall v :: Contains(e, v) ==> v > k
    ensures e.hi.r < -k <==> forall v :: Contains(e, v) ==> v < -k
  {
    assert Contains(e, e.lo.r) && Contains(e, e.hi.r);
  }

  lemma DifferenceEnclosure(f: Fpu, ht: HoleTable)
    requires Exact(f)
    ensures WellFormed(DIFFERENCE) && Encl(f, DIFFERENCE, map["x" := UNIT_SPAN], ht) == SPAN
  {
    assert EnclAll(f, [X_VAR, X_VAR], map["x" := UNIT_SPAN], ht) == [UNIT_SPAN, UNIT_SPAN];
  }

  lemma DifferenceValue(f: Fpu, w: World, box: Box, ht: HoleTable, v: real)
    requires Value(f, w, box, ht, DIFFERENCE, v)
    ensures v == 0.0
  {
    var xs: seq<real> :| Values(f, w, box, ht, [X_VAR, X_VAR], xs) && OpValue(f, A.Sub, xs) == Some(v);
    assert Value(f, w, box, ht, [X_VAR, X_VAR][0], xs[0]) && Value(f, w, box, ht, [X_VAR, X_VAR][1], xs[1]);
  }

  const DIFFERENCE: Node := Oper(A.Sub, [X_VAR, X_VAR])

  /** x - x over x in [0, 1]: its enclosure is [-1, 1] and its only value zero. */
  lemma TwiceLoose(f: Fpu, ht: HoleTable, v: real)
    requires Exact(f)
    ensures WellFormed(DIFFERENCE) && Encl(f, DIFFERENCE, map["x" := UNIT_SPAN], ht) == SPAN
    ensures Taken(f, DIFFERENCE, map["x" := UNIT_SPAN], ht, v) ==> v == 0.0
  {
    hide Value;
    hide Encl;
    hide DIFFERENCE;
    var box: Box := map["x" := UNIT_SPAN];
    DifferenceEnclosure(f, ht);
    if env :| InBox(Worldly(env), box) && Value(f, Worldly(env), box, ht, DIFFERENCE, v) {
      DifferenceValue(f, Worldly(env), box, ht, v);
    }
  }
}
