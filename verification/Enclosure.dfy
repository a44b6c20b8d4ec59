/** The expression graph and the values it can take. */
module Ast {
  import opened Interval

  datatype Op = Add | Sub | Mul | Div | Neg | Pow | Sqrt | Log | Exp | Sin | Cos | Tan

  datatype CallFn = MaxFn | MinFn | AbsFn | UnknownFn(name: string)

  datatype Node =
    | Const(val: real)
    | Var(sym: string, phys: Ival)
    | Oper(op: Op, args: seq<Node>)
    | Call(fn: CallFn, args: seq<Node>)
    | Hole(id: string, phys: Ival, regime: char, args: seq<Node>)
    | Disj(cands: seq<Node>)

  function Arity(op: Op): nat {
    match op
    case Add => 2
    case Sub => 2
    case Mul => 2
    case Div => 2
    case Pow => 2
    case _ => 1
  }

  /** Every operator has the operands that its evaluation indexes. */
  predicate WellFormed(n: Node) {
    match n
    case Const(_) => true
    case Var(_, _) => true
    case Oper(op, args) => |args| >= Arity(op) && AllWellFormed(args)
    case Call(_, args) => AllWellFormed(args)
    case Hole(_, _, _, args) => AllWellFormed(args)
    case Disj(cands) => AllWellFormed(cands)
  }

  predicate AllWellFormed(ns: seq<Node>) {
    forall i :: 0 <= i < |ns| ==> WellFormed(ns[i])
  }

  /** The symbols of the variables below n. */
  function Vars(n: Node): set<string> {
    match n
    case Const(_) => {}
    case Var(s, _) => {s}
    case Oper(_, args) => VarsAll(args)
    case Call(_, args) => VarsAll(args)
    case Hole(_, _, _, args) => VarsAll(args)
    case Disj(cands) => VarsAll(cands)
  }

  function VarsAll(ns: seq<Node>): (r: set<string>)
    ensures forall i :: 0 <= i < |ns| ==> Vars(ns[i]) <= r
  {
    if |ns| == 0 then {} else Vars(ns[0]) + VarsAll(ns[1..])
  }
}

/** Opaque sub-expressions: a table of wrappers that bound them, with physical fallbacks. */
module Holes {
  import X = ExtReal
  import opened ExtReal
  import opened Interval

  datatype WrapResult = WrapResult(encl: Ival, residual: XR, refuted: bool)

  type Wrapper = seq<Ival> -> WrapResult

  datatype HoleTable = HoleTable(wrappers: map<string, Wrapper>, phys: map<string, Ival>)

  function HalfWidth(f: Fpu, a: Ival): XR {
    X.Mul(Fin(0.5), Width(f, a))
  }

  function PhysWrap(f: Fpu, phys: Ival): WrapResult {
    WrapResult(phys, if IsEntire(phys) then PosInf else HalfWidth(f, phys), false)
  }

  /** The physical range in force for a hole: the table's entry before the node's own. */
  function PhysOf(ht: HoleTable, id: string, fallback: Ival): Ival {
    if id in ht.phys then ht.phys[id] else fallback
  }

  function HoleEval(f: Fpu, ht: HoleTable, id: string, fallback: Ival, ins: seq<Ival>): WrapResult {
    var ph := PhysOf(ht, id, fallback);
    if id !in ht.wrappers then PhysWrap(f, ph)
    else
      var r := ht.wrappers[id](ins);
      if r.refuted || IsEmpty(r.encl) then PhysWrap(f, ph) else r
  }

  /** The values a hole may take on given arguments. */
  type HoleRel = (string, seq<real>, real) -> bool

  ghost predicate AllContain(ins: seq<Ival>, xs: seq<real>) {
    |ins| == |xs| && forall i :: 0 <= i < |xs| ==> Contains(ins[i], xs[i])
  }

  /** Every wrapper that answers encloses the hole's values on its inputs. */
  ghost predicate WrappersSound(ht: HoleTable, hv: HoleRel) {
    forall id, ins, xs, v :: id in ht.wrappers && AllContain(ins, xs) && hv(id, xs, v) ==>
      var r := ht.wrappers[id](ins);
      r.refuted || IsEmpty(r.encl) || Contains(r.encl, v)
  }

  /** Through its fallbacks the table keeps enclosing the hole's values. */
  lemma HoleEvalSound(f: Fpu, ht: HoleTable, hv: HoleRel, id: string, fallback: Ival,
                      ins: seq<Ival>, xs: seq<real>, v: real)
    requires WrappersSound(ht, hv) && AllContain(ins, xs) && hv(id, xs, v)
    requires Contains(PhysOf(ht, id, fallback), v)
    ensures Contains(HoleEval(f, ht, id, fallback, ins).encl, v)
  {
  }

  function BundleFrom(r: Ival, cands: seq<Ival>): Ival
    decreases cands
  {
    if cands == [] then r else BundleFrom(Hull(r, cands[0]), cands[1..])
  }

  function BundleHull(cands: seq<Ival>): Ival {
    BundleFrom(EMPTY, cands)
  }

  /** The first candidate that is not empty has an endpoint that is no number. */
  predicate LeadTainted(cands: seq<Ival>) {
    |cands| > 0 && if IsEmpty(cands[0]) then LeadTainted(cands[1..]) else Tainted(cands[0])
  }

  predicate Standing(r: Ival) { !IsEmpty(r) && !Tainted(r) }

  /** Once a hull stands on numbers nothing is lost, whatever comes. */
  lemma HullStands(r: Ival, c: Ival, v: real)
    requires Standing(r)
    ensures Standing(Hull(r, c)) && (Contains(r, v) || Contains(c, v) ==> Contains(Hull(r, c), v))
  {
  }

  lemma {:induction false} BundleStands(r: Ival, cands: seq<Ival>, v: real)
    requires Standing(r) && (Contains(r, v) || exists i :: 0 <= i < |cands| && Contains(cands[i], v))
    ensures Contains(BundleFrom(r, cands), v)
    decreases cands
  {
    hide Hull;
    hide Contains;
    hide Standing;
    if |cands| > 0 {
      HullStands(r, cands[0], v);
      if !Contains(r, v) && !Contains(cands[0], v) {
        var i :| 0 <= i < |cands| && Contains(cands[i], v);
        assert cands[1..][i - 1] == cands[i];
      }
      BundleStands(Hull(r, cands[0]), cands[1..], v);
    }
  }

  lemma {:induction false} BundleLeads(r: Ival, cands: seq<Ival>, i: nat, v: real)
    requires IsEmpty(r) && !LeadTainted(cands) && i < |cands| && Contains(cands[i], v)
    ensures Contains(BundleFrom(r, cands), v)
    decreases cands
  {
    if IsEmpty(cands[0]) {
      assert cands[1..][i - 1] == cands[i];
      BundleLeads(cands[0], cands[1..], i - 1, v);
    } else {
      if i > 0 { assert cands[1..][i - 1] == cands[i]; }
      BundleStands(cands[0], cands[1..], v);
    }
  }

  /** Unless it begins with no number the hull holds everything that some candidate holds. */
  lemma BundleSound(cands: seq<Ival>, i: nat, v: real)
    requires !LeadTainted(cands) && i < |cands| && Contains(cands[i], v)
    ensures Contains(BundleHull(cands), v)
  {
    BundleLeads(EMPTY, cands, i, v);
  }

  lemma {:induction false} TaintStays(r: Ival, cands: seq<Ival>, v: real)
    requires Tainted(r)
    ensures !Contains(BundleFrom(r, cands), v)
    decreases cands
  {
    if |cands| > 0 { TaintStays(Hull(r, cands[0]), cands[1..], v); }
  }

  lemma {:induction false} LeadSpoils(r: Ival, cands: seq<Ival>, v: real)
    requires IsEmpty(r) && LeadTainted(cands)
    ensures !Contains(BundleFrom(r, cands), v)
    decreases cands
  {
    if IsEmpty(cands[0]) { LeadSpoils(cands[0], cands[1..], v); } else { TaintStays(cands[0], cands[1..], v); }
  }

  /** The hull keeps every candidate's numbers exactly when it does not begin with no number, or
      there are no numbers to keep. */
  lemma BundleExactly(cands: seq<Ival>)
    ensures (forall i, v :: 0 <= i < |cands| && Contains(cands[i], v) ==> Contains(BundleHull(cands), v)) <==>
      (LeadTainted(cands) ==> forall i, v :: 0 <= i < |cands| ==> !Contains(cands[i], v))
  {
    hide Contains;
    hide BundleHull;
    if LeadTainted(cands) {
      if i, v :| 0 <= i < |cands| && Contains(cands[i], v) {
        HullSpoiled(cands, v);
      }
    } else {
      forall i, v | 0 <= i < |cands| && Contains(cands[i], v)
        ensures Contains(BundleHull(cands), v)
      {
        BundleSound(cands, i, v);
      }
    }
  }

  lemma HullSpoiled(cands: seq<Ival>, v: real)
    requires LeadTainted(cands)
    ensures !Contains(BundleHull(cands), v)
  {
    LeadSpoils(EMPTY, cands, v);
  }

  lemma {:induction false} NoTaint(cands: seq<Ival>)
    requires forall i :: 0 <= i < |cands| ==> !Tainted(cands[i])
    ensures !LeadTainted(cands)
  {
    if |cands| > 0 { NoTaint(cands[1..]); }
  }
}

/** Interval evaluation of the expression graph over a box. */
module Enclosure {
  import X = ExtReal
  import opened ExtReal
  import I = Interval
  import opened Interval
  import opened Ast
  import opened Holes
  import opened Options
  import opened Reals

  type Box = map<string, Ival>

  // ----- evaluation -----

  function ApplyOp(f: Fpu, op: Op, a: seq<Ival>): Ival
    requires |a| >= Arity(op)
  {
    match op
    case Add => I.Add(f, a[0], a[1])
    case Sub => I.Sub(f, a[0], a[1])
    case Mul => I.Mul(f, a[0], a[1])
    case Div => I.Divi(f, a[0], a[1])
    case Neg => I.Neg(a[0])
    case Pow => I.RPow(f, a[0], a[1].lo)
    case Sqrt => I.ISqrt(f, a[0])
    case Log => I.ILog(f, a[0])
    case Exp => I.IExp(f, a[0])
    case Sin => f.isin(a[0])
    case Cos => f.icos(a[0])
    case Tan => f.itan(a[0])
  }

  /** max and min of two, abs of one; any other call gives the hull of its arguments. */
  function CallEncl(fn: CallFn, a: seq<Ival>): Ival {
    if fn == MaxFn && |a| == 2 then IMax(a[0], a[1])
    else if fn == MinFn && |a| == 2 then IMin(a[0], a[1])
    else if fn == AbsFn && |a| == 1 then IAbs(a[0])
    else BundleHull(a)
  }

  function Encl(f: Fpu, n: Node, box: Box, ht: HoleTable): Ival
    requires WellFormed(n)
  {
    match n
    case Const(c) => Point(Fin(c))
    case Var(s, phys) => if s in box then box[s] else phys
    case Oper(op, args) => ApplyOp(f, op, EnclAll(f, args, box, ht))
    case Call(fn, args) => CallEncl(fn, EnclAll(f, args, box, ht))
    case Hole(id, phys, _, args) => HoleEval(f, ht, id, phys, EnclAll(f, args, box, ht)).encl
    case Disj(cands) => BundleHull(EnclAll(f, cands, box, ht))
  }

  function EnclAll(f: Fpu, ns: seq<Node>, box: Box, ht: HoleTable): (r: seq<Ival>)
    requires AllWellFormed(ns)
    ensures |r| == |ns| && forall i :: 0 <= i < |ns| ==> r[i] == Encl(f, ns[i], box, ht)
  {
    if ns == [] then [] else [Encl(f, ns[0], box, ht)] + EnclAll(f, ns[1..], box, ht)
  }

  // ----- the values a graph can take -----

  /** One assignment of the variables, and what the holes may return. */
  datatype World = World(env: string -> real, hv: HoleRel)

  predicate IsWhole(y: real) { y.Floor as real == y }

  /** The real value of an operator, when it has one. Powers are taken by whole exponents. */
  function OpValue(f: Fpu, op: Op, xs: seq<real>): (r: Option<real>)
    requires |xs| >= Arity(op)
  {
    match op
    case Add => Some(xs[0] + xs[1])
    case Sub => Some(xs[0] - xs[1])
    case Mul => Some(Prod(xs[0], xs[1]))
    case Div => if xs[1] == 0.0 then None else Some(Quot(xs[0], xs[1]))
    case Neg => Some(-xs[0])
    case Pow => if IsWhole(xs[1]) && PowDefined(xs[0], xs[1].Floor) then Some(IntPow(xs[0], xs[1].Floor)) else None
    case Sqrt => if xs[0] < 0.0 then None else Some(f.sqrt(xs[0]))
    case Log => if xs[0] <= 0.0 then None else Some(f.log(xs[0]))
    case Exp => Some(f.exp(xs[0]))
    case Sin => Some(f.sin(xs[0]))
    case Cos => Some(f.cos(xs[0]))
    case Tan => Some(f.tan(xs[0]))
  }

  function CallValue(fn: CallFn, xs: seq<real>): Option<real> {
    if fn == MaxFn && |xs| == 2 then Some(Max(xs[0], xs[1]))
    else if fn == MinFn && |xs| == 2 then Some(Min(xs[0], xs[1]))
    else if fn == AbsFn && |xs| == 1 then Some(AbsOf(xs[0]))
    else None
  }

  /** v is a value of n: a disjunction takes any candidate's values, a hole any value that
      its relation and its physical range allow, a variable outside the box one in its range. */
  ghost predicate Value(f: Fpu, w: World, box: Box, ht: HoleTable, n: Node, v: real)
    requires WellFormed(n)
    decreases n, 1
  {
    match n
    case Const(c) => v == c
    case Var(s, phys) => v == w.env(s) && (s !in box ==> Contains(phys, v))
    case Oper(op, args) =>
      exists xs: seq<real> :: Values(f, w, box, ht, args, xs) && |xs| >= Arity(op) && OpValue(f, op, xs) == Some(v)
    case Call(fn, args) =>
      exists xs: seq<real> :: Values(f, w, box, ht, args, xs) && CallValue(fn, xs) == Some(v)
    case Hole(id, phys, _, args) =>
      && (exists xs: seq<real> :: Values(f, w, box, ht, args, xs) && w.hv(id, xs, v))
      && Contains(PhysOf(ht, id, phys), v)
    case Disj(cands) => SomeValue(f, w, box, ht, cands, v)
  }

  ghost predicate Values(f: Fpu, w: World, box: Box, ht: HoleTable, ns: seq<Node>, xs: seq<real>)
    requires AllWellFormed(ns)
    decreases ns, 0
  {
    |xs| == |ns| && forall i :: 0 <= i < |ns| ==> Value(f, w, box, ht, ns[i], xs[i])
  }

  ghost predicate SomeValue(f: Fpu, w: World, box: Box, ht: HoleTable, ns: seq<Node>, v: real)
    requires AllWellFormed(ns)
    decreases ns, 0
  {
    exists i :: 0 <= i < |ns| && Value(f, w, box, ht, ns[i], v)
  }

  lemma UnaryValue(f: Fpu, w: World, box: Box, ht: HoleTable, op: Op, l: Node, x: real, v: real)
    requires Arity(op) == 1 && WellFormed(l) && OpValue(f, op, [x]) == Some(v) && Value(f, w, box, ht, l, x)
    ensures WellFormed(Oper(op, [l])) && Value(f, w, box, ht, Oper(op, [l]), v)
  {
    assert Values(f, w, box, ht, [l], [x]);
  }

  lemma OperValue(f: Fpu, w: World, box: Box, ht: HoleTable, op: Op, l: Node, r: Node, x: real, y: real, v: real)
    requires Arity(op) == 2 && WellFormed(l) && WellFormed(r) && OpValue(f, op, [x, y]) == Some(v)
    requires Value(f, w, box, ht, l, x) && Value(f, w, box, ht, r, y)
    ensures WellFormed(Oper(op, [l, r])) && Value(f, w, box, ht, Oper(op, [l, r]), v)
  {
    assert AllWellFormed([l, r]);
    assert Values(f, w, box, ht, [l, r], [x, y]);
  }

  lemma FunctionValue(f: Fpu, w: World, box: Box, ht: HoleTable, fn: CallFn, l: Node, r: Node, x: real, y: real,
                      v: real)
    requires WellFormed(l) && WellFormed(r) && CallValue(fn, [x, y]) == Some(v)
    requires Value(f, w, box, ht, l, x) && Value(f, w, box, ht, r, y)
    ensures WellFormed(Call(fn, [l, r])) && Value(f, w, box, ht, Call(fn, [l, r]), v)
  {
    assert AllWellFormed([l, r]);
    assert Values(f, w, box, ht, [l, r], [x, y]);
  }

  ghost predicate InBox(w: World, box: Box) {
    forall s :: s in box ==> Contains(box[s], w.env(s))
  }

  // ----- when evaluation keeps every value -----

  /** Without rounding two half-lines lose powers; with rounding some product on the way may. */
  ghost predicate PowerLossy(f: Fpu, a: Ival, n: int) {
    if Exact(f) then PowLossy(a, n) else IPowLossy(f, a, n)
  }

  /** The operator's guard on its operands' enclosures: products and quotients must not be
      lossy, and a power needs a point for its exponent. */
  ghost predicate OpLossy(f: Fpu, op: Op, a: seq<Ival>)
    requires |a| >= Arity(op)
  {
    match op
    case Mul => MulLossy(a[0], a[1])
    case Div => DivLossy(a[0], a[1])
    case Pow => a[1].lo != a[1].hi || !Integral(a[1].lo) || PowerLossy(f, a[0], a[1].lo.r.Floor)
    case _ => false
  }

  /** No operator below n is lossy and no disjunction's hull begins with no number. */
  ghost predicate Faithful(f: Fpu, n: Node, box: Box, ht: HoleTable)
    requires WellFormed(n)
    decreases n, 1
  {
    match n
    case Const(_) => true
    case Var(_, _) => true
    case Oper(op, args) => AllFaithful(f, args, box, ht) && !OpLossy(f, op, EnclAll(f, args, box, ht))
    case Call(_, args) => AllFaithful(f, args, box, ht)
    case Hole(_, _, _, args) => AllFaithful(f, args, box, ht)
    case Disj(cands) =>
      AllFaithful(f, cands, box, ht) && !LeadTainted(EnclAll(f, cands, box, ht))
  }

  ghost predicate AllFaithful(f: Fpu, ns: seq<Node>, box: Box, ht: HoleTable)
    requires AllWellFormed(ns)
    decreases ns, 0
  {
    forall i :: 0 <= i < |ns| ==> Faithful(f, ns[i], box, ht)
  }

  lemma PowerSound(f: Fpu, a: Ival, n: int, x: real)
    requires Outward(f) && Contains(a, x) && PowDefined(x, n) && !PowerLossy(f, a, n)
    ensures Contains(IPow(f, a, n), IntPow(x, n))
  {
    hide IPow;
    hide IntPow;
    if Exact(f) { IPowEncloses(f, a, n, x); } else { IPowSound(f, a, n, x); }
  }

  lemma PowSound(f: Fpu, a: Ival, e: Ival, x: real, y: real)
    requires Sound(f) && Contains(a, x) && Contains(e, y) && IsWhole(y) && PowDefined(x, y.Floor)
    requires e.lo == e.hi && Integral(e.lo) && !PowerLossy(f, a, e.lo.r.Floor)
    ensures Contains(RPow(f, a, e.lo), IntPow(x, y.Floor))
  {
    hide IPow;
    hide PowerLossy;
    PowerSound(f, a, e.lo.r.Floor, x);
  }

  /** x ^ y lies in the enclosure for a ^ e, which is computed from the lower end of e alone. */
  predicate PowerKept(f: Fpu, a: Ival, e: Ival, x: real, y: real)
    requires Integral(e.lo)
  {
    Contains(a, x) && Contains(e, y) && IsWhole(y) && PowDefined(x, y.Floor) && !PowLossy(a, e.lo.r.Floor) ==>
      Contains(RPow(f, a, e.lo), IntPow(x, y.Floor))
  }

  /** With a whole lower end for the exponent, all powers by whole exponents are enclosed exactly
      when the exponent's interval holds no second whole number. */
  lemma ExponentExactly(f: Fpu, e: Ival)
    requires Exact(f) && Proper(e) && Integral(e.lo)
    ensures (forall a, x, y :: PowerKept(f, a, e, x, y)) <==> Lt(e.hi, Fin(e.lo.r + 1.0))
  {
    hide IPow;
    hide IntPow;
    hide PowDefined;
    var n := e.lo.r.Floor;
    if Lt(e.hi, Fin(e.lo.r + 1.0)) {
      forall a, x, y
        ensures PowerKept(f, a, e, x, y)
      {
        if Contains(a, x) && Contains(e, y) && IsWhole(y) && PowDefined(x, y.Floor) && !PowLossy(a, n) {
          assert y.Floor == n;
          IPowEncloses(f, a, n, x);
        }
      }
    } else {
      var two := Point(Fin(2.0));
      var y := e.lo.r + 1.0;
      assert y.Floor == n + 1;
      NextPower(n);
      PointPower(f, 2.0, n);
      PointHolds(IntPow(2.0, n), IntPow(2.0, n + 1));
      assert !PowerKept(f, two, e, 2.0, y);
    }
  }

  lemma OpSound(f: Fpu, op: Op, a: seq<Ival>, xs: seq<real>)
    requires Sound(f) && |a| >= Arity(op) && |xs| == |a| && !OpLossy(f, op, a)
    requires forall i :: 0 <= i < |a| ==> Contains(a[i], xs[i])
    requires OpValue(f, op, xs).Some?
    ensures Contains(ApplyOp(f, op, a), OpValue(f, op, xs).value)
  {
    hide Prod;
    hide Quot;
    hide I.Mul;
    hide I.Divi;
    hide I.RPow;
    hide I.Add;
    hide I.Sub;
    hide I.Neg;
    hide I.ISqrt;
    hide I.ILog;
    hide I.IExp;
    hide Contains;
    hide MulLossy;
    hide DivLossy;
    hide PowerLossy;
    hide Integral;
    hide IntPow;
    hide PowDefined;
    match op
    case Add => AddSound(f, a[0], a[1], xs[0], xs[1]);
    case Sub => SubSound(f, a[0], a[1], xs[0], xs[1]);
    case Mul => MulSound(f, a[0], a[1], xs[0], xs[1]);
    case Div => DiviSound(f, a[0], a[1], xs[0], xs[1]);
    case Neg => NegSound(a[0], xs[0]);
    case Pow => PowSound(f, a[0], a[1], xs[0], xs[1]);
    case Sqrt => ISqrtSound(f, a[0], xs[0]);
    case Log => ILogSound(f, a[0], xs[0]);
    case Exp => IExpSound(f, a[0], xs[0]);
    case _ =>
  }

  lemma CallSound(fn: CallFn, a: seq<Ival>, xs: seq<real>)
    requires AllContain(a, xs) && CallValue(fn, xs).Some?
    ensures Contains(CallEncl(fn, a), CallValue(fn, xs).value)
  {
    if fn == AbsFn { IAbsSound(a[0], xs[0]); } else { IMaxSound(a[0], a[1], xs[0], xs[1]); }
  }

  /** The fundamental theorem of interval analysis for this evaluator: while it is faithful,
      every value of the graph at a point of the box lies in the computed enclosure. */
  lemma {:induction false} Fundamental(f: Fpu, w: World, box: Box, ht: HoleTable, n: Node, v: real)
    requires Sound(f) && WellFormed(n) && InBox(w, box) && WrappersSound(ht, w.hv)
    requires Faithful(f, n, box, ht) && Value(f, w, box, ht, n, v)
    ensures Contains(Encl(f, n, box, ht), v)
    decreases n, 1
  {
    match n
    case Const(_) =>
    case Var(_, _) =>
    case Oper(op, args) =>
      var xs: seq<real> :| Values(f, w, box, ht, args, xs) && |xs| >= Arity(op) && OpValue(f, op, xs) == Some(v);
      FundamentalAll(f, w, box, ht, args, xs);
      OpSound(f, op, EnclAll(f, args, box, ht), xs);
    case Call(fn, args) =>
      var xs: seq<real> :| Values(f, w, box, ht, args, xs) && CallValue(fn, xs) == Some(v);
      FundamentalAll(f, w, box, ht, args, xs);
      CallSound(fn, EnclAll(f, args, box, ht), xs);
    case Hole(id, phys, _, args) =>
      var xs: seq<real> :| Values(f, w, box, ht, args, xs) && w.hv(id, xs, v);
      FundamentalAll(f, w, box, ht, args, xs);
      HoleEvalSound(f, ht, w.hv, id, phys, EnclAll(f, args, box, ht), xs, v);
    case Disj(cands) =>
      var i :| 0 <= i < |cands| && Value(f, w, box, ht, cands[i], v);
      Fundamental(f, w, box, ht, cands[i], v);
      BundleSound(EnclAll(f, cands, box, ht), i, v);
  }

  lemma {:induction false} FundamentalAll(f: Fpu, w: World, box: Box, ht: HoleTable, ns: seq<Node>, xs: seq<real>)
    requires Sound(f) && AllWellFormed(ns) && InBox(w, box) && WrappersSound(ht, w.hv)
    requires AllFaithful(f, ns, box, ht) && Values(f, w, box, ht, ns, xs)
    ensures AllContain(EnclAll(f, ns, box, ht), xs)
    decreases ns, 0
  {
    forall i | 0 <= i < |ns|
      ensures Contains(EnclAll(f, ns, box, ht)[i], xs[i])
    {
      Fundamental(f, w, box, ht, ns[i], xs[i]);
    }
  }

  /** Every enclosure below n is finite, and every exponent is a whole constant: what the
      evaluation trace shows to anyone who reads it. */
  predicate FiniteTrace(f: Fpu, n: Node, box: Box, ht: HoleTable)
    requires WellFormed(n)
    decreases n, 1
  {
    && Finite(Encl(f, n, box, ht)) && Proper(Encl(f, n, box, ht))
    && match n
       case Const(_) => true
       case Var(_, _) => true
       case Oper(op, args) =>
         && AllFiniteTrace(f, args, box, ht)
         && (op == Pow ==> var e := Encl(f, args[1], box, ht); e.lo == e.hi && Integral(e.lo))
       case Call(_, args) => AllFiniteTrace(f, args, box, ht)
       case Hole(_, _, _, args) => AllFiniteTrace(f, args, box, ht)
       case Disj(cands) => AllFiniteTrace(f, cands, box, ht)
  }

  predicate AllFiniteTrace(f: Fpu, ns: seq<Node>, box: Box, ht: HoleTable)
    requires AllWellFormed(ns)
    decreases ns, 0
  {
    forall i :: 0 <= i < |ns| ==> FiniteTrace(f, ns[i], box, ht)
  }

  lemma FiniteOp(f: Fpu, op: Op, a: seq<Ival>)
    requires Exact(f) && |a| >= Arity(op)
    requires forall i :: 0 <= i < |a| ==> Finite(a[i]) && Proper(a[i])
    requires op == Pow ==> a[1].lo == a[1].hi && Integral(a[1].lo)
    ensures !OpLossy(f, op, a)
  {
  }

  /** Without rounding, a finite trace is a faithful one. */
  lemma {:induction false} FiniteIsFaithful(f: Fpu, n: Node, box: Box, ht: HoleTable)
    requires Exact(f) && WellFormed(n) && FiniteTrace(f, n, box, ht)
    ensures Faithful(f, n, box, ht)
    decreases n, 1
  {
    match n
    case Const(_) =>
    case Var(_, _) =>
    case Oper(op, args) =>
      AllFiniteFaithful(f, args, box, ht);
      FiniteOp(f, op, EnclAll(f, args, box, ht));
    case Call(_, args) => AllFiniteFaithful(f, args, box, ht);
    case Hole(_, _, _, args) => AllFiniteFaithful(f, args, box, ht);
    case Disj(cands) =>
      AllFiniteFaithful(f, cands, box, ht);
      NoTaint(EnclAll(f, cands, box, ht));
  }

  lemma {:induction false} AllFiniteFaithful(f: Fpu, ns: seq<Node>, box: Box, ht: HoleTable)
    requires Exact(f) && AllWellFormed(ns) && AllFiniteTrace(f, ns, box, ht)
    ensures AllFaithful(f, ns, box, ht)
    ensures forall i :: 0 <= i < |ns| ==> Finite(EnclAll(f, ns, box, ht)[i]) && Proper(EnclAll(f, ns, box, ht)[i])
    ensures forall i :: 0 <= i < |ns| ==> !Tainted(Encl(f, ns[i], box, ht))
    decreases ns, 0
  {
    forall i | 0 <= i < |ns|
      ensures Faithful(f, ns[i], box, ht) && !Tainted(Encl(f, ns[i], box, ht))
      ensures Finite(EnclAll(f, ns, box, ht)[i]) && Proper(EnclAll(f, ns, box, ht)[i])
    {
      FiniteIsFaithful(f, ns[i], box, ht);
    }
  }

  // ----- the evaluation pass: residual and trace accumulate by reference -----

  datatype TraceRow = TraceRow(node: Node, encl: Ival, width: XR, holed: bool, regime: char)

  function RowOf(f: Fpu, n: Node, encl: Ival): TraceRow {
    TraceRow(n, encl, Width(f, encl), n.Hole?, if n.Hole? then n.regime else 'A')
  }

  /** The residual after n, starting from acc: every hole adds its own. */
  function ResidualFrom(f: Fpu, n: Node, box: Box, ht: HoleTable, acc: XR): XR
    requires WellFormed(n)
    decreases n, 1
  {
    match n
    case Const(_) => acc
    case Var(_, _) => acc
    case Oper(_, args) => ResidualAll(f, args, box, ht, acc)
    case Call(_, args) => ResidualAll(f, args, box, ht, acc)
    case Hole(id, phys, _, args) =>
      X.Add(ResidualAll(f, args, box, ht, acc), HoleEval(f, ht, id, phys, EnclAll(f, args, box, ht)).residual)
    case Disj(cands) => ResidualAll(f, cands, box, ht, acc)
  }

  function ResidualAll(f: Fpu, ns: seq<Node>, box: Box, ht: HoleTable, acc: XR): XR
    requires AllWellFormed(ns)
    decreases ns, 0
  {
    if ns == [] then acc
    else ResidualFrom(f, ns[|ns| - 1], box, ht, ResidualAll(f, ns[..|ns| - 1], box, ht, acc))
  }

  /** The rows that n adds: its operands' first, its own last. */
  function TraceOf(f: Fpu, n: Node, box: Box, ht: HoleTable): seq<TraceRow>
    requires WellFormed(n)
    decreases n, 1
  {
    var below := match n
      case Const(_) => []
      case Var(_, _) => []
      case Oper(_, args) => TraceAll(f, args, box, ht)
      case Call(_, args) => TraceAll(f, args, box, ht)
      case Hole(_, _, _, args) => TraceAll(f, args, box, ht)
      case Disj(cands) => TraceAll(f, cands, box, ht);
    below + [RowOf(f, n, Encl(f, n, box, ht))]
  }

  function TraceAll(f: Fpu, ns: seq<Node>, box: Box, ht: HoleTable): seq<TraceRow>
    requires AllWellFormed(ns)
    decreases ns, 0
  {
    if ns == [] then [] else TraceAll(f, ns[..|ns| - 1], box, ht) + TraceOf(f, ns[|ns| - 1], box, ht)
  }

  class Evaluation {
    var residual: XR
    var trace: seq<TraceRow>

    constructor ()
      ensures residual == ZERO && trace == []
    {
      residual, trace := ZERO, [];
    }

    method Rec(f: Fpu, n: Node, box: Box, ht: HoleTable) returns (out: Ival)
      requires WellFormed(n)
      modifies this
      ensures out == Encl(f, n, box, ht)
      ensures residual == ResidualFrom(f, n, box, ht, old(residual))
      ensures trace == old(trace) + TraceOf(f, n, box, ht)
      decreases n, 1
    {
      hide ApplyOp;
      hide CallEncl;
      hide HoleEval;
      hide BundleHull;
      hide EnclAll;
      hide ResidualAll;
      hide TraceAll;
      match n {
        case Const(c) =>
          out := Point(Fin(c));
        case Var(s, phys) =>
          out := if s in box then box[s] else phys;
        case Oper(op, args) =>
          var a := RecAll(f, args, box, ht);
          out := ApplyOp(f, op, a);
        case Call(fn, args) =>
          var a := RecAll(f, args, box, ht);
          out := CallEncl(fn, a);
        case Hole(id, phys, _, args) =>
          var a := RecAll(f, args, box, ht);
          var w := HoleEval(f, ht, id, phys, a);
          out := w.encl;
          residual := X.Add(residual, w.residual);
        case Disj(cands) =>
          var cs := RecAll(f, cands, box, ht);
          out := BundleHull(cs);
      }
      trace := trace + [RowOf(f, n, out)];
    }

    method RecAll(f: Fpu, ns: seq<Node>, box: Box, ht: HoleTable) returns (a: seq<Ival>)
      requires AllWellFormed(ns)
      modifies this
      ensures a == EnclAll(f, ns, box, ht)
      ensures residual == ResidualAll(f, ns, box, ht, old(residual))
      ensures trace == old(trace) + TraceAll(f, ns, box, ht)
      decreases ns, 0
    {
      hide Encl;
      hide TraceOf;
      hide ResidualFrom;
      hide WellFormed;
      hide EnclAll;
      a := [];
      var i := 0;
      while i < |ns|
        invariant 0 <= i <= |ns| && a == EnclAll(f, ns, box, ht)[..i]
        invariant residual == ResidualAll(f, ns[..i], box, ht, old(residual))
        invariant trace == old(trace) + TraceAll(f, ns[..i], box, ht)
      {
        assert ns[..i + 1][..i] == ns[..i];
        var x := Rec(f, ns[i], box, ht);
        a := a + [x];
        i := i + 1;
      }
      assert ns[..i] == ns;
    }
  }

  datatype Program = Program(root: Node, box: Box, holes: HoleTable, ks: XR)

  datatype EvalResult = EvalResult(ms: Ival, residual: XR, trace: seq<TraceRow>)

  function Evaluated(f: Fpu, p: Program): EvalResult
    requires WellFormed(p.root)
  {
    EvalResult(Encl(f, p.root, p.box, p.holes),
               X.Add(ResidualFrom(f, p.root, p.box, p.holes, ZERO), p.ks),
               TraceOf(f, p.root, p.box, p.holes))
  }

  method Eval(f: Fpu, p: Program) returns (r: EvalResult)
    requires WellFormed(p.root)
    ensures r == Evaluated(f, p)
  {
    var run := new Evaluation();
    var ms := run.Rec(f, p.root, p.box, p.holes);
    r := EvalResult(ms, X.Add(run.residual, p.ks), run.trace);
  }
}
