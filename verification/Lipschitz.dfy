/** The wrapper for a hidden function that is Lipschitz and has been probed. */
module Lipschitz {
  import X = ExtReal
  import opened ExtReal
  import opened Reals
  import I = Interval
  import opened Interval
  import opened Holes

  datatype Probe = Probe(x: seq<real>, y: real)

  // ----- distances -----

  function Square(x: real): real { Prod(x, x) }

  /** The sum of the first n squared differences. */
  function Dist2(a: seq<real>, b: seq<real>, n: nat): (r: real)
    requires n <= |a| && n <= |b|
    ensures r >= 0.0
  {
    if n == 0 then 0.0
    else
      SquareNonNegative(a[n - 1] - b[n - 1]);
      Dist2(a, b, n - 1) + Square(a[n - 1] - b[n - 1])
  }

  lemma SquareNonNegative(x: real)
    ensures Square(x) >= 0.0
  {
  }

  /** The square root is exact on what is not negative. */
  ghost predicate Rooted(f: Fpu) {
    forall x :: 0.0 <= x ==> 0.0 <= f.sqrt(x) && Square(f.sqrt(x)) == x
  }

  function Dist(f: Fpu, a: seq<real>, b: seq<real>): real
    requires |a| == |b|
  {
    f.sqrt(Dist2(a, b, |a|))
  }

  // ----- the triangle inequality -----

  function Dot(a: seq<real>, b: seq<real>, n: nat): real
    requires n <= |a| && n <= |b|
  {
    if n == 0 then 0.0 else Dot(a, b, n - 1) + Prod(a[n - 1], b[n - 1])
  }

  function Norm2(a: seq<real>, n: nat): (r: real)
    requires n <= |a|
    ensures r >= 0.0
  {
    if n == 0 then 0.0
    else
      SquareNonNegative(a[n - 1]);
      Norm2(a, n - 1) + Square(a[n - 1])
  }

  /** One step of the induction: with s at most p times q, adding u times v stays below the
      product of the longer lengths. */
  lemma LengthStep(s: real, p: real, q: real, u: real, v: real, p2: real, q2: real)
    requires p >= 0.0 && q >= 0.0 && p2 >= 0.0 && q2 >= 0.0 && s <= Prod(p, q)
    requires Square(p2) == Square(p) + Square(u) && Square(q2) == Square(q) + Square(v)
    ensures s + Prod(u, v) <= Prod(p2, q2)
  {
    var left := p * q + u * v;
    var cross := p * v - q * u;
    assert (p2 * q2) * (p2 * q2) == (p * p + u * u) * (q * q + v * v) by { Regroup(p2, q2); }
    assert (p * p + u * u) * (q * q + v * v) == left * left + cross * cross by { Lagrange(p, q, u, v); }
    assert cross * cross >= 0.0;
    RootOrder(left, p2 * q2);
  }

  lemma Regroup(x: real, y: real)
    ensures (x * y) * (x * y) == (x * x) * (y * y)
  {
  }

  lemma Lagrange(p: real, q: real, u: real, v: real)
    ensures (p * p + u * u) * (q * q + v * v) == (p * q + u * v) * (p * q + u * v) + (p * v - q * u) * (p * v - q * u)
  {
  }

  lemma PositiveProduct(p: real, q: real)
    requires p > 0.0 && q > 0.0
    ensures p * q > 0.0
  {
  }

  lemma StrictSquare(x: real, y: real)
    requires x > y >= 0.0
    ensures x * x > y * y
  {
    PositiveProduct(x - y, x + y);
    assert (x - y) * (x + y) == x * x - y * y;
  }

  lemma RootOrder(x: real, y: real)
    requires y >= 0.0 && x * x <= y * y
    ensures x <= y
  {
    if x > y { StrictSquare(x, y); }
  }

  lemma {:induction false} CauchySchwarz(f: Fpu, a: seq<real>, b: seq<real>, n: nat)
    requires Rooted(f) && n <= |a| && n <= |b|
    ensures Dot(a, b, n) <= Prod(f.sqrt(Norm2(a, n)), f.sqrt(Norm2(b, n)))
  {
    hide Prod;
    hide Square;
    if n == 0 {
      ProductNonNegative(f.sqrt(0.0), f.sqrt(0.0));
    } else {
      CauchySchwarz(f, a, b, n - 1);
      LengthStep(Dot(a, b, n - 1), f.sqrt(Norm2(a, n - 1)), f.sqrt(Norm2(b, n - 1)), a[n - 1], b[n - 1],
                 f.sqrt(Norm2(a, n)), f.sqrt(Norm2(b, n)));
    }
  }

  lemma ProductNonNegative(x: real, y: real)
    requires x >= 0.0 && y >= 0.0
    ensures Prod(x, y) >= 0.0
  {
  }

  function Minus(a: seq<real>, b: seq<real>): (d: seq<real>)
    requires |a| == |b|
    ensures |d| == |a| && forall k :: 0 <= k < |d| ==> d[k] == a[k] - b[k]
  {
    seq(|a|, k requires 0 <= k < |a| => a[k] - b[k])
  }

  lemma {:induction false} DistIsNorm(a: seq<real>, b: seq<real>, n: nat)
    requires |a| == |b| && n <= |a|
    ensures Dist2(a, b, n) == Norm2(Minus(a, b), n)
  {
    if n > 0 { DistIsNorm(a, b, n - 1); }
  }

  lemma {:induction false} SumExpands(a: seq<real>, b: seq<real>, c: seq<real>, n: nat)
    requires |a| == |b| == |c| && n <= |a|
    ensures Dist2(a, c, n) == Dist2(a, b, n) + 2.0 * Dot(Minus(a, b), Minus(b, c), n) + Dist2(b, c, n)
  {
    hide Prod;
    hide Square;
    if n > 0 {
      SumExpands(a, b, c, n - 1);
      Binomial(a[n - 1] - b[n - 1], b[n - 1] - c[n - 1]);
    }
  }

  lemma Binomial(x: real, y: real)
    ensures Square(x + y) == Square(x) + 2.0 * Prod(x, y) + Square(y)
  {
  }

  /** In any dimension the way by b is no shorter. */
  lemma Triangle(f: Fpu, a: seq<real>, b: seq<real>, c: seq<real>)
    requires Rooted(f) && |a| == |b| == |c|
    ensures Dist(f, a, c) <= Dist(f, a, b) + Dist(f, b, c)
  {
    hide Prod;
    hide Square;
    var n := |a|;
    var p, q := Dist(f, a, b), Dist(f, b, c);
    SumExpands(a, b, c, n);
    CauchySchwarz(f, Minus(a, b), Minus(b, c), n);
    DistIsNorm(a, b, n);
    DistIsNorm(b, c, n);
    Binomial(p, q);
    SquareOrder(Dist(f, a, c), p + q);
  }

  lemma SquareOrder(x: real, y: real)
    requires y >= 0.0 && Square(x) <= Square(y)
    ensures x <= y
  {
    RootOrder(x, y);
  }

  // ----- the query box -----

  ghost predicate InQuery(ins: seq<Ival>, xs: seq<real>) {
    |ins| == |xs| && forall k :: 0 <= k < |ins| ==> Contains(ins[k], xs[k])
  }

  predicate AllFinite(ins: seq<Ival>) { forall k :: 0 <= k < |ins| ==> Finite(ins[k]) }

  function Middle(a: Ival): real
    requires Finite(a)
  {
    (a.lo.r + a.hi.r) / 2.0
  }

  function Centre(ins: seq<Ival>): (c: seq<real>)
    requires AllFinite(ins)
    ensures |c| == |ins| && forall k :: 0 <= k < |c| ==> c[k] == Middle(ins[k])
  {
    seq(|ins|, k requires 0 <= k < |ins| => Middle(ins[k]))
  }

  function Half(a: Ival): real
    requires Finite(a)
  {
    (a.hi.r - a.lo.r) / 2.0
  }

  /** The squared half diagonal of the first n sides. */
  function HalfDiag2(ins: seq<Ival>, n: nat): (r: real)
    requires n <= |ins| && AllFinite(ins)
    ensures r >= 0.0
  {
    if n == 0 then 0.0
    else
      SquareNonNegative(Half(ins[n - 1]));
      HalfDiag2(ins, n - 1) + Square(Half(ins[n - 1]))
  }

  lemma SquareGrows(x: real, y: real)
    requires -y <= x <= y
    ensures Square(x) <= Square(y)
  {
    assert (y - x) * (y + x) >= 0.0;
  }

  /** No point of the box is farther from its centre than half the diagonal. */
  lemma {:induction false} WithinDiag(ins: seq<Ival>, xs: seq<real>, n: nat)
    requires n <= |ins| && InQuery(ins, xs) && AllFinite(ins)
    ensures Dist2(xs, Centre(ins), n) <= HalfDiag2(ins, n)
  {
    hide Square;
    if n > 0 {
      WithinDiag(ins, xs, n - 1);
      SquareGrows(xs[n - 1] - Centre(ins)[n - 1], Half(ins[n - 1]));
    }
  }

  // ----- the wrapper -----

  /** A term of a sum of squares. */
  function SquareX(x: XR): XR { X.Mul(x, x) }

  function RadX(f: Fpu, ins: seq<Ival>, n: nat): XR
    requires n <= |ins|
  {
    if n == 0 then ZERO else X.Add(RadX(f, ins, n - 1), SquareX(X.Mul(Fin(0.5), Width(f, ins[n - 1]))))
  }

  /** The squared distance from the centre of the box to a probe, over the sides both have. */
  function FarX(ins: seq<Ival>, x: seq<real>, n: nat): XR
    requires n <= |ins| && n <= |x|
  {
    if n == 0 then ZERO else X.Add(FarX(ins, x, n - 1), SquareX(X.Sub(Mid(ins[n - 1]), Fin(x[n - 1]))))
  }

  function Least(a: nat, b: nat): nat { if a < b then a else b }

  function RootX(f: Fpu, x: XR): XR {
    match x
    case Fin(a) => if a < 0.0 then NaN else Fin(f.sqrt(a))
    case PosInf => PosInf
    case _ => NaN
  }

  function DistX(f: Fpu, ins: seq<Ival>, p: Probe): XR {
    X.Add(RootX(f, FarX(ins, p.x, Least(|ins|, |p.x|))), RootX(f, RadX(f, ins, |ins|)))
  }

  /** Around a probe's value, as far as the slope lets the function go on the way to the box. */
  function Band(f: Fpu, l: real, ins: seq<Ival>, p: Probe): Ival {
    var d := DistX(f, ins, p);
    I.Add(f, Point(Fin(p.y)), Of(X.Mul(Fin(-l), d), X.Mul(Fin(l), d)))
  }

  function Bands(f: Fpu, l: real, ins: seq<Ival>, probes: seq<Probe>): Ival {
    if |probes| == 0 then ENTIRE
    else Meet(Bands(f, l, ins, probes[..|probes| - 1]), Band(f, l, ins, probes[|probes| - 1]))
  }

  predicate SameDims(probes: seq<Probe>, n: nat) { forall i :: 0 <= i < |probes| ==> |probes[i].x| == n }

  /** Two probes too far apart in value for their distance. */
  predicate TooSteep(f: Fpu, l: real, p: Probe, q: Probe)
    requires |p.x| == |q.x|
  {
    var d := Dist(f, p.x, q.x);
    d > 0.0 && Quot(AbsOf(p.y - q.y), d) > l
  }

  predicate Refuted(f: Fpu, l: real, probes: seq<Probe>, n: nat)
    requires SameDims(probes, n)
  {
    exists i, j :: 0 <= i < j < |probes| && TooSteep(f, l, probes[i], probes[j])
  }

  function Wrap(f: Fpu, l: real, probes: seq<Probe>, n: nat, phys: Ival, ins: seq<Ival>): WrapResult
    requires SameDims(probes, n)
  {
    if |probes| == 0 then PhysWrap(f, phys)
    else if Refuted(f, l, probes, n) then PhysWrap(f, phys).(refuted := true)
    else WrapResult(Meet(Bands(f, l, ins, probes), phys), ZERO, false)
  }

  method ComputeDist(f: Fpu, a: seq<real>, b: seq<real>) returns (d: real)
    requires |a| == |b|
    ensures d == Dist(f, a, b)
  {
    hide Square;
    var d2 := 0.0;
    for k := 0 to |a|
      invariant d2 == Dist2(a, b, k)
    {
      var dk := a[k] - b[k];
      d2 := d2 + Square(dk);
    }
    d := f.sqrt(d2);
  }

  method LookForSteep(f: Fpu, l: real, probes: seq<Probe>, n: nat) returns (refuted: bool)
    requires SameDims(probes, n)
    ensures refuted <==> Refuted(f, l, probes, n)
  {
    hide Dist;
    hide Quot;
    refuted := false;
    for i := 0 to |probes|
      invariant refuted <==> exists a, b :: 0 <= a < i && a < b < |probes| && TooSteep(f, l, probes[a], probes[b])
    {
      ghost var before := refuted;
      for j := i + 1 to |probes|
        invariant refuted <==> before || exists b :: i < b < j && TooSteep(f, l, probes[i], probes[b])
      {
        var d := ComputeDist(f, probes[i].x, probes[j].x);
        if d > 0.0 && Quot(AbsOf(probes[i].y - probes[j].y), d) > l {
          refuted := true;
        }
      }
    }
  }

  method ComputeRad(f: Fpu, ins: seq<Ival>) returns (rad: XR)
    ensures rad == RadX(f, ins, |ins|)
  {
    hide SquareX;
    rad := ZERO;
    for k := 0 to |ins|
      invariant rad == RadX(f, ins, k)
    {
      rad := X.Add(rad, SquareX(X.Mul(Fin(0.5), Width(f, ins[k]))));
    }
  }

  method ComputeBand(f: Fpu, l: real, ins: seq<Ival>, p: Probe, rad: XR) returns (band: Ival)
    requires rad == RadX(f, ins, |ins|)
    ensures band == Band(f, l, ins, p)
  {
    hide SquareX;
    var far := ZERO;
    for k := 0 to Least(|ins|, |p.x|)
      invariant far == FarX(ins, p.x, k)
    {
      far := X.Add(far, SquareX(X.Sub(Mid(ins[k]), Fin(p.x[k]))));
    }
    var d := X.Add(RootX(f, far), RootX(f, rad));
    band := I.Add(f, Point(Fin(p.y)), Of(X.Mul(Fin(-l), d), X.Mul(Fin(l), d)));
  }

  method ComputeWrap(f: Fpu, l: real, probes: seq<Probe>, n: nat, phys: Ival, ins: seq<Ival>) returns (r: WrapResult)
    requires SameDims(probes, n)
    ensures r == Wrap(f, l, probes, n, phys, ins)
  {
    hide Refuted;
    hide Band;
    hide RadX;
    if |probes| == 0 {
      return PhysWrap(f, phys);
    }
    var rad := ComputeRad(f, ins);
    var acc := ENTIRE;
    for i := 0 to |probes|
      invariant acc == Bands(f, l, ins, probes[..i])
    {
      var band := ComputeBand(f, l, ins, probes[i], rad);
      assert probes[..i + 1][..i] == probes[..i];
      acc := Meet(acc, band);
    }
    assert probes[..|probes|] == probes;
    var refuted := LookForSteep(f, l, probes, n);
    r := if refuted then PhysWrap(f, phys).(refuted := true) else WrapResult(Meet(acc, phys), ZERO, false);
  }

  // ----- soundness -----

  /** h has slope at most l, lies in phys, and took the probes' values. */
  ghost predicate Hidden(f: Fpu, h: seq<real> -> real, l: real, probes: seq<Probe>, n: nat, phys: Ival) {
    && (forall a, b :: |a| == n && |b| == n ==> AbsOf(h(a) - h(b)) <= Prod(l, Dist(f, a, b)))
    && (forall a :: |a| == n ==> Contains(phys, h(a)))
    && forall i :: 0 <= i < |probes| ==> |probes[i].x| == n && h(probes[i].x) == probes[i].y
  }

  lemma QuotBelow(x: real, d: real, l: real)
    requires d > 0.0 && x <= Prod(l, d)
    ensures Quot(x, d) <= l
  {
    var q := x / d;
    assert q * d == x;
    if q > l { GreaterTimes(q, l, d); }
  }

  lemma GreaterTimes(q: real, l: real, d: real)
    requires q > l && d > 0.0
    ensures q * d > l * d
  {
  }

  /** A function that is as flat as claimed is never refuted. */
  lemma NeverRefuted(f: Fpu, h: seq<real> -> real, l: real, probes: seq<Probe>, n: nat, phys: Ival)
    requires Hidden(f, h, l, probes, n, phys)
    ensures SameDims(probes, n) && !Refuted(f, l, probes, n)
  {
    hide Dist;
    hide Prod;
    hide Quot;
    forall i, j | 0 <= i < j < |probes|
      ensures !TooSteep(f, l, probes[i], probes[j])
    {
      var p, q := probes[i], probes[j];
      var d := Dist(f, p.x, q.x);
      assert AbsOf(h(p.x) - h(q.x)) <= Prod(l, d);
      if d > 0.0 { QuotBelow(AbsOf(p.y - q.y), d, l); }
    }
  }

  lemma {:induction false} RadExact(f: Fpu, ins: seq<Ival>, n: nat)
    requires Exact(f) && n <= |ins| && AllFinite(ins) && forall k :: 0 <= k < |ins| ==> I.Proper(ins[k])
    ensures RadX(f, ins, n) == Fin(HalfDiag2(ins, n))
  {
    hide Square;
    hide SquareX;
    hide Width;
    if n > 0 {
      RadExact(f, ins, n - 1);
      SideExact(f, ins[n - 1]);
    }
  }

  lemma SideExact(f: Fpu, a: Ival)
    requires Exact(f) && Finite(a) && I.Proper(a)
    ensures SquareX(X.Mul(Fin(0.5), Width(f, a))) == Fin(Square(Half(a)))
  {
    hide Prod;
    HalfProduct(a.hi.r - a.lo.r);
  }

  lemma HalfProduct(w: real)
    ensures Prod(0.5, w) == w / 2.0
  {
  }

  lemma {:induction false} FarExact(ins: seq<Ival>, x: seq<real>, n: nat)
    requires n <= |ins| && n <= |x| && AllFinite(ins) && forall k :: 0 <= k < |ins| ==> I.Proper(ins[k])
    ensures FarX(ins, x, n) == Fin(Dist2(Centre(ins), x, n))
  {
    hide Prod;
    if n > 0 {
      FarExact(ins, x, n - 1);
      HalfProduct(ins[n - 1].lo.r + ins[n - 1].hi.r);
    }
  }

  lemma RootGrows(f: Fpu, x: real, y: real)
    requires Rooted(f) && 0.0 <= x <= y
    ensures f.sqrt(x) <= f.sqrt(y)
  {
    hide Square;
    SquareOrder(f.sqrt(x), f.sqrt(y));
  }

  lemma ProdGrows(l: real, x: real, y: real)
    requires l >= 0.0 && x <= y
    ensures Prod(l, x) <= Prod(l, y) && Prod(-l, y) == -Prod(l, y)
  {
    assert l * (y - x) >= 0.0;
  }

  /** On a finite box every band holds the value. */
  lemma BandHolds(f: Fpu, h: seq<real> -> real, l: real, probes: seq<Probe>, phys: Ival, ins: seq<Ival>, xs: seq<real>,
                  i: nat)
    requires Exact(f) && Rooted(f) && l >= 0.0 && InQuery(ins, xs) && AllFinite(ins)
    requires Hidden(f, h, l, probes, |ins|, phys) && i < |probes|
    ensures Contains(Band(f, l, ins, probes[i]), h(xs))
  {
    hide Prod;
    hide Dist2;
    hide HalfDiag2;
    hide FarX;
    hide RadX;
    var p, n, c := probes[i], |ins|, Centre(ins);
    assert forall k :: 0 <= k < |ins| ==> I.Proper(ins[k]);
    RadExact(f, ins, n);
    FarExact(ins, p.x, n);
    WithinDiag(ins, xs, n);
    RootGrows(f, Dist2(xs, c, n), HalfDiag2(ins, n));
    Triangle(f, xs, c, p.x);
    var d := Dist(f, c, p.x) + f.sqrt(HalfDiag2(ins, n));
    assert DistX(f, ins, p) == Fin(d);
    assert AbsOf(h(xs) - h(p.x)) <= Prod(l, Dist(f, xs, p.x));
    ProdGrows(l, Dist(f, xs, p.x), d);
    BandOf(f, l, p.y, d, h(xs));
  }

  lemma BandOf(f: Fpu, l: real, y: real, d: real, v: real)
    requires Exact(f) && AbsOf(v - y) <= Prod(l, d)
    ensures Contains(I.Add(f, Point(Fin(y)), Of(X.Mul(Fin(-l), Fin(d)), X.Mul(Fin(l), Fin(d)))), v)
  {
    assert Prod(-l, d) == -Prod(l, d);
    hide Prod;
  }

  // ----- boxes with infinite sides: no band takes anything away -----

  predicate UpOrNaN(x: XR) { x == PosInf || x.NaN? }

  predicate SumOfSquares(x: XR) { UpOrNaN(x) || (x.Fin? && x.r >= 0.0) }

  lemma {:induction false} RadInfinite(f: Fpu, ins: seq<Ival>, n: nat)
    requires Exact(f) && n <= |ins| && forall k :: 0 <= k < |ins| ==> I.Proper(ins[k])
    ensures SumOfSquares(RadX(f, ins, n))
    ensures (exists k :: 0 <= k < n && !Finite(ins[k])) ==> UpOrNaN(RadX(f, ins, n))
  {
    hide Width;
    hide SquareX;
    hide SumOfSquares;
    hide UpOrNaN;
    hide Finite;
    if n == 0 {
      ZeroSquares();
    } else {
      RadInfinite(f, ins, n - 1);
      SideSquare(f, ins[n - 1]);
      AddSquares(RadX(f, ins, n - 1), SquareX(X.Mul(Fin(0.5), Width(f, ins[n - 1]))));
    }
  }

  lemma ZeroSquares()
    ensures SumOfSquares(ZERO)
  {
  }

  lemma SideSquare(f: Fpu, a: Ival)
    requires Exact(f) && I.Proper(a)
    ensures SumOfSquares(SquareX(X.Mul(Fin(0.5), Width(f, a))))
    ensures (!Finite(a) ==> UpOrNaN(SquareX(X.Mul(Fin(0.5), Width(f, a)))))
  {
    hide Prod;
    var w := Width(f, a);
    if w.Fin? { SquareNonNegative(Prod(0.5, w.r)); }
  }

  lemma AddSquares(x: XR, y: XR)
    requires SumOfSquares(x) && SumOfSquares(y)
    ensures SumOfSquares(X.Add(x, y)) && (UpOrNaN(x) || UpOrNaN(y) ==> UpOrNaN(X.Add(x, y)))
  {
  }

  lemma {:induction false} FarSquares(ins: seq<Ival>, x: seq<real>, n: nat)
    requires n <= |ins| && n <= |x|
    ensures SumOfSquares(FarX(ins, x, n))
  {
    if n > 0 {
      FarSquares(ins, x, n - 1);
      var d := X.Sub(Mid(ins[n - 1]), Fin(x[n - 1]));
      if d.Fin? { SquareNonNegative(d.r); }
    }
  }

  lemma BandUseless(f: Fpu, l: real, ins: seq<Ival>, p: Probe)
    requires Exact(f) && Rooted(f) && l >= 0.0 && !AllFinite(ins) && forall k :: 0 <= k < |ins| ==> I.Proper(ins[k])
    ensures var b := Band(f, l, ins, p); b == ENTIRE || b == Ival(NaN, NaN)
  {
    hide FarX;
    hide RadX;
    RadInfinite(f, ins, |ins|);
    FarSquares(ins, p.x, Least(|ins|, |p.x|));
    assert UpOrNaN(DistX(f, ins, p));
  }

  lemma MeetKeeps(acc: Ival, band: Ival, v: real)
    requires Contains(acc, v) && (Contains(band, v) || band == Ival(NaN, NaN))
    ensures Contains(Meet(acc, band), v)
  {
  }

  lemma {:induction false} BandsHold(f: Fpu, h: seq<real> -> real, l: real, probes: seq<Probe>, phys: Ival,
                                     ins: seq<Ival>, xs: seq<real>, n: nat)
    requires Exact(f) && Rooted(f) && l >= 0.0 && InQuery(ins, xs) && Hidden(f, h, l, probes, |ins|, phys)
    requires n <= |probes|
    ensures Contains(Bands(f, l, ins, probes[..n]), h(xs))
  {
    hide Band;
    hide Hidden;
    hide Rooted;
    if n > 0 {
      BandsHold(f, h, l, probes, phys, ins, xs, n - 1);
      assert probes[..n][..n - 1] == probes[..n - 1];
      if AllFinite(ins) {
        BandHolds(f, h, l, probes, phys, ins, xs, n - 1);
      } else {
        BandUseless(f, l, ins, probes[n - 1]);
      }
      MeetKeeps(Bands(f, l, ins, probes[..n - 1]), Band(f, l, ins, probes[n - 1]), h(xs));
    }
  }

  /** In any dimension: the wrapper does not refute itself, and its enclosure holds the hidden
      function's value at every point of the query box. */
  lemma WrapSound(f: Fpu, h: seq<real> -> real, l: real, probes: seq<Probe>, phys: Ival, ins: seq<Ival>, xs: seq<real>)
    requires Exact(f) && Rooted(f) && l >= 0.0 && InQuery(ins, xs) && Hidden(f, h, l, probes, |ins|, phys)
    ensures SameDims(probes, |ins|)
    ensures var r := Wrap(f, l, probes, |ins|, phys, ins); !r.refuted && Contains(r.encl, h(xs))
  {
    hide Bands;
    hide Refuted;
    NeverRefuted(f, h, l, probes, |ins|, phys);
    BandsHold(f, h, l, probes, phys, ins, xs, |probes|);
    assert probes[..|probes|] == probes;
    assert Contains(phys, h(xs));
    if |probes| > 0 { MeetKeeps(Bands(f, l, ins, probes), phys, h(xs)); }
  }

  // ----- exactly when some function fits the probes -----

  lemma {:induction false} DistSymmetric(a: seq<real>, b: seq<real>, n: nat)
    requires n <= |a| && n <= |b|
    ensures Dist2(a, b, n) == Dist2(b, a, n)
  {
    if n > 0 {
      DistSymmetric(a, b, n - 1);
      SquareOpposite(a[n - 1] - b[n - 1]);
      hide Square;
      assert b[n - 1] - a[n - 1] == -(a[n - 1] - b[n - 1]);
    }
  }

  lemma SquareOpposite(x: real)
    ensures Square(-x) == Square(x) && (Square(x) == 0.0 ==> x == 0.0)
  {
    if x != 0.0 { NonZeroSquare(x); }
  }

  lemma NonZeroSquare(x: real)
    requires x != 0.0
    ensures Square(x) > 0.0
  {
    var y := if x < 0.0 then -x else x;
    assert Square(y) == Square(x);
    hide Prod;
    SquareOverZero(y);
  }

  lemma SquareOverZero(x: real)
    requires x > 0.0
    ensures Square(x) > 0.0
  {
    StrictSquare(x, 0.0);
  }

  lemma {:induction false} ZeroDist(a: seq<real>, b: seq<real>, n: nat)
    requires n <= |a| && n <= |b|
    ensures Dist2(a, b, n) == 0.0 <==> a[..n] == b[..n]
  {
    hide Square;
    if n > 0 {
      ZeroDist(a, b, n - 1);
      SquareOpposite(a[n - 1] - b[n - 1]);
      assert Square(0.0) == 0.0 by { ZeroSquare(); }
      SquareNonNegative(a[n - 1] - b[n - 1]);
      PrefixStep(a, b, n);
    }
  }

  lemma PrefixStep(a: seq<real>, b: seq<real>, n: nat)
    requires 0 < n <= |a| && n <= |b|
    ensures a[..n] == b[..n] <==> a[..n - 1] == b[..n - 1] && a[n - 1] == b[n - 1]
  {
    assert a[..n] == a[..n - 1] + [a[n - 1]] && b[..n] == b[..n - 1] + [b[n - 1]];
    if a[..n] == b[..n] { assert a[..n][..n - 1] == b[..n][..n - 1] && a[..n][n - 1] == b[..n][n - 1]; }
  }

  lemma ZeroSquare()
    ensures Square(0.0) == 0.0
  {
  }

  /** Distances are the same both ways, never negative, and zero only between equal points. */
  lemma DistMeaning(f: Fpu, a: seq<real>, b: seq<real>)
    requires Rooted(f) && |a| == |b|
    ensures Dist(f, a, b) == Dist(f, b, a) >= 0.0 && (Dist(f, a, b) == 0.0 <==> a == b)
  {
    hide Square;
    DistSymmetric(a, b, |a|);
    ZeroDist(a, b, |a|);
    assert a[..|a|] == a && b[..|b|] == b;
    ZeroSquare();
    SquareOpposite(Dist(f, a, b));
    hide Dist2;
  }

  /** The steepest way up from a probe. */
  function Cone(f: Fpu, l: real, p: Probe, x: seq<real>): real
    requires |p.x| == |x|
  {
    p.y + Prod(l, Dist(f, x, p.x))
  }

  function LowestCone(f: Fpu, l: real, probes: seq<Probe>, x: seq<real>): real
    requires |probes| > 0 && SameDims(probes, |x|)
  {
    var last := Cone(f, l, probes[|probes| - 1], x);
    if |probes| == 1 then last else Min(LowestCone(f, l, probes[..|probes| - 1], x), last)
  }

  lemma ConeSlope(f: Fpu, l: real, p: Probe, a: seq<real>, b: seq<real>)
    requires Rooted(f) && l >= 0.0 && |p.x| == |a| == |b|
    ensures AbsOf(Cone(f, l, p, a) - Cone(f, l, p, b)) <= Prod(l, Dist(f, a, b))
  {
    Triangle(f, a, b, p.x);
    Triangle(f, b, a, p.x);
    DistMeaning(f, a, b);
    var (u, v, d) := (Dist(f, a, p.x), Dist(f, b, p.x), Dist(f, a, b));
    hide Dist;
    ProdGrows(l, u, v + d);
    ProdGrows(l, v, u + d);
    ProdSum(l, v, d);
    ProdSum(l, u, d);
    hide Prod;
  }

  lemma ProdSum(l: real, x: real, y: real)
    ensures Prod(l, x + y) == Prod(l, x) + Prod(l, y)
  {
  }

  lemma MinSlope(u: real, v: real, u': real, v': real, d: real)
    requires AbsOf(u - u') <= d && AbsOf(v - v') <= d
    ensures AbsOf(Min(u, v) - Min(u', v')) <= d
  {
  }

  lemma {:induction false} LowestSlope(f: Fpu, l: real, probes: seq<Probe>, a: seq<real>, b: seq<real>)
    requires Rooted(f) && l >= 0.0 && |probes| > 0 && |a| == |b| && SameDims(probes, |a|)
    ensures AbsOf(LowestCone(f, l, probes, a) - LowestCone(f, l, probes, b)) <= Prod(l, Dist(f, a, b))
  {
    hide Cone;
    hide Prod;
    hide Dist;
    hide Rooted;
    var last := probes[|probes| - 1];
    ConeSlope(f, l, last, a, b);
    if |probes| > 1 {
      var front := probes[..|probes| - 1];
      LowestSlope(f, l, front, a, b);
      MinSlope(LowestCone(f, l, front, a), Cone(f, l, last, a), LowestCone(f, l, front, b), Cone(f, l, last, b),
               Prod(l, Dist(f, a, b)));
    }
  }

  /** No two probes differ by more than the slope allows. */
  ghost predicate Gentle(f: Fpu, l: real, probes: seq<Probe>, n: nat)
    requires SameDims(probes, n)
  {
    forall i, j :: 0 <= i < |probes| && 0 <= j < |probes| ==>
      AbsOf(probes[i].y - probes[j].y) <= Prod(l, Dist(f, probes[i].x, probes[j].x))
  }

  lemma {:induction false} LowestBounds(f: Fpu, l: real, probes: seq<Probe>, x: seq<real>, y: real, i: nat)
    requires |probes| > 0 && SameDims(probes, |x|)
    ensures i < |probes| ==> LowestCone(f, l, probes, x) <= Cone(f, l, probes[i], x)
    ensures (forall k :: 0 <= k < |probes| ==> y <= Cone(f, l, probes[k], x)) ==> y <= LowestCone(f, l, probes, x)
  {
    hide Cone;
    if |probes| > 1 {
      var front := probes[..|probes| - 1];
      LowestBounds(f, l, front, x, y, i);
      if forall k :: 0 <= k < |probes| ==> y <= Cone(f, l, probes[k], x) {
        assert forall k :: 0 <= k < |front| ==> front[k] == probes[k];
      }
    }
  }

  /** The lowest of the cones goes through every probe. */
  lemma LowestFits(f: Fpu, l: real, probes: seq<Probe>, n: nat, j: nat)
    requires Rooted(f) && SameDims(probes, n) && Gentle(f, l, probes, n) && j < |probes|
    ensures LowestCone(f, l, probes, probes[j].x) == probes[j].y
  {
    var p := probes[j];
    DistMeaning(f, p.x, p.x);
    assert Prod(l, 0.0) == 0.0;
    forall k | 0 <= k < |probes|
      ensures p.y <= Cone(f, l, probes[k], p.x)
    {
      assert AbsOf(p.y - probes[k].y) <= Prod(l, Dist(f, p.x, probes[k].x));
    }
    hide Dist;
    hide Prod;
    LowestBounds(f, l, probes, p.x, p.y, j);
  }

  /** Probes at one place agree. */
  predicate Consistent(probes: seq<Probe>) {
    forall i, j :: 0 <= i < j < |probes| && probes[i].x == probes[j].x ==> probes[i].y == probes[j].y
  }

  lemma PairGentle(f: Fpu, l: real, p: Probe, q: Probe)
    requires Rooted(f) && l >= 0.0 && |p.x| == |q.x| && !TooSteep(f, l, p, q) && (p.x == q.x ==> p.y == q.y)
    ensures AbsOf(p.y - q.y) <= Prod(l, Dist(f, p.x, q.x))
  {
    DistMeaning(f, p.x, q.x);
    var d := Dist(f, p.x, q.x);
    hide Dist;
    if d > 0.0 { BelowQuot(AbsOf(p.y - q.y), d, l); }
  }

  lemma BelowQuot(x: real, d: real, l: real)
    requires d > 0.0 && Quot(x, d) <= l
    ensures x <= Prod(l, d)
  {
    var q := x / d;
    assert q * d == x;
    assert (l - q) * d >= 0.0;
  }

  lemma AllGentle(f: Fpu, l: real, probes: seq<Probe>, n: nat)
    requires Rooted(f) && l >= 0.0 && SameDims(probes, n) && !Refuted(f, l, probes, n) && Consistent(probes)
    ensures Gentle(f, l, probes, n)
  {
    hide TooSteep;
    hide Dist;
    hide Prod;
    forall i, j | 0 <= i < |probes| && 0 <= j < |probes|
      ensures AbsOf(probes[i].y - probes[j].y) <= Prod(l, Dist(f, probes[i].x, probes[j].x))
    {
      DistMeaning(f, probes[i].x, probes[j].x);
      if i < j { PairGentle(f, l, probes[i], probes[j]); }
      if j < i { PairGentle(f, l, probes[j], probes[i]); }
      if i == j { NoRise(l, Dist(f, probes[i].x, probes[j].x)); }
    }
  }

  lemma NoRise(l: real, d: real)
    requires l >= 0.0 && d >= 0.0
    ensures Prod(l, d) >= 0.0
  {
  }

  /** The claim is not refuted and probes at one place agree exactly when some function with that slope
      goes through all probes. */
  lemma RefutedExactly(f: Fpu, l: real, probes: seq<Probe>, n: nat)
    requires Rooted(f) && l >= 0.0 && |probes| > 0 && SameDims(probes, n)
    ensures !Refuted(f, l, probes, n) && Consistent(probes) <==> exists h :: Hidden(f, h, l, probes, n, ENTIRE)
  {
    hide Refuted;
    hide Dist;
    hide Prod;
    if h :| Hidden(f, h, l, probes, n, ENTIRE) {
      NeverRefuted(f, h, l, probes, n, ENTIRE);
    }
    if !Refuted(f, l, probes, n) && Consistent(probes) {
      AllGentle(f, l, probes, n);
      var h := (x: seq<real>) => if |x| == n then LowestCone(f, l, probes, x) else 0.0;
      hide LowestCone;
      hide Rooted;
      forall a, b | |a| == n && |b| == n
        ensures AbsOf(h(a) - h(b)) <= Prod(l, Dist(f, a, b))
      {
        LowestSlope(f, l, probes, a, b);
      }
      forall i | 0 <= i < |probes|
        ensures h(probes[i].x) == probes[i].y
      {
        LowestFits(f, l, probes, n, i);
      }
      assert Hidden(f, h, l, probes, n, ENTIRE);
    }
  }

  /** Two values at one place fit no function and are not refuted. */
  lemma ClashUnrefuted(f: Fpu, l: real, x: seq<real>)
    requires Rooted(f) && l >= 0.0
    ensures var probes := [Probe(x, 0.0), Probe(x, 1.0)];
      SameDims(probes, |x|) && !Refuted(f, l, probes, |x|) && !exists h :: Hidden(f, h, l, probes, |x|, ENTIRE)
  {
    var probes := [Probe(x, 0.0), Probe(x, 1.0)];
    DistMeaning(f, x, x);
    assert probes[0].x == probes[1].x && probes[0].y != probes[1].y && !Consistent(probes);
    hide Dist;
    RefutedExactly(f, l, probes, |x|);
  }

  // ----- how wide a band must be -----

  /** The point reached from p through c, going on past c by t times as far. */
  function Beyond(p: seq<real>, c: seq<real>, t: real): (z: seq<real>)
    requires |p| == |c|
    ensures |z| == |c| && forall k :: 0 <= k < |z| ==> z[k] == c[k] + Prod(t, c[k] - p[k])
  {
    seq(|c|, k requires 0 <= k < |c| => c[k] + Prod(t, c[k] - p[k]))
  }

  lemma Stretched(t: real, x: real, y: real)
    ensures Square(Prod(t, x)) + Prod(Square(t), y) == Prod(Square(t), Square(x) + y)
    ensures Square(x + Prod(t, x)) == Square(Prod(1.0 + t, x))
  {
  }

  lemma {:induction false} BeyondDist2(p: seq<real>, c: seq<real>, t: real, n: nat)
    requires |p| == |c| && n <= |c|
    ensures Dist2(Beyond(p, c, t), c, n) == Prod(Square(t), Dist2(c, p, n))
    ensures Dist2(Beyond(p, c, t), p, n) == Prod(Square(1.0 + t), Dist2(c, p, n))
  {
    hide Prod;
    hide Square;
    hide Beyond;
    if n == 0 {
      NoStretch(t);
    } else {
      BeyondDist2(p, c, t, n - 1);
      var x := c[n - 1] - p[n - 1];
      Stretched(t, x, Dist2(c, p, n - 1));
      Stretched(1.0 + t, x, Dist2(c, p, n - 1));
      assert Beyond(p, c, t)[n - 1] - c[n - 1] == Prod(t, x);
      assert Beyond(p, c, t)[n - 1] - p[n - 1] == x + Prod(t, x);
    }
  }

  lemma NoStretch(t: real)
    ensures Prod(Square(t), 0.0) == 0.0 && Prod(Square(1.0 + t), 0.0) == 0.0
  {
  }

  lemma RootIs(f: Fpu, x: real, y: real)
    requires Rooted(f) && y >= 0.0 && Square(y) == x
    ensures f.sqrt(x) == y
  {
    SquareNonNegative(y);
    SquareOrder(f.sqrt(x), y);
    SquareOrder(y, f.sqrt(x));
  }

  lemma SquareProd(t: real, d: real)
    ensures Square(Prod(t, d)) == Prod(Square(t), Square(d))
  {
  }

  lemma BeyondDist(f: Fpu, p: seq<real>, c: seq<real>, t: real)
    requires Rooted(f) && |p| == |c| && t >= 0.0
    ensures Dist(f, Beyond(p, c, t), c) == Prod(t, Dist(f, c, p))
    ensures Dist(f, Beyond(p, c, t), p) == Prod(1.0 + t, Dist(f, c, p))
  {
    hide Prod;
    hide Square;
    hide Beyond;
    var d := Dist(f, c, p);
    BeyondDist2(p, c, t, |c|);
    SquareProd(t, d);
    SquareProd(1.0 + t, d);
    ProductNonNegative(t, d);
    ProductNonNegative(1.0 + t, d);
    RootIs(f, Dist2(Beyond(p, c, t), c, |c|), Prod(t, d));
    RootIs(f, Dist2(Beyond(p, c, t), p, |c|), Prod(1.0 + t, d));
  }

  lemma {:induction false} CornerDist(ins: seq<Ival>, z: seq<real>, n: nat)
    requires n <= |ins| == |z| && AllFinite(ins) && forall k :: 0 <= k < |ins| ==> z[k] == ins[k].hi.r
    ensures Dist2(z, Centre(ins), n) == HalfDiag2(ins, n)
  {
    hide Square;
    if n > 0 { CornerDist(ins, z, n - 1); }
  }

  /** A point as far from the centre as the box's corners, and from the probe as far as a band assumes. */
  lemma FarPoint(f: Fpu, ins: seq<Ival>, p: seq<real>) returns (z: seq<real>)
    requires Rooted(f) && AllFinite(ins) && |p| == |ins|
    ensures |z| == |ins| && Dist(f, z, Centre(ins)) == f.sqrt(HalfDiag2(ins, |ins|))
    ensures Dist(f, z, p) == Dist(f, Centre(ins), p) + f.sqrt(HalfDiag2(ins, |ins|))
  {
    var c, r := Centre(ins), f.sqrt(HalfDiag2(ins, |ins|));
    DistMeaning(f, c, p);
    if c == p {
      z := seq(|ins|, k requires 0 <= k < |ins| => ins[k].hi.r);
      CornerDist(ins, z, |ins|);
    } else {
      var d := Dist(f, c, p);
      var t := r / d;
      assert t * d == r && t >= 0.0;
      z := Beyond(p, c, t);
      BeyondDist(f, p, c, t);
      hide Dist;
      assert Prod(1.0 + t, d) == d + t * d;
    }
  }

  /** The band of a probe is no wider than it must be for the ball around the box: at some point of the
      ball the cone over the probe, which is as flat as claimed, takes the upper end. */
  lemma BandTight(f: Fpu, l: real, ins: seq<Ival>, p: Probe) returns (z: seq<real>)
    requires Exact(f) && Rooted(f) && l >= 0.0 && AllFinite(ins) && |p.x| == |ins|
    requires forall k :: 0 <= k < |ins| ==> I.Proper(ins[k])
    ensures |z| == |ins| && Dist(f, z, Centre(ins)) == f.sqrt(HalfDiag2(ins, |ins|))
    ensures Band(f, l, ins, p) == Ival(Fin(2.0 * p.y - Cone(f, l, p, z)), Fin(Cone(f, l, p, z)))
  {
    hide Prod;
    hide Dist2;
    hide HalfDiag2;
    hide FarX;
    hide RadX;
    RadExact(f, ins, |ins|);
    FarExact(ins, p.x, |ins|);
    z := FarPoint(f, ins, p.x);
    var d := Dist(f, z, p.x);
    assert DistX(f, ins, p) == Fin(d);
    DistMeaning(f, z, p.x);
    BandEnds(f, l, p.y, d);
  }

  lemma BandEnds(f: Fpu, l: real, y: real, d: real)
    requires Exact(f) && l >= 0.0 && d >= 0.0
    ensures I.Add(f, Point(Fin(y)), Of(X.Mul(Fin(-l), Fin(d)), X.Mul(Fin(l), Fin(d))))
         == Ival(Fin(y - Prod(l, d)), Fin(y + Prod(l, d)))
  {
    assert Prod(-l, d) == -Prod(l, d);
    NoRise(l, d);
    hide Prod;
  }
}
