/** What square-and-multiply gives for an interval's integer power, and when that is just its points' powers. */
module PowerRanges {
  import X = ExtReal
  import opened ExtReal
  import opened Interval
  import opened Reals
  import opened Ranges

  // ----- powers of numbers -----

  lemma ProdBelow(a: real, b: real, c: real, d: real)
    requires 0.0 <= a < b && 0.0 <= c <= d && d > 0.0
    ensures 0.0 <= Prod(a, c) < Prod(b, d)
  {
    assert b * d - a * c == (b - a) * d + a * (d - c);
    Positive(b - a, d);
    FarSign(a, d - c);
    FarSign(a, c);
  }

  lemma {:induction false} PowGrows(x: real, y: real, n: nat)
    requires 0.0 <= x < y
    ensures 0.0 <= RealPow(x, n) <= RealPow(y, n) && RealPow(y, n) > 0.0 && (n > 0 ==> RealPow(x, n) < RealPow(y, n))
  {
    hide Prod;
    if n > 0 {
      PowGrows(x, y, n - 1);
      ProdBelow(x, y, RealPow(x, n - 1), RealPow(y, n - 1));
    }
  }

  lemma ProdPositive(x: real, y: real)
    requires x > 0.0 && y > 0.0
    ensures Prod(x, y) > 0.0
  {
    Positive(x, y);
  }

  lemma ProdNegs(x: real, y: real)
    ensures Prod(-x, y) == -Prod(x, y) && Prod(x, -y) == -Prod(x, y) && Prod(-x, -y) == Prod(x, y)
  {
  }

  lemma {:induction false} PowOpposite(x: real, n: nat)
    ensures RealPow(-x, n) == if n % 2 == 0 then RealPow(x, n) else -RealPow(x, n)
  {
    hide Prod;
    if n > 0 {
      PowOpposite(x, n - 1);
      ProdNegs(x, RealPow(x, n - 1));
    }
  }

  lemma PowAtLeastZero(x: real, n: nat)
    requires x >= 0.0
    ensures RealPow(x, n) >= 0.0 && (x > 0.0 ==> RealPow(x, n) > 0.0)
  {
    PowGrows(0.0, if x > 0.0 then x else 1.0, n);
  }

  lemma {:induction false} PowOfZero(n: nat)
    requires n > 0
    ensures RealPow(0.0, n) == 0.0
  {
    if n > 1 { PowOfZero(n - 1); }
  }

  lemma OddGrows(x: real, y: real, n: nat)
    requires x < y && n % 2 == 1
    ensures RealPow(x, n) < RealPow(y, n)
  {
    PowOpposite(x, n);
    PowOpposite(y, n);
    PowOfZero(n);
    if x >= 0.0 {
      PowGrows(x, y, n);
    } else if y <= 0.0 {
      PowGrows(-y, -x, n);
    } else {
      PowGrows(0.0, -x, n);
      PowAtLeastZero(y, n);
    }
    hide RealPow;
  }

  lemma PowOne(x: real)
    ensures RealPow(x, 1) == x
  {
    ProdOne(x);
    assert RealPow(x, 1) == Prod(x, RealPow(x, 0));
  }

  // ----- intervals without negative numbers -----

  /** The power of an upper end. */
  function TopPow(h: XR, n: nat): XR {
    if h.Fin? then Fin(RealPow(h.r, n)) else if n == 0 then Fin(1.0) else h
  }

  /** Two factors without negative numbers whose product meets no zero times infinity. */
  predicate Steady(r: Ival, b: Ival) {
    && Proper(r) && Proper(b) && Le(ZERO, r.lo) && Le(ZERO, b.lo)
    && ((Finite(r) && Finite(b)) || (Lt(ZERO, r.lo) && Lt(ZERO, b.lo)))
  }

  lemma SteadyMul(f: Fpu, r: Ival, b: Ival)
    requires Exact(f) && Steady(r, b)
    ensures Interval.Mul(f, r, b) == Ival(Fin(Prod(r.lo.r, b.lo.r)), X.Mul(r.hi, b.hi))
    ensures !X.Mul(r.hi, b.hi).NaN? && !X.Mul(r.hi, b.hi).NegInf?
    ensures 0.0 <= Prod(r.lo.r, b.lo.r) && (Lt(ZERO, r.lo) && Lt(ZERO, b.lo) ==> Prod(r.lo.r, b.lo.r) > 0.0)
    ensures Le(Fin(Prod(r.lo.r, b.lo.r)), X.Mul(r.hi, b.hi)) && (Finite(r) && Finite(b) ==> X.Mul(r.hi, b.hi).Fin?)
  {
    hide Prod;
    var (p, q) := (r.lo.r, b.lo.r);
    ProdSign(p, q);
    if p > 0.0 && q > 0.0 { ProdPositive(p, q); }
    if r.hi.Fin? { CornerLow(p, q, r.hi.r, q); ProdSign(r.hi.r, q); }
    if b.hi.Fin? { CornerLow(p, q, p, b.hi.r); ProdSign(p, b.hi.r); }
    if r.hi.Fin? && b.hi.Fin? {
      CornerLow(p, b.hi.r, r.hi.r, b.hi.r);
      CornerLow(r.hi.r, q, r.hi.r, b.hi.r);
    }
  }

  /** The loop multiplies lower ends with lower ends and upper ends with upper ends. */
  ghost predicate SteadyEnds(m: Ival, r: Ival, b: Ival, e: nat)
    requires Steady(r, b)
  {
    && m.lo == Fin(Prod(r.lo.r, RealPow(b.lo.r, e)))
    && (r.hi.Fin? && b.hi.Fin? ==> m.hi == Fin(Prod(r.hi.r, RealPow(b.hi.r, e))))
    && (r.hi.PosInf? || (b.hi.PosInf? && e > 0) ==> m.hi.PosInf?)
  }

  /** One round of the loop. */
  function NextR(f: Fpu, r: Ival, b: Ival, e: nat): Ival { if e % 2 == 1 then Interval.Mul(f, r, b) else r }

  function NextB(f: Fpu, b: Ival, e: nat): Ival { if e / 2 > 0 then Interval.Mul(f, b, b) else b }

  lemma LoopRound(f: Fpu, r: Ival, b: Ival, e: nat)
    requires e > 0
    ensures PowLoop(f, r, b, e) == PowLoop(f, NextR(f, r, b, e), NextB(f, b, e), e / 2)
  {
  }

  lemma SteadyRound(f: Fpu, r: Ival, b: Ival, e: nat)
    requires Exact(f) && Steady(r, b) && e > 0
    ensures Steady(NextR(f, r, b, e), NextB(f, b, e))
    ensures forall m :: SteadyEnds(m, NextR(f, r, b, e), NextB(f, b, e), e / 2) ==> SteadyEnds(m, r, b, e)
  {
    hide Prod;
    hide RealPow;
    SteadyMul(f, r, b);
    SteadyMul(f, b, b);
    hide Interval.Mul;
    hide X.Mul;
    var (r', b') := (NextR(f, r, b, e), NextB(f, b, e));
    ProdFin(r.hi, b.hi);
    ProdFin(b.hi, b.hi);
    assert Steady(r', b');
    PowHalve(r.lo.r, b.lo.r, e, r'.lo.r, b'.lo.r);
    if r.hi.Fin? && b.hi.Fin? { PowHalve(r.hi.r, b.hi.r, e, r'.hi.r, b'.hi.r); }
  }

  lemma ProdFin(x: XR, y: XR)
    ensures x.Fin? && y.Fin? ==> X.Mul(x, y) == Fin(Prod(x.r, y.r))
    ensures (x.PosInf? && (y.PosInf? || Lt(ZERO, y))) || (y.PosInf? && Lt(ZERO, x)) ==> X.Mul(x, y) == PosInf
  {
  }

  lemma {:induction false} SteadyLoop(f: Fpu, r: Ival, b: Ival, e: nat)
    requires Exact(f) && Steady(r, b)
    ensures SteadyEnds(PowLoop(f, r, b, e), r, b, e)
    decreases e
  {
    if e == 0 {
      ProdOne(r.lo.r);
      if r.hi.Fin? { ProdOne(r.hi.r); }
      hide Prod;
    } else {
      hide *;
      hide Steady;
      SteadyRound(f, r, b, e);
      SteadyLoop(f, NextR(f, r, b, e), NextB(f, b, e), e / 2);
      LoopRound(f, r, b, e);
    }
  }

  /** An interval without negative numbers, and if unbounded without zero. */
  predicate Firm(a: Ival) { Proper(a) && Le(ZERO, a.lo) && (Finite(a) || Lt(ZERO, a.lo)) }

  lemma FirmPower(f: Fpu, a: Ival, n: nat)
    requires Exact(f) && Firm(a) && n > 0
    ensures PosPow(f, a, n).lo == Fin(RealPow(a.lo.r, n))
    ensures PosPow(f, a, n).hi == TopPow(a.hi, n)
  {
    hide Prod;
    hide RealPow;
    SteadyLoop(f, Unit(), a, n);
    ProdOne(RealPow(a.lo.r, n));
    if a.hi.Fin? { ProdOne(RealPow(a.hi.r, n)); }
    hide PowLoop;
  }

  // ----- intervals without positive numbers -----

  lemma SteadyCorners(r: Ival, b: Ival)
    requires Steady(r, b)
    ensures Ordered(X.Mul(r.lo, b.lo), X.Mul(r.lo, b.hi), X.Mul(r.hi, b.lo), X.Mul(r.hi, b.hi))
  {
    hide Prod;
    var (p, q) := (r.lo.r, b.lo.r);
    if r.hi.Fin? { CornerLow(p, q, r.hi.r, q); }
    if b.hi.Fin? { CornerLow(p, q, p, b.hi.r); }
    if r.hi.Fin? && b.hi.Fin? {
      CornerLow(p, b.hi.r, r.hi.r, b.hi.r);
      CornerLow(r.hi.r, q, r.hi.r, b.hi.r);
    }
  }

  predicate Ordered(p1: XR, p2: XR, p3: XR, p4: XR) { Le(p1, p2) && Le(p1, p3) && Le(p2, p4) && Le(p3, p4) }

  lemma OrderedEnds(p1: XR, p2: XR, p3: XR, p4: XR)
    requires Ordered(p1, p2, p3, p4)
    ensures Min4(p1, p2, p3, p4) == p1 && Max4(p1, p2, p3, p4) == p4
    ensures Min4(p4, p3, p2, p1) == p1 && Max4(p4, p3, p2, p1) == p4
  {
  }

  lemma MirroredEnds(p1: XR, p2: XR, p3: XR, p4: XR)
    requires Ordered(p1, p2, p3, p4)
    ensures Min4(X.Neg(p3), X.Neg(p4), X.Neg(p1), X.Neg(p2)) == X.Neg(p4)
    ensures Max4(X.Neg(p3), X.Neg(p4), X.Neg(p1), X.Neg(p2)) == X.Neg(p1)
  {
  }

  lemma MulNegs(x: XR, y: XR)
    ensures X.Mul(X.Neg(x), y) == X.Neg(X.Mul(x, y)) && X.Mul(X.Neg(x), X.Neg(y)) == X.Mul(x, y)
  {
    hide Prod;
    if x.Fin? && y.Fin? { ProdNegs(x.r, y.r); }
  }

  lemma MulShape(f: Fpu, a: Ival, b: Ival)
    requires Exact(f) && !IsEmpty(a) && !IsEmpty(b)
    ensures var p1, p2, p3, p4 := X.Mul(a.lo, b.lo), X.Mul(a.lo, b.hi), X.Mul(a.hi, b.lo), X.Mul(a.hi, b.hi);
      Interval.Mul(f, a, b) == Ival(Min4(p1, p2, p3, p4), Max4(p1, p2, p3, p4))
  {
    hide X.Mul;
    hide Min4;
    hide Max4;
  }

  lemma NegMul(f: Fpu, r: Ival, b: Ival)
    requires Exact(f) && Steady(r, b)
    ensures Interval.Mul(f, Interval.Neg(r), b) == Interval.Neg(Interval.Mul(f, r, b))
    ensures Interval.Mul(f, Interval.Neg(r), Interval.Neg(b)) == Interval.Mul(f, r, b)
  {
    SteadyCorners(r, b);
    hide X.Mul;
    OrderedEnds(X.Mul(r.lo, b.lo), X.Mul(r.lo, b.hi), X.Mul(r.hi, b.lo), X.Mul(r.hi, b.hi));
    MirroredEnds(X.Mul(r.lo, b.lo), X.Mul(r.lo, b.hi), X.Mul(r.hi, b.lo), X.Mul(r.hi, b.hi));
    MulNegs(r.lo, b.lo);
    MulNegs(r.lo, b.hi);
    MulNegs(r.hi, b.lo);
    MulNegs(r.hi, b.hi);
    MulShape(f, r, b);
    MulShape(f, Interval.Neg(r), b);
    MulShape(f, Interval.Neg(r), Interval.Neg(b));
    hide Interval.Mul;
    hide Min4;
    hide Max4;
  }

  lemma {:induction false} NegLoop(f: Fpu, r: Ival, b: Ival, e: nat)
    requires Exact(f) && Steady(r, b)
    ensures PowLoop(f, Interval.Neg(r), b, e) == Interval.Neg(PowLoop(f, r, b, e))
    decreases e
  {
    hide Interval.Mul;
    hide Steady;
    hide Exact;
    hide Interval.Neg;
    if e > 0 {
      SteadyRound(f, r, b, e);
      NegMul(f, r, b);
      NegLoop(f, NextR(f, r, b, e), NextB(f, b, e), e / 2);
    }
  }

  /** Even powers forget the sign, odd ones keep it. */
  lemma MirrorPower(f: Fpu, a: Ival, n: nat)
    requires Exact(f) && Firm(a) && n > 0
    ensures PosPow(f, Interval.Neg(a), n) == if n % 2 == 0 then PosPow(f, a, n) else Interval.Neg(PosPow(f, a, n))
  {
    var na := Interval.Neg(a);
    assert !(Lt(na.lo, ZERO) && Lt(ZERO, na.hi));
    UnitMul(f, a);
    UnitMul(f, na);
    NegMul(f, a, a);
    hide Interval.Mul;
    if n == 1 {
      assert PowLoop(f, a, a, 0) == a && PowLoop(f, na, na, 0) == na;
    } else if n % 2 == 1 {
      SteadyRound(f, Unit(), a, n);
      NegLoop(f, a, Interval.Mul(f, a, a), n / 2);
    }
  }

  // ----- intervals on both sides of zero -----

  predicate Straddles(a: Ival) { Lt(a.lo, ZERO) && Lt(ZERO, a.hi) }

  predicate Lean(r: Ival) { Finite(r) && AbsOf(r.lo.r) <= r.hi.r && r.hi.r > 0.0 }

  lemma ProdWithin(x: real, y: real, p: real, q: real)
    requires AbsOf(x) <= p && AbsOf(y) <= q
    ensures -Prod(p, q) <= Prod(x, y) <= Prod(p, q)
  {
    if x >= 0.0 {
      OppositeWithin(x, y, p, q);
    } else {
      OppositeWithin(-x, y, p, q);
      ProdNegs(x, y);
    }
  }

  lemma OppositeWithin(x: real, y: real, p: real, q: real)
    requires 0.0 <= x <= p && AbsOf(y) <= q
    ensures -Prod(p, q) <= Prod(x, y) <= Prod(p, q)
  {
    assert p * q - x * y == (p - x) * q + x * (q - y);
    assert p * q + x * y == (p - x) * q + x * (q + y);
    FarSign(p - x, q);
    FarSign(x, q - y);
    FarSign(x, q + y);
  }

  lemma LeanMul(f: Fpu, r: Ival, b: Ival)
    requires Exact(f) && Lean(r) && Lean(b)
    ensures Lean(Interval.Mul(f, r, b)) && Interval.Mul(f, r, b).hi == Fin(Prod(r.hi.r, b.hi.r))
  {
    hide Prod;
    var (p, q) := (r.hi.r, b.hi.r);
    ProdWithin(r.lo.r, b.lo.r, p, q);
    ProdWithin(r.lo.r, q, p, q);
    ProdWithin(p, b.lo.r, p, q);
    ProdPositive(p, q);
  }

  lemma {:induction false} LeanLoop(f: Fpu, r: Ival, b: Ival, e: nat)
    requires Exact(f) && Lean(r) && Lean(b)
    ensures PowLoop(f, r, b, e).hi == Fin(Prod(r.hi.r, RealPow(b.hi.r, e)))
    decreases e
  {
    if e == 0 {
      ProdOne(r.hi.r);
    } else {
      hide Interval.Mul;
      hide Prod;
      LeanMul(f, r, b);
      LeanMul(f, b, b);
      hide Lean;
      LoopRound(f, r, b, e);
      var (r', b') := (NextR(f, r, b, e), NextB(f, b, e));
      PowHalve(r.hi.r, b.hi.r, e, r'.hi.r, b'.hi.r);
      LeanLoop(f, r', b', e / 2);
    }
  }

  /** The greater of the two distances from zero. */
  function Reach(p: real, q: real): real { if p < q then q else p }

  function Span(p: real, q: real): Ival { Ival(Fin(-p), Fin(q)) }

  lemma SpanSquare(f: Fpu, p: real, q: real)
    requires Exact(f) && p > 0.0 && q > 0.0
    ensures var m := Reach(p, q); Interval.Mul(f, Span(p, q), Span(p, q)) == Span(Prod(p, q), Prod(m, m))
    ensures Prod(p, q) > 0.0 && Prod(Reach(p, q), Reach(p, q)) > 0.0
    ensures Lean(Span(Prod(p, q), Prod(Reach(p, q), Reach(p, q))))
  {
    hide Prod;
    var m := Reach(p, q);
    ProdNegs(p, q);
    ProdNegs(p, p);
    ProdSwap(p, q);
    ProdNegs(q, p);
    ProdPositive(p, q);
    ProdPositive(m, m);
    ProdWithin(p, q, m, m);
    ProdWithin(p, p, m, m);
    ProdWithin(q, q, m, m);
    ProdSign(p, p);
    ProdSign(q, q);
  }

  /** The even powers of an interval on both sides of zero. */
  lemma SpanEvenPower(f: Fpu, p: real, q: real, n: nat)
    requires Exact(f) && p > 0.0 && q > 0.0 && n > 0 && n % 2 == 0
    ensures PosPow(f, Span(p, q), n) == Ival(ZERO, Fin(RealPow(Reach(p, q), n)))
  {
    hide Prod;
    var (a, m) := (Span(p, q), Reach(p, q));
    SpanSquare(f, p, q);
    var b := Interval.Mul(f, a, a);
    LoopRound(f, Unit(), a, n);
    hide Interval.Mul;
    LeanLoop(f, Unit(), b, n / 2);
    PowSquare(m, n / 2);
    ProdOne(RealPow(m, n));
    hide PowLoop;
    hide RealPow;
  }

  /** The square's lower end is near enough to zero not to matter. */
  predicate Minor(p: real, q: real, u: real, w: real) {
    u >= 0.0 && w > 0.0 && Prod(p, u) <= Prod(q, w) && Prod(q, u) <= Prod(p, w)
  }

  lemma MinorBelow(p: real, q: real, u: real, w: real)
    requires p > 0.0 && q > 0.0 && Minor(p, q, u, w)
    ensures u <= w
  {
    assert (p + q) * u <= (p + q) * w;
    if u > w { Positive(p + q, u - w); }
  }

  lemma MinorScaled(p: real, q: real, u: real, w: real, s: real)
    requires p > 0.0 && q > 0.0 && Minor(p, q, u, w) && s > 0.0
    ensures Prod(Prod(p, s), u) <= Prod(Prod(q, s), w) && Prod(Prod(q, s), u) <= Prod(Prod(p, s), w)
  {
    assert q * s * w - p * s * u == s * (q * w - p * u);
    assert p * s * w - q * s * u == s * (p * w - q * u);
    FarSign(s, q * w - p * u);
    FarSign(s, p * w - q * u);
  }

  lemma SpanMul(f: Fpu, p: real, q: real, u: real, w: real)
    requires Exact(f) && p > 0.0 && q > 0.0 && u >= 0.0 && w > 0.0
    requires Prod(p, u) <= Prod(q, w) && Prod(q, u) <= Prod(p, w)
    ensures Interval.Mul(f, Span(p, q), Span(u, w)) == Span(Prod(p, w), Prod(q, w))
  {
    hide Prod;
    ProdNegs(p, u);
    ProdNegs(p, w);
    ProdNegs(q, u);
    ProdSign(p, u);
    ProdSign(p, w);
    ProdSign(q, u);
    ProdSign(q, w);
  }

  lemma SpanSquareDown(f: Fpu, u: real, w: real)
    requires Exact(f) && 0.0 <= u <= w && w > 0.0
    ensures Interval.Mul(f, Span(u, w), Span(u, w)) == Span(Prod(u, w), Prod(w, w))
  {
    hide Prod;
    ProdNegs(u, u);
    ProdNegs(u, w);
    ProdNegs(w, u);
    ProdSwap(u, w);
    ProdSign(u, w);
    ProdWithin(u, u, w, w);
    ProdSign(w, w);
    ProdSign(u, u);
  }

  lemma MinorSquare(p: real, q: real, u: real, w: real)
    requires p > 0.0 && q > 0.0 && Minor(p, q, u, w)
    ensures Minor(p, q, Prod(u, w), Prod(w, w))
  {
    hide Prod;
    MinorScaled(p, q, u, w, w);
    ProdAssoc(p, w, u);
    ProdAssoc(q, w, u);
    ProdAssoc(p, w, w);
    ProdAssoc(q, w, w);
    ProdSwap(u, w);
    ProdSign(u, w);
    ProdPositive(w, w);
  }

  /** The loop stretches the interval by powers of its wider side. */
  lemma {:induction false} WideLoop(f: Fpu, p: real, q: real, s: real, u: real, w: real, e: nat)
    requires Exact(f) && p > 0.0 && q > 0.0 && s > 0.0 && Minor(p, q, u, w)
    ensures PowLoop(f, Span(Prod(p, s), Prod(q, s)), Span(u, w), e)
         == Span(Prod(p, Prod(s, RealPow(w, e))), Prod(q, Prod(s, RealPow(w, e))))
    decreases e
  {
    hide Prod;
    if e == 0 {
      ProdOne(s);
    } else {
      hide Interval.Mul;
      var (r, b) := (Span(Prod(p, s), Prod(q, s)), Span(u, w));
      WideRound(f, p, q, s, u, w);
      LoopRound(f, r, b, e);
      hide PowLoop;
      hide Minor;
      var (s', u', w') := (if e % 2 == 1 then Prod(s, w) else s, if e / 2 > 0 then Prod(u, w) else u,
                           if e / 2 > 0 then Prod(w, w) else w);
      PowHalve(s, w, e, s', w');
      WideLoop(f, p, q, s', u', w', e / 2);
    }
  }

  lemma WideRound(f: Fpu, p: real, q: real, s: real, u: real, w: real)
    requires Exact(f) && p > 0.0 && q > 0.0 && s > 0.0 && Minor(p, q, u, w)
    ensures Interval.Mul(f, Span(Prod(p, s), Prod(q, s)), Span(u, w))
         == Span(Prod(p, Prod(s, w)), Prod(q, Prod(s, w)))
    ensures Interval.Mul(f, Span(u, w), Span(u, w)) == Span(Prod(u, w), Prod(w, w))
    ensures Minor(p, q, Prod(u, w), Prod(w, w)) && Prod(s, w) > 0.0
  {
    hide Prod;
    MinorScaled(p, q, u, w, s);
    ProdPositive(p, s);
    ProdPositive(q, s);
    ProdPositive(s, w);
    ProdAssoc(p, s, w);
    ProdAssoc(q, s, w);
    MinorBelow(p, q, u, w);
    MinorSquare(p, q, u, w);
    hide Interval.Mul;
    SpanMul(f, Prod(p, s), Prod(q, s), u, w);
    SpanSquareDown(f, u, w);
  }

  /** The odd powers, from the third on, of an interval on both sides of zero. */
  lemma SpanOddPower(f: Fpu, p: real, q: real, n: nat)
    requires Exact(f) && p > 0.0 && q > 0.0 && n >= 3 && n % 2 == 1
    ensures var far := RealPow(Reach(p, q), n - 1); PosPow(f, Span(p, q), n) == Span(Prod(p, far), Prod(q, far))
  {
    hide Prod;
    var (a, m) := (Span(p, q), Reach(p, q));
    SpanSquare(f, p, q);
    StartMinor(p, q);
    UnitMul(f, a);
    LoopRound(f, Unit(), a, n);
    hide Interval.Mul;
    ProdOne(p);
    ProdOne(q);
    WideLoop(f, p, q, 1.0, Prod(p, q), Prod(m, m), n / 2);
    PowSquare(m, n / 2);
    ProdOne(RealPow(m, n - 1));
    hide PowLoop;
    hide RealPow;
  }

  lemma StartMinor(p: real, q: real)
    requires p > 0.0 && q > 0.0
    ensures Minor(p, q, Prod(p, q), Prod(Reach(p, q), Reach(p, q)))
  {
    hide Prod;
    var m := Reach(p, q);
    ProdPositive(p, q);
    ProdPositive(m, m);
    ProdAssoc(p, p, q);
    ProdAssoc(q, q, p);
    ProdSwap(p, q);
    ProdSwap(q, Prod(m, m));
    ProdSwap(p, Prod(m, m));
    ProdWithin(p, p, m, m);
    ProdWithin(q, q, m, m);
    ProdSign(p, p);
    ProdSign(q, q);
    CornerHigh(Prod(m, m), q, Prod(p, p), q);
    CornerHigh(Prod(m, m), p, Prod(q, q), p);
  }

  lemma EntireMuls(f: Fpu, a: Ival)
    requires Exact(f) && Proper(a) && Straddles(a)
    ensures Interval.Mul(f, a, ENTIRE) == ENTIRE && Interval.Mul(f, Unit(), ENTIRE) == ENTIRE
    ensures !Finite(a) ==> Interval.Mul(f, a, a) == ENTIRE
  {
    if a.lo.Fin? { ProdNegs(a.lo.r, a.lo.r); }
  }

  lemma {:induction false} EntireLoop(f: Fpu, r: Ival, e: nat)
    requires Exact(f) && (r == Unit() || (Proper(r) && Straddles(r))) && e > 0
    ensures PowLoop(f, r, ENTIRE, e) == ENTIRE
    decreases e
  {
    EntireMuls(f, if r == Unit() then ENTIRE else r);
    EntireMuls(f, ENTIRE);
    hide Interval.Mul;
    LoopRound(f, r, ENTIRE, e);
    if e > 1 {
      EntireLoop(f, NextR(f, r, ENTIRE, e), e / 2);
    }
  }

  /** An unbounded interval on both sides of zero has the whole line for its odd powers. */
  lemma EntirePower(f: Fpu, a: Ival, n: nat)
    requires Exact(f) && Proper(a) && Straddles(a) && !Finite(a) && n >= 2
    ensures PosPow(f, a, n) == if n % 2 == 0 then Ival(ZERO, PosInf) else ENTIRE
  {
    EntireMuls(f, a);
    UnitMul(f, a);
    hide Interval.Mul;
    LoopRound(f, Unit(), a, n);
    EntireLoop(f, if n % 2 == 1 then a else Unit(), n / 2);
    hide PowLoop;
  }

  // ----- which powers are just the points' powers -----

  /** Odd powers from the third on need an interval that is on one side of zero or reaches equally far to
      both; negative powers one without zero, or for odd ones the whole line. */
  predicate PowerTight(a: Ival, n: int) {
    if n >= 0 then n <= 1 || n % 2 == 0 || !Straddles(a) || a.lo == X.Neg(a.hi)
    else !HoldsZero(a) || (a == ENTIRE && n % 2 == 1)
  }

  lemma RootOf(f: Fpu, root: (real, nat) -> real, v: real, n: nat) returns (x: real)
    requires Genuine(f, root) && v >= 0.0 && n > 0
    ensures x >= 0.0 && RealPow(x, n) == v
  {
    x := root(v, n);
  }

  lemma Between(x: real, l: real, n: nat)
    requires x >= 0.0 && l >= 0.0 && n > 0
    ensures RealPow(l, n) <= RealPow(x, n) ==> l <= x
    ensures RealPow(x, n) <= RealPow(l, n) ==> x <= l
  {
    if x < l { PowGrows(x, l, n); }
    if l < x { PowGrows(l, x, n); }
    hide RealPow;
  }

  lemma FirmOnto(f: Fpu, root: (real, nat) -> real, a: Ival, n: nat, v: real) returns (x: real)
    requires Exact(f) && Genuine(f, root) && Firm(a) && n > 0 && Contains(PosPow(f, a, n), v)
    ensures Contains(a, x) && RealPow(x, n) == v
  {
    FirmPower(f, a, n);
    PowAtLeastZero(a.lo.r, n);
    hide PosPow;
    x := RootOf(f, root, v, n);
    Between(x, a.lo.r, n);
    if a.hi.Fin? { Between(x, a.hi.r, n); }
    hide RealPow;
    hide Genuine;
  }

  /** The interval that mirrors one without positive numbers. */
  lemma Mirrored(a: Ival, n: nat)
    requires Proper(a) && Le(a.hi, ZERO) && a != DOWN
    ensures Firm(Interval.Neg(a)) && a == Interval.Neg(Interval.Neg(a))
  {
  }

  lemma BelowOnto(f: Fpu, root: (real, nat) -> real, a: Ival, n: nat, v: real) returns (x: real)
    requires Exact(f) && Genuine(f, root) && Proper(a) && Le(a.hi, ZERO) && a != DOWN && n > 0
    requires Contains(PosPow(f, a, n), v)
    ensures Contains(a, x) && RealPow(x, n) == v
  {
    Mirrored(a, n);
    var na := Interval.Neg(a);
    MirrorPower(f, na, n);
    hide PosPow;
    hide Genuine;
    hide Firm;
    var y := FirmOnto(f, root, na, n, if n % 2 == 0 then v else -v);
    x := -y;
    PowOpposite(y, n);
    hide RealPow;
  }

  lemma SpanOnto(f: Fpu, root: (real, nat) -> real, p: real, q: real, n: nat, v: real) returns (x: real)
    requires Exact(f) && Genuine(f, root) && p > 0.0 && q > 0.0 && n >= 2 && (n % 2 == 0 || p == q)
    requires Contains(PosPow(f, Span(p, q), n), v)
    ensures Contains(Span(p, q), x) && RealPow(x, n) == v
  {
    hide PosPow;
    if n % 2 == 0 {
      SpanEvenPower(f, p, q, n);
      x := RootOf(f, root, v, n);
      Between(x, Reach(p, q), n);
      if x > q { x := -x; }
    } else {
      SpanOddPower(f, p, q, n);
      assert RealPow(p, n) == Prod(p, RealPow(p, n - 1));
      x := RootOf(f, root, if v < 0.0 then -v else v, n);
      hide Prod;
      Between(x, p, n);
      if v < 0.0 { x := -x; }
    }
    hide Genuine;
    hide Prod;
    PowOpposite(x, n);
    PowOpposite(-x, n);
    hide RealPow;
  }

  lemma WideOnto(f: Fpu, root: (real, nat) -> real, a: Ival, n: nat, v: real) returns (x: real)
    requires Exact(f) && Genuine(f, root) && Proper(a) && Straddles(a) && !Finite(a) && n >= 2
    requires (n % 2 == 0 || a == ENTIRE) && Contains(PosPow(f, a, n), v)
    ensures Contains(a, x) && RealPow(x, n) == v
  {
    hide PosPow;
    EntirePower(f, a, n);
    var y := RootOf(f, root, if v < 0.0 then -v else v, n);
    hide Genuine;
    PowOpposite(y, n);
    x := if v < 0.0 || a.hi.Fin? then -y else y;
    hide RealPow;
  }

  /** Each number of a tight power is the power of a point. */
  lemma PosPowOnto(f: Fpu, root: (real, nat) -> real, a: Ival, n: nat, v: real) returns (x: real)
    requires Exact(f) && Genuine(f, root) && Proper(a) && n > 0 && !PowLossy(a, n) && PowerTight(a, n)
    requires Contains(PosPow(f, a, n), v)
    ensures Contains(a, x) && RealPow(x, n) == v
  {
    hide PosPow;
    hide Genuine;
    hide RealPow;
    hide Exact;
    if n == 1 {
      FirstPower(f, a);
      x := v;
      PowOne(v);
    } else if Straddles(a) {
      if Finite(a) { x := SpanOnto(f, root, -a.lo.r, a.hi.r, n, v); } else { x := WideOnto(f, root, a, n, v); }
    } else if Le(a.hi, ZERO) && a.lo != ZERO {
      x := BelowOnto(f, root, a, n, v);
    } else {
      x := FirmOnto(f, root, a, n, v);
    }
  }

  lemma FirstPower(f: Fpu, a: Ival)
    requires Exact(f) && Proper(a)
    ensures PosPow(f, a, 1) == a
  {
    UnitMul(f, a);
    LoopRound(f, Unit(), a, 1);
    hide Interval.Mul;
  }

  lemma NoZeroPower(x: real, n: nat)
    ensures RealPow(x, n) == 0.0 ==> x == 0.0
  {
    PowAtLeastZero(if x < 0.0 then -x else x, n);
    PowOpposite(x, n);
    hide RealPow;
  }

  /** The powers of an interval without zero have no zero. */
  lemma PowerWithoutZero(f: Fpu, root: (real, nat) -> real, a: Ival, n: nat)
    requires Exact(f) && Genuine(f, root) && Proper(a) && !HoldsZero(a) && n > 0
    ensures Proper(PosPow(f, a, n)) && !HoldsZero(PosPow(f, a, n))
  {
    var x0 := ProperPoint(a);
    assert IPow(f, a, n) == PosPow(f, a, n) && IntPow(x0, n) == RealPow(x0, n);
    IPowEncloses(f, a, n, x0);
    ProperHolds(PosPow(f, a, n), RealPow(x0, n));
    hide PosPow;
    hide RealPow;
    hide IPow;
    hide Genuine;
    if HoldsZero(PosPow(f, a, n)) {
      var x := PosPowOnto(f, root, a, n, 0.0);
      NoZeroPower(x, n);
    }
  }

  lemma InverseOnto(f: Fpu, root: (real, nat) -> real, a: Ival, n: nat, v: real) returns (x: real)
    requires Exact(f) && Genuine(f, root) && Proper(a) && !HoldsZero(a) && n > 0
    requires Contains(Divi(f, Unit(), PosPow(f, a, n)), v) && v != 0.0
    ensures Contains(a, x) && RealPow(x, n) != 0.0 && v == Quot(1.0, RealPow(x, n))
  {
    hide PosPow;
    hide Divi;
    hide RealPow;
    hide Genuine;
    hide Quot;
    PowerWithoutZero(f, root, a, n);
    var one, y := DivOnto(f, Unit(), PosPow(f, a, n), v);
    PointHolds(1.0, one);
    x := PosPowOnto(f, root, a, n, y);
  }

  lemma OddRoot(f: Fpu, root: (real, nat) -> real, v: real, n: nat) returns (x: real)
    requires Genuine(f, root) && n % 2 == 1
    ensures RealPow(x, n) == v
  {
    var y := RootOf(f, root, if v < 0.0 then -v else v, n);
    PowOpposite(y, n);
    x := if v < 0.0 then -y else y;
    hide RealPow;
  }

  lemma Inverted(v: real)
    requires v != 0.0
    ensures 1.0 / v != 0.0 && v == Quot(1.0, 1.0 / v)
  {
    Twice(v);
  }

  /** Each number of a tight power is the power of a point, zero aside where it is only approached. */
  lemma IPowOnto(f: Fpu, root: (real, nat) -> real, a: Ival, n: int, v: real) returns (x: real)
    requires Exact(f) && Genuine(f, root) && Proper(a) && !PowLossy(a, n) && PowerTight(a, n)
    requires Contains(IPow(f, a, n), v) && (n < 0 ==> v != 0.0)
    ensures Contains(a, x) && PowDefined(x, n) && v == IntPow(x, n)
  {
    hide PosPow;
    hide Divi;
    hide Quot;
    hide Genuine;
    if n == 0 {
      x := ProperPoint(a);
      PointHolds(1.0, v);
    } else if n > 0 {
      hide RealPow;
      x := PosPowOnto(f, root, a, n, v);
    } else if !HoldsZero(a) {
      hide RealPow;
      x := InverseOnto(f, root, a, -n, v);
    } else {
      hide RealPow;
      Inverted(v);
      x := OddRoot(f, root, 1.0 / v, -n);
    }
  }

  lemma InverseEntire(f: Fpu, a: Ival, n: int)
    requires Exact(f) && Proper(a) && HoldsZero(a) && n > 0 && !PowLossy(a, -n)
    ensures Divi(f, Unit(), PosPow(f, a, n)) == ENTIRE
  {
    if a == UP && n >= 2 {
      UpPower(f, n);
    } else {
      PowOfZero(n);
      assert IPow(f, a, n) == PosPow(f, a, n) && IntPow(0.0, n) == RealPow(0.0, n);
      IPowEncloses(f, a, n, 0.0);
    }
    hide PosPow;
    hide RealPow;
  }

  lemma QuotOne(x: real, y: real)
    requires x != 0.0 && y != 0.0 && Quot(1.0, x) == Quot(1.0, y)
    ensures x == y
  {
    assert 1.0 / x * x == 1.0 && 1.0 / y * y == 1.0;
    Twice(x);
    Twice(y);
  }

  /** A number that the power holds and no point has for its power. */
  lemma Excess(f: Fpu, a: Ival, n: int) returns (v: real)
    requires Exact(f) && Proper(a) && !PowLossy(a, n) && !PowerTight(a, n)
    ensures Contains(IPow(f, a, n), v) && (n < 0 ==> v != 0.0)
    ensures forall x :: Contains(a, x) && PowDefined(x, n) ==> IntPow(x, n) != v
  {
    if n > 0 { v := OddExcess(f, a, n); } else { v := InverseExcess(f, a, -n); }
    hide IPow;
    hide IntPow;
  }

  lemma OddExcess(f: Fpu, a: Ival, n: nat) returns (v: real)
    requires Exact(f) && Proper(a) && Straddles(a) && a.lo != X.Neg(a.hi) && n >= 3 && n % 2 == 1
    ensures Contains(PosPow(f, a, n), v) && forall x :: Contains(a, x) ==> RealPow(x, n) != v
  {
    hide PosPow;
    if Finite(a) {
      var (p, q) := (-a.lo.r, a.hi.r);
      SpanOddPower(f, p, q, n);
      var far := RealPow(Reach(p, q), n - 1);
      PowGrows(if p < q then p else q, Reach(p, q), n - 1);
      hide Prod;
      assert RealPow(p, n) == Prod(p, RealPow(p, n - 1)) && RealPow(q, n) == Prod(q, RealPow(q, n - 1));
      PowOpposite(p, n);
      PowAtLeastZero(p, n - 1);
      PowAtLeastZero(q, n - 1);
      hide RealPow;
      if p < q {
        v := -Prod(p, far);
        ProdBelow(RealPow(p, n - 1), far, p, p);
        ProdSwap(RealPow(p, n - 1), p);
        ProdSwap(far, p);
        ProdSign(p, far);
        ProdSign(q, far);
      } else {
        v := Prod(q, far);
        ProdBelow(RealPow(q, n - 1), far, q, q);
        ProdSwap(RealPow(q, n - 1), q);
        ProdSwap(far, q);
        ProdSign(p, far);
        ProdSign(q, far);
      }
    } else {
      EntirePower(f, a, n);
      v := if a.lo.Fin? then RealPow(a.lo.r, n) - 1.0 else RealPow(a.hi.r, n) + 1.0;
      hide RealPow;
    }
    forall x | Contains(a, x)
      ensures RealPow(x, n) != v
    {
      OddBounds(a, x, n);
    }
  }

  lemma OddBounds(a: Ival, x: real, n: nat)
    requires Proper(a) && Contains(a, x) && n % 2 == 1
    ensures a.lo.Fin? ==> RealPow(a.lo.r, n) <= RealPow(x, n)
    ensures a.hi.Fin? ==> RealPow(x, n) <= RealPow(a.hi.r, n)
  {
    if a.lo.Fin? && a.lo.r < x { OddGrows(a.lo.r, x, n); }
    if a.hi.Fin? && x < a.hi.r { OddGrows(x, a.hi.r, n); }
    hide RealPow;
  }

  lemma InverseExcess(f: Fpu, a: Ival, n: int) returns (v: real)
    requires Exact(f) && Proper(a) && HoldsZero(a) && n > 0 && !PowLossy(a, -n) && !(a == ENTIRE && n % 2 == 1)
    ensures Contains(Divi(f, Unit(), PosPow(f, a, n)), v) && v != 0.0
    ensures forall x :: Contains(a, x) && RealPow(x, n) != 0.0 ==> Quot(1.0, RealPow(x, n)) != v
  {
    InverseEntire(f, a, n);
    hide PosPow;
    hide Divi;
    hide Quot;
    if n % 2 == 0 {
      v := -1.0;
      forall x | Contains(a, x) && RealPow(x, n) != 0.0
        ensures Quot(1.0, RealPow(x, n)) != v
      {
        EvenPowNonNegative(x, n);
        SignOfQuotient(1.0, RealPow(x, n));
      }
    } else {
      var y := if a.lo.Fin? then a.lo.r - 1.0 else a.hi.r + 1.0;
      NoZeroPower(y, n);
      Inverted(RealPow(y, n));
      v := Quot(1.0, RealPow(y, n));
      ZeroOnly(1.0, RealPow(y, n));
      forall x | Contains(a, x) && RealPow(x, n) != 0.0
        ensures Quot(1.0, RealPow(x, n)) != v
      {
        if a.lo.Fin? { OddGrows(y, x, n); } else { OddGrows(x, y, n); }
        if Quot(1.0, RealPow(x, n)) == v { QuotOne(RealPow(x, n), RealPow(y, n)); }
      }
    }
  }

  /** Where a power loses nothing it is made up of its points' powers, zero aside where that is only
      approached, exactly when it is tight. */
  lemma IPowRangeExactly(f: Fpu, root: (real, nat) -> real, a: Ival, n: int)
    requires Exact(f) && Genuine(f, root) && Proper(a) && !PowLossy(a, n)
    ensures PowerTight(a, n) <==>
      forall v :: Contains(IPow(f, a, n), v) && (n < 0 ==> v != 0.0) ==>
        exists x :: Contains(a, x) && PowDefined(x, n) && v == IntPow(x, n)
  {
    hide IPow;
    hide IntPow;
    hide Genuine;
    if PowerTight(a, n) {
      forall v | Contains(IPow(f, a, n), v) && (n < 0 ==> v != 0.0)
        ensures exists x :: Contains(a, x) && PowDefined(x, n) && v == IntPow(x, n)
      {
        var x := IPowOnto(f, root, a, n, v);
      }
    } else {
      var v := Excess(f, a, n);
    }
  }

  /** The cube of [-1, 2] is [-4, 8], although no cube there is below -1. */
  lemma CubeLoose(f: Fpu, x: real)
    requires Exact(f)
    ensures IPow(f, Span(1.0, 2.0), 3) == Span(4.0, 8.0)
    ensures Contains(Span(1.0, 2.0), x) ==> IntPow(x, 3) >= -1.0
  {
    hide *;
    SpanOddPower(f, 1.0, 2.0, 3);
    FourTwice();
    NegOnePower(3);
    AsPositive(f, 1.0, 2.0, x, 3);
    if Contains(Span(1.0, 2.0), x) { OddBounds(Span(1.0, 2.0), x, 3); }
  }

  lemma AsPositive(f: Fpu, p: real, q: real, x: real, n: nat)
    requires p > 0.0 && q > 0.0 && n > 0
    ensures IPow(f, Span(p, q), n) == PosPow(f, Span(p, q), n) && IntPow(x, n) == RealPow(x, n)
    ensures Proper(Span(p, q)) && Span(p, q).lo == Fin(-p) && Reach(1.0, 2.0) == 2.0
  {
    hide PosPow;
    hide RealPow;
  }

  lemma FourTwice()
    ensures RealPow(2.0, 2) == 4.0 && Prod(1.0, 4.0) == 4.0 && Prod(2.0, 4.0) == 8.0
  {
    PowOne(2.0);
    assert RealPow(2.0, 2) == Prod(2.0, RealPow(2.0, 1));
  }
}
