/** Larger boxes give larger enclosures, unless a maximum, minimum or absolute value meets nothing. */
module Isotonicity {
  import X = ExtReal
  import opened ExtReal
  import I = Interval
  import opened Interval
  import opened Ast
  import opened Holes
  import opened Enclosure
  import opened Options

  /** Rounding keeps order and directed rounding keeps zero; the trigonometric enclosures grow with
      their argument. */
  ghost predicate Steady(f: Fpu) {
    && (forall x, y :: x <= y ==> Le(f.down(x), f.down(y)) && Le(f.up(x), f.up(y)))
    && (forall x, y :: x <= y ==> Le(f.slackDown(x), f.slackDown(y)) && Le(f.slackUp(x), f.slackUp(y)))
    && Le(ZERO, f.down(0.0))
    && forall a, b :: Subset(a, b) ==>
      Subset(f.isin(a), f.isin(b)) && Subset(f.icos(a), f.icos(b)) && Subset(f.itan(a), f.itan(b))
  }

  lemma DownGrows(f: Fpu, p: XR, q: XR)
    requires Outward(f) && Steady(f) && Le(p, q)
    ensures Le(Down(f, p), Down(f, q))
  {
  }

  lemma UpGrows(f: Fpu, p: XR, q: XR)
    requires Outward(f) && Steady(f) && Le(p, q)
    ensures Le(Up(f, p), Up(f, q))
  {
  }

  lemma SlackGrows(f: Fpu, p: XR, q: XR)
    requires Outward(f) && Steady(f) && Le(p, q)
    ensures Le(SlackDown(f, p), SlackDown(f, q)) && Le(SlackUp(f, p), SlackUp(f, q))
  {
  }

  lemma ProperGrows(a: Ival, b: Ival)
    requires Proper(a) && Subset(a, b)
    ensures Proper(b)
  {
  }

  // ----- corners -----

  /** One of four is at most v, and the selectors get to see it. */
  predicate Under(p1: XR, p2: XR, p3: XR, p4: XR, v: XR) {
    !p1.NaN? && (Le(p1, v) || Le(p2, v) || Le(p3, v) || (!p3.NaN? && Le(p4, v)))
  }

  predicate Over(p1: XR, p2: XR, p3: XR, p4: XR, v: XR) {
    !p1.NaN? && (Le(v, p1) || Le(v, p2) || Le(v, p3) || (!p3.NaN? && Le(v, p4)))
  }

  predicate Between(q1: XR, q2: XR, q3: XR, q4: XR, v: XR) {
    v.NaN? || (Under(q1, q2, q3, q4, v) && Over(q1, q2, q3, q4, v))
  }

  lemma LowFromCorner(f: Fpu, q1: XR, q2: XR, q3: XR, q4: XR, v: XR)
    requires Outward(f) && Steady(f) && Under(q1, q2, q3, q4, v) && !v.NaN?
    ensures Le(Min4(Down(f, q1), Down(f, q2), Down(f, q3), Down(f, q4)), Down(f, v))
  {
    if Le(q1, v) { DownGrows(f, q1, v); }
    if Le(q2, v) { DownGrows(f, q2, v); }
    if Le(q3, v) { DownGrows(f, q3, v); }
    if Le(q4, v) { DownGrows(f, q4, v); }
    hide Le;
    hide Min4;
    Kept(f, q1);
    Kept(f, q3);
    Kept(f, v);
    MinBelow(Down(f, q1), Down(f, q2), Down(f, q3), Down(f, q4), Down(f, v));
  }

  lemma HighFromCorner(f: Fpu, q1: XR, q2: XR, q3: XR, q4: XR, v: XR)
    requires Outward(f) && Steady(f) && Over(q1, q2, q3, q4, v) && !v.NaN?
    ensures Le(Up(f, v), Max4(Up(f, q1), Up(f, q2), Up(f, q3), Up(f, q4)))
  {
    if Le(v, q1) { UpGrows(f, v, q1); }
    if Le(v, q2) { UpGrows(f, v, q2); }
    if Le(v, q3) { UpGrows(f, v, q3); }
    if Le(v, q4) { UpGrows(f, v, q4); }
    hide Le;
    hide Max4;
    Kept(f, q1);
    Kept(f, q3);
    Kept(f, v);
    MaxAbove(Up(f, q1), Up(f, q2), Up(f, q3), Up(f, q4), Up(f, v));
  }

  lemma Kept(f: Fpu, p: XR)
    requires Outward(f)
    ensures Down(f, p).NaN? <==> p.NaN?
    ensures Up(f, p).NaN? <==> p.NaN?
  {
  }

  lemma SlackKept(f: Fpu, p: XR)
    requires Outward(f)
    ensures SlackDown(f, p).NaN? <==> p.NaN?
  {
  }

  lemma OneOfFour(p1: XR, p2: XR, p3: XR, p4: XR)
    ensures Min4(p1, p2, p3, p4) in {p1, p2, p3, p4} && Max4(p1, p2, p3, p4) in {p1, p2, p3, p4}
  {
  }

  lemma FromCorners(f: Fpu, p1: XR, p2: XR, p3: XR, p4: XR, q1: XR, q2: XR, q3: XR, q4: XR)
    requires Outward(f) && Steady(f)
    requires Between(q1, q2, q3, q4, p1) && Between(q1, q2, q3, q4, p2) && Between(q1, q2, q3, q4, p3)
    requires Between(q1, q2, q3, q4, p4)
    requires Proper(Ival(Min4(Down(f, p1), Down(f, p2), Down(f, p3), Down(f, p4)),
                         Max4(Up(f, p1), Up(f, p2), Up(f, p3), Up(f, p4))))
    ensures Subset(Ival(Min4(Down(f, p1), Down(f, p2), Down(f, p3), Down(f, p4)),
                        Max4(Up(f, p1), Up(f, p2), Up(f, p3), Up(f, p4))),
                   Ival(Min4(Down(f, q1), Down(f, q2), Down(f, q3), Down(f, q4)),
                        Max4(Up(f, q1), Up(f, q2), Up(f, q3), Up(f, q4))))
  {
    var lo := Min4(Down(f, p1), Down(f, p2), Down(f, p3), Down(f, p4));
    var hi := Max4(Up(f, p1), Up(f, p2), Up(f, p3), Up(f, p4));
    var low := Min4(Down(f, q1), Down(f, q2), Down(f, q3), Down(f, q4));
    var high := Max4(Up(f, q1), Up(f, q2), Up(f, q3), Up(f, q4));
    OneOfFour(Down(f, p1), Down(f, p2), Down(f, p3), Down(f, p4));
    OneOfFour(Up(f, p1), Up(f, p2), Up(f, p3), Up(f, p4));
    Kept(f, p1);
    Kept(f, p2);
    Kept(f, p3);
    Kept(f, p4);
    hide Min4;
    hide Max4;
    hide Down;
    hide Up;
    hide Outward;
    hide Steady;
    hide Under;
    hide Over;
    if !p1.NaN? { LowFromCorner(f, q1, q2, q3, q4, p1); HighFromCorner(f, q1, q2, q3, q4, p1); }
    if !p2.NaN? { LowFromCorner(f, q1, q2, q3, q4, p2); HighFromCorner(f, q1, q2, q3, q4, p2); }
    if !p3.NaN? { LowFromCorner(f, q1, q2, q3, q4, p3); HighFromCorner(f, q1, q2, q3, q4, p3); }
    if !p4.NaN? { LowFromCorner(f, q1, q2, q3, q4, p4); HighFromCorner(f, q1, q2, q3, q4, p4); }
    assert Le(low, lo) && Le(hi, high);
    NotEmptied(low, lo, hi, high);
  }

  lemma NotEmptied(low: XR, lo: XR, hi: XR, high: XR)
    requires Le(low, lo) && Le(lo, hi) && Le(hi, high)
    ensures Subset(Ival(lo, hi), Ival(low, high))
  {
  }

  // ----- products -----

  predicate IsEnd(x: XR, a: Ival) { x == a.lo || x == a.hi }

  lemma ProductBetween(a: Ival, b: Ival, a2: Ival, b2: Ival, x: XR, y: XR)
    requires Proper(a) && Proper(b) && Subset(a, a2) && Subset(b, b2) && !MulLossy(a2, b2) && IsEnd(x, a) && IsEnd(y, b)
    ensures Between(X.Mul(a2.lo, b2.lo), X.Mul(a2.lo, b2.hi), X.Mul(a2.hi, b2.lo), X.Mul(a2.hi, b2.hi), X.Mul(x, y))
  {
    hide Prod;
    if x.Fin? && y.Fin? {
      FiniteProductBetween(a2, b2, x.r, y.r);
    } else if !X.Mul(x, y).NaN? {
      InfiniteProductLow(a, b, a2, b2, x, y);
      InfiniteProductHigh(a, b, a2, b2, x, y);
    }
  }

  lemma FiniteProductBetween(a: Ival, b: Ival, x: real, y: real)
    requires Contains(a, x) && Contains(b, y) && !MulLossy(a, b)
    ensures Between(X.Mul(a.lo, b.lo), X.Mul(a.lo, b.hi), X.Mul(a.hi, b.lo), X.Mul(a.hi, b.hi), Fin(Prod(x, y)))
  {
    hide Prod;
    if y >= 0.0 { MulLowUp(a, b, x, y); } else { MulLowDown(a, b, x, y); }
    if y > 0.0 { MulHighUp(a, b, x, y); } else { MulHighDown(a, b, x, y); }
    hide MulLossy;
    hide X.Mul;
    hide Le;
  }

  lemma InfiniteProductLow(a: Ival, b: Ival, a2: Ival, b2: Ival, x: XR, y: XR)
    requires Proper(a) && Proper(b) && Subset(a, a2) && Subset(b, b2) && !MulLossy(a2, b2) && IsEnd(x, a) && IsEnd(y, b)
    requires !(x.Fin? && y.Fin?) && !X.Mul(x, y).NaN?
    ensures Under(X.Mul(a2.lo, b2.lo), X.Mul(a2.lo, b2.hi), X.Mul(a2.hi, b2.lo), X.Mul(a2.hi, b2.hi), X.Mul(x, y))
  {
    hide Prod;
  }

  lemma InfiniteProductHigh(a: Ival, b: Ival, a2: Ival, b2: Ival, x: XR, y: XR)
    requires Proper(a) && Proper(b) && Subset(a, a2) && Subset(b, b2) && !MulLossy(a2, b2) && IsEnd(x, a) && IsEnd(y, b)
    requires !(x.Fin? && y.Fin?) && !X.Mul(x, y).NaN?
    ensures Over(X.Mul(a2.lo, b2.lo), X.Mul(a2.lo, b2.hi), X.Mul(a2.hi, b2.lo), X.Mul(a2.hi, b2.hi), X.Mul(x, y))
  {
    hide Prod;
  }

  lemma MulProper(f: Fpu, a: Ival, b: Ival)
    requires Outward(f) && Proper(a) && Proper(b) && !MulLossy(a, b)
    ensures Proper(I.Mul(f, a, b))
  {
    var x := ProperPoint(a);
    var y := ProperPoint(b);
    MulSound(f, a, b, x, y);
    hide I.Mul;
    ProperHolds(I.Mul(f, a, b), Prod(x, y));
  }

  lemma MulGrows(f: Fpu, a: Ival, b: Ival, a2: Ival, b2: Ival)
    requires Outward(f) && Steady(f) && Proper(a) && Proper(b) && Subset(a, a2) && Subset(b, b2)
    requires !MulLossy(a, b) && !MulLossy(a2, b2)
    ensures Proper(I.Mul(f, a, b)) && Subset(I.Mul(f, a, b), I.Mul(f, a2, b2))
  {
    MulProper(f, a, b);
    ProductBetween(a, b, a2, b2, a.lo, b.lo);
    ProductBetween(a, b, a2, b2, a.lo, b.hi);
    ProductBetween(a, b, a2, b2, a.hi, b.lo);
    ProductBetween(a, b, a2, b2, a.hi, b.hi);
    ProperGrows(a, a2);
    ProperGrows(b, b2);
    hide MulLossy;
    hide X.Mul;
    hide Between;
    hide Min4;
    hide Max4;
    FromCorners(f, X.Mul(a.lo, b.lo), X.Mul(a.lo, b.hi), X.Mul(a.hi, b.lo), X.Mul(a.hi, b.hi),
                X.Mul(a2.lo, b2.lo), X.Mul(a2.lo, b2.hi), X.Mul(a2.hi, b2.lo), X.Mul(a2.hi, b2.hi));
  }

  // ----- quotients -----

  lemma QuotientBetween(a: Ival, b: Ival, a2: Ival, b2: Ival, x: XR, y: XR)
    requires Proper(a) && Proper(b) && Subset(a, a2) && Subset(b, b2) && !HoldsZero(b2) && !DivLossy(a2, b2)
    requires IsEnd(x, a) && IsEnd(y, b)
    ensures Between(X.Div(a2.lo, b2.lo), X.Div(a2.lo, b2.hi), X.Div(a2.hi, b2.lo), X.Div(a2.hi, b2.hi), X.Div(x, y))
  {
    hide Quot;
    if x.Fin? && y.Fin? {
      FiniteQuotientBetween(a2, b2, x.r, y.r);
    } else if !X.Div(x, y).NaN? {
      InfiniteQuotientLow(a, b, a2, b2, x, y);
      InfiniteQuotientHigh(a, b, a2, b2, x, y);
    }
  }

  lemma FiniteQuotientBetween(a: Ival, b: Ival, x: real, y: real)
    requires Contains(a, x) && Contains(b, y) && !HoldsZero(b) && !DivLossy(a, b)
    ensures y != 0.0
    ensures Between(X.Div(a.lo, b.lo), X.Div(a.lo, b.hi), X.Div(a.hi, b.lo), X.Div(a.hi, b.hi), Fin(Quot(x, y)))
  {
    hide Quot;
    if Lt(ZERO, b.lo) { DivPositive(a, b, x, y); } else { DivNegative(a, b, x, y); }
    hide X.Div;
    hide DivLossy;
  }

  lemma InfiniteQuotientLow(a: Ival, b: Ival, a2: Ival, b2: Ival, x: XR, y: XR)
    requires Proper(a) && Proper(b) && Subset(a, a2) && Subset(b, b2) && !HoldsZero(b2) && !DivLossy(a2, b2)
    requires IsEnd(x, a) && IsEnd(y, b) && !(x.Fin? && y.Fin?) && !X.Div(x, y).NaN?
    ensures Under(X.Div(a2.lo, b2.lo), X.Div(a2.lo, b2.hi), X.Div(a2.hi, b2.lo), X.Div(a2.hi, b2.hi), X.Div(x, y))
  {
    QuotientSigns(a2, b2);
    hide Quot;
  }

  lemma InfiniteQuotientHigh(a: Ival, b: Ival, a2: Ival, b2: Ival, x: XR, y: XR)
    requires Proper(a) && Proper(b) && Subset(a, a2) && Subset(b, b2) && !HoldsZero(b2) && !DivLossy(a2, b2)
    requires IsEnd(x, a) && IsEnd(y, b) && !(x.Fin? && y.Fin?) && !X.Div(x, y).NaN?
    ensures Over(X.Div(a2.lo, b2.lo), X.Div(a2.lo, b2.hi), X.Div(a2.hi, b2.lo), X.Div(a2.hi, b2.hi), X.Div(x, y))
  {
    QuotientSigns(a2, b2);
    hide Quot;
  }

  predicate SignFits(x: XR, y: XR) {
    x.Fin? && y.Fin? && y.r != 0.0 ==>
      && ((x.r >= 0.0 && y.r > 0.0) || (x.r <= 0.0 && y.r < 0.0) ==> Quot(x.r, y.r) >= 0.0)
      && ((x.r <= 0.0 && y.r > 0.0) || (x.r >= 0.0 && y.r < 0.0) ==> Quot(x.r, y.r) <= 0.0)
  }

  lemma SignOfEnds(x: XR, y: XR)
    ensures SignFits(x, y)
  {
    if x.Fin? && y.Fin? && y.r != 0.0 { SignOfQuotient(x.r, y.r); }
    hide Quot;
  }

  lemma QuotientSigns(a: Ival, b: Ival)
    ensures SignFits(a.lo, b.lo) && SignFits(a.lo, b.hi) && SignFits(a.hi, b.lo) && SignFits(a.hi, b.hi)
  {
    hide SignFits;
    SignOfEnds(a.lo, b.lo);
    SignOfEnds(a.lo, b.hi);
    SignOfEnds(a.hi, b.lo);
    SignOfEnds(a.hi, b.hi);
  }

  lemma DiviProper(f: Fpu, a: Ival, b: Ival)
    requires Outward(f) && Proper(a) && Proper(b) && !DivLossy(a, b)
    ensures Proper(I.Divi(f, a, b))
  {
    hide Quot;
    if !HoldsZero(b) {
      var x := ProperPoint(a);
      var y := ProperPoint(b);
      DiviSound(f, a, b, x, y);
      hide I.Divi;
      ProperHolds(I.Divi(f, a, b), Quot(x, y));
    }
  }

  lemma DiviGrows(f: Fpu, a: Ival, b: Ival, a2: Ival, b2: Ival)
    requires Outward(f) && Steady(f) && Proper(a) && Proper(b) && Subset(a, a2) && Subset(b, b2)
    requires !DivLossy(a, b) && !DivLossy(a2, b2)
    ensures Proper(I.Divi(f, a, b)) && Subset(I.Divi(f, a, b), I.Divi(f, a2, b2))
  {
    DiviProper(f, a, b);
    ProperGrows(a, a2);
    ProperGrows(b, b2);
    if HoldsZero(b2) {
      hide X.Div;
      hide Min4;
      hide Max4;
      assert I.Divi(f, a2, b2) == ENTIRE;
      InEntire(I.Divi(f, a, b));
    } else {
      assert !HoldsZero(b);
      QuotientBetween(a, b, a2, b2, a.lo, b.lo);
      QuotientBetween(a, b, a2, b2, a.lo, b.hi);
      QuotientBetween(a, b, a2, b2, a.hi, b.lo);
      QuotientBetween(a, b, a2, b2, a.hi, b.hi);
      hide DivLossy;
      hide HoldsZero;
      hide X.Div;
      hide Between;
      hide Min4;
      hide Max4;
      FromCorners(f, X.Div(a.lo, b.lo), X.Div(a.lo, b.hi), X.Div(a.hi, b.lo), X.Div(a.hi, b.hi),
                  X.Div(a2.lo, b2.lo), X.Div(a2.lo, b2.hi), X.Div(a2.hi, b2.lo), X.Div(a2.hi, b2.hi));
    }
  }

  lemma InEntire(a: Ival)
    requires Proper(a)
    ensures Subset(a, ENTIRE)
  {
  }

  // ----- powers -----

  /** Both runs of square-and-multiply, step by step. */
  lemma {:induction false} PowLoopGrows(f: Fpu, r: Ival, base: Ival, r2: Ival, base2: Ival, e: nat)
    requires Outward(f) && Steady(f) && Proper(r) && Proper(base) && Subset(r, r2) && Subset(base, base2)
    requires !PowLoopLossy(f, r, base, e) && !PowLoopLossy(f, r2, base2, e)
    ensures Proper(PowLoop(f, r, base, e)) && Subset(PowLoop(f, r, base, e), PowLoop(f, r2, base2, e))
    decreases e
  {
    hide I.Mul;
    hide MulLossy;
    hide Subset;
    hide Proper;
    hide Outward;
    hide Steady;
    if e > 0 {
      if e % 2 == 1 { MulGrows(f, r, base, r2, base2); }
      if e / 2 > 0 { MulGrows(f, base, base, base2, base2); }
      PowLoopGrows(f, if e % 2 == 1 then I.Mul(f, r, base) else r, if e / 2 > 0 then I.Mul(f, base, base) else base,
                   if e % 2 == 1 then I.Mul(f, r2, base2) else r2,
                   if e / 2 > 0 then I.Mul(f, base2, base2) else base2, e / 2);
    }
  }

  predicate AtLeastZero(a: Ival) { Le(ZERO, a.lo) }

  predicate AtMostZero(a: Ival) { Le(a.hi, ZERO) }

  lemma DownStaysUp(f: Fpu, p: XR)
    requires Outward(f) && Steady(f) && Le(ZERO, p)
    ensures Le(ZERO, Down(f, p))
  {
    DownGrows(f, ZERO, p);
    LeTrans(ZERO, Down(f, ZERO), Down(f, p));
  }

  lemma ProductSign(x: XR, y: XR)
    requires (Le(ZERO, x) && Le(ZERO, y)) || (Le(x, ZERO) && Le(y, ZERO))
    ensures X.Mul(x, y).NaN? || Le(ZERO, X.Mul(x, y))
  {
    if x.Fin? && y.Fin? { ProdSign(x.r, y.r); }
    hide Prod;
  }

  lemma DownOrNaN(f: Fpu, p: XR)
    requires Outward(f) && Steady(f) && (p.NaN? || Le(ZERO, p))
    ensures Down(f, p).NaN? || Le(ZERO, Down(f, p))
  {
    if !p.NaN? { DownStaysUp(f, p); }
  }

  lemma SameSignMul(f: Fpu, a: Ival, b: Ival)
    requires Outward(f) && Steady(f) && Proper(a) && Proper(b) && !MulLossy(a, b)
    requires (AtLeastZero(a) && AtLeastZero(b)) || (AtMostZero(a) && AtMostZero(b))
    ensures AtLeastZero(I.Mul(f, a, b))
  {
    MulProper(f, a, b);
    EndSigns(a);
    EndSigns(b);
    ProductSign(a.lo, b.lo);
    ProductSign(a.lo, b.hi);
    ProductSign(a.hi, b.lo);
    ProductSign(a.hi, b.hi);
    hide MulLossy;
    hide X.Mul;
    hide Max4;
    var p1, p2, p3, p4 := X.Mul(a.lo, b.lo), X.Mul(a.lo, b.hi), X.Mul(a.hi, b.lo), X.Mul(a.hi, b.hi);
    DownOrNaN(f, p1);
    DownOrNaN(f, p2);
    DownOrNaN(f, p3);
    DownOrNaN(f, p4);
    OneOfFour(Down(f, p1), Down(f, p2), Down(f, p3), Down(f, p4));
    hide Down;
    hide Min4;
    hide Outward;
    hide Steady;
  }

  lemma EndSigns(a: Ival)
    requires Proper(a)
    ensures AtLeastZero(a) ==> Le(ZERO, a.lo) && Le(ZERO, a.hi)
    ensures AtMostZero(a) ==> Le(a.lo, ZERO) && Le(a.hi, ZERO)
  {
  }

  lemma {:induction false} LoopStaysUp(f: Fpu, r: Ival, base: Ival, e: nat)
    requires Outward(f) && Steady(f) && Proper(r) && Proper(base) && AtLeastZero(r) && !PowLoopLossy(f, r, base, e)
    requires AtLeastZero(base) || (AtMostZero(base) && e % 2 == 0)
    ensures AtLeastZero(PowLoop(f, r, base, e))
    decreases e
  {
    hide I.Mul;
    hide MulLossy;
    hide Proper;
    hide Outward;
    hide Steady;
    hide AtLeastZero;
    hide AtMostZero;
    if e > 0 {
      if e % 2 == 1 {
        MulProper(f, r, base);
        SameSignMul(f, r, base);
      }
      if e / 2 > 0 {
        MulProper(f, base, base);
        SameSignMul(f, base, base);
      }
      if e == 1 {
        assert PowLoop(f, r, base, e) == PowLoop(f, I.Mul(f, r, base), base, 0);
      } else {
        LoopStaysUp(f, if e % 2 == 1 then I.Mul(f, r, base) else r, I.Mul(f, base, base), e / 2);
      }
    }
  }

  predicate Straddles(a: Ival) { Lt(a.lo, ZERO) && Lt(ZERO, a.hi) }

  lemma StraddleGrows(a: Ival, a2: Ival)
    requires Proper(a) && Subset(a, a2)
    ensures Straddles(a) ==> Straddles(a2)
    ensures !Straddles(a) ==> AtLeastZero(a) || AtMostZero(a)
  {
  }

  lemma RaisedGrows(r: Ival, r2: Ival)
    requires Proper(r) && Subset(r, r2) && !Lt(r.hi, ZERO)
    ensures Proper(Ival(ZERO, r.hi)) && Subset(Ival(ZERO, r.hi), Ival(ZERO, r2.hi))
    ensures AtLeastZero(r) ==> Subset(r, Ival(ZERO, r2.hi))
  {
  }

  /** An even power of an interval around zero still reaches up to something. */
  lemma EvenPowReaches(f: Fpu, a: Ival, n: nat)
    requires Outward(f) && Proper(a) && n % 2 == 0 && !PowLoopLossy(f, Unit(), a, n)
    ensures !Lt(PowLoop(f, Unit(), a, n).hi, ZERO)
  {
    hide Prod;
    hide I.Mul;
    var x := ProperPoint(a);
    ProdOne(RealPow(x, n));
    PowLoopSound(f, Unit(), a, n, 1.0, x, RealPow(x, n));
    EvenPowNonNegative(x, n);
  }

  lemma PosPowGrows(f: Fpu, a: Ival, a2: Ival, n: nat)
    requires Outward(f) && Steady(f) && Proper(a) && Subset(a, a2)
    requires !PowLoopLossy(f, Unit(), a, n) && !PowLoopLossy(f, Unit(), a2, n)
    ensures Proper(PosPow(f, a, n)) && Subset(PosPow(f, a, n), PosPow(f, a2, n))
  {
    hide PowLoop;
    hide PowLoopLossy;
    hide Outward;
    hide Steady;
    assert Proper(Unit()) && AtLeastZero(Unit()) && Subset(Unit(), Unit());
    PowLoopGrows(f, Unit(), a, Unit(), a2, n);
    var r, r2 := PowLoop(f, Unit(), a, n), PowLoop(f, Unit(), a2, n);
    StraddleGrows(a, a2);
    if n % 2 == 0 {
      EvenPowReaches(f, a, n);
      RaisedGrows(r, r2);
      if !Straddles(a) { LoopStaysUp(f, Unit(), a, n); }
    }
    hide Proper;
    hide Subset;
    hide Lt;
    hide Unit;
    hide AtLeastZero;
    hide AtMostZero;
  }

  lemma LosslessPowGrows(f: Fpu, a: Ival, a2: Ival, n: int)
    requires Outward(f) && Steady(f) && Proper(a) && Subset(a, a2) && !IPowLossy(f, a, n) && !IPowLossy(f, a2, n)
    ensures Proper(IPow(f, a, n)) && Subset(IPow(f, a, n), IPow(f, a2, n))
  {
    hide PosPow;
    hide PowLoopLossy;
    hide I.Divi;
    hide Outward;
    hide Steady;
    ProperGrows(a, a2);
    if n > 0 {
      PosPowGrows(f, a, a2, n);
    } else if n < 0 {
      PosPowGrows(f, a, a2, -n);
      DiviGrows(f, Unit(), PosPow(f, a, -n), Unit(), PosPow(f, a2, -n));
    }
  }

  lemma ReciprocalAroundZero(f: Fpu, p: Ival)
    requires Proper(p) && HoldsZero(p)
    ensures I.Divi(f, Unit(), p) == ENTIRE
  {
  }

  /** Around zero a negative power is anything. */
  lemma NegativePowerOfZero(f: Fpu, a: Ival, n: int)
    requires Outward(f) && Exact(f) && Contains(a, 0.0) && n < 0 && !PowLossy(a, n)
    ensures IPow(f, a, n) == ENTIRE
  {
    var p := PosPow(f, a, -n);
    if a == UP && n <= -2 {
      UpPower(f, -n);
    } else {
      ProperHolds(a, 0.0);
      PowLoopGuard(f, a, -n);
      PosPowSound(f, a, -n, 0.0);
      ZeroPower(-n);
      ProperHolds(p, 0.0);
    }
    hide PosPow;
    hide I.Divi;
    ReciprocalAroundZero(f, p);
  }

  lemma ZeroPower(n: nat)
    requires n > 0
    ensures RealPow(0.0, n) == 0.0
  {
  }

  lemma PowerProper(f: Fpu, a: Ival, n: int)
    requires Outward(f) && Exact(f) && Proper(a) && n < 0 && !PowLossy(a, n)
    ensures Proper(IPow(f, a, n))
  {
    if Contains(a, 0.0) {
      NegativePowerOfZero(f, a, n);
    } else {
      PowLoopGuard(f, a, -n);
      var x := ProperPoint(a);
      PosPowSound(f, a, -n, x);
      hide PosPow;
      ProperHolds(PosPow(f, a, -n), RealPow(x, -n));
      DiviProper(f, Unit(), PosPow(f, a, -n));
    }
  }

  lemma IPowGrows(f: Fpu, a: Ival, a2: Ival, n: int)
    requires Outward(f) && Steady(f) && Proper(a) && Subset(a, a2) && !PowerLossy(f, a, n) && !PowerLossy(f, a2, n)
    ensures Proper(IPow(f, a, n)) && Subset(IPow(f, a, n), IPow(f, a2, n))
  {
    ProperGrows(a, a2);
    hide IPow;
    if IPowLossy(f, a, n) || IPowLossy(f, a2, n) {
      assert n <= -2 && (a == UP || a2 == UP) by {
        if a != UP || n >= -1 { LossyOnly(f, a, n); }
        if a2 != UP || n >= -1 { LossyOnly(f, a2, n); }
      }
      hide PowLossy;
      hide IPowLossy;
      hide Outward;
      hide Steady;
      PowerProper(f, a, n);
      NegativePowerOfZero(f, a2, n);
      InEntire(IPow(f, a, n));
    } else {
      LosslessPowGrows(f, a, a2, n);
    }
  }

  lemma LossyOnly(f: Fpu, a: Ival, n: int)
    requires Proper(a) && !PowerLossy(f, a, n) && (a != UP || n >= -1)
    ensures !IPowLossy(f, a, n)
  {
    if Exact(f) { PowLoopGuard(f, a, if n < 0 then -n else n); }
    hide PowLoopLossy;
  }

  // ----- the other operations -----

  lemma Ends(lo2: XR, lo: XR, hi: XR, hi2: XR)
    requires Le(lo2, lo) && Le(hi, hi2)
    ensures Subset(Ival(lo, hi), Ival(lo2, hi2))
  {
  }

  lemma RoundedEnds(f: Fpu, lo2: XR, lo: XR, hi: XR, hi2: XR)
    requires Outward(f) && Steady(f) && Le(lo2, lo) && Le(hi, hi2)
    ensures Subset(Ival(Down(f, lo), Up(f, hi)), Ival(Down(f, lo2), Up(f, hi2)))
  {
    DownGrows(f, lo2, lo);
    UpGrows(f, hi, hi2);
    Ends(Down(f, lo2), Down(f, lo), Up(f, hi), Up(f, hi2));
  }

  lemma SlackEnds(f: Fpu, lo2: XR, lo: XR, hi: XR, hi2: XR)
    requires Outward(f) && Steady(f) && Le(lo2, lo) && Le(hi, hi2)
    ensures Subset(Ival(SlackDown(f, lo), SlackUp(f, hi)), Ival(SlackDown(f, lo2), SlackUp(f, hi2)))
  {
    SlackGrows(f, lo2, lo);
    SlackGrows(f, hi, hi2);
    Ends(SlackDown(f, lo2), SlackDown(f, lo), SlackUp(f, hi), SlackUp(f, hi2));
  }

  lemma SumOrdered(x: XR, y: XR, x2: XR, y2: XR)
    requires Le(x, x2) && Le(y, y2)
    requires
      || !(x.PosInf? || y.PosInf? || x2.PosInf? || y2.PosInf?)
      || !(x.NegInf? || y.NegInf? || x2.NegInf? || y2.NegInf?)
    ensures Le(X.Add(x, y), X.Add(x2, y2))
  {
  }

  lemma Unempty(a: Ival, a2: Ival)
    requires Proper(a) && Subset(a, a2)
    ensures !IsEmpty(a) && !IsEmpty(a2) && Le(a2.lo, a.lo) && Le(a.hi, a2.hi) && Le(a.lo, a.hi)
    ensures !a.lo.PosInf? && !a2.lo.PosInf? && !a.hi.NegInf? && !a2.hi.NegInf?
  {
  }

  lemma AddGrows(f: Fpu, a: Ival, b: Ival, a2: Ival, b2: Ival)
    requires Outward(f) && Steady(f) && Proper(a) && Proper(b) && Subset(a, a2) && Subset(b, b2)
    ensures Subset(I.Add(f, a, b), I.Add(f, a2, b2))
  {
    hide *;
    Unempty(a, a2);
    Unempty(b, b2);
    SumOrdered(a2.lo, b2.lo, a.lo, b.lo);
    SumOrdered(a.hi, b.hi, a2.hi, b2.hi);
    SumIs(f, a, b);
    SumIs(f, a2, b2);
    RoundedEnds(f, X.Add(a2.lo, b2.lo), X.Add(a.lo, b.lo), X.Add(a.hi, b.hi), X.Add(a2.hi, b2.hi));
  }

  lemma SumIs(f: Fpu, a: Ival, b: Ival)
    requires !IsEmpty(a) && !IsEmpty(b)
    ensures I.Add(f, a, b) == Ival(Down(f, X.Add(a.lo, b.lo)), Up(f, X.Add(a.hi, b.hi)))
    ensures I.Sub(f, a, b) == Ival(Down(f, X.Add(a.lo, X.Neg(b.hi))), Up(f, X.Add(a.hi, X.Neg(b.lo))))
  {
    hide Down;
    hide Up;
    hide X.Add;
    hide X.Neg;
    hide Lt;
  }

  lemma NegOrdered(x: XR, y: XR)
    requires Le(x, y)
    ensures Le(X.Neg(y), X.Neg(x))
    ensures (X.Neg(x).PosInf? <==> x.NegInf?) && (X.Neg(x).NegInf? <==> x.PosInf?)
    ensures (X.Neg(y).PosInf? <==> y.NegInf?) && (X.Neg(y).NegInf? <==> y.PosInf?)
  {
  }

  lemma SubGrows(f: Fpu, a: Ival, b: Ival, a2: Ival, b2: Ival)
    requires Outward(f) && Steady(f) && Proper(a) && Proper(b) && Subset(a, a2) && Subset(b, b2)
    ensures Subset(I.Sub(f, a, b), I.Sub(f, a2, b2))
  {
    hide *;
    Unempty(a, a2);
    Unempty(b, b2);
    var l, h, l2, h2 := X.Neg(b.hi), X.Neg(b.lo), X.Neg(b2.hi), X.Neg(b2.lo);
    NegOrdered(b.hi, b2.hi);
    NegOrdered(b2.lo, b.lo);
    SumOrdered(a2.lo, l2, a.lo, l);
    SumOrdered(a.hi, h, a2.hi, h2);
    SumIs(f, a, b);
    SumIs(f, a2, b2);
    RoundedEnds(f, X.Add(a2.lo, l2), X.Add(a.lo, l), X.Add(a.hi, h), X.Add(a2.hi, h2));
  }

  lemma NegGrows(a: Ival, a2: Ival)
    requires Proper(a) && Subset(a, a2)
    ensures Subset(I.Neg(a), I.Neg(a2))
  {
  }

  lemma SelectorsOrdered(x: XR, y: XR, x2: XR, y2: XR)
    requires Le(x, x2) && Le(y, y2)
    ensures Le(StdMax(x, y), StdMax(x2, y2)) && Le(StdMin(x, y), StdMin(x2, y2))
  {
  }

  lemma RootOrdered(f: Fpu, x: XR, y: XR)
    requires Monotone(f) && Le(ZERO, x) && Le(x, y)
    ensures Le(Lift(f.sqrt, x), Lift(f.sqrt, y))
  {
    if x.Fin? && y.Fin? { assert f.sqrt(x.r) <= f.sqrt(y.r); }
  }

  lemma SqrtGrows(f: Fpu, a: Ival, a2: Ival)
    requires Sound(f) && Steady(f) && Proper(a) && Subset(a, a2) && Proper(ISqrt(f, a))
    ensures Subset(ISqrt(f, a), ISqrt(f, a2))
  {
    Unempty(a, a2);
    SelectorsOrdered(a2.lo, ZERO, a.lo, ZERO);
    assert Le(ZERO, StdMax(a2.lo, ZERO)) && Le(ZERO, a.hi);
    RootOrdered(f, StdMax(a2.lo, ZERO), StdMax(a.lo, ZERO));
    RootOrdered(f, a.hi, a2.hi);
    RoundedEnds(f, Lift(f.sqrt, StdMax(a2.lo, ZERO)), Lift(f.sqrt, StdMax(a.lo, ZERO)), Lift(f.sqrt, a.hi),
                Lift(f.sqrt, a2.hi));
    assert !Lt(a.hi, ZERO) && !Lt(a2.hi, ZERO);
    hide Down;
    hide Up;
    hide StdMax;
    hide Lift;
    hide Subset;
    hide Proper;
    hide Lt;
    hide Le;
  }

  function ExpEnd(f: Fpu, x: XR): XR { if x.NegInf? then ZERO else Lift(f.exp, x) }

  lemma ExpOrdered(f: Fpu, x: XR, y: XR)
    requires Monotone(f) && Le(x, y)
    ensures Le(ExpEnd(f, x), ExpEnd(f, y))
  {
    if x.Fin? && y.Fin? { assert f.exp(x.r) <= f.exp(y.r); }
    if y.Fin? { assert y.r <= y.r && 0.0 < f.exp(y.r); }
  }

  lemma ExpGrows(f: Fpu, a: Ival, a2: Ival)
    requires Sound(f) && Steady(f) && Proper(a) && Subset(a, a2)
    ensures Subset(IExp(f, a), IExp(f, a2))
  {
    Unempty(a, a2);
    ExpOrdered(f, a2.lo, a.lo);
    ExpOrdered(f, a.hi, a2.hi);
    SlackEnds(f, ExpEnd(f, a2.lo), ExpEnd(f, a.lo), ExpEnd(f, a.hi), ExpEnd(f, a2.hi));
    hide SlackDown;
    hide SlackUp;
    hide Lift;
    hide Subset;
    hide Proper;
    hide Le;
  }

  function LogStart(f: Fpu, x: XR): XR { if Le(x, ZERO) then NegInf else SlackDown(f, Lift(f.log, x)) }

  lemma LogOrdered(f: Fpu, x: XR, y: XR)
    requires Monotone(f) && Lt(ZERO, x) && Le(x, y)
    ensures Le(Lift(f.log, x), Lift(f.log, y))
  {
    if x.Fin? && y.Fin? { assert f.log(x.r) <= f.log(y.r); }
  }

  lemma LogStartOrdered(f: Fpu, x: XR, y: XR)
    requires Sound(f) && Steady(f) && Le(x, y)
    ensures Le(LogStart(f, x), LogStart(f, y))
  {
    if !Le(x, ZERO) {
      LogOrdered(f, x, y);
      SlackGrows(f, Lift(f.log, x), Lift(f.log, y));
    } else if !Le(y, ZERO) {
      SlackKept(f, Lift(f.log, y));
    }
    hide SlackDown;
  }

  lemma LogGrows(f: Fpu, a: Ival, a2: Ival)
    requires Sound(f) && Steady(f) && Proper(a) && Subset(a, a2) && Proper(ILog(f, a))
    ensures Subset(ILog(f, a), ILog(f, a2))
  {
    Unempty(a, a2);
    LogStartOrdered(f, a2.lo, a.lo);
    assert !Le(a.hi, ZERO) && !Le(a2.hi, ZERO) && Lt(ZERO, a.hi);
    LogOrdered(f, a.hi, a2.hi);
    SlackGrows(f, Lift(f.log, a.hi), Lift(f.log, a2.hi));
    Ends(LogStart(f, a2.lo), LogStart(f, a.lo), SlackUp(f, Lift(f.log, a.hi)), SlackUp(f, Lift(f.log, a2.hi)));
    hide SlackDown;
    hide SlackUp;
    hide Lift;
    hide Subset;
    hide Proper;
    hide Le;
    hide Lt;
  }

  /** No interval of doubles that are no numbers. */
  predicate Regular(a: Ival) { IsEmpty(a) || Proper(a) }

  /** The calls that look at endpoints without asking whether there is anything between. */
  predicate Selects(fn: CallFn, n: nat) {
    (fn == MaxFn && n == 2) || (fn == MinFn && n == 2) || (fn == AbsFn && n == 1)
  }

  predicate Growing(a: seq<Ival>, a2: seq<Ival>) {
    |a| == |a2| && forall i :: 0 <= i < |a| ==> Regular(a[i]) && Regular(a2[i]) && Subset(a[i], a2[i])
  }

  lemma CallGrows(fn: CallFn, a: seq<Ival>, a2: seq<Ival>)
    requires Growing(a, a2) && (Selects(fn, |a|) ==> forall i :: 0 <= i < |a| ==> !IsEmpty(a[i]))
    ensures Subset(CallEncl(fn, a), CallEncl(fn, a2))
  {
    if Selects(fn, |a|) {
      if fn == AbsFn { AbsGrows(a[0], a2[0]); } else { MaxMinGrow(a[0], a[1], a2[0], a2[1]); }
    } else {
      BundleGrows(EMPTY, EMPTY, a, a2);
    }
    hide Subset;
    hide BundleFrom;
    hide IMax;
    hide IMin;
    hide IAbs;
  }

  lemma MaxMinGrow(a: Ival, b: Ival, a2: Ival, b2: Ival)
    requires Proper(a) && Proper(b) && Subset(a, a2) && Subset(b, b2)
    ensures Subset(IMax(a, b), IMax(a2, b2)) && Subset(IMin(a, b), IMin(a2, b2))
  {
    Unempty(a, a2);
    Unempty(b, b2);
    SelectorsOrdered(a2.lo, b2.lo, a.lo, b.lo);
    SelectorsOrdered(a.hi, b.hi, a2.hi, b2.hi);
    SelectorsOrdered(a.lo, b.lo, a.hi, b.hi);
    ProperGrows(a, a2);
    ProperGrows(b, b2);
    SelectorsOrdered(a2.lo, b2.lo, a2.hi, b2.hi);
    Ends(StdMax(a2.lo, b2.lo), StdMax(a.lo, b.lo), StdMax(a.hi, b.hi), StdMax(a2.hi, b2.hi));
    Ends(StdMin(a2.lo, b2.lo), StdMin(a.lo, b.lo), StdMin(a.hi, b.hi), StdMin(a2.hi, b2.hi));
    hide StdMax;
    hide StdMin;
    hide Subset;
    hide Le;
  }

  lemma AbsGrows(a: Ival, a2: Ival)
    requires Proper(a) && Subset(a, a2)
    ensures Subset(IAbs(a), IAbs(a2))
  {
  }

  lemma HullGrows(r: Ival, a: Ival, r2: Ival, a2: Ival)
    requires Regular(r) && Regular(r2) && Regular(a) && Regular(a2) && Subset(r, r2) && Subset(a, a2)
    ensures Regular(Hull(r, a)) && Regular(Hull(r2, a2)) && Subset(Hull(r, a), Hull(r2, a2))
  {
  }

  lemma {:induction false} BundleGrows(r: Ival, r2: Ival, a: seq<Ival>, a2: seq<Ival>)
    requires Growing(a, a2) && Regular(r) && Regular(r2) && Subset(r, r2)
    ensures Subset(BundleFrom(r, a), BundleFrom(r2, a2))
    decreases |a|
  {
    hide Hull;
    hide Subset;
    hide Regular;
    if |a| > 0 {
      HullGrows(r, a[0], r2, a2[0]);
      BundleGrows(Hull(r, a[0]), Hull(r2, a2[0]), a[1..], a2[1..]);
    }
  }

  // ----- whole graphs -----

  lemma PowGrows(f: Fpu, a: Ival, e: Ival, a2: Ival, e2: Ival)
    requires Outward(f) && Steady(f) && Proper(a) && Proper(e) && Subset(a, a2) && Subset(e, e2)
    requires e.lo == e.hi && Integral(e.lo) && !PowerLossy(f, a, e.lo.r.Floor)
    requires e2.lo == e2.hi && Integral(e2.lo) && !PowerLossy(f, a2, e2.lo.r.Floor)
    ensures Subset(RPow(f, a, e.lo), RPow(f, a2, e2.lo))
  {
    hide IPow;
    hide PowerLossy;
    assert e.lo == e2.lo;
    ProperGrows(a, a2);
    IPowGrows(f, a, a2, e.lo.r.Floor);
  }

  /** Operators on operands that are not empty. */
  lemma ProperOpGrows(f: Fpu, op: Op, a: seq<Ival>, a2: seq<Ival>)
    requires Sound(f) && Steady(f) && |a| == |a2| >= Arity(op)
    requires forall i :: 0 <= i < Arity(op) ==> Proper(a[i]) && Subset(a[i], a2[i])
    requires op in {Op.Sin, Op.Cos, Op.Tan} || Proper(ApplyOp(f, op, a))
    requires !OpLossy(f, op, a) && !OpLossy(f, op, a2)
    ensures Subset(ApplyOp(f, op, a), ApplyOp(f, op, a2))
  {
    hide Subset;
    hide Proper;
    hide I.Add;
    hide I.Sub;
    hide I.Mul;
    hide I.Divi;
    hide I.Neg;
    hide RPow;
    hide ISqrt;
    hide ILog;
    hide IExp;
    hide MulLossy;
    hide DivLossy;
    hide PowerLossy;
    hide Integral;
    match op
    case Add => AddGrows(f, a[0], a[1], a2[0], a2[1]);
    case Sub => SubGrows(f, a[0], a[1], a2[0], a2[1]);
    case Mul => MulGrows(f, a[0], a[1], a2[0], a2[1]);
    case Div => DiviGrows(f, a[0], a[1], a2[0], a2[1]);
    case Neg => NegGrows(a[0], a2[0]);
    case Pow => PowGrows(f, a[0], a[1], a2[0], a2[1]);
    case Sqrt => SqrtGrows(f, a[0], a2[0]);
    case Log => LogGrows(f, a[0], a2[0]);
    case Exp => ExpGrows(f, a[0], a2[0]);
    case _ =>
  }

  /** An empty operand leaves nothing. */
  lemma EmptyOp(f: Fpu, op: Op, a: seq<Ival>, i: nat)
    requires |a| >= Arity(op) && i < Arity(op) && IsEmpty(a[i]) && !OpLossy(f, op, a) && op !in {Op.Sin, Op.Cos, Op.Tan}
    ensures IsEmpty(ApplyOp(f, op, a))
  {
    hide IPow;
  }

  lemma OpGrows(f: Fpu, op: Op, a: seq<Ival>, a2: seq<Ival>)
    requires Sound(f) && Steady(f) && Growing(a, a2) && |a| >= Arity(op)
    requires !OpLossy(f, op, a) && !OpLossy(f, op, a2) && Regular(ApplyOp(f, op, a))
    ensures Subset(ApplyOp(f, op, a), ApplyOp(f, op, a2))
  {
    hide OpLossy;
    if op in {Op.Sin, Op.Cos, Op.Tan} {
      TrigGrows(f, op, a, a2);
    } else if i: nat :| i < Arity(op) && IsEmpty(a[i]) {
      hide ApplyOp;
      EmptyOp(f, op, a, i);
    } else if !IsEmpty(ApplyOp(f, op, a)) {
      hide ApplyOp;
      ProperOpGrows(f, op, a, a2);
    }
  }

  lemma TrigGrows(f: Fpu, op: Op, a: seq<Ival>, a2: seq<Ival>)
    requires Steady(f) && op in {Op.Sin, Op.Cos, Op.Tan} && |a| == |a2| >= 1 && Subset(a[0], a2[0])
    ensures Subset(ApplyOp(f, op, a), ApplyOp(f, op, a2))
  {
    hide Subset;
  }

  /** Every enclosure at or below n is empty or has numbers in it. */
  predicate RegularTrace(f: Fpu, n: Node, box: Box, ht: HoleTable)
    requires WellFormed(n)
    decreases n, 1
  {
    && Regular(Encl(f, n, box, ht))
    && match n
       case Const(_) => true
       case Var(_, _) => true
       case Oper(_, args) => AllRegularTrace(f, args, box, ht)
       case Call(_, args) => AllRegularTrace(f, args, box, ht)
       case Hole(_, _, _, args) => AllRegularTrace(f, args, box, ht)
       case Disj(cands) => AllRegularTrace(f, cands, box, ht)
  }

  predicate AllRegularTrace(f: Fpu, ns: seq<Node>, box: Box, ht: HoleTable)
    requires AllWellFormed(ns)
    decreases ns, 0
  {
    forall i :: 0 <= i < |ns| ==> RegularTrace(f, ns[i], box, ht)
  }

  /** No maximum, minimum or absolute value below n has an empty argument. */
  predicate Unselected(f: Fpu, n: Node, box: Box, ht: HoleTable)
    requires WellFormed(n)
    decreases n, 1
  {
    match n
    case Const(_) => true
    case Var(_, _) => true
    case Oper(_, args) => AllUnselected(f, args, box, ht)
    case Call(fn, args) =>
      && AllUnselected(f, args, box, ht)
      && (Selects(fn, |args|) ==> forall i :: 0 <= i < |args| ==> !IsEmpty(Encl(f, args[i], box, ht)))
    case Hole(_, _, _, args) => AllUnselected(f, args, box, ht)
    case Disj(cands) => AllUnselected(f, cands, box, ht)
  }

  predicate AllUnselected(f: Fpu, ns: seq<Node>, box: Box, ht: HoleTable)
    requires AllWellFormed(ns)
    decreases ns, 0
  {
    forall i :: 0 <= i < |ns| ==> Unselected(f, ns[i], box, ht)
  }

  /** The same variables, each with a wider range. */
  predicate Wider(small: Box, large: Box) {
    small.Keys == large.Keys && forall s :: s in small ==> Subset(small[s], large[s])
  }

  /** Without wrappers, and while nothing is lossy and no maximum, minimum or absolute value has an
      empty argument, a wider box has a wider enclosure. */
  lemma {:induction false} EnclosureGrows(f: Fpu, n: Node, small: Box, large: Box, ht: HoleTable)
    requires Sound(f) && Steady(f) && WellFormed(n) && Wider(small, large) && ht.wrappers.Keys == {}
    requires RegularTrace(f, n, small, ht) && RegularTrace(f, n, large, ht) && Unselected(f, n, small, ht)
    requires Faithful(f, n, small, ht) && Faithful(f, n, large, ht)
    ensures Subset(Encl(f, n, small, ht), Encl(f, n, large, ht))
    decreases n, 1
  {
    hide ApplyOp;
    hide CallEncl;
    hide OpLossy;
    hide Regular;
    hide Subset;
    hide Sound;
    hide Steady;
    hide IsEmpty;
    hide LeadTainted;
    hide Growing;
    match n
    case Const(c) => SameGrows(Point(Fin(c)));
    case Var(s, phys) => SameGrows(phys);
    case Oper(op, args) =>
      AllGrow(f, args, small, large, ht);
      OpGrows(f, op, EnclAll(f, args, small, ht), EnclAll(f, args, large, ht));
    case Call(fn, args) =>
      AllGrow(f, args, small, large, ht);
      CallGrows(fn, EnclAll(f, args, small, ht), EnclAll(f, args, large, ht));
    case Hole(id, phys, _, _) =>
      SameGrows(PhysOf(ht, id, phys));
    case Disj(cands) =>
      AllGrow(f, cands, small, large, ht);
      BundleFromEmpty(EnclAll(f, cands, small, ht), EnclAll(f, cands, large, ht));
  }

  lemma SameGrows(a: Ival)
    ensures Regular(a) ==> Subset(a, a)
  {
  }

  lemma BundleFromEmpty(a: seq<Ival>, a2: seq<Ival>)
    requires Growing(a, a2)
    ensures Subset(BundleHull(a), BundleHull(a2))
  {
    BundleGrows(EMPTY, EMPTY, a, a2);
  }

  lemma {:induction false} AllGrow(f: Fpu, ns: seq<Node>, small: Box, large: Box, ht: HoleTable)
    requires Sound(f) && Steady(f) && AllWellFormed(ns) && Wider(small, large) && ht.wrappers.Keys == {}
    requires AllRegularTrace(f, ns, small, ht) && AllRegularTrace(f, ns, large, ht) && AllUnselected(f, ns, small, ht)
    requires AllFaithful(f, ns, small, ht) && AllFaithful(f, ns, large, ht)
    ensures Growing(EnclAll(f, ns, small, ht), EnclAll(f, ns, large, ht))
    decreases ns, 0
  {
    hide Regular;
    hide Subset;
    hide Sound;
    hide Steady;
    hide EnclAll;
    forall i | 0 <= i < |ns|
      ensures Regular(EnclAll(f, ns, small, ht)[i]) && Regular(EnclAll(f, ns, large, ht)[i])
      ensures Subset(EnclAll(f, ns, small, ht)[i], EnclAll(f, ns, large, ht)[i])
    {
      EnclosureGrows(f, ns[i], small, large, ht);
    }
  }

  /** With an empty argument a wider box can have an enclosure that is not wider: the larger of
      the root of x and y, where x turns from negative to not always negative. */
  lemma EmptyBreaksGrowth(f: Fpu) returns (n: Node, small: Box, large: Box, ht: HoleTable)
    requires Sound(f) && Exact(f)
    ensures WellFormed(n) && Wider(small, large) && ht.wrappers.Keys == {}
    ensures Faithful(f, n, small, ht) && Faithful(f, n, large, ht)
    ensures RegularTrace(f, n, small, ht) && RegularTrace(f, n, large, ht)
    ensures !Subset(Encl(f, n, small, ht), Encl(f, n, large, ht))
  {
    var root := Oper(Sqrt, [Var("x", ENTIRE)]);
    var y := Var("y", ENTIRE);
    n := Call(MaxFn, [root, y]);
    small := map["x" := Ival(Fin(-2.0), Fin(-1.0)), "y" := Ival(Fin(0.0), Fin(1.0))];
    large := map["x" := Ival(Fin(-2.0), Fin(4.0)), "y" := Ival(Fin(0.0), Fin(1.0))];
    ht := HoleTable(map[], map[]);
    var unit := Ival(Fin(0.0), Fin(1.0));
    var r := ISqrt(f, large["x"]);
    assert ISqrt(f, small["x"]) == EMPTY;
    LargerOf(f, small, ht);
    LargerOf(f, large, ht);
    assert IMax(EMPTY, unit) == Ival(Fin(1.0), PosInf);
    assert r.lo.Fin? && r.hi.Fin? && IMax(r, unit).hi.Fin?;
    hide EnclAll;
    hide Encl;
    hide Faithful;
    hide WellFormed;
    hide RegularTrace;
  }

  lemma LargerOf(f: Fpu, box: Box, ht: HoleTable)
    requires "x" in box && "y" in box
    ensures var n := Call(MaxFn, [Oper(Sqrt, [Var("x", ENTIRE)]), Var("y", ENTIRE)]);
      && WellFormed(n) && Faithful(f, n, box, ht) && Encl(f, n, box, ht) == IMax(ISqrt(f, box["x"]), box["y"])
      && (RegularTrace(f, n, box, ht) <==>
          Regular(Encl(f, n, box, ht)) && Regular(ISqrt(f, box["x"])) && Regular(box["x"]) && Regular(box["y"]))
  {
    var root, y := Oper(Sqrt, [Var("x", ENTIRE)]), Var("y", ENTIRE);
    RootOf(f, box, ht);
    assert WellFormed(y) && Faithful(f, y, box, ht) && Encl(f, y, box, ht) == box["y"];
    hide ISqrt;
    var args := [root, y];
    assert AllWellFormed(args);
    assert EnclAll(f, args, box, ht) == [ISqrt(f, box["x"]), box["y"]];
    assert AllFaithful(f, args, box, ht);
    hide Regular;
    assert RegularTrace(f, y, box, ht) <==> Regular(box["y"]);
    assert AllRegularTrace(f, args, box, ht) <==> RegularTrace(f, root, box, ht) && RegularTrace(f, y, box, ht);
  }

  lemma RootOf(f: Fpu, box: Box, ht: HoleTable)
    requires "x" in box
    ensures var root := Oper(Sqrt, [Var("x", ENTIRE)]);
      && WellFormed(root) && Encl(f, root, box, ht) == ISqrt(f, box["x"]) && Faithful(f, root, box, ht)
      && (RegularTrace(f, root, box, ht) <==> Regular(ISqrt(f, box["x"])) && Regular(box["x"]))
  {
    var args := [Var("x", ENTIRE)];
    assert AllWellFormed(args);
    assert EnclAll(f, args, box, ht) == [box["x"]];
    assert AllFaithful(f, args, box, ht);
    hide Regular;
    hide ISqrt;
    assert RegularTrace(f, args[0], box, ht) <==> Regular(box["x"]);
  }
}
