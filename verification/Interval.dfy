/** Interval arithmetic on extended reals with outward rounding. */
module Interval {
  import X = ExtReal
  import opened ExtReal
  import opened Reals

  /** The arithmetic unit: directed rounding, the slack of a few steps that is given to widths
      and to library functions, and the elementary functions. Nothing is known about it here;
      Sound says what the results below assume. */
  datatype Fpu = Fpu(
    down: real -> XR,
    up: real -> XR,
    slackDown: real -> XR,
    slackUp: real -> XR,
    sqrt: real -> real,
    exp: real -> real,
    log: real -> real,
    pow: (XR, XR) -> XR,
    sin: real -> real,
    cos: real -> real,
    tan: real -> real,
    isin: Ival -> Ival,
    icos: Ival -> Ival,
    itan: Ival -> Ival)

  ghost predicate Outward(f: Fpu) {
    && (forall x: real :: Le(f.down(x), Fin(x)) && Le(Fin(x), f.up(x)))
    && forall x: real :: Le(f.slackDown(x), Fin(x)) && Le(Fin(x), f.slackUp(x))
  }

  /** No rounding at all. */
  ghost predicate Exact(f: Fpu) {
    && (forall x: real :: f.down(x) == Fin(x) && f.up(x) == Fin(x))
    && forall x: real :: f.slackDown(x) == Fin(x) && f.slackUp(x) == Fin(x)
  }

  ghost predicate Monotone(f: Fpu) {
    && (forall x, y :: 0.0 <= x <= y ==> 0.0 <= f.sqrt(x) <= f.sqrt(y))
    && (forall x, y :: x <= y ==> 0.0 < f.exp(x) <= f.exp(y))
    && (forall x, y :: 0.0 < x <= y ==> f.log(x) <= f.log(y))
  }

  /** The trigonometric enclosures hold what they should; their range reduction is not modelled. */
  ghost predicate TrigSound(f: Fpu) {
    forall a, x :: Contains(a, x) ==>
      Contains(f.isin(a), f.sin(x)) && Contains(f.icos(a), f.cos(x)) && Contains(f.itan(a), f.tan(x))
  }

  ghost predicate Sound(f: Fpu) {
    Outward(f) && Monotone(f) && TrigSound(f)
  }

  function Down(f: Fpu, x: XR): XR {
    if x.Fin? then f.down(x.r) else x
  }

  function Up(f: Fpu, x: XR): XR {
    if x.Fin? then f.up(x.r) else x
  }

  function SlackDown(f: Fpu, x: XR): XR {
    if x.Fin? then f.slackDown(x.r) else x
  }

  function SlackUp(f: Fpu, x: XR): XR {
    if x.Fin? then f.slackUp(x.r) else x
  }

  datatype Ival = Ival(lo: XR, hi: XR)

  const EMPTY: Ival := Ival(PosInf, NegInf)

  const ENTIRE: Ival := Ival(NegInf, PosInf)

  function Point(x: XR): Ival { Ival(x, x) }

  function Of(a: XR, b: XR): Ival {
    if Le(a, b) then Ival(a, b) else Ival(b, a)
  }

  predicate IsEmpty(a: Ival) { Lt(a.hi, a.lo) }

  predicate IsEntire(a: Ival) { a == ENTIRE }

  predicate Contains(a: Ival, x: real) {
    !IsEmpty(a) && Le(a.lo, Fin(x)) && Le(Fin(x), a.hi)
  }

  /** The intervals that hold a real number; every enclosure in use is one. */
  predicate Proper(a: Ival) {
    (a.lo.NegInf? || a.lo.Fin?) && (a.hi.Fin? || a.hi.PosInf?) && Le(a.lo, a.hi)
  }

  predicate Tainted(a: Ival) { a.lo.NaN? || a.hi.NaN? }

  predicate Finite(a: Ival) { a.lo.Fin? && a.hi.Fin? }

  predicate Subset(a: Ival, b: Ival) {
    if IsEmpty(a) then true else if IsEmpty(b) then false else Le(b.lo, a.lo) && Le(a.hi, b.hi)
  }

  function Width(f: Fpu, a: Ival): XR {
    if IsEmpty(a) then ZERO else SlackUp(f, X.Sub(a.hi, a.lo))
  }

  /** The midpoint, exact; NaN for an empty interval. */
  function Mid(a: Ival): XR {
    if IsEmpty(a) then NaN else X.Mul(Fin(0.5), X.Add(a.lo, a.hi))
  }

  function Mag(a: Ival): XR {
    if IsEmpty(a) then ZERO else StdMax(X.Abs(a.lo), X.Abs(a.hi))
  }

  lemma ProperMeaning(a: Ival)
    ensures Proper(a) <==> exists x :: Contains(a, x)
  {
    if Proper(a) {
      var x := if a.lo.Fin? then a.lo.r else if a.hi.Fin? then a.hi.r else 0.0;
      assert Contains(a, x);
    }
  }

  // ----- the operations -----

  function Neg(a: Ival): Ival {
    if IsEmpty(a) then a else Ival(X.Neg(a.hi), X.Neg(a.lo))
  }

  function Add(f: Fpu, a: Ival, b: Ival): Ival {
    if IsEmpty(a) || IsEmpty(b) then EMPTY
    else Ival(Down(f, X.Add(a.lo, b.lo)), Up(f, X.Add(a.hi, b.hi)))
  }

  function Sub(f: Fpu, a: Ival, b: Ival): Ival {
    if IsEmpty(a) || IsEmpty(b) then EMPTY
    else Ival(Down(f, X.Sub(a.lo, b.hi)), Up(f, X.Sub(a.hi, b.lo)))
  }

  function Mul(f: Fpu, a: Ival, b: Ival): Ival {
    if IsEmpty(a) || IsEmpty(b) then EMPTY
    else
      var p1, p2, p3, p4 := X.Mul(a.lo, b.lo), X.Mul(a.lo, b.hi), X.Mul(a.hi, b.lo), X.Mul(a.hi, b.hi);
      Ival(Min4(Down(f, p1), Down(f, p2), Down(f, p3), Down(f, p4)),
           Max4(Up(f, p1), Up(f, p2), Up(f, p3), Up(f, p4)))
  }

  predicate HoldsZero(b: Ival) {
    Le(b.lo, ZERO) && Le(ZERO, b.hi)
  }

  function Divi(f: Fpu, a: Ival, b: Ival): Ival {
    if IsEmpty(a) || IsEmpty(b) then EMPTY
    else if HoldsZero(b) then ENTIRE
    else
      var q1, q2, q3, q4 := X.Div(a.lo, b.lo), X.Div(a.lo, b.hi), X.Div(a.hi, b.lo), X.Div(a.hi, b.hi);
      Ival(Min4(Down(f, q1), Down(f, q2), Down(f, q3), Down(f, q4)),
           Max4(Up(f, q1), Up(f, q2), Up(f, q3), Up(f, q4)))
  }

  function Sqr(f: Fpu, a: Ival): Ival {
    if IsEmpty(a) then a
    else
      var l, h := X.Abs(a.lo), X.Abs(a.hi);
      var mx := StdMax(l, h);
      var mn := if HoldsZero(a) then ZERO else StdMin(l, h);
      Ival(Down(f, X.Mul(mn, mn)), Up(f, X.Mul(mx, mx)))
  }

  function Hull(a: Ival, b: Ival): Ival {
    if IsEmpty(a) then b
    else if IsEmpty(b) then a
    else Ival(StdMin(a.lo, b.lo), StdMax(a.hi, b.hi))
  }

  function Meet(a: Ival, b: Ival): Ival {
    if IsEmpty(a) || IsEmpty(b) then EMPTY
    else
      var lo, hi := StdMax(a.lo, b.lo), StdMin(a.hi, b.hi);
      if Le(lo, hi) then Ival(lo, hi) else EMPTY
  }

  /** When multiplication loses points although its factors are proper: an infinite endpoint
      meets a zero endpoint in a product that the selectors then let pass. */
  predicate MulLossy(a: Ival, b: Ival) {
    || (a.lo == ZERO && b.lo == NegInf)
    || (a.lo == NegInf && b.lo == ZERO)
    || (a.hi == PosInf && b.lo == ZERO && Lt(ZERO, b.hi) && !(Lt(ZERO, a.lo) && b.hi == PosInf))
    || (a.hi == ZERO && b.lo == NegInf && (Lt(b.hi, ZERO) || (a.lo == NegInf && b.hi == ZERO)))
  }

  /** When division loses points: a numerator unbounded on some side meets a negative
      denominator unbounded below. */
  predicate DivLossy(a: Ival, b: Ival) {
    Lt(b.hi, ZERO) && b.lo == NegInf && (a.lo == NegInf || a.hi == PosInf)
  }

  // ----- enclosure lemmas -----

  lemma NegSound(a: Ival, x: real)
    requires Contains(a, x)
    ensures Contains(Neg(a), -x)
  {
  }

  lemma AddSound(f: Fpu, a: Ival, b: Ival, x: real, y: real)
    requires Outward(f) && Contains(a, x) && Contains(b, y)
    ensures Contains(Add(f, a, b), x + y)
  {
  }

  lemma SubSound(f: Fpu, a: Ival, b: Ival, x: real, y: real)
    requires Outward(f) && Contains(a, x) && Contains(b, y)
    ensures Contains(Sub(f, a, b), x - y)
  {
  }

  lemma MeetSound(a: Ival, b: Ival, x: real)
    ensures Contains(a, x) && Contains(b, x) ==> Contains(Meet(a, b), x)
    ensures Proper(a) && Proper(b) && Contains(Meet(a, b), x) ==> Contains(a, x) && Contains(b, x)
  {
  }

  // ----- multiplication -----

  /** A product bound below by one of the corner products that the selectors look at. */
  lemma MinBelow(p1: XR, p2: XR, p3: XR, p4: XR, v: XR)
    requires !p1.NaN? && !v.NaN?
    requires Le(p1, v) || Le(p2, v) || Le(p3, v) || (!p3.NaN? && Le(p4, v))
    ensures Le(Min4(p1, p2, p3, p4), v)
  {
  }

  lemma MaxAbove(p1: XR, p2: XR, p3: XR, p4: XR, v: XR)
    requires !p1.NaN? && !v.NaN?
    requires Le(v, p1) || Le(v, p2) || Le(v, p3) || (!p3.NaN? && Le(v, p4))
    ensures Le(v, Max4(p1, p2, p3, p4))
  {
  }

  lemma DownBelow(f: Fpu, p: XR, v: XR)
    requires Outward(f) && Le(p, v)
    ensures Le(Down(f, p), v) && !Down(f, p).NaN?
  {
  }

  lemma UpAbove(f: Fpu, p: XR, v: XR)
    requires Outward(f) && Le(v, p)
    ensures Le(v, Up(f, p)) && !Up(f, p).NaN?
  {
  }

  /** The corner (c, d) undercuts a product: first move x to c, then y to d. */
  lemma CornerLow(c: real, d: real, x: real, y: real)
    requires (c <= x && y >= 0.0) || (x <= c && y <= 0.0)
    requires (c >= 0.0 && d <= y) || (c <= 0.0 && y <= d)
    ensures Prod(c, d) <= Prod(x, y)
  {
    assert x * y - c * y == (x - c) * y;
    assert c * y - c * d == c * (y - d);
    assert (x - c) * y >= 0.0 && c * (y - d) >= 0.0;
  }

  lemma CornerHigh(c: real, d: real, x: real, y: real)
    requires (x <= c && y >= 0.0) || (c <= x && y <= 0.0)
    requires (c >= 0.0 && y <= d) || (c <= 0.0 && d <= y)
    ensures Prod(x, y) <= Prod(c, d)
  {
    assert c * y - x * y == (c - x) * y;
    assert c * d - c * y == c * (d - y);
    assert (c - x) * y >= 0.0 && c * (d - y) >= 0.0;
  }

  lemma ProdSign(x: real, y: real)
    ensures (x <= 0.0 && y <= 0.0) || (x >= 0.0 && y >= 0.0) ==> Prod(x, y) >= 0.0
    ensures (x >= 0.0 && y <= 0.0) || (x <= 0.0 && y >= 0.0) ==> Prod(x, y) <= 0.0
    ensures x < 0.0 && y < 0.0 ==> Prod(x, y) > 0.0
  {
  }

  predicate SomeLow(a: Ival, b: Ival, v: real) {
    var p1, p2, p3, p4 := X.Mul(a.lo, b.lo), X.Mul(a.lo, b.hi), X.Mul(a.hi, b.lo), X.Mul(a.hi, b.hi);
    !p1.NaN? && (Le(p1, Fin(v)) || Le(p2, Fin(v)) || Le(p3, Fin(v)) || (!p3.NaN? && Le(p4, Fin(v))))
  }

  predicate SomeHigh(a: Ival, b: Ival, v: real) {
    var p1, p2, p3, p4 := X.Mul(a.lo, b.lo), X.Mul(a.lo, b.hi), X.Mul(a.hi, b.lo), X.Mul(a.hi, b.hi);
    !p1.NaN? && (Le(Fin(v), p1) || Le(Fin(v), p2) || Le(Fin(v), p3) || (!p3.NaN? && Le(Fin(v), p4)))
  }

  /** With y at least zero the product is at least lo(a) * y, which a corner undercuts. */
  lemma MulLowUp(a: Ival, b: Ival, x: real, y: real)
    requires Contains(a, x) && Contains(b, y) && !MulLossy(a, b) && y >= 0.0
    ensures SomeLow(a, b, Prod(x, y))
  {
    hide Prod;
    if a.lo.Fin? {
      if a.lo.r >= 0.0 {
        if b.lo.Fin? { CornerLow(a.lo.r, b.lo.r, x, y); }
      } else {
        if b.hi.Fin? { CornerLow(a.lo.r, b.hi.r, x, y); }
      }
    } else if b.hi == ZERO {
      ProdSign(x, y);
      if a.hi.Fin? {
        ProdSign(a.hi.r, 0.0);
        if b.lo.Fin? { ProdSign(a.hi.r, b.lo.r); }
      }
    }
  }

  lemma MulLowDown(a: Ival, b: Ival, x: real, y: real)
    requires Contains(a, x) && Contains(b, y) && !MulLossy(a, b) && y < 0.0
    ensures SomeLow(a, b, Prod(x, y))
  {
    hide Prod;
    if a.hi.Fin? {
      if a.hi.r >= 0.0 {
        if b.lo.Fin? {
          CornerLow(a.hi.r, b.lo.r, x, y);
        } else if a.hi.r == 0.0 && a.lo.Fin? && b.hi.Fin? {
          ProdSign(x, y);
          ProdSign(a.lo.r, b.hi.r);
        }
      } else if b.hi.Fin? {
        CornerLow(a.hi.r, b.hi.r, x, y);
      }
    }
  }

  lemma MulHighUp(a: Ival, b: Ival, x: real, y: real)
    requires Contains(a, x) && Contains(b, y) && !MulLossy(a, b) && y > 0.0
    ensures SomeHigh(a, b, Prod(x, y))
  {
    hide Prod;
    if a.hi.Fin? {
      if a.hi.r > 0.0 {
        if b.hi.Fin? { CornerHigh(a.hi.r, b.hi.r, x, y); }
      } else {
        if b.lo.Fin? { CornerHigh(a.hi.r, b.lo.r, x, y); }
      }
    }
  }

  lemma MulHighDown(a: Ival, b: Ival, x: real, y: real)
    requires Contains(a, x) && Contains(b, y) && !MulLossy(a, b) && y <= 0.0
    ensures SomeHigh(a, b, Prod(x, y))
  {
    hide Prod;
    if a.lo.Fin? {
      if a.lo.r > 0.0 {
        if b.hi.Fin? { CornerHigh(a.lo.r, b.hi.r, x, y); }
      } else {
        if b.lo.Fin? { CornerHigh(a.lo.r, b.lo.r, x, y); }
      }
    }
  }

  /** Outward rounding keeps every product of a non-lossy pair. */
  lemma MulSound(f: Fpu, a: Ival, b: Ival, x: real, y: real)
    requires Outward(f) && Contains(a, x) && Contains(b, y) && !MulLossy(a, b)
    ensures Contains(Mul(f, a, b), Prod(x, y))
  {
    hide Prod;
    if y >= 0.0 { MulLowUp(a, b, x, y); } else { MulLowDown(a, b, x, y); }
    if y > 0.0 { MulHighUp(a, b, x, y); } else { MulHighDown(a, b, x, y); }
    Corners(f, X.Mul(a.lo, b.lo), X.Mul(a.lo, b.hi), X.Mul(a.hi, b.lo), X.Mul(a.hi, b.hi), Fin(Prod(x, y)));
  }

  lemma Corners(f: Fpu, p1: XR, p2: XR, p3: XR, p4: XR, v: XR)
    requires Outward(f) && !p1.NaN? && v.Fin?
    requires Le(p1, v) || Le(p2, v) || Le(p3, v) || (!p3.NaN? && Le(p4, v))
    requires Le(v, p1) || Le(v, p2) || Le(v, p3) || (!p3.NaN? && Le(v, p4))
    ensures Le(Min4(Down(f, p1), Down(f, p2), Down(f, p3), Down(f, p4)), v)
    ensures Le(v, Max4(Up(f, p1), Up(f, p2), Up(f, p3), Up(f, p4)))
  {
    MinBelow(Down(f, p1), Down(f, p2), Down(f, p3), Down(f, p4), v);
    MaxAbove(Up(f, p1), Up(f, p2), Up(f, p3), Up(f, p4), v);
  }

  lemma ProperPoint(a: Ival) returns (x: real)
    requires Proper(a)
    ensures Contains(a, x)
  {
    x := if a.lo.Fin? then a.lo.r else if a.hi.Fin? then a.hi.r else 0.0;
  }

  lemma Reaches(y: real, al: real, h: real) returns (x: real)
    requires y > 0.0
    ensures x >= al && Prod(x, y) > h
  {
    var z := (if h < 0.0 then 1.0 else h + 1.0) / y;
    x := if z < al then al else z;
    assert z * y == if h < 0.0 then 1.0 else h + 1.0;
    assert (x - z) * y >= 0.0;
  }

  /** A lossy pair really loses a product, even without rounding. */
  lemma MulEscape(f: Fpu, a: Ival, b: Ival) returns (x: real, y: real)
    requires Exact(f) && Proper(a) && Proper(b) && MulLossy(a, b)
    ensures Contains(a, x) && Contains(b, y) && !Contains(Mul(f, a, b), Prod(x, y))
  {
    hide Prod;
    if X.Mul(a.lo, b.lo).NaN? {
      x := ProperPoint(a);
      y := ProperPoint(b);
    } else if a.hi == PosInf {
      x, y := EscapeAbove(f, a, b);
    } else {
      x, y := 0.0, b.hi.r;
      if a.lo.Fin? { ProdSign(a.lo.r, b.hi.r); }
      ProdSign(0.0, y);
    }
  }

  lemma EscapeAbove(f: Fpu, a: Ival, b: Ival) returns (x: real, y: real)
    requires Exact(f) && Proper(a) && Proper(b) && MulLossy(a, b) && a.lo.Fin? && a.hi == PosInf && b.lo == ZERO
    ensures Contains(a, x) && Contains(b, y) && !Contains(Mul(f, a, b), Prod(x, y))
  {
    hide Prod;
    y := if b.hi.Fin? then b.hi.r else 1.0;
    var h := Mul(f, a, b).hi;
    ProdSign(a.lo.r, 0.0);
    assert h.Fin?;
    x := Reaches(y, a.lo.r, h.r);
  }

  /** In exact arithmetic the guard is the exact condition for enclosing every product. */
  lemma MulExactlyWhen(f: Fpu, a: Ival, b: Ival)
    requires Exact(f) && Proper(a) && Proper(b)
    ensures !MulLossy(a, b) <==> forall x, y :: Contains(a, x) && Contains(b, y) ==> Contains(Mul(f, a, b), Prod(x, y))
  {
    hide Prod;
    if MulLossy(a, b) {
      var x, y := MulEscape(f, a, b);
    } else {
      forall x, y | Contains(a, x) && Contains(b, y)
        ensures Contains(Mul(f, a, b), Prod(x, y))
      {
        MulSound(f, a, b, x, y);
      }
    }
  }

  // ----- division -----

  lemma Reciprocal(d: real, y: real)
    requires (0.0 < d <= y) || (d <= y < 0.0)
    ensures 1.0 / y <= 1.0 / d
  {
    var s, t := 1.0 / d, 1.0 / y;
    SignOfReciprocal(d);
    SignOfReciprocal(y);
    assert s * d == 1.0 && t * y == 1.0;
    ReciprocalGap(d, y, s, t);
    ProdSign(s, t);
    ProdSign(y - d, Prod(s, t));
  }

  lemma ReciprocalGap(d: real, y: real, s: real, t: real)
    requires s * d == 1.0 && t * y == 1.0
    ensures s - t == Prod(y - d, Prod(s, t))
  {
    assert (y - d) * (s * t) == s * (t * y) - t * (s * d);
  }

  lemma SignOfReciprocal(d: real)
    requires d != 0.0
    ensures d > 0.0 ==> 1.0 / d > 0.0
    ensures d < 0.0 ==> 1.0 / d < 0.0
  {
  }

  lemma QuotientAsProduct(x: real, y: real)
    requires y != 0.0
    ensures Quot(x, y) == Prod(x, 1.0 / y)
  {
  }

  predicate SomeLowQuotient(a: Ival, b: Ival, v: real) {
    var q1, q2, q3, q4 := X.Div(a.lo, b.lo), X.Div(a.lo, b.hi), X.Div(a.hi, b.lo), X.Div(a.hi, b.hi);
    !q1.NaN? && (Le(q1, Fin(v)) || Le(q2, Fin(v)) || Le(q3, Fin(v)) || (!q3.NaN? && Le(q4, Fin(v))))
  }

  predicate SomeHighQuotient(a: Ival, b: Ival, v: real) {
    var q1, q2, q3, q4 := X.Div(a.lo, b.lo), X.Div(a.lo, b.hi), X.Div(a.hi, b.lo), X.Div(a.hi, b.hi);
    !q1.NaN? && (Le(Fin(v), q1) || Le(Fin(v), q2) || Le(Fin(v), q3) || (!q3.NaN? && Le(Fin(v), q4)))
  }

  /** d comes no later than y on one side of zero, so its reciprocal comes no earlier. */
  predicate Before(d: real, y: real) {
    (0.0 < d <= y) || (d <= y < 0.0)
  }

  /** The corner c / d undercuts x / y. */
  lemma QuotientLow(c: real, d: real, x: real, y: real)
    requires (c <= x && y > 0.0) || (x <= c && y < 0.0)
    requires (c >= 0.0 && Before(y, d)) || (c <= 0.0 && Before(d, y))
    ensures Quot(c, d) <= Quot(x, y)
  {
    hide Quot;
    hide Prod;
    SignOfReciprocal(y);
    if c >= 0.0 && Before(y, d) { Reciprocal(y, d); } else { Reciprocal(d, y); }
    QuotientAsProduct(c, d);
    QuotientAsProduct(x, y);
    CornerLow(c, 1.0 / d, x, 1.0 / y);
  }

  lemma QuotientHigh(c: real, d: real, x: real, y: real)
    requires (x <= c && y > 0.0) || (c <= x && y < 0.0)
    requires (c >= 0.0 && Before(d, y)) || (c <= 0.0 && Before(y, d))
    ensures Quot(x, y) <= Quot(c, d)
  {
    hide Quot;
    hide Prod;
    SignOfReciprocal(y);
    if c >= 0.0 && Before(d, y) { Reciprocal(d, y); } else { Reciprocal(y, d); }
    QuotientAsProduct(c, d);
    QuotientAsProduct(x, y);
    CornerHigh(c, 1.0 / d, x, 1.0 / y);
  }

  lemma SignOfQuotient(x: real, y: real)
    requires y != 0.0
    ensures (x >= 0.0 && y > 0.0) || (x <= 0.0 && y < 0.0) ==> Quot(x, y) >= 0.0
    ensures (x <= 0.0 && y > 0.0) || (x >= 0.0 && y < 0.0) ==> Quot(x, y) <= 0.0
  {
    hide Quot;
    hide Prod;
    SignOfReciprocal(y);
    QuotientAsProduct(x, y);
    ProdSign(x, 1.0 / y);
  }

  lemma DivPositive(a: Ival, b: Ival, x: real, y: real)
    requires Contains(a, x) && Contains(b, y) && Lt(ZERO, b.lo)
    ensures SomeLowQuotient(a, b, Quot(x, y)) && SomeHighQuotient(a, b, Quot(x, y))
  {
    hide Quot;
    SignOfQuotient(x, y);
    if a.lo.Fin? {
      if a.lo.r < 0.0 {
        QuotientLow(a.lo.r, b.lo.r, x, y);
      } else if b.hi.Fin? {
        QuotientLow(a.lo.r, b.hi.r, x, y);
      }
    }
    if a.hi.Fin? {
      if a.hi.r >= 0.0 {
        QuotientHigh(a.hi.r, b.lo.r, x, y);
      } else if b.hi.Fin? {
        QuotientHigh(a.hi.r, b.hi.r, x, y);
      }
    }
  }

  lemma DivNegative(a: Ival, b: Ival, x: real, y: real)
    requires Contains(a, x) && Contains(b, y) && Lt(b.hi, ZERO) && !DivLossy(a, b)
    ensures SomeLowQuotient(a, b, Quot(x, y)) && SomeHighQuotient(a, b, Quot(x, y))
  {
    hide Quot;
    SignOfQuotient(x, y);
    if a.hi.Fin? {
      if a.hi.r >= 0.0 {
        QuotientLow(a.hi.r, b.hi.r, x, y);
      } else if b.lo.Fin? {
        QuotientLow(a.hi.r, b.lo.r, x, y);
      }
    }
    if a.lo.Fin? {
      if a.lo.r < 0.0 {
        QuotientHigh(a.lo.r, b.hi.r, x, y);
      } else if b.lo.Fin? {
        QuotientHigh(a.lo.r, b.lo.r, x, y);
      }
    }
  }

  lemma DiviSound(f: Fpu, a: Ival, b: Ival, x: real, y: real)
    requires Outward(f) && Contains(a, x) && Contains(b, y) && y != 0.0 && !DivLossy(a, b)
    ensures Contains(Divi(f, a, b), Quot(x, y))
  {
    hide Quot;
    if !HoldsZero(b) {
      if Lt(ZERO, b.lo) { DivPositive(a, b, x, y); } else { DivNegative(a, b, x, y); }
      Corners(f, X.Div(a.lo, b.lo), X.Div(a.lo, b.hi), X.Div(a.hi, b.lo), X.Div(a.hi, b.hi), Fin(Quot(x, y)));
    }
  }

  /** A lossy quotient really loses a value, even without rounding. */
  lemma DivEscape(f: Fpu, a: Ival, b: Ival) returns (x: real, y: real)
    requires Exact(f) && Proper(a) && Proper(b) && DivLossy(a, b)
    ensures Contains(a, x) && Contains(b, y) && y != 0.0 && !Contains(Divi(f, a, b), Quot(x, y))
  {
    hide Quot;
    hide Prod;
    y := b.hi.r;
    if a.lo == NegInf {
      x := ProperPoint(a);
    } else {
      var lo := Divi(f, a, b).lo;
      assert lo.Fin?;
      var low := Prod(lo.r, y);
      x := if a.lo.r > low + 1.0 then a.lo.r else low + 1.0;
      BelowQuotient(x, y, lo.r);
    }
  }

  lemma BelowQuotient(x: real, y: real, lo: real)
    requires y < 0.0 && x > Prod(lo, y)
    ensures Quot(x, y) < lo
  {
    var q := x / y;
    assert q * y == x;
    if q >= lo { CornerHigh(lo, y, q, y); }
  }

  /** In exact arithmetic the guard is the exact condition for enclosing every quotient. */
  lemma DivExactlyWhen(f: Fpu, a: Ival, b: Ival)
    requires Exact(f) && Proper(a) && Proper(b)
    ensures !DivLossy(a, b) <==>
      forall x, y :: Contains(a, x) && Contains(b, y) && y != 0.0 ==> Contains(Divi(f, a, b), Quot(x, y))
  {
    hide Quot;
    if DivLossy(a, b) {
      var x, y := DivEscape(f, a, b);
    } else {
      forall x, y | Contains(a, x) && Contains(b, y) && y != 0.0
        ensures Contains(Divi(f, a, b), Quot(x, y))
      {
        DiviSound(f, a, b, x, y);
      }
    }
  }

  // ----- squares and integer powers -----

  function MinMag(a: Ival): XR {
    if HoldsZero(a) then ZERO else StdMin(X.Abs(a.lo), X.Abs(a.hi))
  }

  lemma Magnitudes(a: Ival, x: real, m: real)
    requires Contains(a, x) && m == if x < 0.0 then -x else x
    ensures MinMag(a).Fin? && 0.0 <= MinMag(a).r <= m
    ensures Mag(a).PosInf? || (Mag(a).Fin? && m <= Mag(a).r)
  {
  }

  lemma SqrShape(f: Fpu, a: Ival)
    requires !IsEmpty(a)
    ensures Sqr(f, a) == Ival(Down(f, X.Mul(MinMag(a), MinMag(a))), Up(f, X.Mul(Mag(a), Mag(a))))
  {
  }

  lemma SqrSound(f: Fpu, a: Ival, x: real)
    requires Outward(f) && Contains(a, x)
    ensures Contains(Sqr(f, a), Prod(x, x))
  {
    hide Prod;
    hide MinMag;
    hide Mag;
    var m := if x < 0.0 then -x else x;
    SquareOfNegation(x);
    SqrShape(f, a);
    SqrOfMagnitude(f, a, x, m);
  }

  lemma SquareOfNegation(x: real)
    ensures Prod(-x, -x) == Prod(x, x)
  {
  }

  lemma SqrOfMagnitude(f: Fpu, a: Ival, x: real, m: real)
    requires Outward(f) && Contains(a, x) && m == if x < 0.0 then -x else x
    ensures Contains(Ival(Down(f, X.Mul(MinMag(a), MinMag(a))), Up(f, X.Mul(Mag(a), Mag(a)))), Prod(m, m))
  {
    hide MinMag;
    hide Mag;
    hide Prod;
    Magnitudes(a, x, m);
    var mn, mx := MinMag(a), Mag(a);
    CornerLow(mn.r, mn.r, m, m);
    ProdSign(m, m);
    if mx.Fin? { CornerHigh(mx.r, mx.r, m, m); }
    SqrEnds(f, mn, mx, Prod(m, m));
  }

  lemma SqrEnds(f: Fpu, mn: XR, mx: XR, v: real)
    requires Outward(f) && mn.Fin? && Prod(mn.r, mn.r) <= v
    requires mx.PosInf? || (mx.Fin? && v <= Prod(mx.r, mx.r))
    ensures Contains(Ival(Down(f, X.Mul(mn, mn)), Up(f, X.Mul(mx, mx))), v)
  {
    hide Prod;
    DownBelow(f, X.Mul(mn, mn), Fin(v));
    UpAbove(f, X.Mul(mx, mx), Fin(v));
    LeTrans(Down(f, X.Mul(mn, mn)), Fin(v), Up(f, X.Mul(mx, mx)));
  }

  function RealPow(x: real, e: nat): real {
    if e == 0 then 1.0 else Prod(x, RealPow(x, e - 1))
  }

  /** The loop of square-and-multiply, as a function of its three variables. */
  function PowLoop(f: Fpu, r: Ival, base: Ival, e: nat): Ival
    decreases e
  {
    if e == 0 then r
    else
      var r' := if e % 2 == 1 then Mul(f, r, base) else r;
      var base' := if e / 2 > 0 then Mul(f, base, base) else base;
      PowLoop(f, r', base', e / 2)
  }

  /** Some product in the loop is lossy. */
  predicate PowLoopLossy(f: Fpu, r: Ival, base: Ival, e: nat)
    decreases e
  {
    e > 0 &&
      (var r' := if e % 2 == 1 then Mul(f, r, base) else r;
       var base' := if e / 2 > 0 then Mul(f, base, base) else base;
       (e % 2 == 1 && MulLossy(r, base)) || (e / 2 > 0 && MulLossy(base, base)) || PowLoopLossy(f, r', base', e / 2))
  }

  function Unit(): Ival { Point(Fin(1.0)) }

  function PosPow(f: Fpu, a: Ival, n: nat): Ival {
    var r := PowLoop(f, Unit(), a, n);
    if n % 2 == 0 && Lt(a.lo, ZERO) && Lt(ZERO, a.hi) then Ival(ZERO, r.hi) else r
  }

  function IPow(f: Fpu, a: Ival, n: int): Ival {
    if IsEmpty(a) then a
    else if n == 0 then Unit()
    else if n < 0 then Divi(f, Unit(), PosPow(f, a, -n))
    else PosPow(f, a, n)
  }

  predicate IPowLossy(f: Fpu, a: Ival, n: int) {
    n != 0 && PowLoopLossy(f, Unit(), a, if n < 0 then -n else n)
  }

  method PosPowLoop(f: Fpu, a: Ival, n: nat) returns (r: Ival)
    ensures r == PosPow(f, a, n)
  {
    r := Unit();
    var base := a;
    var e := n;
    while e > 0
      invariant PowLoop(f, r, base, e) == PowLoop(f, Unit(), a, n)
    {
      if e % 2 == 1 { r := Mul(f, r, base); }
      e := e / 2;
      if e > 0 { base := Mul(f, base, base); }
    }
    if n % 2 == 0 && Lt(a.lo, ZERO) && Lt(ZERO, a.hi) { r := Ival(ZERO, r.hi); }
  }

  /** Integer powers by square-and-multiply. */
  method ComputeIPow(f: Fpu, a: Ival, n: int) returns (r: Ival)
    ensures r == IPow(f, a, n)
  {
    if IsEmpty(a) { return a; }
    if n == 0 { return Unit(); }
    if n < 0 {
      var p := PosPowLoop(f, a, -n);
      return Divi(f, Unit(), p);
    }
    r := PosPowLoop(f, a, n);
  }

  lemma ProdAssoc(x: real, y: real, z: real)
    ensures Prod(Prod(x, y), z) == Prod(x, Prod(y, z))
  {
  }

  lemma ProdOne(x: real)
    ensures Prod(1.0, x) == x && Prod(x, 1.0) == x
  {
  }

  lemma {:induction false} PowAdd(x: real, d: nat, e: nat)
    ensures RealPow(x, d + e) == Prod(RealPow(x, d), RealPow(x, e))
  {
    hide Prod;
    if d == 0 {
      ProdOne(RealPow(x, e));
    } else {
      PowAdd(x, d - 1, e);
      ProdAssoc(x, RealPow(x, d - 1), RealPow(x, e));
    }
  }

  lemma {:induction false} PowSquare(x: real, e: nat)
    ensures RealPow(Prod(x, x), e) == RealPow(x, e + e)
  {
    hide Prod;
    if e > 0 {
      PowSquare(x, e - 1);
      ProdAssoc(x, x, RealPow(x, e - 1 + (e - 1)));
      assert RealPow(x, e + e) == Prod(x, RealPow(x, e + e - 1));
    }
  }

  /** Halving the exponent squares the base. */
  lemma PowHalve(p: real, q: real, e: nat, p': real, q': real)
    requires e > 0 && p' == (if e % 2 == 1 then Prod(p, q) else p) && q' == if e / 2 > 0 then Prod(q, q) else q
    ensures Prod(p, RealPow(q, e)) == Prod(p', RealPow(q', e / 2))
  {
    hide Prod;
    var h := e / 2;
    if h > 0 { PowSquare(q, h); }
    if e % 2 == 1 {
      assert RealPow(q, e) == Prod(q, RealPow(q, h + h));
      ProdAssoc(p, q, RealPow(q, h + h));
    }
  }

  /** The loop keeps p * q^e inside while r holds p and base holds q. */
  lemma {:induction false} PowLoopSound(f: Fpu, r: Ival, base: Ival, e: nat, p: real, q: real, v: real)
    requires Outward(f) && Contains(r, p) && Contains(base, q) && !PowLoopLossy(f, r, base, e)
    requires v == Prod(p, RealPow(q, e))
    ensures Contains(PowLoop(f, r, base, e), v)
    decreases e
  {
    hide Mul;
    hide Prod;
    if e == 0 {
      ProdOne(p);
    } else {
      var odd, more := e % 2 == 1, e / 2 > 0;
      var r', base' := if odd then Mul(f, r, base) else r, if more then Mul(f, base, base) else base;
      var p', q' := if odd then Prod(p, q) else p, if more then Prod(q, q) else q;
      if odd { MulSound(f, r, base, p, q); }
      if more { MulSound(f, base, base, q, q); }
      PowHalve(p, q, e, p', q');
      PowLoopSound(f, r', base', e / 2, p', q', v);
    }
  }

  lemma EvenPowNonNegative(x: real, n: nat)
    requires n % 2 == 0
    ensures RealPow(x, n) >= 0.0
  {
    hide Prod;
    PowAdd(x, n / 2, n / 2);
    ProdSign(RealPow(x, n / 2), RealPow(x, n / 2));
  }

  lemma PosPowSound(f: Fpu, a: Ival, n: nat, x: real)
    requires Outward(f) && Contains(a, x) && !PowLoopLossy(f, Unit(), a, n)
    ensures Contains(PosPow(f, a, n), RealPow(x, n))
  {
    hide Mul;
    hide Prod;
    var r, v := PowLoop(f, Unit(), a, n), RealPow(x, n);
    ProdOne(v);
    PowLoopSound(f, Unit(), a, n, 1.0, x, v);
    if n % 2 == 0 {
      EvenPowNonNegative(x, n);
      RaiseLow(r, v);
    }
  }

  lemma RaiseLow(r: Ival, v: real)
    requires Contains(r, v) && v >= 0.0
    ensures Contains(Ival(ZERO, r.hi), v)
  {
  }

  /** x to the integer n; a negative power of zero is not a number. */
  predicate PowDefined(x: real, n: int) {
    n >= 0 || RealPow(x, -n) != 0.0
  }

  function IntPow(x: real, n: int): real
    requires PowDefined(x, n)
  {
    if n >= 0 then RealPow(x, n) else Quot(1.0, RealPow(x, -n))
  }

  lemma IPowSound(f: Fpu, a: Ival, n: int, x: real)
    requires Outward(f) && Contains(a, x) && PowDefined(x, n) && !IPowLossy(f, a, n)
    ensures Contains(IPow(f, a, n), IntPow(x, n))
  {
    if n > 0 {
      PosPowSound(f, a, n, x);
    } else if n < 0 {
      PosPowSound(f, a, -n, x);
      DiviSound(f, Unit(), PosPow(f, a, -n), 1.0, RealPow(x, -n));
    }
  }

  /** Finite intervals never lose a point to exact square-and-multiply. */
  lemma {:induction false} FinitePowLossless(f: Fpu, r: Ival, base: Ival, e: nat)
    requires Exact(f) && Finite(r) && Finite(base) && Proper(r) && Proper(base)
    ensures !PowLoopLossy(f, r, base, e)
    decreases e
  {
    if e > 0 {
      FiniteMul(f, r, base);
      FiniteMul(f, base, base);
      FinitePowLossless(f, if e % 2 == 1 then Mul(f, r, base) else r,
                        if e / 2 > 0 then Mul(f, base, base) else base, e / 2);
    }
  }

  lemma FiniteMul(f: Fpu, a: Ival, b: Ival)
    requires Exact(f) && Finite(a) && Finite(b) && Proper(a) && Proper(b)
    ensures Finite(Mul(f, a, b)) && Proper(Mul(f, a, b)) && !MulLossy(a, b)
  {
    MulSound(f, a, b, a.lo.r, b.lo.r);
  }

  // ----- when integer powers are enclosed -----

  const UP: Ival := Ival(ZERO, PosInf)

  const DOWN: Ival := Ival(NegInf, ZERO)

  /** Half-lines that end in zero: their squares meet infinity times zero. */
  predicate PowLossy(a: Ival, n: int) {
    (a == UP && n >= 2) || (a == DOWN && (n >= 2 || n <= -2))
  }

  /** Unbounded, and no half-line that ends in zero. */
  predicate Roomy(a: Ival) { Proper(a) && !Finite(a) && a != UP && a != DOWN }

  predicate SameZero(x: XR, y: XR) { x.Fin? && y.Fin? && x.r != 0.0 && y.r != 0.0 ==> X.Mul(x, y) != ZERO }

  lemma NonZeroMul(x: XR, y: XR)
    ensures SameZero(x, y)
  {
    if x.Fin? && y.Fin? { NonZeroProd(x.r, y.r); }
    hide Prod;
  }

  lemma NonZeroProd(x: real, y: real)
    ensures x != 0.0 && y != 0.0 ==> Prod(x, y) != 0.0
  {
  }

  lemma RoomyMulUp(f: Fpu, a: Ival, b: Ival)
    requires Exact(f) && Roomy(a) && Roomy(b) && a.lo.Fin?
    ensures Roomy(Mul(f, a, b)) && !MulLossy(a, b)
  {
    NonZeroMul(a.lo, b.lo);
    NonZeroMul(a.lo, b.hi);
    NonZeroMul(a.hi, b.lo);
    NonZeroMul(a.hi, b.hi);
    hide Prod;
  }

  lemma RoomyMulDown(f: Fpu, a: Ival, b: Ival)
    requires Exact(f) && Roomy(a) && Roomy(b) && a.hi.Fin?
    ensures Roomy(Mul(f, a, b)) && !MulLossy(a, b)
  {
    NonZeroMul(a.lo, b.lo);
    NonZeroMul(a.lo, b.hi);
    NonZeroMul(a.hi, b.lo);
    NonZeroMul(a.hi, b.hi);
    hide Prod;
  }

  lemma RoomyMulWhole(f: Fpu, a: Ival, b: Ival)
    requires Exact(f) && Roomy(a) && Roomy(b) && a == ENTIRE
    ensures Roomy(Mul(f, a, b)) && !MulLossy(a, b)
  {
    NonZeroMul(a.lo, b.lo);
    NonZeroMul(a.lo, b.hi);
    NonZeroMul(a.hi, b.lo);
    NonZeroMul(a.hi, b.hi);
    hide Prod;
  }

  lemma RoomyMul(f: Fpu, a: Ival, b: Ival)
    requires Exact(f) && Roomy(a) && Roomy(b)
    ensures Roomy(Mul(f, a, b)) && !MulLossy(a, b)
  {
    if a.lo.Fin? { RoomyMulUp(f, a, b); } else if a.hi.Fin? { RoomyMulDown(f, a, b); } else { RoomyMulWhole(f, a, b); }
    hide Mul;
    hide MulLossy;
    hide Exact;
  }

  lemma UnitMul(f: Fpu, a: Ival)
    requires Exact(f) && Proper(a)
    ensures Mul(f, Unit(), a) == a && !MulLossy(Unit(), a)
  {
    if a.lo.Fin? { ProdOne(a.lo.r); }
    if a.hi.Fin? { ProdOne(a.hi.r); }
    hide Prod;
  }

  lemma {:induction false} RoomyPowLossless(f: Fpu, r: Ival, base: Ival, e: nat)
    requires Exact(f) && (r == Unit() || Roomy(r)) && Roomy(base)
    ensures !PowLoopLossy(f, r, base, e)
    decreases e
  {
    hide Mul;
    hide MulLossy;
    hide Exact;
    if e > 0 {
      if r == Unit() { UnitMul(f, base); } else { RoomyMul(f, r, base); }
      RoomyMul(f, base, base);
      hide Roomy;
      RoomyPowLossless(f, if e % 2 == 1 then Mul(f, r, base) else r,
                       if e / 2 > 0 then Mul(f, base, base) else base, e / 2);
    }
  }

  /** Powers past the first: only the two half-lines are lossy. */
  lemma PowLoopGuard(f: Fpu, a: Ival, n: nat)
    requires Exact(f) && Proper(a) && (n < 2 || (a != UP && a != DOWN))
    ensures !PowLoopLossy(f, Unit(), a, n)
  {
    if n == 1 {
      UnitMul(f, a);
      assert !PowLoopLossy(f, Mul(f, Unit(), a), a, 0);
    } else if n > 1 {
      if Finite(a) { FinitePowLossless(f, Unit(), a, n); } else { RoomyPowLossless(f, Unit(), a, n); }
    }
  }

  const ZEROS: Ival := Point(ZERO)

  lemma ZeroMuls(f: Fpu)
    requires Exact(f)
    ensures Mul(f, UP, UP) == ZEROS && Mul(f, UP, ZEROS) == ZEROS && Mul(f, ZEROS, ZEROS) == ZEROS
    ensures Mul(f, Unit(), ZEROS) == ZEROS
  {
  }

  /** Squaring [0, inf] gives [0, 0], which then swallows the rest. */
  lemma {:induction false} ZeroLoop(f: Fpu, r: Ival, e: nat)
    requires Exact(f) && r in {Unit(), UP, ZEROS} && e > 0
    ensures PowLoop(f, r, ZEROS, e) == ZEROS
    decreases e
  {
    ZeroMuls(f);
    hide Mul;
    if e > 1 {
      ZeroLoop(f, if e % 2 == 1 then ZEROS else r, e / 2);
    } else {
      assert PowLoop(f, ZEROS, ZEROS, 0) == ZEROS;
    }
  }

  lemma UpPower(f: Fpu, n: nat)
    requires Exact(f) && n >= 2
    ensures PosPow(f, UP, n) == ZEROS
  {
    ZeroMuls(f);
    UnitMul(f, UP);
    hide Mul;
    ZeroLoop(f, if n % 2 == 1 then UP else Unit(), n / 2);
  }

  const FAR: Ival := Point(PosInf)

  const FARBELOW: Ival := Point(NegInf)

  lemma FarMuls(f: Fpu)
    requires Exact(f)
    ensures Mul(f, DOWN, DOWN) == FAR && Mul(f, FAR, FAR) == FAR && Mul(f, Unit(), FAR) == FAR
    ensures Mul(f, DOWN, FAR) == FARBELOW && Mul(f, FARBELOW, FAR) == FARBELOW
  {
  }

  /** Squaring [-inf, 0] gives [inf, inf], where no number is. */
  lemma {:induction false} FarLoop(f: Fpu, r: Ival, e: nat)
    requires Exact(f) && r in {Unit(), DOWN, FAR, FARBELOW} && e > 0
    ensures PowLoop(f, r, FAR, e) in {FAR, FARBELOW}
    decreases e
  {
    FarMuls(f);
    hide Mul;
    if e > 1 {
      FarLoop(f, if e % 2 == 1 then Mul(f, r, FAR) else r, e / 2);
    } else {
      assert PowLoop(f, Mul(f, r, FAR), FAR, 0) == Mul(f, r, FAR);
    }
  }

  lemma DownPower(f: Fpu, n: nat)
    requires Exact(f) && n >= 2
    ensures PosPow(f, DOWN, n) in {FAR, FARBELOW}
  {
    FarMuls(f);
    UnitMul(f, DOWN);
    hide Mul;
    FarLoop(f, if n % 2 == 1 then DOWN else Unit(), n / 2);
  }

  lemma {:induction false} OnePower(n: nat)
    ensures RealPow(1.0, n) == 1.0
  {
    hide Prod;
    if n > 0 {
      OnePower(n - 1);
      ProdOne(RealPow(1.0, n - 1));
    }
  }

  lemma {:induction false} NegOnePower(n: nat)
    ensures RealPow(-1.0, n) == (if n % 2 == 0 then 1.0 else -1.0)
  {
    if n > 0 { NegOnePower(n - 1); }
  }

  /** A lossy power really loses a value: 1 on [0, inf], and -1 on [-inf, 0]. */
  lemma PowEscape(f: Fpu, a: Ival, n: int) returns (x: real)
    requires Exact(f) && PowLossy(a, n)
    ensures Contains(a, x) && PowDefined(x, n) && !Contains(IPow(f, a, n), IntPow(x, n))
  {
    hide PosPow;
    var m: nat := if n < 0 then -n else n;
    OnePower(m);
    NegOnePower(m);
    hide RealPow;
    if a == UP {
      x := 1.0;
      UpPower(f, m);
    } else {
      x := -1.0;
      DownPower(f, m);
    }
  }

  /** Where nothing is lossy every power is enclosed, the negative powers of [0, inf] too. */
  lemma IPowEncloses(f: Fpu, a: Ival, n: int, x: real)
    requires Exact(f) && Contains(a, x) && PowDefined(x, n) && !PowLossy(a, n)
    ensures Contains(IPow(f, a, n), IntPow(x, n))
  {
    ProperHolds(a, x);
    if a == UP && n <= -2 {
      hide PosPow;
      UpPower(f, -n);
    } else {
      PowLoopGuard(f, a, if n < 0 then -n else n);
      hide IntPow;
      hide IPow;
      IPowSound(f, a, n, x);
    }
  }

  lemma ProperHolds(a: Ival, x: real)
    requires Contains(a, x)
    ensures Proper(a)
  {
  }

  /** In exact arithmetic an interval's powers are enclosed unless it is a half-line that ends in
      zero and the power goes past the first. */
  lemma IPowExactlyWhen(f: Fpu, a: Ival, n: int)
    requires Exact(f) && Proper(a)
    ensures !PowLossy(a, n) <==>
      forall x :: Contains(a, x) && PowDefined(x, n) ==> Contains(IPow(f, a, n), IntPow(x, n))
  {
    hide IPow;
    hide IntPow;
    if PowLossy(a, n) {
      var x := PowEscape(f, a, n);
    } else {
      forall x | Contains(a, x) && PowDefined(x, n)
        ensures Contains(IPow(f, a, n), IntPow(x, n))
      {
        IPowEncloses(f, a, n, x);
      }
    }
  }

  // ----- powers of points, without rounding -----

  lemma PointMul(f: Fpu, p: real, q: real)
    requires Exact(f)
    ensures Mul(f, Point(Fin(p)), Point(Fin(q))) == Point(Fin(Prod(p, q)))
  {
  }

  lemma {:induction false} PointLoop(f: Fpu, p: real, q: real, e: nat) returns (v: real)
    requires Exact(f)
    ensures PowLoop(f, Point(Fin(p)), Point(Fin(q)), e) == Point(Fin(v))
    decreases e
  {
    hide Mul;
    v := p;
    if e > 0 {
      PointMul(f, p, q);
      PointMul(f, q, q);
      v := PointLoop(f, if e % 2 == 1 then Prod(p, q) else p, if e / 2 > 0 then Prod(q, q) else q, e / 2);
    }
  }

  lemma PointInverse(f: Fpu, v: real)
    requires Exact(f) && v != 0.0
    ensures Divi(f, Unit(), Point(Fin(v))) == Point(Fin(Quot(1.0, v)))
  {
  }

  lemma PointHolds(v: real, x: real)
    ensures Contains(Point(Fin(v)), x) <==> x == v
  {
  }

  /** The power of a point is the point's power. */
  lemma PointPower(f: Fpu, x: real, n: int)
    requires Exact(f) && PowDefined(x, n)
    ensures IPow(f, Point(Fin(x)), n) == Point(Fin(IntPow(x, n)))
  {
    var a := Point(Fin(x));
    var k := if n < 0 then -n else n;
    var v := PointLoop(f, 1.0, x, k);
    PointHolds(x, x);
    IPowEncloses(f, a, k, x);
    PointHolds(v, RealPow(x, k));
    if n < 0 { PointInverse(f, v); }
    hide PowLoop;
    hide RealPow;
    hide Divi;
  }

  lemma {:induction false} TwoPower(k: nat)
    ensures RealPow(2.0, k) > 0.0 && RealPow(2.0, k + 1) == 2.0 * RealPow(2.0, k)
  {
    if k > 0 { TwoPower(k - 1); }
  }

  /** Neighbouring powers of two differ. */
  lemma NextPower(n: int)
    ensures PowDefined(2.0, n) && PowDefined(2.0, n + 1) && IntPow(2.0, n) != IntPow(2.0, n + 1)
  {
    var k := if n < 0 then -n else n;
    TwoPower(k);
    if n < 0 {
      TwoPower(k - 1);
      assert RealPow(2.0, k) == 2.0 * RealPow(2.0, k - 1);
      HalfQuotient(RealPow(2.0, k - 1));
    }
  }

  lemma HalfQuotient(v: real)
    requires v > 0.0
    ensures Quot(1.0, 2.0 * v) < Quot(1.0, v)
  {
    var q := Quot(1.0, 2.0 * v);
    assert q * (2.0 * v) == 1.0;
    assert q > 0.0;
    assert Quot(1.0, v) == 2.0 * q by { assert (2.0 * q) * v == 1.0; }
  }

  // ----- elementary functions -----

  predicate Integral(p: XR) {
    p.Fin? && p.r.Floor as real == p.r && -1000000000.0 < p.r < 1000000000.0
  }

  /** Powers by a double: whole exponents below 10^9 in magnitude go to IPow. */
  function RPow(f: Fpu, a: Ival, p: XR): Ival {
    if IsEmpty(a) then a
    else if Integral(p) then IPow(f, a, p.r.Floor)
    else
      var lo, hi := StdMax(a.lo, ZERO), StdMax(a.hi, ZERO);
      if Lt(a.hi, ZERO) then EMPTY
      else
        var fl, fh := f.pow(lo, p), f.pow(hi, p);
        Ival(SlackDown(f, StdMin(fl, fh)), SlackUp(f, StdMax(fl, fh)))
  }

  function ISqrt(f: Fpu, a: Ival): Ival {
    if IsEmpty(a) then a
    else if Lt(a.hi, ZERO) then EMPTY
    else Ival(Down(f, Lift(f.sqrt, StdMax(a.lo, ZERO))), Up(f, Lift(f.sqrt, a.hi)))
  }

  function IExp(f: Fpu, a: Ival): Ival {
    if IsEmpty(a) then a
    else Ival(SlackDown(f, if a.lo.NegInf? then ZERO else Lift(f.exp, a.lo)),
              SlackUp(f, if a.hi.NegInf? then ZERO else Lift(f.exp, a.hi)))
  }

  function ILog(f: Fpu, a: Ival): Ival {
    if IsEmpty(a) then a
    else if Le(a.hi, ZERO) then EMPTY
    else Ival(if Le(a.lo, ZERO) then NegInf else SlackDown(f, Lift(f.log, a.lo)), SlackUp(f, Lift(f.log, a.hi)))
  }

  /** A real function at a non-real argument: NaN and the infinities pass through. */
  function Lift(g: real -> real, x: XR): XR {
    if x.Fin? then Fin(g(x.r)) else x
  }

  // ----- minimum, maximum and absolute value -----

  function IMax(a: Ival, b: Ival): Ival { Of(StdMax(a.lo, b.lo), StdMax(a.hi, b.hi)) }

  function IMin(a: Ival, b: Ival): Ival { Of(StdMin(a.lo, b.lo), StdMin(a.hi, b.hi)) }

  function IAbs(a: Ival): Ival {
    Of(if HoldsZero(a) then ZERO else StdMin(X.Abs(a.lo), X.Abs(a.hi)), Mag(a))
  }

  function Max(x: real, y: real): real { if x < y then y else x }

  function Min(x: real, y: real): real { if y < x then y else x }

  lemma IMaxSound(a: Ival, b: Ival, x: real, y: real)
    requires Contains(a, x) && Contains(b, y)
    ensures Contains(IMax(a, b), Max(x, y)) && Contains(IMin(a, b), Min(x, y))
  {
  }

  lemma IAbsSound(a: Ival, x: real)
    requires Contains(a, x)
    ensures Contains(IAbs(a), AbsOf(x))
  {
  }

  lemma ISqrtSound(f: Fpu, a: Ival, x: real)
    requires Sound(f) && Contains(a, x) && x >= 0.0
    ensures Contains(ISqrt(f, a), f.sqrt(x))
  {
    assert a.lo.Fin? ==> f.sqrt(if a.lo.r > 0.0 then a.lo.r else 0.0) <= f.sqrt(x);
  }

  lemma IExpSound(f: Fpu, a: Ival, x: real)
    requires Sound(f) && Contains(a, x)
    ensures Contains(IExp(f, a), f.exp(x))
  {
    assert 0.0 < f.exp(x);
  }

  lemma ILogSound(f: Fpu, a: Ival, x: real)
    requires Sound(f) && Contains(a, x) && x > 0.0
    ensures Contains(ILog(f, a), f.log(x))
  {
  }
}
