/** Without rounding an interval operation gives no more than it must: what it holds are the values
    of its operands' points. */
module Ranges {
  import X = ExtReal
  import opened ExtReal
  import opened Interval
  import opened Reals

  /** The library's functions are the real ones: the root undoes the square, exponential and logarithm
      undo each other, and numbers that are not negative have roots of every order. */
  ghost predicate Genuine(f: Fpu, root: (real, nat) -> real) {
    && (forall x :: x >= 0.0 ==> f.sqrt(x) >= 0.0 && Prod(f.sqrt(x), f.sqrt(x)) == x)
    && (forall x :: f.log(f.exp(x)) == x)
    && (forall x :: x > 0.0 ==> f.exp(f.log(x)) == x)
    && forall x, n: nat :: x >= 0.0 && n > 0 ==> root(x, n) >= 0.0 && RealPow(root(x, n), n) == x
  }

  // ----- sums, differences, selections -----

  /** The point of a nearest to x. */
  function Nearest(a: Ival, x: real): (r: real)
    requires Proper(a)
    ensures Contains(a, r) && (Contains(a, x) ==> r == x)
    ensures r < x ==> a.hi == Fin(r)
    ensures r > x ==> a.lo == Fin(r)
  {
    if Lt(Fin(x), a.lo) then a.lo.r else if Lt(a.hi, Fin(x)) then a.hi.r else x
  }

  lemma NegRange(a: Ival, v: real)
    requires Proper(a)
    ensures Contains(Interval.Neg(a), v) <==> exists x :: Contains(a, x) && v == -x
  {
    if Contains(Interval.Neg(a), v) { assert Contains(a, -v); }
  }

  /** A sum in the sum of two intervals is one of their points: the one end is left just as far as
      the other cannot be. */
  lemma AddRange(f: Fpu, a: Ival, b: Ival, v: real)
    requires Exact(f) && Proper(a) && Proper(b)
    ensures Contains(Interval.Add(f, a, b), v) <==> exists x, y :: Contains(a, x) && Contains(b, y) && v == x + y
  {
    if Contains(Interval.Add(f, a, b), v) {
      var y0 := Nearest(b, v - Nearest(a, 0.0));
      var x := Nearest(a, v - y0);
      var y := Nearest(b, v - x);
      assert Contains(a, x) && Contains(b, y);
      assert v == x + y;
    }
  }

  lemma SubRange(f: Fpu, a: Ival, b: Ival, v: real)
    requires Exact(f) && Proper(a) && Proper(b)
    ensures Contains(Interval.Sub(f, a, b), v) <==> exists x, y :: Contains(a, x) && Contains(b, y) && v == x - y
  {
    assert Interval.Sub(f, a, b) == Interval.Add(f, a, Interval.Neg(b)) && Proper(Interval.Neg(b));
    hide Interval.Add;
    hide Interval.Sub;
    AddRange(f, a, Interval.Neg(b), v);
    if Contains(Interval.Sub(f, a, b), v) {
      var x, z :| Contains(a, x) && Contains(Interval.Neg(b), z) && v == x + z;
      assert Contains(b, -z) && v == x - (-z);
    }
    if x, y :| Contains(a, x) && Contains(b, y) && v == x - y {
      assert Contains(Interval.Neg(b), -y) && v == x + (-y);
    }
  }

  lemma MaxRange(a: Ival, b: Ival, v: real)
    requires Proper(a) && Proper(b)
    ensures Contains(IMax(a, b), v) <==> exists x, y :: Contains(a, x) && Contains(b, y) && v == Max(x, y)
  {
    if Contains(IMax(a, b), v) {
      var x, y := Nearest(a, v), Nearest(b, v);
      assert Contains(a, x) && Contains(b, y) && v == Max(x, y);
    }
    if x, y :| Contains(a, x) && Contains(b, y) && v == Max(x, y) { IMaxSound(a, b, x, y); }
  }

  lemma MinRange(a: Ival, b: Ival, v: real)
    requires Proper(a) && Proper(b)
    ensures Contains(IMin(a, b), v) <==> exists x, y :: Contains(a, x) && Contains(b, y) && v == Min(x, y)
  {
    if Contains(IMin(a, b), v) {
      var x, y := Nearest(a, v), Nearest(b, v);
      assert Contains(a, x) && Contains(b, y) && v == Min(x, y);
    }
    if x, y :| Contains(a, x) && Contains(b, y) && v == Min(x, y) { IMaxSound(a, b, x, y); }
  }

  lemma AbsRange(a: Ival, v: real)
    requires Proper(a)
    ensures Contains(IAbs(a), v) <==> exists x :: Contains(a, x) && v == AbsOf(x)
  {
    if Contains(IAbs(a), v) { assert Contains(a, v) || Contains(a, -v); }
    if x :| Contains(a, x) && v == AbsOf(x) { IAbsSound(a, x); }
  }

  /** No interval that holds both is smaller than the hull. */
  lemma HullLeast(a: Ival, b: Ival, c: Ival)
    requires Proper(a) && Proper(b) && Proper(c) && Subset(a, c) && Subset(b, c)
    ensures Proper(Hull(a, b)) && Subset(a, Hull(a, b)) && Subset(b, Hull(a, b)) && Subset(Hull(a, b), c)
  {
  }

  // ----- roots, exponentials, logarithms -----

  lemma OneRoot(x: real, y: real)
    requires x >= 0.0 && y >= 0.0 && Prod(x, x) == Prod(y, y)
    ensures x == y
  {
    if x < y { SquareGrows(x, y); }
    if y < x { SquareGrows(y, x); }
  }

  lemma SquareGrows(x: real, y: real)
    requires 0.0 <= x < y
    ensures Prod(x, x) < Prod(y, y)
  {
    assert y * y - x * x == (y - x) * (y + x);
    Positive(y - x, y + x);
  }

  lemma Positive(p: real, q: real)
    requires p > 0.0 && q > 0.0
    ensures p * q > 0.0
  {
  }

  lemma SqrtRange(f: Fpu, root: (real, nat) -> real, a: Ival, v: real)
    requires Exact(f) && Sound(f) && Genuine(f, root) && Proper(a)
    ensures Contains(ISqrt(f, a), v) <==> exists x :: Contains(a, x) && x >= 0.0 && v == f.sqrt(x)
  {
    if Contains(ISqrt(f, a), v) {
      var x := Prod(v, v);
      var low := if a.lo.Fin? && a.lo.r > 0.0 then a.lo.r else 0.0;
      var s := f.sqrt(low);
      assert 0.0 <= s && Prod(s, s) == low;
      assert s <= v;
      CornerLow(s, s, v, v);
      if a.hi.Fin? {
        var t := f.sqrt(a.hi.r);
        CornerLow(v, v, t, t);
      }
      OneRoot(f.sqrt(x), v);
      assert Contains(a, x) && x >= 0.0 && v == f.sqrt(x);
    }
    if x :| Contains(a, x) && x >= 0.0 && v == f.sqrt(x) { ISqrtSound(f, a, x); }
  }

  lemma RootBelow(x: real, y: real)
    requires x >= 0.0 && y >= 0.0 && Prod(x, x) <= Prod(y, y)
    ensures x <= y
  {
    if y < x { SquareGrows(y, x); }
  }

  lemma SqrRange(f: Fpu, root: (real, nat) -> real, a: Ival, v: real)
    requires Exact(f) && Sound(f) && Genuine(f, root) && Proper(a)
    ensures Contains(Sqr(f, a), v) <==> exists x :: Contains(a, x) && v == Prod(x, x)
  {
    hide Prod;
    hide Sqr;
    if Contains(Sqr(f, a), v) { var x := SqrOnto(f, root, a, v); }
    if x :| Contains(a, x) && v == Prod(x, x) { SqrSound(f, a, x); }
  }

  lemma Magnitude(a: Ival)
    requires Proper(a)
    ensures IAbs(a) == Ival(MinMag(a), Mag(a)) && MinMag(a).Fin? && MinMag(a).r >= 0.0
    ensures (Mag(a).Fin? && Mag(a).r >= 0.0) || Mag(a).PosInf?
  {
  }

  lemma SqrOnto(f: Fpu, root: (real, nat) -> real, a: Ival, v: real) returns (x: real)
    requires Exact(f) && Genuine(f, root) && Proper(a) && Contains(Sqr(f, a), v)
    ensures Contains(a, x) && v == Prod(x, x)
  {
    SqrShape(f, a);
    Magnitude(a);
    hide Prod;
    hide MinMag;
    hide Mag;
    hide IAbs;
    ProdSign(MinMag(a).r, MinMag(a).r);
    var s := f.sqrt(v);
    assert s >= 0.0 && Prod(s, s) == v;
    RootBelow(MinMag(a).r, s);
    if Mag(a).Fin? { RootBelow(s, Mag(a).r); }
    assert Contains(IAbs(a), s);
    AbsRange(a, s);
    x :| Contains(a, x) && s == AbsOf(x);
    SquareOfNegation(x);
  }

  /** Zero itself is only approached, by ever lower exponents. */
  lemma ExpRange(f: Fpu, root: (real, nat) -> real, a: Ival, v: real)
    requires Exact(f) && Sound(f) && Genuine(f, root) && Proper(a)
    ensures Contains(IExp(f, a), v) && v > 0.0 <==> exists x :: Contains(a, x) && v == f.exp(x)
  {
    if Contains(IExp(f, a), v) && v > 0.0 {
      var x := f.log(v);
      if a.lo.Fin? { assert f.log(f.exp(a.lo.r)) <= f.log(v); }
      if a.hi.Fin? { assert f.log(v) <= f.log(f.exp(a.hi.r)); }
      assert Contains(a, x) && v == f.exp(x);
    }
    if x :| Contains(a, x) && v == f.exp(x) { IExpSound(f, a, x); }
  }

  lemma LogRange(f: Fpu, root: (real, nat) -> real, a: Ival, v: real)
    requires Exact(f) && Sound(f) && Genuine(f, root) && Proper(a)
    ensures Contains(ILog(f, a), v) <==> exists x :: Contains(a, x) && x > 0.0 && v == f.log(x)
  {
    if Contains(ILog(f, a), v) {
      var x := f.exp(v);
      assert f.exp(v) > 0.0;
      if a.lo.Fin? && a.lo.r > 0.0 { assert f.exp(f.log(a.lo.r)) <= f.exp(v); }
      if a.hi.Fin? { assert f.exp(v) <= f.exp(f.log(a.hi.r)); }
      assert Contains(a, x) && x > 0.0 && v == f.log(x);
    }
    if x :| Contains(a, x) && x > 0.0 && v == f.log(x) { ILogSound(f, a, x); }
  }

  // ----- products and quotients -----

  predicate Amid(x: real, p: real, q: real) { p <= x <= q || q <= x <= p }

  /** Along an edge the product takes every value between those at the ends. */
  lemma Edge(c: real, p: real, q: real, v: real) returns (x: real)
    requires Prod(c, p) <= v <= Prod(c, q)
    ensures Amid(x, p, q) && Prod(c, x) == v
  {
    if c == 0.0 {
      x := p;
    } else {
      x := v / c;
      assert c * x == v;
      assert c * (x - p) >= 0.0 && c * (q - x) >= 0.0;
      SameSign(c, x - p);
      SameSign(c, q - x);
    }
  }

  lemma SameSign(c: real, d: real)
    requires c * d >= 0.0 && c != 0.0
    ensures if c > 0.0 then d >= 0.0 else d <= 0.0
  {
  }

  lemma ProdSwap(x: real, y: real)
    ensures Prod(x, y) == Prod(y, x)
  {
  }

  /** From one point to another along two edges the product takes every value between. */
  lemma Path(x1: real, y1: real, x2: real, y2: real, v: real) returns (x: real, y: real)
    requires Prod(x1, y1) <= v <= Prod(x2, y2)
    ensures Amid(x, x1, x2) && Amid(y, y1, y2) && Prod(x, y) == v
  {
    hide Prod;
    if v <= Prod(x1, y2) {
      x := x1;
      y := Edge(x1, y1, y2, v);
    } else {
      ProdSwap(x1, y2);
      ProdSwap(x2, y2);
      y := y2;
      x := Edge(y2, x1, x2, v);
      ProdSwap(x, y2);
    }
  }

  lemma Convex(a: Ival, p: real, q: real, x: real)
    requires Contains(a, p) && Contains(a, q) && Amid(x, p, q)
    ensures Contains(a, x)
  {
  }

  /** Far enough out on an unbounded side the product with y passes any number. */
  lemma Far(a: Ival, end: XR, y: real, v: real) returns (x: real)
    requires Proper(a) && (end == a.lo || end == a.hi) && !end.Fin? && y != 0.0
    ensures Contains(a, x)
    ensures X.Mul(end, Fin(y)).PosInf? ==> Prod(x, y) >= v
    ensures X.Mul(end, Fin(y)).NegInf? ==> Prod(x, y) <= v
  {
    var t := v / y;
    assert t * y == v;
    x := Nearest(a, t);
    assert Prod(x, y) - v == (x - t) * y;
    FarSign(x - t, y);
  }

  lemma FarSign(d: real, y: real)
    ensures (d >= 0.0 && y >= 0.0) || (d <= 0.0 && y <= 0.0) ==> d * y >= 0.0
    ensures (d >= 0.0 && y <= 0.0) || (d <= 0.0 && y >= 0.0) ==> d * y <= 0.0
  {
  }

  predicate IsEnd(a: Ival, end: XR) { end == a.lo || end == a.hi }

  /** A point of b on the side of its end. */
  lemma Sided(b: Ival, end: XR) returns (y: real)
    requires Proper(b) && IsEnd(b, end)
    ensures Contains(b, y) && Sign(Fin(y)) == Sign(end) && (end.Fin? ==> Fin(y) == end)
  {
    y := Nearest(b, if end.Fin? then end.r else if end.PosInf? then 1.0 else -1.0);
  }

  /** Some product of points is as low as a corner, or lower than v where the corner is infinite. */
  lemma CornerPoints(a: Ival, b: Ival, p: XR, q: XR, v: real) returns (x: real, y: real)
    requires Proper(a) && Proper(b) && IsEnd(a, p) && IsEnd(b, q) && !X.Mul(p, q).NaN?
    ensures Contains(a, x) && Contains(b, y)
    ensures Le(X.Mul(p, q), Fin(v)) ==> Prod(x, y) <= v
    ensures Le(Fin(v), X.Mul(p, q)) ==> Prod(x, y) >= v
  {
    hide Prod;
    x := Sided(a, p);
    y := Sided(b, q);
    if !p.Fin? {
      x := Far(a, p, y, v);
    } else if !q.Fin? {
      y := Far(b, q, x, v);
      ProdSwap(x, y);
    }
  }

  lemma Min4Among(p1: XR, p2: XR, p3: XR, p4: XR)
    ensures Min4(p1, p2, p3, p4) in {p1, p2, p3, p4} && Max4(p1, p2, p3, p4) in {p1, p2, p3, p4}
  {
  }

  /** The product of two intervals that are not lossy is made up of their points' products. */
  lemma MulRange(f: Fpu, a: Ival, b: Ival, v: real)
    requires Exact(f) && Proper(a) && Proper(b) && !MulLossy(a, b)
    ensures Contains(Interval.Mul(f, a, b), v) <==> exists x, y :: Contains(a, x) && Contains(b, y) && v == Prod(x, y)
  {
    assert Outward(f);
    hide Prod;
    hide Interval.Mul;
    hide MulLossy;
    hide Exact;
    if Contains(Interval.Mul(f, a, b), v) {
      var x, y := MulOnto(f, a, b, v);
      assert Contains(a, x) && Contains(b, y) && v == Prod(x, y);
    }
    if x, y :| Contains(a, x) && Contains(b, y) && v == Prod(x, y) { MulSound(f, a, b, x, y); }
  }

  lemma MulEnds(f: Fpu, a: Ival, b: Ival)
    requires Exact(f) && Proper(a) && Proper(b)
    ensures var m := Interval.Mul(f, a, b);
      && m.lo in {X.Mul(a.lo, b.lo), X.Mul(a.lo, b.hi), X.Mul(a.hi, b.lo), X.Mul(a.hi, b.hi)}
      && m.hi in {X.Mul(a.lo, b.lo), X.Mul(a.lo, b.hi), X.Mul(a.hi, b.lo), X.Mul(a.hi, b.hi)}
  {
    Min4Among(X.Mul(a.lo, b.lo), X.Mul(a.lo, b.hi), X.Mul(a.hi, b.lo), X.Mul(a.hi, b.hi));
    hide X.Mul;
    hide Min4;
    hide Max4;
  }

  lemma CornerOf(a: Ival, b: Ival, e: XR) returns (p: XR, q: XR)
    requires e in {X.Mul(a.lo, b.lo), X.Mul(a.lo, b.hi), X.Mul(a.hi, b.lo), X.Mul(a.hi, b.hi)}
    ensures IsEnd(a, p) && IsEnd(b, q) && e == X.Mul(p, q)
  {
    hide X.Mul;
    if e == X.Mul(a.lo, b.lo) { p, q := a.lo, b.lo; }
    else if e == X.Mul(a.lo, b.hi) { p, q := a.lo, b.hi; }
    else if e == X.Mul(a.hi, b.lo) { p, q := a.hi, b.lo; }
    else { p, q := a.hi, b.hi; }
  }

  lemma MulOnto(f: Fpu, a: Ival, b: Ival, v: real) returns (x: real, y: real)
    requires Exact(f) && Proper(a) && Proper(b) && Contains(Interval.Mul(f, a, b), v)
    ensures Contains(a, x) && Contains(b, y) && v == Prod(x, y)
  {
    MulEnds(f, a, b);
    var m := Interval.Mul(f, a, b);
    hide Prod;
    hide X.Mul;
    hide Interval.Mul;
    var p1, q1 := CornerOf(a, b, m.lo);
    var p2, q2 := CornerOf(a, b, m.hi);
    var x1, y1 := CornerPoints(a, b, p1, q1, v);
    var x2, y2 := CornerPoints(a, b, p2, q2, v);
    x, y := Path(x1, y1, x2, y2, v);
    Convex(a, x1, x2, x);
    Convex(b, y1, y2, y);
  }

  lemma QuotientSmall(p: real, y: real, w: real)
    requires w > 0.0 && y != 0.0 && AbsOf(p) <= Prod(w, AbsOf(y))
    ensures -w <= Quot(p, y) <= w
  {
    var q := p / y;
    assert q * y == p;
    if q > w { TooLarge(q, y, w); }
    if q < -w { TooLarge(-q, y, w); }
  }

  lemma TooLarge(q: real, y: real, w: real)
    requires q > w > 0.0 && y != 0.0
    ensures AbsOf(q * y) > Prod(w, AbsOf(y)) && AbsOf(-q * y) > Prod(w, AbsOf(y))
  {
    if y > 0.0 { assert (q - w) * y > 0.0; } else { assert (q - w) * (-y) > 0.0; }
  }

  /** Dividing by points far out makes any number small. */
  lemma Small(b: Ival, end: XR, p: real, w: real) returns (y: real)
    requires Proper(b) && !HoldsZero(b) && IsEnd(b, end) && !end.Fin? && w > 0.0
    ensures Contains(b, y) && y != 0.0 && -w <= Quot(p, y) <= w
  {
    var t := AbsOf(p) / w;
    assert w * t == AbsOf(p);
    y := Nearest(b, if end.PosInf? then t else -t);
    assert AbsOf(y) >= t;
    assert w * AbsOf(y) - w * t == w * (AbsOf(y) - t);
    FarSign(w, AbsOf(y) - t);
    QuotientSmall(p, y, w);
  }

  /** Some quotient of points is on the same side of v as a corner. */
  lemma CornerQuotient(a: Ival, b: Ival, p: XR, q: XR, v: real) returns (x: real, y: real)
    requires Proper(a) && Proper(b) && !HoldsZero(b) && v != 0.0
    requires IsEnd(a, p) && IsEnd(b, q) && !X.Div(p, q).NaN?
    ensures Contains(a, x) && Contains(b, y) && y != 0.0
    ensures Le(X.Div(p, q), Fin(v)) ==> Prod(x, 1.0 / y) <= v
    ensures Le(Fin(v), X.Div(p, q)) ==> Prod(x, 1.0 / y) >= v
  {
    hide Prod;
    hide Quot;
    x := Sided(a, p);
    y := Sided(b, q);
    if !p.Fin? {
      SignOfReciprocal(y);
      x := Far(a, p, 1.0 / y, v);
    } else if !q.Fin? {
      y := Small(b, q, x, AbsOf(v));
      QuotientAsProduct(x, y);
    } else {
      QuotientAsProduct(x, y);
    }
  }

  lemma DivEnds(f: Fpu, a: Ival, b: Ival)
    requires Exact(f) && Proper(a) && Proper(b) && !HoldsZero(b)
    ensures var m := Divi(f, a, b);
      && m.lo in {X.Div(a.lo, b.lo), X.Div(a.lo, b.hi), X.Div(a.hi, b.lo), X.Div(a.hi, b.hi)}
      && m.hi in {X.Div(a.lo, b.lo), X.Div(a.lo, b.hi), X.Div(a.hi, b.lo), X.Div(a.hi, b.hi)}
  {
    Min4Among(X.Div(a.lo, b.lo), X.Div(a.lo, b.hi), X.Div(a.hi, b.lo), X.Div(a.hi, b.hi));
    hide X.Div;
    hide Min4;
    hide Max4;
  }

  lemma QuotientCorner(a: Ival, b: Ival, e: XR) returns (p: XR, q: XR)
    requires e in {X.Div(a.lo, b.lo), X.Div(a.lo, b.hi), X.Div(a.hi, b.lo), X.Div(a.hi, b.hi)}
    ensures IsEnd(a, p) && IsEnd(b, q) && e == X.Div(p, q)
  {
    hide X.Div;
    if e == X.Div(a.lo, b.lo) { p, q := a.lo, b.lo; }
    else if e == X.Div(a.lo, b.hi) { p, q := a.lo, b.hi; }
    else if e == X.Div(a.hi, b.lo) { p, q := a.hi, b.lo; }
    else { p, q := a.hi, b.hi; }
  }

  lemma SameSide(b: Ival, y1: real, y2: real)
    requires Contains(b, y1) && Contains(b, y2) && !HoldsZero(b)
    ensures (y1 > 0.0 && y2 > 0.0) || (y1 < 0.0 && y2 < 0.0)
  {
  }

  /** Between two reciprocals of one sign are the reciprocals of what lies between. */
  lemma Turned(y1: real, y2: real, t: real) returns (y: real)
    requires (y1 > 0.0 && y2 > 0.0) || (y1 < 0.0 && y2 < 0.0)
    requires Amid(t, 1.0 / y1, 1.0 / y2)
    ensures t != 0.0 && y == 1.0 / t && y != 0.0 && 1.0 / y == t && Amid(y, y1, y2)
  {
    SignOfReciprocal(y1);
    SignOfReciprocal(y2);
    y := 1.0 / t;
    SignOfReciprocal(t);
    Twice(t);
    Twice(y1);
    Twice(y2);
    if 1.0 / y1 <= t <= 1.0 / y2 {
      Reciprocal(1.0 / y1, t);
      Reciprocal(t, 1.0 / y2);
    } else {
      Reciprocal(1.0 / y2, t);
      Reciprocal(t, 1.0 / y1);
    }
  }

  lemma Twice(t: real)
    requires t != 0.0
    ensures 1.0 / t != 0.0 && 1.0 / (1.0 / t) == t
  {
    SignOfReciprocal(t);
    var s := 1.0 / t;
    assert s * t == 1.0;
    var r := 1.0 / s;
    assert r * s == 1.0;
    assert (r - t) * s == 0.0;
  }

  lemma DivOnto(f: Fpu, a: Ival, b: Ival, v: real) returns (x: real, y: real)
    requires Exact(f) && Proper(a) && Proper(b) && !HoldsZero(b) && Contains(Divi(f, a, b), v) && v != 0.0
    ensures Contains(a, x) && Contains(b, y) && y != 0.0 && v == Quot(x, y)
  {
    DivEnds(f, a, b);
    var m := Divi(f, a, b);
    assert Le(m.lo, Fin(v)) && Le(Fin(v), m.hi);
    hide Prod;
    hide Quot;
    hide X.Div;
    hide Divi;
    var p1, q1 := QuotientCorner(a, b, m.lo);
    var p2, q2 := QuotientCorner(a, b, m.hi);
    var x1, y1 := CornerQuotient(a, b, p1, q1, v);
    var x2, y2 := CornerQuotient(a, b, p2, q2, v);
    SameSide(b, y1, y2);
    var t;
    x, t := Path(x1, 1.0 / y1, x2, 1.0 / y2, v);
    y := Turned(y1, y2, t);
    Convex(a, x1, x2, x);
    Convex(b, y1, y2, y);
    QuotientAsProduct(x, y);
  }

  /** So is the quotient by an interval without zero, except that zero itself may be only approached,
      when the divisor is unbounded. */
  lemma DivRange(f: Fpu, a: Ival, b: Ival, v: real)
    requires Exact(f) && Proper(a) && Proper(b) && !HoldsZero(b) && !DivLossy(a, b)
    ensures Contains(Divi(f, a, b), v) && (v == 0.0 ==> Contains(a, 0.0)) <==>
      exists x, y :: Contains(a, x) && Contains(b, y) && y != 0.0 && v == Quot(x, y)
  {
    hide Quot;
    hide Divi;
    if v != 0.0 && Contains(Divi(f, a, b), v) {
      var x, y := DivOnto(f, a, b, v);
      assert Contains(a, x) && Contains(b, y) && y != 0.0 && v == Quot(x, y);
    }
    if v == 0.0 && Contains(a, 0.0) {
      var y := ProperPoint(b);
      ZeroQuotient(y);
      assert Contains(a, 0.0) && Contains(b, y) && y != 0.0 && v == Quot(0.0, y);
    }
    if x, y :| Contains(a, x) && Contains(b, y) && y != 0.0 && v == Quot(x, y) {
      DiviSound(f, a, b, x, y);
      ZeroOnly(x, y);
    }
  }

  lemma ZeroQuotient(y: real)
    requires y != 0.0
    ensures Quot(0.0, y) == 0.0
  {
  }

  lemma ZeroOnly(x: real, y: real)
    requires y != 0.0
    ensures Quot(x, y) == 0.0 ==> x == 0.0
  {
    assert x == x / y * y;
  }

  lemma QuotientSign(p: XR, q: XR)
    requires q.Fin? && q != ZERO && !p.NaN?
    ensures Sign(X.Div(p, q)) == if q.r > 0.0 then Sign(p) else -Sign(p)
  {
    if p.Fin? {
      SignOfQuotient(p.r, q.r);
      if p.r != 0.0 && Quot(p.r, q.r) == 0.0 { ZeroOnly(p.r, q.r); }
      if p.r == 0.0 { ZeroQuotient(q.r); }
    }
    hide Quot;
  }

  /** With a bounded divisor nothing is only approached. */
  lemma BoundedDivisor(f: Fpu, a: Ival, b: Ival)
    requires Exact(f) && Proper(a) && Proper(b) && !HoldsZero(b) && Finite(b)
    ensures Contains(Divi(f, a, b), 0.0) ==> Contains(a, 0.0)
  {
    if Contains(Divi(f, a, b), 0.0) && !Contains(a, 0.0) {
      DivEnds(f, a, b);
      hide X.Div;
      hide Divi;
      QuotientSign(a.lo, b.lo);
      QuotientSign(a.lo, b.hi);
      QuotientSign(a.hi, b.lo);
      QuotientSign(a.hi, b.hi);
    }
  }

  // ----- real exponents -----

  /** On what is not negative the library's power only rises, or only falls. */
  ghost predicate PowSteady(f: Fpu, p: XR) {
    || (forall x, y :: Le(ZERO, x) && Le(x, y) ==> Le(f.pow(x, p), f.pow(y, p)))
    || (forall x, y :: Le(ZERO, x) && Le(x, y) ==> Le(f.pow(y, p), f.pow(x, p)))
  }

  /** Whole exponents below 10^9 multiply. */
  lemma WholeExponent(f: Fpu, a: Ival, n: int)
    requires -1000000000 < n < 1000000000
    ensures RPow(f, a, Fin(n as real)) == IPow(f, a, n)
  {
    assert (n as real).Floor == n;
    hide IPow;
  }

  /** Other exponents are enclosed by the powers of the two ends of what is not negative, and without
      rounding by nothing more. */
  lemma RealExponent(f: Fpu, a: Ival, p: XR, x: real)
    requires Outward(f) && Proper(a) && !Integral(p) && PowSteady(f, p) && Contains(a, x) && x >= 0.0
    ensures f.pow(Fin(x), p).Fin? ==> Contains(RPow(f, a, p), f.pow(Fin(x), p).r)
    ensures var (l, h) := (f.pow(StdMax(a.lo, ZERO), p), f.pow(StdMax(a.hi, ZERO), p));
      Exact(f) ==> RPow(f, a, p) in {Ival(l, h), Ival(h, l)} && Le(RPow(f, a, p).lo, RPow(f, a, p).hi)
  {
    var (lo, hi) := (StdMax(a.lo, ZERO), StdMax(a.hi, ZERO));
    assert Le(ZERO, lo) && Le(lo, Fin(x)) && Le(Fin(x), hi) && Le(lo, hi);
    var (l, h, v) := (f.pow(lo, p), f.pow(hi, p), f.pow(Fin(x), p));
    assert (Le(l, v) && Le(v, h) && Le(l, h)) || (Le(h, v) && Le(v, l) && Le(h, l));
    hide PowSteady;
    EndsAround(f, l, h, v);
  }

  lemma EndsAround(f: Fpu, l: XR, h: XR, v: XR)
    requires Outward(f) && ((Le(l, v) && Le(v, h) && Le(l, h)) || (Le(h, v) && Le(v, l) && Le(h, l)))
    ensures var e := Ival(SlackDown(f, StdMin(l, h)), SlackUp(f, StdMax(l, h)));
      && (v.Fin? ==> Contains(e, v.r))
      && (Exact(f) ==> e in {Ival(l, h), Ival(h, l)} && Le(e.lo, e.hi))
  {
  }
}
