/** Affine forms: a centre, coefficients of shared noise symbols, and an error of its own. */
module Affine {
  import X = ExtReal
  import opened ExtReal
  import opened Reals
  import I = Interval
  import opened Interval
  import opened Ast
  import opened Holes
  import opened Enclosure
  import opened Options

  datatype Aff = Aff(c: real, t: map<nat, real>, err: real)

  /** Values of the noise symbols. */
  type Noise = nat -> real

  ghost predicate Fits(e: Noise) {
    forall k: nat :: -1.0 <= e(k) <= 1.0
  }

  function Coef(t: map<nat, real>, k: nat): real { if k in t then t[k] else 0.0 }

  /** The linear part over the first n symbols. */
  function Lin(t: map<nat, real>, e: Noise, n: nat): real {
    if n == 0 then 0.0 else Lin(t, e, n - 1) + Prod(Coef(t, n - 1), e(n - 1))
  }

  function Spread(t: map<nat, real>, n: nat): (r: real)
    ensures r >= 0.0
  {
    if n == 0 then 0.0 else Spread(t, n - 1) + AbsOf(Coef(t, n - 1))
  }

  predicate Below(t: map<nat, real>, n: nat) { forall k :: k in t ==> k < n }

  predicate Formed(a: Aff, n: nat) { Below(a.t, n) && a.err >= 0.0 }

  /** Under e the form stands for x. */
  predicate Stands(a: Aff, e: Noise, n: nat, x: real) {
    AbsOf(x - (a.c + Lin(a.t, e, n))) <= a.err
  }

  // ----- operations -----

  function Rad(a: Aff, n: nat): real { a.err + Spread(a.t, n) }

  function ToIval(f: Fpu, a: Aff, n: nat): Ival {
    I.Add(f, Point(Fin(a.c)), Of(Fin(-Rad(a, n)), Fin(Rad(a, n))))
  }

  function Constant(x: real): Aff { Aff(x, map[], 0.0) }

  /** Coefficients p * s + q * t. */
  function Mix(p: real, s: map<nat, real>, q: real, t: map<nat, real>): map<nat, real> {
    map k | k in s.Keys + t.Keys :: Prod(p, Coef(s, k)) + Prod(q, Coef(t, k))
  }

  function Plus(a: Aff, b: Aff): Aff { Aff(a.c + b.c, Mix(1.0, a.t, 1.0, b.t), a.err + b.err) }

  function Scale(s: real, a: Aff): Aff { Aff(Prod(s, a.c), Mix(s, a.t, 0.0, map[]), Prod(AbsOf(s), a.err)) }

  function Negative(a: Aff): Aff { Aff(-a.c, Mix(-1.0, a.t, 0.0, map[]), a.err) }

  function Minus(a: Aff, b: Aff): Aff { Plus(a, Negative(b)) }

  function Times(a: Aff, b: Aff, n: nat): Aff {
    var ra, rb := Spread(a.t, n), Spread(b.t, n);
    Aff(Prod(a.c, b.c), Mix(b.c, a.t, a.c, b.t),
        Prod(a.err, AbsOf(b.c) + rb) + Prod(b.err, AbsOf(a.c) + ra) + Prod(a.err, b.err) + Prod(ra, rb))
  }

  /** A form for an interval, with a new symbol unless it is a point; none for an interval whose
      centre or width is not a number. */
  function FromIval(f: Fpu, a: Ival, n: nat): Option<(Aff, nat)> {
    if !Finite(a) || IsEmpty(a) || !Width(f, a).Fin? then None
    else
      var centre, radius := (a.lo.r + a.hi.r) / 2.0, Width(f, a).r / 2.0;
      if radius == 0.0 then Some((Constant(centre), n))
      else Some((Aff(centre, map[n := AbsOf(radius)], 0.0), n + 1))
  }

  function Inverse(f: Fpu, a: Aff, n: nat): Option<(Aff, nat)> {
    FromIval(f, I.Divi(f, Point(Fin(1.0)), ToIval(f, a, n)), n)
  }

  // ----- the linear part -----

  /** Symbols that a form does not use, and new ones, leave it as it is. */
  lemma {:induction false} LinExtends(t: map<nat, real>, e: Noise, e2: Noise, n: nat, m: nat)
    requires Below(t, n) && n <= m && forall k :: 0 <= k < n ==> e2(k) == e(k)
    ensures Lin(t, e2, m) == Lin(t, e, n)
    decreases m
  {
    if m > n {
      LinExtends(t, e, e2, n, m - 1);
    } else if n > 0 {
      LinSame(t, e, e2, n);
    }
  }

  lemma {:induction false} LinSame(t: map<nat, real>, e: Noise, e2: Noise, n: nat)
    requires forall k :: 0 <= k < n ==> e2(k) == e(k)
    ensures Lin(t, e2, n) == Lin(t, e, n)
  {
    if n > 0 { LinSame(t, e, e2, n - 1); }
  }

  lemma {:induction false} LinMix(p: real, s: map<nat, real>, q: real, t: map<nat, real>, e: Noise, n: nat)
    ensures Lin(Mix(p, s, q, t), e, n) == Prod(p, Lin(s, e, n)) + Prod(q, Lin(t, e, n))
  {
    hide Mix;
    if n > 0 {
      LinMix(p, s, q, t, e, n - 1);
      MixAt(p, s, q, t, n - 1);
      Spread4(p, Lin(s, e, n - 1), Coef(s, n - 1), q, Lin(t, e, n - 1), Coef(t, n - 1), e(n - 1));
    }
  }

  lemma MixAt(p: real, s: map<nat, real>, q: real, t: map<nat, real>, k: nat)
    ensures Coef(Mix(p, s, q, t), k) == Prod(p, Coef(s, k)) + Prod(q, Coef(t, k))
  {
  }

  lemma Spread4(p: real, ls: real, cs: real, q: real, lt: real, ct: real, ek: real)
    ensures Prod(p, ls) + Prod(q, lt) + Prod(Prod(p, cs) + Prod(q, ct), ek)
         == Prod(p, ls + Prod(cs, ek)) + Prod(q, lt + Prod(ct, ek))
  {
  }

  lemma AbsProd(p: real, q: real, bp: real, bq: real)
    requires AbsOf(p) <= bp && AbsOf(q) <= bq
    ensures AbsOf(Prod(p, q)) <= Prod(bp, bq)
  {
    var ap, aq := AbsOf(p), AbsOf(q);
    assert AbsOf(p * q) == ap * aq;
    assert ap * aq <= bp * aq;
    assert bp * aq <= bp * bq;
  }

  lemma {:induction false} LinBound(t: map<nat, real>, e: Noise, n: nat)
    requires Fits(e)
    ensures AbsOf(Lin(t, e, n)) <= Spread(t, n)
  {
    hide Prod;
    if n > 0 {
      LinBound(t, e, n - 1);
      AbsProd(Coef(t, n - 1), e(n - 1), AbsOf(Coef(t, n - 1)), 1.0);
      TimesOne(AbsOf(Coef(t, n - 1)));
    }
  }

  lemma TimesOne(x: real)
    ensures Prod(x, 1.0) == x && Prod(1.0, x) == x && Prod(0.0, x) == 0.0 && Prod(-1.0, x) == -x
  {
  }

  // ----- soundness of each operation -----

  lemma PlusSound(a: Aff, b: Aff, e: Noise, n: nat, x: real, y: real)
    requires Stands(a, e, n, x) && Stands(b, e, n, y)
    ensures Stands(Plus(a, b), e, n, x + y)
  {
    hide Prod;
    hide Mix;
    LinMix(1.0, a.t, 1.0, b.t, e, n);
    TimesOne(Lin(a.t, e, n));
    TimesOne(Lin(b.t, e, n));
  }

  lemma NegativeSound(a: Aff, e: Noise, n: nat, x: real)
    requires Stands(a, e, n, x)
    ensures Stands(Negative(a), e, n, -x)
  {
    hide Prod;
    hide Mix;
    LinMix(-1.0, a.t, 0.0, map[], e, n);
    TimesOne(Lin(a.t, e, n));
    TimesOne(Lin(map[], e, n));
  }

  lemma ScaleSound(s: real, a: Aff, e: Noise, n: nat, x: real)
    requires Stands(a, e, n, x)
    ensures Stands(Scale(s, a), e, n, Prod(s, x))
  {
    hide Mix;
    hide Prod;
    LinMix(s, a.t, 0.0, map[], e, n);
    TimesOne(Lin(map[], e, n));
    var d := x - (a.c + Lin(a.t, e, n));
    AbsProd(s, d, AbsOf(s), a.err);
    ScaleOut(s, x, a.c, Lin(a.t, e, n));
  }

  lemma ScaleOut(s: real, x: real, c: real, l: real)
    ensures Prod(s, x - (c + l)) == Prod(s, x) - (Prod(s, c) + Prod(s, l))
  {
  }

  /** What the product of two forms leaves over: the product of the linear parts, and the errors. */
  lemma ProductOut(ca: real, la: real, da: real, cb: real, lb: real, db: real)
    ensures Prod(ca + la + da, cb + lb + db) - (Prod(ca, cb) + (Prod(cb, la) + Prod(ca, lb)))
         == Prod(da, cb + lb) + Prod(db, ca + la) + Prod(da, db) + Prod(la, lb)
  {
  }

  lemma TimesSound(a: Aff, b: Aff, e: Noise, n: nat, x: real, y: real)
    requires Fits(e) && Stands(a, e, n, x) && Stands(b, e, n, y)
    ensures Stands(Times(a, b, n), e, n, Prod(x, y))
  {
    hide Prod;
    hide Mix;
    hide Fits;
    var la, lb := Lin(a.t, e, n), Lin(b.t, e, n);
    var da, db := x - (a.c + la), y - (b.c + lb);
    var ra, rb := Spread(a.t, n), Spread(b.t, n);
    LinMix(b.c, a.t, a.c, b.t, e, n);
    LinBound(a.t, e, n);
    LinBound(b.t, e, n);
    ProductOut(a.c, la, da, b.c, lb, db);
    AbsProd(da, b.c + lb, a.err, AbsOf(b.c) + rb);
    AbsProd(db, a.c + la, b.err, AbsOf(a.c) + ra);
    AbsProd(da, db, a.err, b.err);
    AbsProd(la, lb, ra, rb);
  }

  /** The interval of a form holds what it stands for. */
  lemma ToIvalSound(f: Fpu, a: Aff, e: Noise, n: nat, x: real)
    requires Exact(f) && Fits(e) && Formed(a, n) && Stands(a, e, n, x)
    ensures Contains(ToIval(f, a, n), x) && Finite(ToIval(f, a, n))
  {
    hide Prod;
    LinBound(a.t, e, n);
  }

  /** Symbol n set to v, the others as they were. */
  function With(e: Noise, n: nat, v: real): Noise {
    (k: nat) => if k == n then v else e(k)
  }

  ghost predicate Extends(e2: Noise, e: Noise, n: nat) {
    forall k :: 0 <= k < n ==> e2(k) == e(k)
  }

  /** Some value of the new symbol makes the form stand for any point of the interval. */
  lemma FromIvalSound(f: Fpu, a: Ival, e: Noise, n: nat, x: real) returns (e2: Noise)
    requires Exact(f) && Fits(e) && Contains(a, x) && FromIval(f, a, n).Some?
    ensures var (r, m) := FromIval(f, a, n).value;
      n <= m && Formed(r, m) && Fits(e2) && Extends(e2, e, n) && Stands(r, e2, m, x)
  {
    var (r, m) := FromIval(f, a, n).value;
    var centre, radius := (a.lo.r + a.hi.r) / 2.0, (a.hi.r - a.lo.r) / 2.0;
    if radius == 0.0 {
      e2 := e;
      EmptyLin(e, n);
    } else {
      var s := (x - centre) / radius;
      ShareInUnit(x - centre, radius);
      e2 := With(e, n, s);
      LinExtends(map[], e, e2, n, n);
      EmptyLin(e, n);
      SingleLin(radius, e2, n);
      assert Prod(radius, s) == x - centre;
    }
  }

  lemma ShareInUnit(d: real, r: real)
    requires r > 0.0 && -r <= d <= r
    ensures -1.0 <= d / r <= 1.0 && r * (d / r) == d
  {
    var q := d / r;
    assert q * r == d;
    if q > 1.0 { ScaleUp(q, r); }
    if q < -1.0 { ScaleUp(-q, r); }
  }

  lemma {:induction false} EmptyLin(e: Noise, n: nat)
    ensures Lin(map[], e, n) == 0.0
  {
    if n > 0 { EmptyLin(e, n - 1); }
  }

  lemma {:induction false} UnusedLin(r: real, e: Noise, n: nat, m: nat)
    requires m <= n
    ensures Lin(map[n := r], e, m) == 0.0
  {
    if m > 0 { UnusedLin(r, e, n, m - 1); }
  }

  lemma SingleLin(r: real, e: Noise, n: nat)
    ensures Lin(map[n := r], e, n + 1) == Prod(r, e(n))
  {
    UnusedLin(r, e, n, n);
  }

  // ----- forms stand for no more than they must -----

  /** Every symbol pulls the form to one side by the share s. */
  function Leaning(t: map<nat, real>, s: real): Noise {
    (k: nat) => if Coef(t, k) >= 0.0 then s else -s
  }

  lemma {:induction false} LeaningLin(t: map<nat, real>, s: real, e: Noise, n: nat)
    requires forall k: nat :: k in t ==> e(k) == if t[k] >= 0.0 then s else -s
    ensures Lin(t, e, n) == Prod(s, Spread(t, n))
  {
    if n == 0 {
      NoProd(s);
    } else {
      LeaningLin(t, s, e, n - 1);
      LeanStep(s, Spread(t, n - 1), Coef(t, n - 1), e(n - 1));
      hide Prod;
    }
  }

  lemma NoProd(s: real)
    ensures Prod(s, 0.0) == 0.0 && Prod(0.0, s) == 0.0
  {
  }

  lemma LeanStep(s: real, l: real, c: real, e: real)
    requires c == 0.0 || e == if c >= 0.0 then s else -s
    ensures Prod(s, l) + Prod(c, e) == Prod(s, l + AbsOf(c))
  {
  }

  /** The interval of a form has just what the form stands for under some noise. */
  lemma ToIvalExactly(f: Fpu, a: Aff, n: nat, x: real)
    requires Exact(f) && Formed(a, n)
    ensures Contains(ToIval(f, a, n), x) <==> exists e: Noise :: Fits(e) && Stands(a, e, n, x)
  {
    hide Stands;
    hide Fits;
    hide ToIval;
    if e: Noise :| Fits(e) && Stands(a, e, n, x) { ToIvalSound(f, a, e, n, x); }
    if Contains(ToIval(f, a, n), x) { var e := ToIvalOnto(f, a, n, x); }
  }

  lemma ToIvalEnds(f: Fpu, a: Aff, n: nat)
    requires Exact(f) && Formed(a, n)
    ensures ToIval(f, a, n) == Ival(Fin(a.c - Rad(a, n)), Fin(a.c + Rad(a, n)))
  {
  }

  /** A share of r that comes as near to d as err, when err and r together reach it. */
  lemma PickShare(d: real, r: real, err: real) returns (s: real)
    requires r >= 0.0 && err >= 0.0 && AbsOf(d) <= r + err
    ensures -1.0 <= s <= 1.0 && AbsOf(d - Prod(s, r)) <= err
  {
    TimesOne(r);
    if d > r || r == 0.0 {
      s := 1.0;
    } else if d < -r {
      s := -1.0;
    } else {
      ShareInUnit(d, r);
      s := d / r;
      assert Prod(s, r) == r * (d / r);
    }
  }

  lemma ToIvalOnto(f: Fpu, a: Aff, n: nat, x: real) returns (e: Noise)
    requires Exact(f) && Formed(a, n) && Contains(ToIval(f, a, n), x)
    ensures Fits(e) && Stands(a, e, n, x)
  {
    ToIvalEnds(f, a, n);
    hide ToIval;
    var s := PickShare(x - a.c, Spread(a.t, n), a.err);
    e := Leaning(a.t, s);
    LeaningLin(a.t, s, e, n);
    hide Prod;
    hide Lin;
    hide Spread;
  }

  /** The sum of two forms stands only for sums of what they stand for. */
  lemma PlusExactly(a: Aff, b: Aff, e: Noise, n: nat, z: real)
    requires Formed(a, n) && Formed(b, n)
    ensures Stands(Plus(a, b), e, n, z) <==>
      exists x, y :: Stands(a, e, n, x) && Stands(b, e, n, y) && z == x + y
  {
    if x, y :| Stands(a, e, n, x) && Stands(b, e, n, y) && z == x + y { PlusSound(a, b, e, n, x, y); }
    if Stands(Plus(a, b), e, n, z) {
      hide Prod;
      hide Mix;
      LinMix(1.0, a.t, 1.0, b.t, e, n);
      var (la, lb) := (Lin(a.t, e, n), Lin(b.t, e, n));
      TimesOne(la);
      TimesOne(lb);
      var d := z - (a.c + la) - (b.c + lb);
      var da := if d > a.err then a.err else if d < -a.err then -a.err else d;
      assert Stands(a, e, n, a.c + la + da) && Stands(b, e, n, b.c + lb + (d - da));
      assert z == (a.c + la + da) + (b.c + lb + (d - da));
    }
  }

  /** A multiple of a form stands only for multiples of what it stands for. */
  lemma ScaleExactly(s: real, a: Aff, e: Noise, n: nat, z: real)
    requires Formed(a, n)
    ensures Stands(Scale(s, a), e, n, z) <==> exists x :: Stands(a, e, n, x) && z == Prod(s, x)
  {
    if x :| Stands(a, e, n, x) && z == Prod(s, x) { ScaleSound(s, a, e, n, x); }
    if Stands(Scale(s, a), e, n, z) {
      var x := ScaleOnto(s, a, e, n, z);
    }
  }

  lemma ScaleOnto(s: real, a: Aff, e: Noise, n: nat, z: real) returns (x: real)
    requires Formed(a, n) && Stands(Scale(s, a), e, n, z)
    ensures Stands(a, e, n, x) && z == Prod(s, x)
  {
    hide Mix;
    LinMix(s, a.t, 0.0, map[], e, n);
    TimesOne(Lin(map[], e, n));
    var l := Lin(a.t, e, n);
    hide Lin;
    NoProd(a.c);
    NoProd(l);
    NoProd(a.err);
    if s == 0.0 {
      x := a.c + l;
      NoProd(x);
    } else {
      x := z / s;
      assert s * x == z;
      ScaleOut(s, x, a.c, l);
      WithinScaled(s, x - (a.c + l), a.err);
    }
  }

  lemma WithinScaled(s: real, d: real, r: real)
    requires s != 0.0 && AbsOf(Prod(s, d)) <= Prod(AbsOf(s), r)
    ensures AbsOf(d) <= r
  {
    assert AbsOf(s * d) == AbsOf(s) * AbsOf(d);
    if AbsOf(d) > r { LargerFactor(AbsOf(s), AbsOf(d), r); }
  }

  lemma LargerFactor(p: real, x: real, y: real)
    requires p > 0.0 && x > y
    ensures p * x > p * y
  {
  }

  /** The form of an interval stands only for its points. */
  lemma FromIvalTight(f: Fpu, a: Ival, e: Noise, n: nat, x: real)
    requires Exact(f) && Fits(e) && FromIval(f, a, n).Some?
    ensures var (r, m) := FromIval(f, a, n).value; Stands(r, e, m, x) ==> Contains(a, x)
  {
    var radius := (a.hi.r - a.lo.r) / 2.0;
    EmptyLin(e, n);
    SingleLin(radius, e, n);
    AbsProd(radius, e(n), AbsOf(radius), 1.0);
    TimesOne(AbsOf(radius));
  }

  /** One side of zero or the other. */
  function Side(x: real): real { if x < 0.0 then -1.0 else 1.0 }

  lemma SideProd(x: real, y: real)
    ensures Prod(Side(x), y) == (if x < 0.0 then -y else y) && Prod(Side(x), x) == AbsOf(x)
  {
  }

  /** The product's error is not larger than it must be for forms without a common symbol: under some
      noise two numbers that they stand for have a product that is off by all of it. */
  lemma TimesTight(a: Aff, b: Aff, n: nat) returns (e: Noise, x: real, y: real)
    requires Formed(a, n) && Formed(b, n) && a.t.Keys !! b.t.Keys
    ensures Fits(e) && Stands(a, e, n, x) && Stands(b, e, n, y)
    ensures var p := Times(a, b, n); AbsOf(Prod(x, y) - (p.c + Lin(p.t, e, n))) == p.err
  {
    var (sa, sb) := (Side(a.c), Side(b.c));
    e := (k: nat) => if k in a.t then (if a.t[k] >= 0.0 then sa else -sa)
                     else if k in b.t then (if b.t[k] >= 0.0 then sb else -sb) else 0.0;
    LeaningLin(a.t, sa, e, n);
    LeaningLin(b.t, sb, e, n);
    var (ra, rb) := (Spread(a.t, n), Spread(b.t, n));
    var (la, lb) := (Prod(sa, ra), Prod(sb, rb));
    var same := (a.c < 0.0) == (b.c < 0.0);
    var da := if (b.c < 0.0) == same then -a.err else a.err;
    var db := if (a.c < 0.0) == same then -b.err else b.err;
    x := a.c + la + da;
    y := b.c + lb + db;
    LinMix(b.c, a.t, a.c, b.t, e, n);
    ProductOut(a.c, la, da, b.c, lb, db);
    SideProd(a.c, ra);
    SideProd(b.c, rb);
    assert AbsOf(x - (a.c + la)) == a.err && AbsOf(y - (b.c + lb)) == b.err;
    hide Lin;
    hide Spread;
    hide Mix;
    LeftOver(a.c, ra, a.err, b.c, rb, b.err, same);
  }

  lemma LeftOver(ca: real, ra: real, ea: real, cb: real, rb: real, eb: real, same: bool)
    requires same == ((ca < 0.0) == (cb < 0.0)) && ra >= 0.0 && rb >= 0.0 && ea >= 0.0 && eb >= 0.0
    ensures var (la, lb) := (if ca < 0.0 then -ra else ra, if cb < 0.0 then -rb else rb);
      var da := if (cb < 0.0) == same then -ea else ea;
      var db := if (ca < 0.0) == same then -eb else eb;
      AbsOf(Prod(da, cb + lb) + Prod(db, ca + la) + Prod(da, db) + Prod(la, lb))
      == Prod(ea, AbsOf(cb) + rb) + Prod(eb, AbsOf(ca) + ra) + Prod(ea, eb) + Prod(ra, rb)
  {
  }

  // ----- cancellation -----

  lemma {:induction false} ZeroSpread(t: map<nat, real>, n: nat)
    requires forall k :: 0 <= k < n ==> Coef(t, k) == 0.0
    ensures Spread(t, n) == 0.0
  {
    if n > 0 { ZeroSpread(t, n - 1); }
  }

  /** Shared symbols cancel: a form minus itself is exactly zero when, and only when, it has no
      error of its own. */
  lemma SelfDifference(f: Fpu, a: Aff, n: nat)
    requires Exact(f) && Formed(a, n)
    ensures ToIval(f, Minus(a, a), n) == Point(ZERO) <==> a.err == 0.0
  {
    var d := Minus(a, a);
    forall k: nat | k < n
      ensures Coef(d.t, k) == 0.0
    {
      MixAt(1.0, a.t, 1.0, Negative(a).t, k);
      MixAt(-1.0, a.t, 0.0, map[], k);
    }
    ZeroSpread(d.t, n);
  }

  // ----- evaluation of a graph by affine forms -----

  type Forms = map<string, Aff>

  predicate IsLinear(op: Op) { op == Add || op == Sub || op == Mul || op == Div || op == Neg }

  function LinearOp(f: Fpu, op: Op, a: seq<Aff>, n: nat): Option<(Aff, nat)>
    requires IsLinear(op) && |a| >= Arity(op)
  {
    match op
    case Add => Some((Plus(a[0], a[1]), n))
    case Sub => Some((Minus(a[0], a[1]), n))
    case Mul => Some((Times(a[0], a[1], n), n))
    case Div => DivideForms(f, a[0], a[1], n)
    case Neg => Some((Negative(a[0]), n))
  }

  function DivideForms(f: Fpu, a: Aff, b: Aff, n: nat): Option<(Aff, nat)> {
    match Inverse(f, b, n)
    case None => None
    case Some((r, m)) => Some((Times(a, r, m), m))
  }

  function Ivals(f: Fpu, a: seq<Aff>, n: nat): (r: seq<Ival>)
    ensures |r| == |a| && forall i :: 0 <= i < |a| ==> r[i] == ToIval(f, a[i], n)
  {
    if |a| == 0 then [] else Ivals(f, a[..|a| - 1], n) + [ToIval(f, a[|a| - 1], n)]
  }

  /** The form of n; the counter of symbols goes in and out. Only the four operations and
      negation stay affine, everything else goes through intervals. */
  function AffRec(f: Fpu, n: Node, env: Forms, ht: HoleTable, next: nat): Option<(Aff, nat)>
    requires WellFormed(n)
    decreases n, 1
  {
    match n
    case Const(c) => Some((Constant(c), next))
    case Var(s, phys) => if s in env then Some((env[s], next)) else FromIval(f, phys, next)
    case Oper(op, args) => (
      match AffAll(f, args, env, ht, next)
      case None => None
      case Some((a, m)) =>
        if IsLinear(op) then LinearOp(f, op, a, m) else FromIval(f, ApplyOp(f, op, Ivals(f, a, m)), m))
    case Call(fn, args) => (
      match AffAll(f, args, env, ht, next)
      case None => None
      case Some((a, m)) => FromIval(f, CallEncl(fn, Ivals(f, a, m)), m))
    case Hole(id, phys, _, args) => (
      match AffAll(f, args, env, ht, next)
      case None => None
      case Some((a, m)) => FromIval(f, HoleEval(f, ht, id, phys, Ivals(f, a, m)).encl, m))
    case Disj(cands) => (
      match AffAll(f, cands, env, ht, next)
      case None => None
      case Some((a, m)) => FromIval(f, BundleHull(Ivals(f, a, m)), m))
  }

  function AffAll(f: Fpu, ns: seq<Node>, env: Forms, ht: HoleTable, next: nat): (r: Option<(seq<Aff>, nat)>)
    requires AllWellFormed(ns)
    ensures r.Some? ==> |r.value.0| == |ns|
    decreases ns, 0
  {
    if |ns| == 0 then Some(([], next))
    else match AffAll(f, ns[..|ns| - 1], env, ht, next)
      case None => None
      case Some((a, m)) =>
        match AffRec(f, ns[|ns| - 1], env, ht, m)
        case None => None
        case Some((x, k)) => Some((a + [x], k))
  }

  /** Powers are by whole constants that RPow takes for whole. */
  predicate WholePowers(n: Node)
    requires WellFormed(n)
    decreases n, 1
  {
    match n
    case Const(_) => true
    case Var(_, _) => true
    case Oper(op, args) => AllWholePowers(args) && (op == Pow ==> args[1].Const? && Integral(Fin(args[1].val)))
    case Call(_, args) => AllWholePowers(args)
    case Hole(_, _, _, args) => AllWholePowers(args)
    case Disj(cands) => AllWholePowers(cands)
  }

  predicate AllWholePowers(ns: seq<Node>)
    requires AllWellFormed(ns)
    decreases ns, 0
  {
    forall i :: 0 <= i < |ns| ==> WholePowers(ns[i])
  }

  /** Under e the inputs' forms stand for the world's values. */
  ghost predicate Given(env: Forms, e: Noise, n: nat, w: World) {
    forall s :: s in env ==> Formed(env[s], n) && Stands(env[s], e, n, w.env(s))
  }

  ghost predicate AllStand(a: seq<Aff>, e: Noise, n: nat, xs: seq<real>) {
    |a| == |xs| && forall i :: 0 <= i < |a| ==> Formed(a[i], n) && Stands(a[i], e, n, xs[i])
  }

  lemma StandsLater(a: Aff, e: Noise, e2: Noise, n: nat, m: nat, x: real)
    requires Formed(a, n) && Stands(a, e, n, x) && n <= m && Extends(e2, e, n)
    ensures Formed(a, m) && Stands(a, e2, m, x)
  {
    LinExtends(a.t, e, e2, n, m);
  }

  lemma GivenLater(env: Forms, e: Noise, e2: Noise, n: nat, m: nat, w: World)
    requires Given(env, e, n, w) && n <= m && Extends(e2, e, n)
    ensures Given(env, e2, m, w)
  {
    forall s | s in env
      ensures Formed(env[s], m) && Stands(env[s], e2, m, w.env(s))
    {
      StandsLater(env[s], e, e2, n, m, w.env(s));
    }
  }

  lemma IvalsHold(f: Fpu, a: seq<Aff>, e: Noise, n: nat, xs: seq<real>)
    requires Exact(f) && Fits(e) && AllStand(a, e, n, xs)
    ensures AllContain(Ivals(f, a, n), xs)
    ensures forall i :: 0 <= i < |a| ==>
      Finite(Ivals(f, a, n)[i]) && I.Proper(Ivals(f, a, n)[i]) && !Tainted(Ivals(f, a, n)[i])
  {
    forall i | 0 <= i < |a|
      ensures Contains(Ivals(f, a, n)[i], xs[i]) && Finite(Ivals(f, a, n)[i])
    {
      ToIvalSound(f, a[i], e, n, xs[i]);
    }
  }

  lemma LinearFormed(a: Aff, b: Aff, n: nat)
    requires Formed(a, n) && Formed(b, n)
    ensures Formed(Plus(a, b), n) && Formed(Negative(a), n) && Formed(Minus(a, b), n) && Formed(Times(a, b, n), n)
  {
    NonNegative(a.err, AbsOf(b.c) + Spread(b.t, n));
    NonNegative(b.err, AbsOf(a.c) + Spread(a.t, n));
    NonNegative(a.err, b.err);
    NonNegative(Spread(a.t, n), Spread(b.t, n));
  }

  lemma NonNegative(x: real, y: real)
    requires x >= 0.0 && y >= 0.0
    ensures Prod(x, y) >= 0.0
  {
  }

  lemma DivideSound(f: Fpu, a: Aff, b: Aff, e: Noise, n: nat, x: real, y: real) returns (e2: Noise)
    requires Sound(f) && Exact(f) && Fits(e) && Formed(a, n) && Formed(b, n) && Stands(a, e, n, x) && Stands(b, e, n, y)
    requires y != 0.0 && DivideForms(f, a, b, n).Some?
    ensures var (r, m) := DivideForms(f, a, b, n).value;
      n <= m && Formed(r, m) && Fits(e2) && Extends(e2, e, n) && Stands(r, e2, m, Quot(x, y))
  {
    hide Prod;
    hide Quot;
    hide Times;
    hide Mix;
    hide ToIval;
    hide I.Divi;
    var (r, m) := Inverse(f, b, n).value;
    var one, den := Point(Fin(1.0)), ToIval(f, b, n);
    ToIvalSound(f, b, e, n, y);
    DiviSound(f, one, den, 1.0, y);
    e2 := FromIvalSound(f, I.Divi(f, one, den), e, n, Quot(1.0, y));
    StandsLater(a, e, e2, n, m, x);
    LinearFormed(a, r, m);
    TimesSound(a, r, e2, m, x, Quot(1.0, y));
    OverAsTimes(x, y);
  }

  lemma OverAsTimes(x: real, y: real)
    requires y != 0.0
    ensures Quot(x, y) == Prod(x, Quot(1.0, y))
  {
  }

  lemma LinearSound(f: Fpu, op: Op, a: seq<Aff>, e: Noise, n: nat, xs: seq<real>) returns (e2: Noise)
    requires Sound(f) && Exact(f) && Fits(e) && IsLinear(op) && |a| >= Arity(op) && AllStand(a, e, n, xs)
    requires OpValue(f, op, xs).Some? && LinearOp(f, op, a, n).Some?
    ensures var (r, m) := LinearOp(f, op, a, n).value;
      n <= m && Formed(r, m) && Fits(e2) && Extends(e2, e, n) && Stands(r, e2, m, OpValue(f, op, xs).value)
  {
    hide Plus;
    hide Times;
    hide Negative;
    hide Stands;
    hide Formed;
    hide Prod;
    hide Quot;
    hide DivideForms;
    e2 := e;
    match op
    case Add =>
      LinearFormed(a[0], a[1], n);
      PlusSound(a[0], a[1], e, n, xs[0], xs[1]);
    case Sub =>
      LinearFormed(a[0], a[1], n);
      NegativeSound(a[1], e, n, xs[1]);
      PlusSound(a[0], Negative(a[1]), e, n, xs[0], -xs[1]);
    case Mul =>
      LinearFormed(a[0], a[1], n);
      TimesSound(a[0], a[1], e, n, xs[0], xs[1]);
    case Div => e2 := DivideSound(f, a[0], a[1], e, n, xs[0], xs[1]);
    case Neg =>
      LinearFormed(a[0], a[0], n);
      NegativeSound(a[0], e, n, xs[0]);
  }

  /** For any values of the symbols under which the inputs' forms stand for their values, the new
      symbols can be given values under which the result stands for every value of the graph. */
  lemma {:induction false} AffineSound(f: Fpu, w: World, box: Box, ht: HoleTable, env: Forms, n: Node, e: Noise,
                                       next: nat, v: real)
    returns (e2: Noise)
    requires Sound(f) && Exact(f) && WellFormed(n) && WholePowers(n) && WrappersSound(ht, w.hv)
    requires box.Keys == env.Keys && Fits(e) && Given(env, e, next, w)
    requires AffRec(f, n, env, ht, next).Some? && Value(f, w, box, ht, n, v)
    ensures var (r, m) := AffRec(f, n, env, ht, next).value;
      next <= m && Formed(r, m) && Fits(e2) && Extends(e2, e, next) && Stands(r, e2, m, v)
    decreases n, 1
  {
    hide Stands;
    hide Formed;
    hide Fits;
    hide ToIval;
    hide LinearOp;
    hide ApplyOp;
    hide CallEncl;
    hide HoleEval;
    hide BundleHull;
    hide Given;
    match n
    case Const(c) =>
      e2 := e;
      ConstantStands(c, e, next);
    case Var(s, phys) =>
      if s in env { e2 := GivenAt(env, e, next, w, s); } else { e2 := FromIvalSound(f, phys, e, next, v); }
    case Oper(_, _) => e2 := AffineOper(f, w, box, ht, env, n, e, next, v);
    case Call(_, _) => e2 := AffineCall(f, w, box, ht, env, n, e, next, v);
    case Hole(_, _, _, _) => e2 := AffineHole(f, w, box, ht, env, n, e, next, v);
    case Disj(_) => e2 := AffineDisj(f, w, box, ht, env, n, e, next, v);
  }

  lemma AffineOper(f: Fpu, w: World, box: Box, ht: HoleTable, env: Forms, n: Node, e: Noise, next: nat, v: real)
    returns (e2: Noise)
    requires n.Oper?
    requires Sound(f) && Exact(f) && WellFormed(n) && WholePowers(n) && WrappersSound(ht, w.hv)
    requires box.Keys == env.Keys && Fits(e) && Given(env, e, next, w)
    requires AffRec(f, n, env, ht, next).Some? && Value(f, w, box, ht, n, v)
    ensures var (r, m) := AffRec(f, n, env, ht, next).value;
      next <= m && Formed(r, m) && Fits(e2) && Extends(e2, e, next) && Stands(r, e2, m, v)
    decreases n, 0
  {
    hide Stands;
    hide Formed;
    hide Fits;
    hide ToIval;
    hide LinearOp;
    hide ApplyOp;
    hide CallEncl;
    hide HoleEval;
    hide BundleHull;
    hide Given;
    hide FromIval;
    hide OpValue;
    hide CallValue;
    hide AffAll;
    hide Outward;
    hide Exact;
    var op, args := n.op, n.args;
    var xs: seq<real> :| Values(f, w, box, ht, args, xs) && |xs| >= Arity(op) && OpValue(f, op, xs) == Some(v);
    var e1 := AffineAll(f, w, box, ht, env, args, e, next, xs);
    var (a, m) := AffAll(f, args, env, ht, next).value;
    if IsLinear(op) {
      e2 := LinearSound(f, op, a, e1, m, xs);
    } else {
      if op == Pow { ConstKept(f, args, env, ht, next, 1); }
      e2 := OtherOp(f, op, args, a, e1, m, xs, v);
    }
  }

  lemma AffineCall(f: Fpu, w: World, box: Box, ht: HoleTable, env: Forms, n: Node, e: Noise, next: nat, v: real)
    returns (e2: Noise)
    requires n.Call?
    requires Sound(f) && Exact(f) && WellFormed(n) && WholePowers(n) && WrappersSound(ht, w.hv)
    requires box.Keys == env.Keys && Fits(e) && Given(env, e, next, w)
    requires AffRec(f, n, env, ht, next).Some? && Value(f, w, box, ht, n, v)
    ensures var (r, m) := AffRec(f, n, env, ht, next).value;
      next <= m && Formed(r, m) && Fits(e2) && Extends(e2, e, next) && Stands(r, e2, m, v)
    decreases n, 0
  {
    hide Stands;
    hide Formed;
    hide Fits;
    hide ToIval;
    hide LinearOp;
    hide ApplyOp;
    hide CallEncl;
    hide HoleEval;
    hide BundleHull;
    hide Given;
    hide FromIval;
    hide OpValue;
    hide CallValue;
    hide AffAll;
    hide Outward;
    hide Exact;
    var fn, args := n.fn, n.args;
    var xs: seq<real> :| Values(f, w, box, ht, args, xs) && CallValue(fn, xs) == Some(v);
    var e1 := AffineAll(f, w, box, ht, env, args, e, next, xs);
    var (a, m) := AffAll(f, args, env, ht, next).value;
    IvalsHold(f, a, e1, m, xs);
    CallSound(fn, Ivals(f, a, m), xs);
    e2 := FromIvalSound(f, CallEncl(fn, Ivals(f, a, m)), e1, m, v);
  }

  lemma AffineHole(f: Fpu, w: World, box: Box, ht: HoleTable, env: Forms, n: Node, e: Noise, next: nat, v: real)
    returns (e2: Noise)
    requires n.Hole?
    requires Sound(f) && Exact(f) && WellFormed(n) && WholePowers(n) && WrappersSound(ht, w.hv)
    requires box.Keys == env.Keys && Fits(e) && Given(env, e, next, w)
    requires AffRec(f, n, env, ht, next).Some? && Value(f, w, box, ht, n, v)
    ensures var (r, m) := AffRec(f, n, env, ht, next).value;
      next <= m && Formed(r, m) && Fits(e2) && Extends(e2, e, next) && Stands(r, e2, m, v)
    decreases n, 0
  {
    hide Stands;
    hide Formed;
    hide Fits;
    hide ToIval;
    hide LinearOp;
    hide ApplyOp;
    hide CallEncl;
    hide HoleEval;
    hide BundleHull;
    hide Given;
    hide FromIval;
    hide OpValue;
    hide CallValue;
    hide AffAll;
    hide Outward;
    hide Exact;
    var id, phys, args := n.id, n.phys, n.args;
    var xs: seq<real> :| Values(f, w, box, ht, args, xs) && w.hv(id, xs, v);
    var e1 := AffineAll(f, w, box, ht, env, args, e, next, xs);
    var (a, m) := AffAll(f, args, env, ht, next).value;
    IvalsHold(f, a, e1, m, xs);
    HoleEvalSound(f, ht, w.hv, id, phys, Ivals(f, a, m), xs, v);
    e2 := FromIvalSound(f, HoleEval(f, ht, id, phys, Ivals(f, a, m)).encl, e1, m, v);
  }

  lemma AffineDisj(f: Fpu, w: World, box: Box, ht: HoleTable, env: Forms, n: Node, e: Noise, next: nat, v: real)
    returns (e2: Noise)
    requires n.Disj?
    requires Sound(f) && Exact(f) && WellFormed(n) && WholePowers(n) && WrappersSound(ht, w.hv)
    requires box.Keys == env.Keys && Fits(e) && Given(env, e, next, w)
    requires AffRec(f, n, env, ht, next).Some? && Value(f, w, box, ht, n, v)
    ensures var (r, m) := AffRec(f, n, env, ht, next).value;
      next <= m && Formed(r, m) && Fits(e2) && Extends(e2, e, next) && Stands(r, e2, m, v)
    decreases n, 0
  {
    hide Stands;
    hide Formed;
    hide Fits;
    hide ToIval;
    hide LinearOp;
    hide ApplyOp;
    hide CallEncl;
    hide HoleEval;
    hide Given;
    hide FromIval;
    hide OpValue;
    hide CallValue;
    hide AffAll;
    hide Outward;
    hide Exact;
    var cands := n.cands;
    var i :| 0 <= i < |cands| && Value(f, w, box, ht, cands[i], v);
    var e1 := AffinePick(f, w, box, ht, env, cands, e, next, i, v);
    var (a, m) := AffAll(f, cands, env, ht, next).value;
    PickHolds(f, a, e1, m, i, v);
    NoTaint(Ivals(f, a, m));
    BundleSound(Ivals(f, a, m), i, v);
    e2 := FromIvalSound(f, BundleHull(Ivals(f, a, m)), e1, m, v);
  }

  lemma {:induction false} ConstKept(f: Fpu, ns: seq<Node>, env: Forms, ht: HoleTable, next: nat, i: nat)
    requires AllWellFormed(ns) && i < |ns| && ns[i].Const? && AffAll(f, ns, env, ht, next).Some?
    ensures AffAll(f, ns, env, ht, next).value.0[i] == Constant(ns[i].val)
  {
    if i < |ns| - 1 { ConstKept(f, ns[..|ns| - 1], env, ht, next, i); }
  }

  lemma ConstantStands(c: real, e: Noise, n: nat)
    ensures Formed(Constant(c), n) && Stands(Constant(c), e, n, c)
  {
    EmptyLin(e, n);
  }

  lemma GivenAt(env: Forms, e: Noise, n: nat, w: World, s: string) returns (e2: Noise)
    requires Given(env, e, n, w) && s in env
    ensures e2 == e && Formed(env[s], n) && Stands(env[s], e, n, w.env(s))
  {
    e2 := e;
  }

  lemma PointOf(f: Fpu, c: real, n: nat)
    requires Exact(f)
    ensures ToIval(f, Constant(c), n) == Point(Fin(c))
  {
    ZeroSpread(map[], n);
  }

  /** The operators that go through intervals: on finite ones none is lossy. */
  lemma OtherOp(f: Fpu, op: Op, args: seq<Node>, a: seq<Aff>, e: Noise, n: nat, xs: seq<real>, v: real)
    returns (e2: Noise)
    requires Sound(f) && Exact(f) && Fits(e) && !IsLinear(op) && |args| == |a| >= Arity(op) && AllStand(a, e, n, xs)
    requires op == Pow ==> args[1].Const? && Integral(Fin(args[1].val)) && a[1] == Constant(args[1].val)
    requires OpValue(f, op, xs) == Some(v) && FromIval(f, ApplyOp(f, op, Ivals(f, a, n)), n).Some?
    ensures var (r, m) := FromIval(f, ApplyOp(f, op, Ivals(f, a, n)), n).value;
      n <= m && Formed(r, m) && Fits(e2) && Extends(e2, e, n) && Stands(r, e2, m, v)
  {
    hide ToIval;
    hide ApplyOp;
    hide Stands;
    hide Formed;
    hide FromIval;
    hide OpValue;
    hide OpLossy;
    var ivs := Ivals(f, a, n);
    IvalsHold(f, a, e, n, xs);
    if op == Pow { PointOf(f, args[1].val, n); }
    FiniteOp(f, op, ivs);
    OpSound(f, op, ivs, xs);
    e2 := FromIvalSound(f, ApplyOp(f, op, ivs), e, n, v);
  }

  /** The picked form's interval holds its value, and every other is an interval of numbers. */
  lemma PickHolds(f: Fpu, a: seq<Aff>, e: Noise, n: nat, i: nat, v: real)
    requires Exact(f) && Fits(e) && i < |a| && (forall k :: 0 <= k < |a| ==> Formed(a[k], n)) && Stands(a[i], e, n, v)
    ensures Contains(Ivals(f, a, n)[i], v) && forall k :: 0 <= k < |a| ==> !Tainted(Ivals(f, a, n)[k])
  {
    ToIvalSound(f, a[i], e, n, v);
    forall k | 0 <= k < |a|
      ensures !Tainted(Ivals(f, a, n)[k])
    {
      assert Ivals(f, a, n)[k] == ToIval(f, a[k], n);
    }
  }

  lemma {:induction false} AffineAll(f: Fpu, w: World, box: Box, ht: HoleTable, env: Forms, ns: seq<Node>, e: Noise,
                                     next: nat, xs: seq<real>)
    returns (e2: Noise)
    requires Sound(f) && Exact(f) && AllWellFormed(ns) && AllWholePowers(ns) && WrappersSound(ht, w.hv)
    requires box.Keys == env.Keys && Fits(e) && Given(env, e, next, w)
    requires AffAll(f, ns, env, ht, next).Some? && Values(f, w, box, ht, ns, xs)
    ensures var (a, m) := AffAll(f, ns, env, ht, next).value;
      next <= m && Fits(e2) && Extends(e2, e, next) && AllStand(a, e2, m, xs)
    decreases ns, 0
  {
    hide Stands;
    hide Formed;
    hide Fits;
    hide Given;
    hide Value;
    hide WellFormed;
    hide WholePowers;
    hide AffRec;
    e2 := e;
    if |ns| > 0 {
      var last := |ns| - 1;
      var front := ns[..last];
      var e1 := AffineAll(f, w, box, ht, env, front, e, next, xs[..last]);
      var (a, m) := AffAll(f, front, env, ht, next).value;
      GivenLater(env, e, e1, next, m, w);
      e2 := AffineSound(f, w, box, ht, env, ns[last], e1, m, xs[last]);
      var (r, k) := AffRec(f, ns[last], env, ht, m).value;
      forall i | 0 <= i < last
        ensures Formed(a[i], k) && Stands(a[i], e2, k, xs[i])
      {
        StandsLater(a[i], e1, e2, m, k, xs[i]);
      }
    }
  }

  /** Without looking at values: symbols in use stay below the counter. */
  lemma {:induction false} ShapeRec(f: Fpu, n: Node, env: Forms, ht: HoleTable, next: nat)
    requires Exact(f) && WellFormed(n) && (forall s :: s in env ==> Formed(env[s], next))
    requires AffRec(f, n, env, ht, next).Some?
    ensures var (r, m) := AffRec(f, n, env, ht, next).value; next <= m && Formed(r, m)
    decreases n, 1
  {
    hide ToIval;
    hide ApplyOp;
    hide CallEncl;
    hide HoleEval;
    hide BundleHull;
    match n
    case Const(_) =>
    case Var(_, _) =>
    case Oper(op, args) =>
      ShapeAll(f, args, env, ht, next);
      var (a, m) := AffAll(f, args, env, ht, next).value;
      if IsLinear(op) { ShapeLinear(f, op, a, m); }
    case Call(_, args) => ShapeAll(f, args, env, ht, next);
    case Hole(_, _, _, args) => ShapeAll(f, args, env, ht, next);
    case Disj(cands) => ShapeAll(f, cands, env, ht, next);
  }

  lemma ShapeLinear(f: Fpu, op: Op, a: seq<Aff>, n: nat)
    requires IsLinear(op) && |a| >= Arity(op) && (forall i :: 0 <= i < |a| ==> Formed(a[i], n))
    requires LinearOp(f, op, a, n).Some?
    ensures var (r, m) := LinearOp(f, op, a, n).value; n <= m && Formed(r, m)
  {
    hide Plus;
    hide Times;
    hide Negative;
    hide ToIval;
    LinearFormed(a[0], a[if |a| > 1 then 1 else 0], n);
    if op == Sub { LinearFormed(a[1], a[1], n); }
    if op == Div {
      var (r, m) := Inverse(f, a[1], n).value;
      LinearFormed(a[0], r, m);
    }
  }

  lemma {:induction false} ShapeAll(f: Fpu, ns: seq<Node>, env: Forms, ht: HoleTable, next: nat)
    requires Exact(f) && AllWellFormed(ns) && (forall s :: s in env ==> Formed(env[s], next))
    requires AffAll(f, ns, env, ht, next).Some?
    ensures var (a, m) := AffAll(f, ns, env, ht, next).value; next <= m && forall i :: 0 <= i < |a| ==> Formed(a[i], m)
    decreases ns, 0
  {
    hide AffRec;
    if |ns| > 0 {
      var front := ns[..|ns| - 1];
      ShapeAll(f, front, env, ht, next);
      ShapeRec(f, ns[|ns| - 1], env, ht, AffAll(f, front, env, ht, next).value.1);
    }
  }

  /** One of several graphs has the value; the others only use up symbols. */
  lemma {:induction false} AffinePick(f: Fpu, w: World, box: Box, ht: HoleTable, env: Forms, ns: seq<Node>, e: Noise,
                                      next: nat, i: nat, v: real)
    returns (e2: Noise)
    requires Sound(f) && Exact(f) && AllWellFormed(ns) && AllWholePowers(ns) && WrappersSound(ht, w.hv)
    requires box.Keys == env.Keys && Fits(e) && Given(env, e, next, w)
    requires AffAll(f, ns, env, ht, next).Some? && i < |ns| && Value(f, w, box, ht, ns[i], v)
    ensures var (a, m) := AffAll(f, ns, env, ht, next).value;
      && next <= m && Fits(e2) && Extends(e2, e, next) && Stands(a[i], e2, m, v)
      && forall k :: 0 <= k < |a| ==> Formed(a[k], m)
    decreases ns, 0
  {
    hide Stands;
    hide Fits;
    hide Value;
    hide WellFormed;
    hide WholePowers;
    hide AffRec;
    var last := |ns| - 1;
    var front := ns[..last];
    GivenFormed(env, e, next, w);
    ShapeAll(f, ns, env, ht, next);
    ShapeAll(f, front, env, ht, next);
    var (a, m) := AffAll(f, front, env, ht, next).value;
    if i == last {
      GivenLater(env, e, e, next, m, w);
      e2 := AffineSound(f, w, box, ht, env, ns[last], e, m, v);
    } else {
      e2 := AffinePick(f, w, box, ht, env, front, e, next, i, v);
      ShapeRec(f, ns[last], env, ht, m);
      StandsLater(a[i], e2, e2, m, AffRec(f, ns[last], env, ht, m).value.1, v);
    }
  }

  lemma GivenFormed(env: Forms, e: Noise, n: nat, w: World)
    requires Given(env, e, n, w)
    ensures forall s :: s in env ==> Formed(env[s], n)
  {
  }

  function EvalAff(f: Fpu, n: Node, env: Forms, ht: HoleTable, next: nat): Option<Ival>
    requires WellFormed(n)
  {
    match AffRec(f, n, env, ht, next)
    case None => None
    case Some((r, m)) => Some(ToIval(f, r, m))
  }

  /** Affine evaluation encloses every value of the graph. */
  lemma EvalAffSound(f: Fpu, w: World, box: Box, ht: HoleTable, env: Forms, n: Node, e: Noise, next: nat, v: real)
    requires Sound(f) && Exact(f) && WellFormed(n) && WholePowers(n) && WrappersSound(ht, w.hv)
    requires box.Keys == env.Keys && Fits(e) && Given(env, e, next, w)
    requires EvalAff(f, n, env, ht, next).Some? && Value(f, w, box, ht, n, v)
    ensures Contains(EvalAff(f, n, env, ht, next).value, v)
  {
    hide AffRec;
    hide ToIval;
    hide Stands;
    var e2 := AffineSound(f, w, box, ht, env, n, e, next, v);
    var (r, m) := AffRec(f, n, env, ht, next).value;
    ToIvalSound(f, r, e2, m, v);
  }

  // ----- linear graphs -----

  /** Sums, differences, negations and multiples by constants of the inputs, each as often as one likes. */
  predicate LinearGraph(n: Node, env: Forms) {
    match n
    case Const(_) => true
    case Var(s, _) => s in env
    case Oper(op, args) =>
      && |args| == Arity(op) && (forall i :: 0 <= i < |args| ==> LinearGraph(args[i], env))
      && (op == Add || op == Sub || op == Neg || (op == Mul && (args[0].Const? || args[1].Const?)))
    case _ => false
  }

  /** The graph's value when the inputs are x. */
  function ValueAt(n: Node, env: Forms, x: string -> real): real
    requires LinearGraph(n, env)
  {
    match n
    case Const(c) => c
    case Var(s, _) => x(s)
    case Oper(op, args) =>
      var a := ValueAt(args[0], env, x);
      if op == Neg then -a
      else
        var b := ValueAt(args[1], env, x);
        if op == Add then a + b else if op == Sub then a - b else Prod(a, b)
  }

  /** What a form without an error stands for under e. */
  function Under(a: Aff, e: Noise, n: nat): real { a.c + Lin(a.t, e, n) }

  /** The inputs under e. */
  function Inputs(env: Forms, e: Noise, n: nat): string -> real { s => if s in env then Under(env[s], e, n) else 0.0 }

  ghost predicate Errorless(env: Forms, n: nat) { forall s :: s in env ==> Formed(env[s], n) && env[s].err == 0.0 }

  lemma PlusUnder(a: Aff, b: Aff, e: Noise, n: nat)
    requires Formed(a, n) && Formed(b, n) && a.err == b.err == 0.0
    ensures Formed(Plus(a, b), n) && Plus(a, b).err == 0.0
    ensures Under(Plus(a, b), e, n) == Under(a, e, n) + Under(b, e, n)
  {
    hide Prod;
    LinMix(1.0, a.t, 1.0, b.t, e, n);
    TimesOne(Lin(a.t, e, n));
    TimesOne(Lin(b.t, e, n));
  }

  lemma NegativeUnder(a: Aff, e: Noise, n: nat)
    requires Formed(a, n) && a.err == 0.0
    ensures Formed(Negative(a), n) && Negative(a).err == 0.0 && Under(Negative(a), e, n) == -Under(a, e, n)
  {
    hide Prod;
    LinMix(-1.0, a.t, 0.0, map[], e, n);
    TimesOne(Lin(a.t, e, n));
    TimesOne(Lin(map[], e, n));
  }

  lemma {:induction false} EmptySpread(n: nat)
    ensures Spread(map[], n) == 0.0
  {
    if n > 0 { EmptySpread(n - 1); }
  }

  /** A product with a constant is a multiple. */
  lemma TimesUnder(a: Aff, b: Aff, e: Noise, n: nat)
    requires Formed(a, n) && Formed(b, n) && a.err == b.err == 0.0 && (a.t == map[] || b.t == map[])
    ensures Formed(Times(a, b, n), n) && Times(a, b, n).err == 0.0
    ensures Under(Times(a, b, n), e, n) == Prod(Under(a, e, n), Under(b, e, n))
  {
    LinMix(b.c, a.t, a.c, b.t, e, n);
    EmptyLin(e, n);
    EmptySpread(n);
    var (la, lb) := (Lin(a.t, e, n), Lin(b.t, e, n));
    assert la == 0.0 || lb == 0.0;
    hide Lin;
    hide Spread;
    assert Prod(a.c + la, b.c + lb) == Prod(a.c, b.c) + (Prod(b.c, la) + Prod(a.c, lb)) + Prod(la, lb);
  }

  lemma {:induction false} LinearForm(f: Fpu, n: Node, env: Forms, ht: HoleTable, next: nat, e: Noise)
    requires WellFormed(n) && LinearGraph(n, env) && Errorless(env, next)
    ensures AffRec(f, n, env, ht, next).Some?
    ensures var (r, m) := AffRec(f, n, env, ht, next).value;
      && m == next && Formed(r, next) && r.err == 0.0 && (n.Const? ==> r.t == map[])
      && Under(r, e, next) == ValueAt(n, env, Inputs(env, e, next))
    decreases n
  {
    hide Plus;
    hide Negative;
    hide Times;
    hide Prod;
    match n
    case Const(_) => EmptyLin(e, next);
    case Var(_, _) =>
    case Oper(op, args) =>
      LinearForm(f, args[0], env, ht, next, e);
      var a := AffRec(f, args[0], env, ht, next).value.0;
      hide Lin;
      if |args| == 1 {
        OneForm(f, args, env, ht, next);
        NegativeUnder(a, e, next);
      } else {
        LinearForm(f, args[1], env, ht, next, e);
        var b := AffRec(f, args[1], env, ht, next).value.0;
        TwoForms(f, args, env, ht, next);
        hide Under;
        if op == Add {
          PlusUnder(a, b, e, next);
        } else if op == Sub {
          NegativeUnder(b, e, next);
          PlusUnder(a, Negative(b), e, next);
        } else {
          TimesUnder(a, b, e, next);
        }
      }
  }

  lemma OneForm(f: Fpu, ns: seq<Node>, env: Forms, ht: HoleTable, next: nat)
    requires AllWellFormed(ns) && |ns| == 1 && AffRec(f, ns[0], env, ht, next).Some?
    ensures var (x, m) := AffRec(f, ns[0], env, ht, next).value; AffAll(f, ns, env, ht, next) == Some(([x], m))
  {
    hide AffRec;
    assert ns[..0] == [];
    var none: seq<Aff> := [];
    assert AffAll(f, ns[..0], env, ht, next) == Some((none, next));
    var (x, m) := AffRec(f, ns[0], env, ht, next).value;
    assert none + [x] == [x] && ns[|ns| - 1] == ns[0];
  }

  lemma TwoForms(f: Fpu, ns: seq<Node>, env: Forms, ht: HoleTable, next: nat)
    requires AllWellFormed(ns) && |ns| == 2
    requires AffRec(f, ns[0], env, ht, next).Some? && AffRec(f, ns[0], env, ht, next).value.1 == next
    requires AffRec(f, ns[1], env, ht, next).Some? && AffRec(f, ns[1], env, ht, next).value.1 == next
    ensures AffAll(f, ns, env, ht, next)
         == Some(([AffRec(f, ns[0], env, ht, next).value.0, AffRec(f, ns[1], env, ht, next).value.0], next))
  {
    hide AffRec;
    assert ns[..1] == [ns[0]];
    OneForm(f, ns[..1], env, ht, next);
    var (x, y) := (AffRec(f, ns[0], env, ht, next).value.0, AffRec(f, ns[1], env, ht, next).value.0);
    assert [x] + [y] == [x, y] && ns[|ns| - 1] == ns[1];
  }

  /** On a linear graph over forms without errors the affine interval is just the set of the graph's
      values, however often an input occurs. */
  lemma LinearExactly(f: Fpu, n: Node, env: Forms, ht: HoleTable, next: nat, v: real)
    requires Exact(f) && WellFormed(n) && LinearGraph(n, env) && Errorless(env, next)
    ensures EvalAff(f, n, env, ht, next).Some?
    ensures Contains(EvalAff(f, n, env, ht, next).value, v) <==>
      exists e: Noise :: Fits(e) && v == ValueAt(n, env, Inputs(env, e, next))
  {
    hide ValueAt;
    hide ToIval;
    var none := (k: nat) => 0.0;
    LinearForm(f, n, env, ht, next, none);
    var r := AffRec(f, n, env, ht, next).value.0;
    ToIvalExactly(f, r, next, v);
    forall e: Noise ensures Stands(r, e, next, v) <==> v == ValueAt(n, env, Inputs(env, e, next)) {
      LinearForm(f, n, env, ht, next, e);
    }
    hide AffRec;
    hide Stands;
    hide Fits;
  }
}
