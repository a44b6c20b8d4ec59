/** Set inversion: a box is paved by bisection into safe, discarded and undecided boxes. */
module Sivia {
  import X = ExtReal
  import opened ExtReal
  import opened Interval
  import opened Ast
  import opened Holes
  import opened Enclosure

  // ----- boxes -----

  /** keys lists the box's variables, each once, in the order of iteration. */
  predicate Lists(keys: seq<string>, b: Box) {
    && (forall s :: s in b ==> s in keys) && (forall s :: s in keys ==> s in b)
    && forall i, j :: 0 <= i < j < |keys| ==> keys[i] != keys[j]
  }

  lemma SameLists(keys: seq<string>, b: Box, b2: Box)
    requires Lists(keys, b) && b2.Keys == b.Keys
    ensures Lists(keys, b2)
  {
  }

  predicate FiniteBox(b: Box) {
    forall s :: s in b ==> Finite(b[s]) && Proper(b[s])
  }

  function MaxWidth(f: Fpu, b: Box, keys: seq<string>, n: nat): XR
    requires n <= |keys| && Lists(keys, b)
  {
    if n == 0 then ZERO else StdMax(MaxWidth(f, b, keys, n - 1), Width(f, b[keys[n - 1]]))
  }

  method BoxMaxWidth(f: Fpu, b: Box, keys: seq<string>) returns (m: XR)
    requires Lists(keys, b)
    ensures m == MaxWidth(f, b, keys, |keys|)
  {
    hide Width;
    m := ZERO;
    for i := 0 to |keys|
      invariant m == MaxWidth(f, b, keys, i)
    {
      m := StdMax(m, Width(f, b[keys[i]]));
    }
  }

  function Lower(a: Ival): Ival { Of(a.lo, Mid(a)) }

  function Upper(a: Ival): Ival { Of(Mid(a), a.hi) }

  /** The first variable of greatest width among the first n, and that width; no name before any. */
  function Choice(f: Fpu, b: Box, keys: seq<string>, n: nat): (r: (string, XR))
    requires n <= |keys| && Lists(keys, b)
    ensures |r.0| == 0 || r.0 in b
  {
    if n == 0 then ("", Fin(-1.0))
    else
      var best, w := Choice(f, b, keys, n - 1), Width(f, b[keys[n - 1]]);
      if Lt(best.1, w) then (keys[n - 1], w) else best
  }

  function Widest(f: Fpu, b: Box, keys: seq<string>): (s: string)
    requires Lists(keys, b)
    ensures |s| == 0 || s in b
  {
    Choice(f, b, keys, |keys|).0
  }

  /** Among widths that are numbers or infinite the choice is a greatest one. */
  lemma {:induction false} ChoiceMeaning(f: Fpu, b: Box, keys: seq<string>, n: nat)
    requires n <= |keys| && Lists(keys, b) && forall i :: 0 <= i < n ==> Le(ZERO, Width(f, b[keys[i]]))
    ensures n > 0 ==>
      var (s, w) := Choice(f, b, keys, n); s in b && w == Width(f, b[s]) && Le(ZERO, w)
    ensures forall i :: 0 <= i < n ==> Le(Width(f, b[keys[i]]), Choice(f, b, keys, n).1)
  {
    hide Width;
    if n > 0 {
      ChoiceMeaning(f, b, keys, n - 1);
      var best, w := Choice(f, b, keys, n - 1), Width(f, b[keys[n - 1]]);
      if Lt(best.1, w) {
        forall i | 0 <= i < n
          ensures Le(Width(f, b[keys[i]]), w)
        {
          if i < n - 1 { LeTrans(Width(f, b[keys[i]]), best.1, w); }
        }
      }
    }
  }

  lemma WidestMeaning(f: Fpu, b: Box, keys: seq<string>)
    requires Lists(keys, b) && |keys| > 0 && Outward(f) && forall s :: s in b ==> Proper(b[s])
    ensures var s := Widest(f, b, keys); s in b && forall t :: t in b ==> Le(Width(f, b[t]), Width(f, b[s]))
  {
    forall i | 0 <= i < |keys|
      ensures Le(ZERO, Width(f, b[keys[i]]))
    {
      WidthNonNegative(f, b[keys[i]]);
    }
    hide Width;
    hide Outward;
    hide Proper;
    ChoiceMeaning(f, b, keys, |keys|);
    hide Choice;
    forall t | t in b
      ensures Le(Width(f, b[t]), Choice(f, b, keys, |keys|).1)
    {
      assert t in keys;
    }
  }

  lemma WidthNonNegative(f: Fpu, a: Ival)
    requires Outward(f) && Proper(a)
    ensures Le(ZERO, Width(f, a))
  {
    if Finite(a) { assert Le(Fin(a.hi.r - a.lo.r), f.slackUp(a.hi.r - a.lo.r)); }
  }

  method FindWidest(f: Fpu, b: Box, keys: seq<string>) returns (widest: string)
    requires Lists(keys, b)
    ensures widest == Widest(f, b, keys)
  {
    hide Width;
    widest := "";
    var maxW := Fin(-1.0);
    for i := 0 to |keys|
      invariant (widest, maxW) == Choice(f, b, keys, i)
    {
      var w := Width(f, b[keys[i]]);
      if Lt(maxW, w) {
        maxW, widest := w, keys[i];
      }
    }
  }

  /** The two halves; the box twice when the widest variable has no name. */
  function Halved(f: Fpu, b: Box, keys: seq<string>): (r: (Box, Box))
    requires Lists(keys, b)
    ensures r.0.Keys == b.Keys && r.1.Keys == b.Keys
  {
    var s := Widest(f, b, keys);
    if |s| == 0 then (b, b) else (b[s := Lower(b[s])], b[s := Upper(b[s])])
  }

  method Bisect(f: Fpu, b: Box, keys: seq<string>) returns (b1: Box, b2: Box)
    requires Lists(keys, b)
    ensures (b1, b2) == Halved(f, b, keys)
  {
    hide Widest;
    hide Lower;
    hide Upper;
    var widest := FindWidest(f, b, keys);
    b1, b2 := b, b;
    if |widest| > 0 {
      b1 := b1[widest := Lower(b[widest])];
      b2 := b2[widest := Upper(b[widest])];
    }
  }

  // ----- what halving keeps -----

  /** Every side has a point. */
  ghost predicate Pointful(b: Box) { exists w: World :: InBox(w, b) }

  function PickPoint(a: Ival): real {
    if a.lo.Fin? then a.lo.r else if a.hi.Fin? then a.hi.r else 0.0
  }

  lemma PointfulSides(b: Box)
    ensures Pointful(b) <==> forall s :: s in b ==> Proper(b[s])
  {
    if forall s :: s in b ==> Proper(b[s]) {
      var w := World(s => if s in b then PickPoint(b[s]) else 0.0, (id, xs, v) => false);
      assert InBox(w, b);
    }
  }

  /** The halves of a side hold its points and no others, unless it is the whole line. */
  lemma HalvesExact(a: Ival, x: real)
    requires a != ENTIRE
    ensures Contains(a, x) <==> Contains(Lower(a), x) || Contains(Upper(a), x)
  {
  }

  /** The whole line has no midpoint, and no point in either half. */
  lemma WholeHalves(x: real)
    ensures !Contains(Lower(ENTIRE), x) && !Contains(Upper(ENTIRE), x)
  {
  }

  lemma NoWholeHalf(a: Ival)
    ensures Lower(a) != ENTIRE && Upper(a) != ENTIRE
  {
  }

  /** Splitting here would lose the box's points. */
  ghost predicate Loses(f: Fpu, b: Box, keys: seq<string>)
    requires Lists(keys, b)
  {
    var s := Widest(f, b, keys);
    Pointful(b) && |s| > 0 && b[s] == ENTIRE
  }

  lemma HalvedHolds(f: Fpu, b: Box, keys: seq<string>, w: World)
    requires Lists(keys, b)
    ensures var (b1, b2) := Halved(f, b, keys);
      && (InBox(w, b1) || InBox(w, b2) ==> InBox(w, b))
      && (!Loses(f, b, keys) && InBox(w, b) ==> InBox(w, b1) || InBox(w, b2))
  {
    var s := Widest(f, b, keys);
    if |s| > 0 {
      if b[s] == ENTIRE { WholeHalves(w.env(s)); } else { HalvesExact(b[s], w.env(s)); }
    }
    hide Widest;
    hide Lower;
    hide Upper;
    hide Contains;
  }

  /** Halving keeps every point of a box exactly when the widest side is not the whole line, or there
      are no points to keep. */
  lemma HalvedCoversExactly(f: Fpu, b: Box, keys: seq<string>)
    requires Lists(keys, b)
    ensures (forall w: World :: InBox(w, b) ==> InBox(w, Halved(f, b, keys).0) || InBox(w, Halved(f, b, keys).1)) <==>
      !Loses(f, b, keys)
  {
    var (b1, b2) := Halved(f, b, keys);
    if Loses(f, b, keys) {
      var w: World :| InBox(w, b);
      WholeHalves(w.env(Widest(f, b, keys)));
    } else {
      forall w: World | InBox(w, b)
        ensures InBox(w, b1) || InBox(w, b2)
      {
        HalvedHolds(f, b, keys, w);
      }
    }
    hide Halved;
    hide InBox;
  }

  // ----- volume -----

  /** The product of the widths, flat sides counting one, as it is computed. */
  function VolumeX(f: Fpu, b: Box, keys: seq<string>, n: nat): XR
    requires n <= |keys| && Lists(keys, b)
  {
    if n == 0 then Fin(1.0) else X.Mul(VolumeX(f, b, keys, n - 1), SideX(f, b[keys[n - 1]]))
  }

  function SideX(f: Fpu, a: Ival): XR {
    if Lt(ZERO, Width(f, a)) then Width(f, a) else Fin(1.0)
  }

  method BoxVolume(f: Fpu, b: Box, keys: seq<string>) returns (v: XR)
    requires Lists(keys, b)
    ensures v == VolumeX(f, b, keys, |keys|)
  {
    hide Width;
    hide X.Mul;
    v := Fin(1.0);
    for i := 0 to |keys|
      invariant v == VolumeX(f, b, keys, i)
    {
      var w := Width(f, b[keys[i]]);
      v := X.Mul(v, if Lt(ZERO, w) then w else Fin(1.0));
    }
  }

  function Factor(a: Ival): real
    requires Finite(a)
  {
    if a.hi.r > a.lo.r then a.hi.r - a.lo.r else 1.0
  }

  function Volume(b: Box, keys: seq<string>, n: nat): real
    requires n <= |keys| && Lists(keys, b) && FiniteBox(b)
  {
    if n == 0 then 1.0 else Prod(Volume(b, keys, n - 1), Factor(b[keys[n - 1]]))
  }

  lemma SideIsFactor(f: Fpu, a: Ival)
    requires Exact(f) && Finite(a) && Proper(a)
    ensures SideX(f, a) == Fin(Factor(a))
  {
  }

  lemma {:induction false} VolumeExact(f: Fpu, b: Box, keys: seq<string>, n: nat)
    requires Exact(f) && n <= |keys| && Lists(keys, b) && FiniteBox(b)
    ensures VolumeX(f, b, keys, n) == Fin(Volume(b, keys, n))
  {
    hide Prod;
    hide SideX;
    hide Factor;
    hide Exact;
    if n > 0 {
      VolumeExact(f, b, keys, n - 1);
      SideIsFactor(f, b[keys[n - 1]]);
    }
  }

  lemma ProdPositive(x: real, y: real)
    requires x > 0.0 && y > 0.0
    ensures Prod(x, y) > 0.0
  {
  }

  lemma {:induction false} VolumePositive(b: Box, keys: seq<string>, n: nat)
    requires n <= |keys| && Lists(keys, b) && FiniteBox(b)
    ensures Volume(b, keys, n) > 0.0
  {
    hide Prod;
    if n > 0 {
      VolumePositive(b, keys, n - 1);
      ProdPositive(Volume(b, keys, n - 1), Factor(b[keys[n - 1]]));
    }
  }

  lemma ProdHalf(x: real, y: real, z: real)
    requires y == z + z
    ensures Prod(x, y) == Prod(x, z) + Prod(x, z)
  {
  }

  lemma ProdSum(x1: real, x2: real, y: real)
    ensures Prod(x1 + x2, y) == Prod(x1, y) + Prod(x2, y)
  {
  }

  lemma HalvesFinite(a: Ival)
    requires Finite(a) && Proper(a)
    ensures Finite(Lower(a)) && Proper(Lower(a)) && Finite(Upper(a)) && Proper(Upper(a))
    ensures Lower(a).lo == a.lo && Lower(a).hi == Upper(a).lo && Upper(a).hi == a.hi
    ensures Lower(a).hi.r - a.lo.r == a.hi.r - Upper(a).lo.r
    ensures a.lo == a.hi ==> Lower(a) == a && Upper(a) == a
  {
  }

  /** A variable of positive width is split into two boxes of half the volume each. */
  lemma {:induction false} VolumeSplits(b: Box, keys: seq<string>, s: string, n: nat)
    requires n <= |keys| && Lists(keys, b) && FiniteBox(b) && s in b && b[s].lo.r < b[s].hi.r
    requires FiniteBox(b[s := Lower(b[s])]) && FiniteBox(b[s := Upper(b[s])])
    requires Lists(keys, b[s := Lower(b[s])]) && Lists(keys, b[s := Upper(b[s])])
    ensures Volume(b[s := Lower(b[s])], keys, n) == Volume(b[s := Upper(b[s])], keys, n)
    ensures s in keys[..n] ==>
      Volume(b, keys, n) == Volume(b[s := Lower(b[s])], keys, n) + Volume(b[s := Upper(b[s])], keys, n)
    ensures s !in keys[..n] ==> Volume(b, keys, n) == Volume(b[s := Lower(b[s])], keys, n)
  {
    hide Prod;
    HalvesFinite(b[s]);
    if n > 0 {
      VolumeSplits(b, keys, s, n - 1);
      var last := keys[n - 1];
      assert keys[..n] == keys[..n - 1] + [last];
      var half := Volume(b[s := Lower(b[s])], keys, n - 1);
      if last == s {
        ProdHalf(half, Factor(b[s]), Factor(Lower(b[s])));
      } else {
        ProdSum(half, half, Factor(b[last]));
      }
    }
  }

  lemma {:induction false} MaxWidthAbove(f: Fpu, b: Box, keys: seq<string>, n: nat)
    requires Exact(f) && n <= |keys| && Lists(keys, b) && FiniteBox(b)
    ensures MaxWidth(f, b, keys, n).Fin? && forall i :: 0 <= i < n ==> Le(Width(f, b[keys[i]]), MaxWidth(f, b, keys, n))
    ensures Lt(ZERO, MaxWidth(f, b, keys, n)) ==> exists i :: 0 <= i < n && Lt(ZERO, Width(f, b[keys[i]]))
  {
    hide Width;
    hide Exact;
    hide Lists;
    if n > 0 {
      assert keys[n - 1] in b by { ListedKey(keys, b, n - 1); }
      WidthExact(f, b[keys[n - 1]]);
      hide FiniteBox;
      MaxWidthAbove(f, b, keys, n - 1);
    }
  }

  lemma ListedKey(keys: seq<string>, b: Box, i: nat)
    requires Lists(keys, b) && i < |keys|
    ensures keys[i] in b
  {
  }

  lemma WidthExact(f: Fpu, a: Ival)
    requires Exact(f) && Finite(a) && Proper(a)
    ensures Width(f, a) == Fin(a.hi.r - a.lo.r)
  {
  }

  /** The widest side is flat exactly when all are. */
  lemma WidestIsWide(f: Fpu, b: Box, keys: seq<string>)
    requires Outward(f) && Exact(f) && Lists(keys, b) && FiniteBox(b) && |Widest(f, b, keys)| > 0
    ensures var s := Widest(f, b, keys); b[s].lo.r < b[s].hi.r <==> Lt(ZERO, MaxWidth(f, b, keys, |keys|))
  {
    var s := Widest(f, b, keys);
    assert s in b && s in keys;
    MaxWidthAbove(f, b, keys, |keys|);
    WidestMeaning(f, b, keys);
    WidthExact(f, b[s]);
    hide Widest;
    hide MaxWidth;
    hide Exact;
    hide Outward;
    hide Width;
    if Lt(ZERO, MaxWidth(f, b, keys, |keys|)) {
      var i :| 0 <= i < |keys| && Lt(ZERO, Width(f, b[keys[i]]));
      assert keys[i] in b;
    } else {
      var i :| 0 <= i < |keys| && keys[i] == s;
    }
  }

  lemma ExactIsOutward(f: Fpu)
    requires Exact(f)
    ensures Outward(f)
  {
  }

  /** Something is halved: the widest variable has a name, and a width. */
  predicate Parts(f: Fpu, b: Box, keys: seq<string>)
    requires Lists(keys, b)
  {
    |Widest(f, b, keys)| > 0 && Lt(ZERO, MaxWidth(f, b, keys, |keys|))
  }

  /** Either the volume is shared out, or the box comes back twice. */
  lemma SharesOrRepeats(f: Fpu, b: Box, keys: seq<string>)
    requires Exact(f) && Lists(keys, b) && FiniteBox(b)
    ensures var (b1, b2) := Halved(f, b, keys);
      && FiniteBox(b1) && FiniteBox(b2)
      && if Parts(f, b, keys)
         then Volume(b, keys, |keys|) == Volume(b1, keys, |keys|) + Volume(b2, keys, |keys|)
         else b1 == b && b2 == b
  {
    ExactIsOutward(f);
    var s := Widest(f, b, keys);
    if |s| > 0 {
      HalvesFinite(b[s]);
      WidestIsWide(f, b, keys);
      hide Widest;
      hide MaxWidth;
      hide Lower;
      hide Upper;
      hide Volume;
      if Parts(f, b, keys) {
        assert s in keys && keys[..|keys|] == keys;
        VolumeSplits(b, keys, s, |keys|);
      } else {
        assert b[s := b[s]] == b;
      }
    }
  }

  /** Two boxes share out the volume of b. */
  predicate Share(keys: seq<string>, b: Box, b1: Box, b2: Box)
    requires Lists(keys, b) && FiniteBox(b)
  {
    && Lists(keys, b1) && Lists(keys, b2) && FiniteBox(b1) && FiniteBox(b2)
    && Volume(b, keys, |keys|) == Volume(b1, keys, |keys|) + Volume(b2, keys, |keys|)
  }

  /** Halving keeps the volume exactly when the widest variable has a name and a width. */
  lemma VolumeSharedExactly(f: Fpu, b: Box, keys: seq<string>)
    requires Exact(f) && Lists(keys, b) && FiniteBox(b)
    ensures Share(keys, b, Halved(f, b, keys).0, Halved(f, b, keys).1) <==>
      |Widest(f, b, keys)| > 0 && Lt(ZERO, MaxWidth(f, b, keys, |keys|))
  {
    var (b1, b2) := Halved(f, b, keys);
    SharesOrRepeats(f, b, keys);
    VolumePositive(b, keys, |keys|);
    SameLists(keys, b, b1);
    SameLists(keys, b, b2);
    hide Halved;
    hide Volume;
    hide Widest;
    hide MaxWidth;
    hide Lists;
  }

  // ----- the paving -----

  predicate AllBoxes(keys: seq<string>, bs: seq<Box>) {
    forall i :: 0 <= i < |bs| ==> Lists(keys, bs[i]) && FiniteBox(bs[i])
  }

  function Total(keys: seq<string>, bs: seq<Box>): real
    requires AllBoxes(keys, bs)
  {
    if |bs| == 0 then 0.0 else Total(keys, bs[..|bs| - 1]) + Volume(bs[|bs| - 1], keys, |keys|)
  }

  lemma TotalSnoc(keys: seq<string>, bs: seq<Box>, b: Box)
    requires AllBoxes(keys, bs) && Lists(keys, b) && FiniteBox(b)
    ensures AllBoxes(keys, bs + [b]) && Total(keys, bs + [b]) == Total(keys, bs) + Volume(b, keys, |keys|)
  {
    hide Lists;
    hide FiniteBox;
    assert (bs + [b])[..|bs|] == bs;
  }

  lemma {:induction false} TotalAppend(keys: seq<string>, bs: seq<Box>, cs: seq<Box>)
    requires AllBoxes(keys, bs) && AllBoxes(keys, cs)
    ensures AllBoxes(keys, bs + cs) && Total(keys, bs + cs) == Total(keys, bs) + Total(keys, cs)
  {
    hide Lists;
    hide FiniteBox;
    if |cs| == 0 {
      assert bs + cs == bs;
    } else {
      assert (bs + cs)[..|bs + cs| - 1] == bs + cs[..|cs| - 1];
      TotalAppend(keys, bs, cs[..|cs| - 1]);
    }
  }

  lemma {:induction false} TotalNonNegative(keys: seq<string>, bs: seq<Box>)
    requires AllBoxes(keys, bs)
    ensures Total(keys, bs) >= 0.0
  {
    if |bs| > 0 {
      TotalNonNegative(keys, bs[..|bs| - 1]);
      VolumePositive(bs[|bs| - 1], keys, |keys|);
    }
  }

  ghost predicate Held(w: World, bs: seq<Box>) {
    exists i :: 0 <= i < |bs| && InBox(w, bs[i])
  }

  lemma HeldSnoc(w: World, bs: seq<Box>, b: Box)
    ensures Held(w, bs + [b]) <==> Held(w, bs) || InBox(w, b)
  {
    hide InBox;
    if Held(w, bs) {
      var i :| 0 <= i < |bs| && InBox(w, bs[i]);
      assert (bs + [b])[i] == bs[i];
    }
    assert (bs + [b])[|bs|] == b;
  }

  lemma HeldAppend(w: World, bs: seq<Box>, cs: seq<Box>)
    ensures Held(w, bs + cs) <==> Held(w, bs) || Held(w, cs)
  {
    hide InBox;
    if Held(w, bs) {
      var i :| 0 <= i < |bs| && InBox(w, bs[i]);
      assert (bs + cs)[i] == bs[i];
    }
    if Held(w, cs) {
      var i :| 0 <= i < |cs| && InBox(w, cs[i]);
      assert (bs + cs)[|bs| + i] == cs[i];
    }
  }

  /** The boxes of a paving: pending, safe, undecided, and discarded as failing. */
  datatype Paving = Paving(work: seq<Box>, safe: seq<Box>, unknown: seq<Box>, gone: seq<Box>)

  ghost predicate Covers(v: Paving, init: Box) {
    forall w: World :: InBox(w, init) ==> Held(w, v.work) || Held(w, v.safe) || Held(w, v.unknown) || Held(w, v.gone)
  }

  predicate Clean(v: Paving, keys: seq<string>) {
    AllBoxes(keys, v.work) && AllBoxes(keys, v.safe) && AllBoxes(keys, v.unknown) && AllBoxes(keys, v.gone)
  }

  function VolumeOf(v: Paving, keys: seq<string>): real
    requires Clean(v, keys)
  {
    Total(keys, v.work) + Total(keys, v.safe) + Total(keys, v.unknown) + Total(keys, v.gone)
  }

  function At(p: Program, b: Box): Program { p.(box := b) }

  predicate Undefined(r: EvalResult) { r.ms.lo.NaN? || r.ms.hi.NaN? }

  predicate ShownSafe(f: Fpu, p: Program, b: Box)
    requires WellFormed(p.root)
  {
    var r := Evaluated(f, At(p, b));
    !Undefined(r) && Lt(ZERO, X.Sub(r.ms.lo, r.residual))
  }

  predicate ShownFailing(f: Fpu, p: Program, b: Box)
    requires WellFormed(p.root)
  {
    var r := Evaluated(f, At(p, b));
    !Undefined(r) && Lt(X.Add(r.ms.hi, r.residual), ZERO)
  }

  predicate AllSafe(f: Fpu, p: Program, bs: seq<Box>)
    requires WellFormed(p.root)
  {
    forall i :: 0 <= i < |bs| ==> ShownSafe(f, p, bs[i])
  }

  predicate AllFailing(f: Fpu, p: Program, bs: seq<Box>)
    requires WellFormed(p.root)
  {
    forall i :: 0 <= i < |bs| ==> ShownFailing(f, p, bs[i])
  }

  datatype Outcome = KeepSafe | Discard | Give | Split(b1: Box, b2: Box)

  /** What becomes of one box. */
  function Judged(f: Fpu, p: Program, keys: seq<string>, epsilon: real, x: Box): Outcome
    requires WellFormed(p.root) && Lists(keys, x)
  {
    if ShownSafe(f, p, x) then KeepSafe
    else if ShownFailing(f, p, x) then Discard
    else if Lt(MaxWidth(f, x, keys, |keys|), Fin(epsilon)) then Give
    else var (b1, b2) := Halved(f, x, keys); Split(b1, b2)
  }

  method Judge(f: Fpu, p: Program, keys: seq<string>, epsilon: real, x: Box) returns (o: Outcome)
    requires WellFormed(p.root) && Lists(keys, x)
    ensures o == Judged(f, p, keys, epsilon, x)
  {
    hide Evaluated;
    hide Halved;
    hide MaxWidth;
    hide Lists;
    var r := Eval(f, At(p, x));
    if !Undefined(r) {
      if Lt(ZERO, X.Sub(r.ms.lo, r.residual)) {
        return KeepSafe;
      }
      if Lt(X.Add(r.ms.hi, r.residual), ZERO) {
        return Discard;
      }
    }
    var m := BoxMaxWidth(f, x, keys);
    if Lt(m, Fin(epsilon)) {
      return Give;
    }
    var b1, b2 := Bisect(f, x, keys);
    o := Split(b1, b2);
  }

  // ----- the worklist -----

  /** The paving after the last pending box met its outcome. */
  function Advanced(v: Paving, o: Outcome): Paving
    requires |v.work| > 0
  {
    var rest, x := v.work[..|v.work| - 1], v.work[|v.work| - 1];
    match o
    case KeepSafe => Paving(rest, v.safe + [x], v.unknown, v.gone)
    case Discard => Paving(rest, v.safe, v.unknown, v.gone + [x])
    case Give => Paving(rest, v.safe, v.unknown + [x], v.gone)
    case Split(b1, b2) => Paving(rest + [b1] + [b2], v.safe, v.unknown, v.gone)
  }

  lemma AdvancedCovers(v: Paving, o: Outcome, init: Box)
    requires |v.work| > 0 && Covers(v, init)
    requires o.Split? ==> forall w: World :: InBox(w, v.work[|v.work| - 1]) ==> InBox(w, o.b1) || InBox(w, o.b2)
    ensures Covers(Advanced(v, o), init)
  {
    var v1 := Advanced(v, o);
    var rest, x := v.work[..|v.work| - 1], v.work[|v.work| - 1];
    assert v.work == rest + [x];
    forall w: World | InBox(w, init)
      ensures Held(w, v1.work) || Held(w, v1.safe) || Held(w, v1.unknown) || Held(w, v1.gone)
    {
      HeldSnoc(w, rest, x);
      HeldSnoc(w, v.safe, x);
      HeldSnoc(w, v.unknown, x);
      HeldSnoc(w, v.gone, x);
      if o.Split? {
        HeldSnoc(w, rest, o.b1);
        HeldSnoc(w, rest + [o.b1], o.b2);
      }
    }
  }

  predicate AllListed(keys: seq<string>, bs: seq<Box>) {
    forall i :: 0 <= i < |bs| ==> Lists(keys, bs[i])
  }

  /** The box to be looked at next. */
  function Last(bs: seq<Box>): Box
    requires |bs| > 0
  {
    bs[|bs| - 1]
  }

  lemma WorkListed(f: Fpu, p: Program, keys: seq<string>, epsilon: real, v: Paving)
    requires WellFormed(p.root) && AllListed(keys, v.work) && |v.work| > 0
    ensures AllListed(keys, Next(f, p, keys, epsilon, v).work)
  {
    var x := Last(v.work);
    var o := Judged(f, p, keys, epsilon, x);
    if o.Split? {
      SameLists(keys, x, o.b1);
      SameLists(keys, x, o.b2);
    }
    hide Lists;
    hide ShownSafe;
    hide ShownFailing;
    hide Halved;
    hide MaxWidth;
  }

  /** One step: the last pending box meets its outcome. */
  function Next(f: Fpu, p: Program, keys: seq<string>, epsilon: real, v: Paving): Paving
    requires WellFormed(p.root) && AllListed(keys, v.work) && |v.work| > 0
  {
    Advanced(v, Judged(f, p, keys, epsilon, Last(v.work)))
  }

  /** At most n steps. */
  function Run(f: Fpu, p: Program, keys: seq<string>, epsilon: real, v: Paving, n: nat): (r: Paving)
    requires WellFormed(p.root) && AllListed(keys, v.work)
    ensures AllListed(keys, r.work)
    decreases n
  {
    if n == 0 || |v.work| == 0 then v
    else
      WorkListed(f, p, keys, epsilon, v);
      Run(f, p, keys, epsilon, Next(f, p, keys, epsilon, v), n - 1)
  }

  function Steps(f: Fpu, p: Program, keys: seq<string>, epsilon: real, v: Paving, n: nat): nat
    requires WellFormed(p.root) && AllListed(keys, v.work)
    decreases n
  {
    if n == 0 || |v.work| == 0 then 0
    else
      WorkListed(f, p, keys, epsilon, v);
      1 + Steps(f, p, keys, epsilon, Next(f, p, keys, epsilon, v), n - 1)
  }

  function Start(init: Box): Paving { Paving([init], [], [], []) }

  // ----- what is pending below waits -----

  function On(base: seq<Box>, v: Paving): Paving { v.(work := base + v.work) }

  lemma AdvancedOn(base: seq<Box>, v: Paving, o: Outcome)
    requires |v.work| > 0
    ensures Last(On(base, v).work) == Last(v.work) && Advanced(On(base, v), o) == On(base, Advanced(v, o))
  {
    var n := |v.work| - 1;
    assert (base + v.work)[..|base + v.work| - 1] == base + v.work[..n];
  }

  lemma NextOn(f: Fpu, p: Program, keys: seq<string>, epsilon: real, base: seq<Box>, v: Paving)
    requires WellFormed(p.root) && AllListed(keys, v.work) && AllListed(keys, base) && |v.work| > 0
    ensures AllListed(keys, On(base, v).work)
    ensures Next(f, p, keys, epsilon, On(base, v)) == On(base, Next(f, p, keys, epsilon, v))
  {
    hide Judged;
    hide Lists;
    AdvancedOn(base, v, Judged(f, p, keys, epsilon, Last(v.work)));
    hide Advanced;
    hide Last;
  }

  /** Boxes pending below are untouched until all that came later, halves of halves included, is settled. */
  lemma {:induction false} WaitsBelow(f: Fpu, p: Program, keys: seq<string>, epsilon: real, base: seq<Box>, v: Paving,
                                      n: nat)
    requires WellFormed(p.root) && AllListed(keys, v.work) && AllListed(keys, base)
    requires Steps(f, p, keys, epsilon, v, n) == n
    ensures AllListed(keys, On(base, v).work)
    ensures Run(f, p, keys, epsilon, On(base, v), n) == On(base, Run(f, p, keys, epsilon, v, n))
    decreases n
  {
    hide Next;
    hide Lists;
    if n > 0 {
      NextOn(f, p, keys, epsilon, base, v);
      WorkListed(f, p, keys, epsilon, v);
      WaitsBelow(f, p, keys, epsilon, base, Next(f, p, keys, epsilon, v), n - 1);
    }
  }

  /** Of two halves the upper one is settled first, with all its parts; then comes the lower one. */
  lemma UpperFirst(f: Fpu, p: Program, keys: seq<string>, epsilon: real, x: Box, n: nat)
    requires WellFormed(p.root) && Lists(keys, x) && Judged(f, p, keys, epsilon, x).Split?
    ensures var (lower, upper) := Halved(f, x, keys);
      Lists(keys, lower) && Lists(keys, upper) &&
      (Steps(f, p, keys, epsilon, Start(upper), n) == n ==>
         Run(f, p, keys, epsilon, Start(x), n + 1) == On([lower], Run(f, p, keys, epsilon, Start(upper), n)))
  {
    JudgedHalves(f, p, keys, epsilon, x);
    var (lower, upper) := Halved(f, x, keys);
    hide Lists;
    hide Judged;
    hide Halved;
    WorkListed(f, p, keys, epsilon, Start(x));
    assert Start(x).work[..0] == [] && [] + [lower] + [upper] == [lower] + [upper];
    assert Next(f, p, keys, epsilon, Start(x)) == On([lower], Start(upper));
    hide Next;
    if Steps(f, p, keys, epsilon, Start(upper), n) == n { WaitsBelow(f, p, keys, epsilon, [lower], Start(upper), n); }
  }

  // ----- the run covers the box -----

  predicate NeverWhole(b: Box) { forall s :: s in b ==> b[s] != ENTIRE }

  /** Nothing will be lost by splitting, now or later. */
  ghost predicate Firm(f: Fpu, b: Box, keys: seq<string>)
    requires Lists(keys, b)
  {
    NeverWhole(b) || (Exact(f) && !Loses(f, b, keys))
  }

  lemma FirmKeeps(f: Fpu, b: Box, keys: seq<string>)
    requires Lists(keys, b) && Firm(f, b, keys)
    ensures !Loses(f, b, keys)
  {
    hide Widest;
  }

  /** Half of a half-line is itself, or has no points. */
  lemma HalfLineHalves(f: Fpu, a: Ival)
    requires Exact(f) && Proper(a) && a != ENTIRE && Width(f, a) == PosInf
    ensures Lower(a) == a || !Proper(Lower(a))
    ensures Upper(a) == a || !Proper(Upper(a))
  {
  }

  lemma WholeWidth(f: Fpu)
    ensures Width(f, ENTIRE) == PosInf
  {
  }

  /** A child with points has a parent with points. */
  lemma ChildSides(b: Box, s: string, half: Ival)
    requires s in b && (half == Lower(b[s]) || half == Upper(b[s])) && Pointful(b[s := half])
    ensures Proper(half) && forall r :: r in b ==> Proper(b[r])
  {
    var b1 := b[s := half];
    PointfulSides(b1);
    assert b1[s] == half;
    ProperParent(b[s], half);
    hide Pointful;
    hide Lower;
    hide Upper;
    hide Proper;
    forall r | r in b
      ensures Proper(b[r])
    {
      if r != s { assert b1[r] == b[r]; }
    }
  }

  lemma HalfNotWhole(b: Box, s: string, half: Ival, t: string)
    requires s in b && (half == Lower(b[s]) || half == Upper(b[s])) && t in b && b[s := half][t] == ENTIRE
    ensures t != s && b[t] == ENTIRE
  {
    NoWholeHalf(b[s]);
    hide Lower;
    hide Upper;
  }

  /** A child that loses points has a parent that does. */
  lemma LosesBefore(f: Fpu, b: Box, keys: seq<string>, half: Ival, b1: Box)
    requires Exact(f) && Lists(keys, b) && |Widest(f, b, keys)| > 0
    requires var s := Widest(f, b, keys); (half == Lower(b[s]) || half == Upper(b[s])) && b1 == b[s := half]
    requires Lists(keys, b1) && Loses(f, b1, keys)
    ensures Loses(f, b, keys)
  {
    var s, t := Widest(f, b, keys), Widest(f, b1, keys);
    hide Widest;
    hide Pointful;
    hide Lower;
    hide Upper;
    hide Exact;
    hide Proper;
    hide Width;
    hide Lists;
    ExactIsOutward(f);
    ChildSides(b, s, half);
    HalfNotWhole(b, s, half, t);
    PointfulSides(b);
    WholeWidth(f);
    WidestMeaning(f, b, keys);
    if b[s] != ENTIRE {
      TopWidth(Width(f, b[t]), Width(f, b[s]));
      HalfLineHalves(f, b[s]);
      assert b[s := b[s]] == b;
    }
  }

  lemma TopWidth(x: XR, y: XR)
    requires x == PosInf && Le(x, y)
    ensures y == PosInf
  {
  }

  lemma ProperParent(a: Ival, half: Ival)
    requires (half == Lower(a) || half == Upper(a)) && Proper(half)
    ensures Proper(a)
  {
  }

  lemma FirmHalves(f: Fpu, b: Box, keys: seq<string>)
    requires Lists(keys, b) && Firm(f, b, keys)
    ensures var (b1, b2) := Halved(f, b, keys);
      Lists(keys, b1) && Lists(keys, b2) && Firm(f, b1, keys) && Firm(f, b2, keys)
  {
    var s := Widest(f, b, keys);
    var (b1, b2) := Halved(f, b, keys);
    SameLists(keys, b, b1);
    SameLists(keys, b, b2);
    if |s| > 0 {
      NoWholeHalf(b[s]);
      if !NeverWhole(b) {
        if Loses(f, b1, keys) { LosesBefore(f, b, keys, Lower(b[s]), b1); }
        if Loses(f, b2, keys) { LosesBefore(f, b, keys, Upper(b[s]), b2); }
      }
    }
    hide Loses;
    hide Widest;
    hide Exact;
    hide Lists;
    hide Lower;
    hide Upper;
  }

  ghost predicate AllFirm(f: Fpu, keys: seq<string>, bs: seq<Box>)
    requires AllListed(keys, bs)
  {
    forall i :: 0 <= i < |bs| ==> Firm(f, bs[i], keys)
  }

  lemma NextFirm(f: Fpu, p: Program, keys: seq<string>, epsilon: real, v: Paving, init: Box)
    requires WellFormed(p.root) && AllListed(keys, v.work) && |v.work| > 0
    requires AllFirm(f, keys, v.work) && Covers(v, init)
    ensures var v1 := Next(f, p, keys, epsilon, v);
      AllListed(keys, v1.work) && AllFirm(f, keys, v1.work) && Covers(v1, init)
  {
    WorkListed(f, p, keys, epsilon, v);
    var x := Last(v.work);
    var o := Judged(f, p, keys, epsilon, x);
    FirmKeeps(f, x, keys);
    FirmHalves(f, x, keys);
    hide Firm;
    hide InBox;
    hide ShownSafe;
    hide ShownFailing;
    hide MaxWidth;
    hide Lists;
    if o.Split? {
      forall w: World | InBox(w, x)
        ensures InBox(w, o.b1) || InBox(w, o.b2)
      {
        HalvedHolds(f, x, keys, w);
      }
    }
    hide Loses;
    hide Halved;
    hide Covers;
    AdvancedCovers(v, o, init);
  }

  lemma {:induction false} RunCovers(f: Fpu, p: Program, keys: seq<string>, epsilon: real, v: Paving, n: nat, init: Box)
    requires WellFormed(p.root) && AllListed(keys, v.work) && AllFirm(f, keys, v.work) && Covers(v, init)
    ensures Covers(Run(f, p, keys, epsilon, v, n), init)
    decreases n
  {
    hide Covers;
    hide AllFirm;
    hide AllListed;
    hide Next;
    if n > 0 && |v.work| > 0 {
      WorkListed(f, p, keys, epsilon, v);
      NextFirm(f, p, keys, epsilon, v, init);
      RunCovers(f, p, keys, epsilon, Next(f, p, keys, epsilon, v), n - 1, init);
    }
  }

  /** No box of the paving has w. */
  ghost predicate Without(w: World, v: Paving) {
    !Held(w, v.work) && !Held(w, v.safe) && !Held(w, v.unknown) && !Held(w, v.gone)
  }

  lemma NextWithout(f: Fpu, p: Program, keys: seq<string>, epsilon: real, v: Paving, w: World)
    requires WellFormed(p.root) && AllListed(keys, v.work) && |v.work| > 0 && Without(w, v)
    ensures Without(w, Next(f, p, keys, epsilon, v))
  {
    var x := Last(v.work);
    var rest := v.work[..|v.work| - 1];
    var o := Judged(f, p, keys, epsilon, x);
    assert v.work == rest + [x];
    HalvedHolds(f, x, keys, w);
    HeldSnoc(w, rest, x);
    HeldSnoc(w, v.safe, x);
    HeldSnoc(w, v.unknown, x);
    HeldSnoc(w, v.gone, x);
    if o.Split? {
      HeldSnoc(w, rest, o.b1);
      HeldSnoc(w, rest + [o.b1], o.b2);
    }
    hide Held;
    hide InBox;
    hide Halved;
    hide Lists;
    hide ShownSafe;
    hide ShownFailing;
    hide MaxWidth;
  }

  lemma {:induction false} RunWithout(f: Fpu, p: Program, keys: seq<string>, epsilon: real, v: Paving, n: nat, w: World)
    requires WellFormed(p.root) && AllListed(keys, v.work) && Without(w, v)
    ensures Without(w, Run(f, p, keys, epsilon, v, n))
    decreases n
  {
    hide Without;
    hide AllListed;
    hide Next;
    if n > 0 && |v.work| > 0 {
      WorkListed(f, p, keys, epsilon, v);
      NextWithout(f, p, keys, epsilon, v, w);
      RunWithout(f, p, keys, epsilon, Next(f, p, keys, epsilon, v), n - 1, w);
    }
  }

  /** The first step splits a whole line while there are points to lose. */
  ghost predicate Squanders(f: Fpu, p: Program, keys: seq<string>, epsilon: real, init: Box, n: nat)
    requires WellFormed(p.root) && Lists(keys, init)
  {
    n > 0 && Loses(f, init, keys) && Judged(f, p, keys, epsilon, init).Split?
  }

  lemma StartCovers(init: Box)
    ensures Covers(Start(init), init)
  {
    hide InBox;
    forall w: World | InBox(w, init)
      ensures Held(w, Start(init).work)
    {
      assert Start(init).work[0] == init;
    }
  }

  lemma SplitStart(f: Fpu, p: Program, keys: seq<string>, epsilon: real, init: Box)
    requires WellFormed(p.root) && Lists(keys, init) && Judged(f, p, keys, epsilon, init).Split?
    ensures AllListed(keys, Start(init).work)
    ensures var (b1, b2) := Halved(f, init, keys);
      Next(f, p, keys, epsilon, Start(init)) == Paving([b1, b2], [], [], [])
  {
    hide Lists;
    hide Halved;
    hide ShownSafe;
    hide ShownFailing;
    hide MaxWidth;
    assert [init][..0] == [];
  }

  lemma HalvesLose(f: Fpu, b: Box, keys: seq<string>, w: World)
    requires Lists(keys, b) && Loses(f, b, keys)
    ensures !InBox(w, Halved(f, b, keys).0) && !InBox(w, Halved(f, b, keys).1)
  {
    WholeHalves(w.env(Widest(f, b, keys)));
    hide Widest;
    hide Lower;
    hide Upper;
    hide Contains;
  }

  lemma WithoutTwo(w: World, b1: Box, b2: Box)
    requires !InBox(w, b1) && !InBox(w, b2)
    ensures Without(w, Paving([b1, b2], [], [], []))
  {
    hide InBox;
  }

  lemma WithoutUncovers(w: World, v: Paving, init: Box)
    requires InBox(w, init) && Without(w, v)
    ensures !Covers(v, init)
  {
    hide InBox;
    hide Held;
  }

  lemma SquanderedPoint(f: Fpu, p: Program, keys: seq<string>, epsilon: real, init: Box, n: nat, w: World, b1: Box,
                        b2: Box)
    requires WellFormed(p.root) && Lists(keys, init) && Judged(f, p, keys, epsilon, init).Split? && n > 0
    requires InBox(w, init) && (b1, b2) == Halved(f, init, keys) && !InBox(w, b1) && !InBox(w, b2)
    ensures AllListed(keys, Start(init).work) && !Covers(Run(f, p, keys, epsilon, Start(init), n), init)
  {
    hide *;
    SplitStart(f, p, keys, epsilon, init);
    WithoutTwo(w, b1, b2);
    StartOne(init);
    RunIs(f, p, keys, epsilon, Start(init), n);
    RunWithout(f, p, keys, epsilon, Paving([b1, b2], [], [], []), n - 1, w);
    WithoutUncovers(w, Run(f, p, keys, epsilon, Start(init), n), init);
  }

  lemma SquanderedRun(f: Fpu, p: Program, keys: seq<string>, epsilon: real, init: Box, n: nat)
    requires WellFormed(p.root) && Lists(keys, init) && Squanders(f, p, keys, epsilon, init, n)
    ensures AllListed(keys, Start(init).work) && !Covers(Run(f, p, keys, epsilon, Start(init), n), init)
  {
    hide InBox;
    hide Judged;
    hide Widest;
    hide Halved;
    hide Covers;
    hide Run;
    hide Start;
    hide Lists;
    var w: World :| InBox(w, init);
    HalvesLose(f, init, keys, w);
    SquanderedPoint(f, p, keys, epsilon, init, n, w, Halved(f, init, keys).0, Halved(f, init, keys).1);
  }

  lemma StartOne(init: Box)
    ensures |Start(init).work| == 1
  {
  }

  /** Without rounding a run covers the box exactly when it does not begin by splitting a whole line;
      with rounding it does when no side is a whole line. */
  lemma CoversExactly(f: Fpu, p: Program, keys: seq<string>, epsilon: real, init: Box, n: nat)
    requires WellFormed(p.root) && Lists(keys, init)
    ensures NeverWhole(init) ==> Covers(Run(f, p, keys, epsilon, Start(init), n), init)
    ensures Exact(f) ==>
      (Covers(Run(f, p, keys, epsilon, Start(init), n), init) <==> !Squanders(f, p, keys, epsilon, init, n))
  {
    StartCovers(init);
    if Squanders(f, p, keys, epsilon, init, n) {
      SquanderedRun(f, p, keys, epsilon, init, n);
      hide Widest;
    } else if n == 0 {
    } else if Firm(f, init, keys) {
      RunCovers(f, p, keys, epsilon, Start(init), n, init);
    } else {
      var o := Judged(f, p, keys, epsilon, init);
      hide Judged;
      hide Loses;
      hide Covers;
      if Exact(f) && !o.Split? {
        WorkListed(f, p, keys, epsilon, Start(init));
        AdvancedCovers(Start(init), o, init);
        assert Next(f, p, keys, epsilon, Start(init)).work == [];
      }
    }
  }

  // ----- the run's volume -----

  /** The pending box is split into itself, twice. */
  predicate Repeated(f: Fpu, p: Program, keys: seq<string>, epsilon: real, x: Box)
    requires WellFormed(p.root) && Lists(keys, x)
  {
    Judged(f, p, keys, epsilon, x).Split? && !Parts(f, x, keys)
  }

  /** The boxes that came back twice, in order. */
  function Repeats(f: Fpu, p: Program, keys: seq<string>, epsilon: real, v: Paving, n: nat): seq<Box>
    requires WellFormed(p.root) && AllListed(keys, v.work)
    decreases n
  {
    if n == 0 || |v.work| == 0 then []
    else
      WorkListed(f, p, keys, epsilon, v);
      var x := Last(v.work);
      (if Repeated(f, p, keys, epsilon, x) then [x] else [])
        + Repeats(f, p, keys, epsilon, Next(f, p, keys, epsilon, v), n - 1)
  }

  lemma CleanListed(v: Paving, keys: seq<string>)
    requires Clean(v, keys)
    ensures AllListed(keys, v.work) && AllListed(keys, v.safe) && AllListed(keys, v.unknown) && AllListed(keys, v.gone)
  {
  }

  /** Setting a box aside moves its volume. */
  lemma MovedVolume(v: Paving, o: Outcome, keys: seq<string>)
    requires Clean(v, keys) && |v.work| > 0 && !o.Split?
    ensures Clean(Advanced(v, o), keys) && VolumeOf(Advanced(v, o), keys) == VolumeOf(v, keys)
  {
    var rest, x := v.work[..|v.work| - 1], Last(v.work);
    assert v.work == rest + [x];
    hide Lists;
    hide FiniteBox;
    hide Volume;
    TotalSnoc(keys, rest, x);
    TotalSnoc(keys, v.safe, x);
    TotalSnoc(keys, v.unknown, x);
    TotalSnoc(keys, v.gone, x);
    hide Total;
  }

  lemma SplitVolume(v: Paving, b1: Box, b2: Box, keys: seq<string>)
    requires Clean(v, keys) && |v.work| > 0 && Lists(keys, b1) && Lists(keys, b2) && FiniteBox(b1) && FiniteBox(b2)
    ensures Lists(keys, Last(v.work)) && FiniteBox(Last(v.work))
    ensures var v1 := Advanced(v, Split(b1, b2));
      && Clean(v1, keys)
      && VolumeOf(v1, keys) + Volume(Last(v.work), keys, |keys|)
      == VolumeOf(v, keys) + Volume(b1, keys, |keys|) + Volume(b2, keys, |keys|)
  {
    var rest, x := v.work[..|v.work| - 1], Last(v.work);
    assert v.work == rest + [x];
    hide Lists;
    hide FiniteBox;
    hide Volume;
    TotalSnoc(keys, rest, x);
    TotalSnoc(keys, rest, b1);
    TotalSnoc(keys, rest + [b1], b2);
    hide Total;
  }

  lemma JudgedHalves(f: Fpu, p: Program, keys: seq<string>, epsilon: real, x: Box)
    requires WellFormed(p.root) && Lists(keys, x)
    ensures var o := Judged(f, p, keys, epsilon, x);
      o.Split? ==> (o.b1, o.b2) == Halved(f, x, keys) && Lists(keys, o.b1) && Lists(keys, o.b2)
  {
    var o := Judged(f, p, keys, epsilon, x);
    if o.Split? {
      SameLists(keys, x, o.b1);
      SameLists(keys, x, o.b2);
    }
    hide Lists;
    hide ShownSafe;
    hide ShownFailing;
    hide MaxWidth;
  }

  /** Every outcome moves a box's volume; a repeated box adds its own. */
  lemma NextVolume(f: Fpu, p: Program, keys: seq<string>, epsilon: real, v: Paving)
    requires WellFormed(p.root) && Exact(f) && Clean(v, keys) && |v.work| > 0
    ensures AllListed(keys, v.work) && Lists(keys, Last(v.work)) && FiniteBox(Last(v.work))
    ensures Clean(Next(f, p, keys, epsilon, v), keys)
    ensures VolumeOf(Next(f, p, keys, epsilon, v), keys) == VolumeOf(v, keys) +
      (if Repeated(f, p, keys, epsilon, Last(v.work)) then Volume(Last(v.work), keys, |keys|) else 0.0)
  {
    hide *;
    CleanListed(v, keys);
    LastFine(v, keys);
    var x := Last(v.work);
    var o := Judged(f, p, keys, epsilon, x);
    JudgedHalves(f, p, keys, epsilon, x);
    NextIs(f, p, keys, epsilon, v);
    RepeatedIs(f, p, keys, epsilon, x);
    if o.Split? {
      SharesOrRepeats(f, x, keys);
      SplitVolume(v, o.b1, o.b2, keys);
    } else {
      MovedVolume(v, o, keys);
    }
  }

  lemma NextIs(f: Fpu, p: Program, keys: seq<string>, epsilon: real, v: Paving)
    requires WellFormed(p.root) && AllListed(keys, v.work) && |v.work| > 0
    ensures Lists(keys, Last(v.work))
    ensures Next(f, p, keys, epsilon, v) == Advanced(v, Judged(f, p, keys, epsilon, Last(v.work)))
  {
    hide Advanced;
    hide Judged;
    hide Lists;
  }

  lemma RepeatedIs(f: Fpu, p: Program, keys: seq<string>, epsilon: real, x: Box)
    requires WellFormed(p.root) && Lists(keys, x)
    ensures Repeated(f, p, keys, epsilon, x) <==> Judged(f, p, keys, epsilon, x).Split? && !Parts(f, x, keys)
  {
    hide Judged;
    hide Parts;
  }

  lemma TotalFront(keys: seq<string>, x: Box, bs: seq<Box>)
    requires Lists(keys, x) && FiniteBox(x) && AllBoxes(keys, bs)
    ensures AllBoxes(keys, [x] + bs) && Total(keys, [x] + bs) == Volume(x, keys, |keys|) + Total(keys, bs)
  {
    assert AllBoxes(keys, [x]);
    TotalAppend(keys, [x], bs);
    assert [x][..0] == [];
  }

  lemma {:induction false} RunVolume(f: Fpu, p: Program, keys: seq<string>, epsilon: real, v: Paving, n: nat)
    requires WellFormed(p.root) && Exact(f) && Clean(v, keys)
    ensures AllListed(keys, v.work)
    ensures Clean(Run(f, p, keys, epsilon, v, n), keys) && AllBoxes(keys, Repeats(f, p, keys, epsilon, v, n))
    ensures VolumeOf(Run(f, p, keys, epsilon, v, n), keys)
         == VolumeOf(v, keys) + Total(keys, Repeats(f, p, keys, epsilon, v, n))
    decreases n
  {
    hide *;
    CleanListed(v, keys);
    RunIs(f, p, keys, epsilon, v, n);
    if n > 0 && |v.work| > 0 {
      var v1 := Next(f, p, keys, epsilon, v);
      NextVolume(f, p, keys, epsilon, v);
      RunVolume(f, p, keys, epsilon, v1, n - 1);
      TotalFront(keys, Last(v.work), Repeats(f, p, keys, epsilon, v1, n - 1));
    } else {
      NothingTotal(keys);
    }
  }

  lemma NothingTotal(keys: seq<string>)
    ensures AllBoxes(keys, []) && Total(keys, []) == 0.0
  {
  }

  lemma RunIs(f: Fpu, p: Program, keys: seq<string>, epsilon: real, v: Paving, n: nat)
    requires WellFormed(p.root) && AllListed(keys, v.work)
    ensures n == 0 || |v.work| == 0 ==> Run(f, p, keys, epsilon, v, n) == v && Repeats(f, p, keys, epsilon, v, n) == []
    ensures n > 0 && |v.work| > 0 ==>
      && Lists(keys, Last(v.work))
      && var v1 := Next(f, p, keys, epsilon, v);
         && AllListed(keys, v1.work) && Run(f, p, keys, epsilon, v, n) == Run(f, p, keys, epsilon, v1, n - 1)
         && var more := Repeats(f, p, keys, epsilon, v1, n - 1);
            Repeats(f, p, keys, epsilon, v, n) == if Repeated(f, p, keys, epsilon, Last(v.work))
              then [Last(v.work)] + more else more
  {
    hide Next;
    hide Repeated;
    hide Lists;
    if n > 0 && |v.work| > 0 {
      WorkListed(f, p, keys, epsilon, v);
      var more := Repeats(f, p, keys, epsilon, Next(f, p, keys, epsilon, v), n - 1);
      assert [] + more == more;
    }
  }

  lemma LastFine(v: Paving, keys: seq<string>)
    requires Clean(v, keys) && |v.work| > 0
    ensures Lists(keys, Last(v.work)) && FiniteBox(Last(v.work))
  {
  }

  lemma {:induction false} TotalPositive(keys: seq<string>, bs: seq<Box>)
    requires AllBoxes(keys, bs)
    ensures Total(keys, bs) >= 0.0 && (Total(keys, bs) == 0.0 <==> |bs| == 0)
  {
    hide Volume;
    if |bs| > 0 {
      TotalPositive(keys, bs[..|bs| - 1]);
      VolumePositive(bs[|bs| - 1], keys, |keys|);
    }
  }

  lemma StartClean(init: Box, keys: seq<string>)
    requires Lists(keys, init) && FiniteBox(init)
    ensures Clean(Start(init), keys) && VolumeOf(Start(init), keys) == Volume(init, keys, |keys|)
  {
    hide Volume;
    hide Lists;
    hide FiniteBox;
    assert [init][..0] == [];
  }

  /** The volumes of the paving add up to the box's exactly when no box was split into itself. */
  lemma VolumeExactly(f: Fpu, p: Program, keys: seq<string>, epsilon: real, init: Box, n: nat)
    requires WellFormed(p.root) && Exact(f) && Lists(keys, init) && FiniteBox(init)
    ensures var r := Run(f, p, keys, epsilon, Start(init), n);
      && Clean(r, keys)
      && (VolumeOf(r, keys) == Volume(init, keys, |keys|) <==> |Repeats(f, p, keys, epsilon, Start(init), n)| == 0)
  {
    StartClean(init, keys);
    RunVolume(f, p, keys, epsilon, Start(init), n);
    TotalPositive(keys, Repeats(f, p, keys, epsilon, Start(init), n));
    hide Clean;
    hide Volume;
    hide VolumeOf;
    hide Total;
    hide Exact;
  }

  // ----- when no box is repeated -----

  /** A variable without a name keeps its range, which is too narrow to be split. */
  predicate NarrowNameless(f: Fpu, b: Box, epsilon: real) {
    epsilon > 0.0 && ("" in b ==> Lt(Width(f, b[""]), Fin(epsilon)))
  }

  lemma {:induction false} MaxWidthBelow(f: Fpu, b: Box, keys: seq<string>, n: nat, bound: XR)
    requires n <= |keys| && Lists(keys, b) && Lt(ZERO, bound)
    requires forall i :: 0 <= i < n ==> Lt(Width(f, b[keys[i]]), bound)
    ensures Lt(MaxWidth(f, b, keys, n), bound)
  {
    hide Width;
    if n > 0 { MaxWidthBelow(f, b, keys, n - 1, bound); }
  }

  lemma LeLt(x: XR, y: XR, z: XR)
    requires Le(x, y) && Lt(y, z)
    ensures Lt(x, z)
  {
  }

  lemma NarrowParts(f: Fpu, b: Box, keys: seq<string>, epsilon: real)
    requires Exact(f) && Lists(keys, b) && FiniteBox(b) && NarrowNameless(f, b, epsilon)
    requires !Lt(MaxWidth(f, b, keys, |keys|), Fin(epsilon))
    ensures Parts(f, b, keys)
  {
    ExactIsOutward(f);
    MaxWidthAbove(f, b, keys, |keys|);
    if |keys| > 0 {
      WidestMeaning(f, b, keys);
      if |Widest(f, b, keys)| == 0 {
        assert Widest(f, b, keys) == "";
        forall i | 0 <= i < |keys|
          ensures Lt(Width(f, b[keys[i]]), Fin(epsilon))
        {
          LeLt(Width(f, b[keys[i]]), Width(f, b[""]), Fin(epsilon));
        }
        MaxWidthBelow(f, b, keys, |keys|, Fin(epsilon));
      }
    }
    hide Width;
    hide Widest;
    hide Exact;
    hide Outward;
    hide FiniteBox;
  }

  predicate AllNarrow(f: Fpu, bs: seq<Box>, epsilon: real) {
    forall i :: 0 <= i < |bs| ==> NarrowNameless(f, bs[i], epsilon)
  }

  lemma NarrowHalves(f: Fpu, b: Box, keys: seq<string>, epsilon: real)
    requires Lists(keys, b) && NarrowNameless(f, b, epsilon)
    ensures var (b1, b2) := Halved(f, b, keys); NarrowNameless(f, b1, epsilon) && NarrowNameless(f, b2, epsilon)
  {
    hide Widest;
    hide Width;
    hide Lower;
    hide Upper;
  }

  lemma AdvancedNarrow(f: Fpu, v: Paving, o: Outcome, epsilon: real)
    requires AllNarrow(f, v.work, epsilon) && |v.work| > 0
    requires o.Split? ==> NarrowNameless(f, o.b1, epsilon) && NarrowNameless(f, o.b2, epsilon)
    ensures NarrowNameless(f, Last(v.work), epsilon) && AllNarrow(f, Advanced(v, o).work, epsilon)
  {
    hide NarrowNameless;
  }

  lemma JudgedWide(f: Fpu, p: Program, keys: seq<string>, epsilon: real, x: Box)
    requires WellFormed(p.root) && Lists(keys, x)
    ensures Judged(f, p, keys, epsilon, x).Split? ==> !Lt(MaxWidth(f, x, keys, |keys|), Fin(epsilon))
  {
    hide ShownSafe;
    hide ShownFailing;
    hide MaxWidth;
  }

  lemma NextNarrow(f: Fpu, p: Program, keys: seq<string>, epsilon: real, v: Paving)
    requires WellFormed(p.root) && Exact(f) && Clean(v, keys) && AllNarrow(f, v.work, epsilon) && |v.work| > 0
    ensures AllListed(keys, v.work) && Lists(keys, Last(v.work)) && !Repeated(f, p, keys, epsilon, Last(v.work))
    ensures AllNarrow(f, Next(f, p, keys, epsilon, v).work, epsilon)
  {
    hide *;
    CleanListed(v, keys);
    LastFine(v, keys);
    var x := Last(v.work);
    var o := Judged(f, p, keys, epsilon, x);
    AdvancedNarrow(f, v, Discard, epsilon);
    NarrowHalves(f, x, keys, epsilon);
    JudgedHalves(f, p, keys, epsilon, x);
    JudgedWide(f, p, keys, epsilon, x);
    NextIs(f, p, keys, epsilon, v);
    RepeatedIs(f, p, keys, epsilon, x);
    if o.Split? { NarrowParts(f, x, keys, epsilon); }
    AdvancedNarrow(f, v, o, epsilon);
  }

  /** Nothing is repeated while what has no name is narrow. */
  lemma {:induction false} NoRepeats(f: Fpu, p: Program, keys: seq<string>, epsilon: real, v: Paving, n: nat)
    requires WellFormed(p.root) && Exact(f) && Clean(v, keys) && AllNarrow(f, v.work, epsilon)
    ensures AllListed(keys, v.work) && |Repeats(f, p, keys, epsilon, v, n)| == 0
    decreases n
  {
    hide *;
    CleanListed(v, keys);
    RunIs(f, p, keys, epsilon, v, n);
    if n > 0 && |v.work| > 0 {
      NextVolume(f, p, keys, epsilon, v);
      NextNarrow(f, p, keys, epsilon, v);
      NoRepeats(f, p, keys, epsilon, Next(f, p, keys, epsilon, v), n - 1);
    }
  }

  // ----- the safe fraction -----

  /** What the boxes that are not repeated amount to. */
  function Live(f: Fpu, p: Program, keys: seq<string>, epsilon: real, bs: seq<Box>): real
    requires WellFormed(p.root) && AllBoxes(keys, bs)
  {
    if |bs| == 0 then 0.0
    else
      var x := bs[|bs| - 1];
      Live(f, p, keys, epsilon, bs[..|bs| - 1])
      + (if Repeated(f, p, keys, epsilon, x) then 0.0 else Volume(x, keys, |keys|))
  }

  lemma LiveSnoc(f: Fpu, p: Program, keys: seq<string>, epsilon: real, bs: seq<Box>, b: Box)
    requires WellFormed(p.root) && AllBoxes(keys, bs) && Lists(keys, b) && FiniteBox(b)
    ensures AllBoxes(keys, bs + [b])
    ensures Live(f, p, keys, epsilon, bs + [b])
         == Live(f, p, keys, epsilon, bs) + (if Repeated(f, p, keys, epsilon, b) then 0.0 else Volume(b, keys, |keys|))
  {
    hide Lists;
    hide FiniteBox;
    hide Repeated;
    assert (bs + [b])[..|bs|] == bs;
  }

  lemma {:induction false} LiveBelow(f: Fpu, p: Program, keys: seq<string>, epsilon: real, bs: seq<Box>)
    requires WellFormed(p.root) && AllBoxes(keys, bs)
    ensures 0.0 <= Live(f, p, keys, epsilon, bs) <= Total(keys, bs)
  {
    hide Volume;
    hide Repeated;
    if |bs| > 0 {
      LiveBelow(f, p, keys, epsilon, bs[..|bs| - 1]);
      VolumePositive(bs[|bs| - 1], keys, |keys|);
    }
  }

  function Settled(f: Fpu, p: Program, keys: seq<string>, epsilon: real, v: Paving): real
    requires WellFormed(p.root) && Clean(v, keys)
  {
    Total(keys, v.safe) + Total(keys, v.unknown) + Total(keys, v.gone) + Live(f, p, keys, epsilon, v.work)
  }

  lemma MovedSettled(f: Fpu, p: Program, keys: seq<string>, epsilon: real, v: Paving, o: Outcome)
    requires WellFormed(p.root) && Clean(v, keys) && |v.work| > 0 && !o.Split?
    requires Lists(keys, Last(v.work)) && !Repeated(f, p, keys, epsilon, Last(v.work))
    ensures Clean(Advanced(v, o), keys)
    ensures Settled(f, p, keys, epsilon, Advanced(v, o)) == Settled(f, p, keys, epsilon, v)
  {
    var rest, x := v.work[..|v.work| - 1], Last(v.work);
    assert v.work == rest + [x];
    hide Lists;
    hide FiniteBox;
    hide Volume;
    hide Repeated;
    LiveSnoc(f, p, keys, epsilon, rest, x);
    TotalSnoc(keys, v.safe, x);
    TotalSnoc(keys, v.unknown, x);
    TotalSnoc(keys, v.gone, x);
    hide Total;
    hide Live;
  }

  lemma LiveSplit(f: Fpu, p: Program, keys: seq<string>, epsilon: real, rest: seq<Box>, x: Box, b1: Box, b2: Box)
    requires WellFormed(p.root) && AllBoxes(keys, rest) && Lists(keys, x) && FiniteBox(x)
    requires Lists(keys, b1) && Lists(keys, b2) && FiniteBox(b1) && FiniteBox(b2)
    requires if Repeated(f, p, keys, epsilon, x) then b1 == b2 == x
             else Volume(x, keys, |keys|) == Volume(b1, keys, |keys|) + Volume(b2, keys, |keys|)
    ensures AllBoxes(keys, rest + [x]) && AllBoxes(keys, rest + [b1] + [b2])
    ensures Live(f, p, keys, epsilon, rest + [b1] + [b2]) <= Live(f, p, keys, epsilon, rest + [x])
  {
    hide *;
    VolumePositive(b1, keys, |keys|);
    VolumePositive(b2, keys, |keys|);
    LiveSnoc(f, p, keys, epsilon, rest, x);
    LiveSnoc(f, p, keys, epsilon, rest, b1);
    LiveSnoc(f, p, keys, epsilon, rest + [b1], b2);
  }

  lemma SplitSettled(f: Fpu, p: Program, keys: seq<string>, epsilon: real, v: Paving, b1: Box, b2: Box)
    requires WellFormed(p.root) && Clean(v, keys) && |v.work| > 0
    requires Lists(keys, b1) && Lists(keys, b2) && FiniteBox(b1) && FiniteBox(b2)
    requires Lists(keys, Last(v.work)) && FiniteBox(Last(v.work))
    requires if Repeated(f, p, keys, epsilon, Last(v.work)) then b1 == b2 == Last(v.work)
             else Volume(Last(v.work), keys, |keys|) == Volume(b1, keys, |keys|) + Volume(b2, keys, |keys|)
    ensures var v1 := Advanced(v, Split(b1, b2));
      Clean(v1, keys) && Settled(f, p, keys, epsilon, v1) <= Settled(f, p, keys, epsilon, v)
  {
    hide *;
    var rest := CleanParts(v, keys);
    LiveSplit(f, p, keys, epsilon, rest, Last(v.work), b1, b2);
    ResetSettled(f, p, keys, epsilon, v, rest + [b1] + [b2]);
    SplitIs(v, rest, b1, b2);
  }

  lemma CleanParts(v: Paving, keys: seq<string>) returns (rest: seq<Box>)
    requires Clean(v, keys) && |v.work| > 0
    ensures AllBoxes(keys, v.work) && AllBoxes(keys, rest) && v.work == rest + [Last(v.work)]
  {
    rest := v.work[..|v.work| - 1];
  }

  lemma SplitIs(v: Paving, rest: seq<Box>, b1: Box, b2: Box)
    requires |v.work| > 0 && v.work == rest + [Last(v.work)]
    ensures Advanced(v, Split(b1, b2)) == v.(work := rest + [b1] + [b2])
  {
    assert v.work[..|v.work| - 1] == rest;
  }

  lemma ResetSettled(f: Fpu, p: Program, keys: seq<string>, epsilon: real, v: Paving, work: seq<Box>)
    requires WellFormed(p.root) && Clean(v, keys) && AllBoxes(keys, work)
    ensures Clean(v.(work := work), keys)
    ensures Settled(f, p, keys, epsilon, v.(work := work)) - Live(f, p, keys, epsilon, work)
         == Settled(f, p, keys, epsilon, v) - Live(f, p, keys, epsilon, v.work)
  {
    hide AllBoxes;
    hide Total;
    hide Live;
  }

  /** A repeated box is never judged but to be split again. */
  lemma NextSettled(f: Fpu, p: Program, keys: seq<string>, epsilon: real, v: Paving)
    requires WellFormed(p.root) && Exact(f) && Clean(v, keys) && |v.work| > 0
    ensures AllListed(keys, v.work) && Clean(Next(f, p, keys, epsilon, v), keys)
    ensures Settled(f, p, keys, epsilon, Next(f, p, keys, epsilon, v)) <= Settled(f, p, keys, epsilon, v)
  {
    hide *;
    CleanListed(v, keys);
    LastFine(v, keys);
    var x := Last(v.work);
    var o := Judged(f, p, keys, epsilon, x);
    JudgedHalves(f, p, keys, epsilon, x);
    NextIs(f, p, keys, epsilon, v);
    RepeatedIs(f, p, keys, epsilon, x);
    if o.Split? {
      SharesOrRepeats(f, x, keys);
      SplitSettled(f, p, keys, epsilon, v, o.b1, o.b2);
    } else {
      MovedSettled(f, p, keys, epsilon, v, o);
    }
  }

  lemma {:induction false} RunSettled(f: Fpu, p: Program, keys: seq<string>, epsilon: real, v: Paving, n: nat)
    requires WellFormed(p.root) && Exact(f) && Clean(v, keys)
    ensures AllListed(keys, v.work) && Clean(Run(f, p, keys, epsilon, v, n), keys)
    ensures Settled(f, p, keys, epsilon, Run(f, p, keys, epsilon, v, n)) <= Settled(f, p, keys, epsilon, v)
    decreases n
  {
    hide *;
    CleanListed(v, keys);
    RunIs(f, p, keys, epsilon, v, n);
    if n > 0 && |v.work| > 0 {
      NextSettled(f, p, keys, epsilon, v);
      RunSettled(f, p, keys, epsilon, Next(f, p, keys, epsilon, v), n - 1);
    }
  }

  /** The safe boxes never amount to more than the box, repeated ones or not. */
  lemma SafeVolumeBound(f: Fpu, p: Program, keys: seq<string>, epsilon: real, init: Box, n: nat)
    requires WellFormed(p.root) && Exact(f) && Lists(keys, init) && FiniteBox(init)
    ensures var r := Run(f, p, keys, epsilon, Start(init), n);
      AllBoxes(keys, r.safe) && 0.0 <= Total(keys, r.safe) <= Volume(init, keys, |keys|)
  {
    StartClean(init, keys);
    var r := Run(f, p, keys, epsilon, Start(init), n);
    RunSettled(f, p, keys, epsilon, Start(init), n);
    LiveBelow(f, p, keys, epsilon, Start(init).work);
    LiveBelow(f, p, keys, epsilon, r.work);
    TotalPositive(keys, r.safe);
    TotalPositive(keys, r.unknown);
    TotalPositive(keys, r.gone);
    hide Volume;
    hide Total;
    hide Live;
    hide Exact;
    hide AllBoxes;
  }

  /** The sum of the boxes' volumes, as it is computed. */
  function SumX(f: Fpu, keys: seq<string>, bs: seq<Box>): XR
    requires AllListed(keys, bs)
  {
    if |bs| == 0 then ZERO else X.Add(SumX(f, keys, bs[..|bs| - 1]), VolumeX(f, bs[|bs| - 1], keys, |keys|))
  }

  lemma {:induction false} SumExact(f: Fpu, keys: seq<string>, bs: seq<Box>)
    requires Exact(f) && AllBoxes(keys, bs)
    ensures AllListed(keys, bs) && SumX(f, keys, bs) == Fin(Total(keys, bs))
  {
    hide VolumeX;
    hide Volume;
    if |bs| > 0 {
      SumExact(f, keys, bs[..|bs| - 1]);
      VolumeExact(f, bs[|bs| - 1], keys, |keys|);
    }
    hide Exact;
  }

  /** The safe part of the volume, as it is computed. */
  function FractionX(f: Fpu, keys: seq<string>, init: Box, safe: seq<Box>): XR
    requires Lists(keys, init) && AllListed(keys, safe)
  {
    var total := VolumeX(f, init, keys, |keys|);
    if Lt(ZERO, total) then X.Div(SumX(f, keys, safe), total) else ZERO
  }

  lemma QuotInUnit(x: real, y: real)
    requires 0.0 <= x <= y && y > 0.0
    ensures 0.0 <= Quot(x, y) <= 1.0
  {
    var q := x / y;
    assert q * y == x;
    if q > 1.0 { ScaleUp(q, y); }
    if q < 0.0 { ScaleDown(q, y); }
  }

  lemma FractionIs(f: Fpu, keys: seq<string>, init: Box, safe: seq<Box>, s: real, t: real)
    requires Lists(keys, init) && AllListed(keys, safe) && t > 0.0
    requires SumX(f, keys, safe) == Fin(s) && VolumeX(f, init, keys, |keys|) == Fin(t)
    ensures FractionX(f, keys, init, safe) == Fin(Quot(s, t))
  {
    hide SumX;
    hide VolumeX;
    hide Quot;
    hide Lists;
  }

  lemma FractionExact(f: Fpu, keys: seq<string>, init: Box, safe: seq<Box>)
    requires Exact(f) && Lists(keys, init) && FiniteBox(init) && AllBoxes(keys, safe)
    requires 0.0 <= Total(keys, safe) <= Volume(init, keys, |keys|)
    ensures AllListed(keys, safe) && Volume(init, keys, |keys|) > 0.0
    ensures FractionX(f, keys, init, safe) == Fin(Quot(Total(keys, safe), Volume(init, keys, |keys|)))
    ensures 0.0 <= Quot(Total(keys, safe), Volume(init, keys, |keys|)) <= 1.0
  {
    hide *;
    SumExact(f, keys, safe);
    VolumeExact(f, init, keys, |keys|);
    VolumePositive(init, keys, |keys|);
    FractionIs(f, keys, init, safe, Total(keys, safe), Volume(init, keys, |keys|));
    QuotInUnit(Total(keys, safe), Volume(init, keys, |keys|));
  }

  // ----- what safe and discarded mean -----

  /** No wrapper claims a negative residual. */
  ghost predicate ModestWrappers(ht: HoleTable) {
    forall id, ins :: id in ht.wrappers ==> !Lt(ht.wrappers[id](ins).residual, ZERO)
  }

  lemma SumModest(x: XR, y: XR)
    requires !Lt(x, ZERO) && !Lt(y, ZERO)
    ensures !Lt(X.Add(x, y), ZERO)
  {
  }

  lemma HoleModest(f: Fpu, ht: HoleTable, id: string, phys: Ival, ins: seq<Ival>)
    requires Outward(f) && ModestWrappers(ht)
    ensures !Lt(HoleEval(f, ht, id, phys, ins).residual, ZERO)
  {
    var ph := PhysOf(ht, id, phys);
    assert !Lt(HalfWidth(f, ph), ZERO) by {
      if !IsEmpty(ph) && X.Sub(ph.hi, ph.lo).Fin? { assert Le(X.Sub(ph.hi, ph.lo), f.slackUp(X.Sub(ph.hi, ph.lo).r)); }
    }
    if id in ht.wrappers { assert !Lt(ht.wrappers[id](ins).residual, ZERO); }
  }

  lemma {:induction false} ResidualModest(f: Fpu, n: Node, b: Box, ht: HoleTable, acc: XR)
    requires WellFormed(n) && Outward(f) && ModestWrappers(ht) && !Lt(acc, ZERO)
    ensures !Lt(ResidualFrom(f, n, b, ht, acc), ZERO)
    decreases n, 1
  {
    match n
    case Const(_) =>
    case Var(_, _) =>
    case Oper(_, args) => ResidualAllModest(f, args, b, ht, acc);
    case Call(_, args) => ResidualAllModest(f, args, b, ht, acc);
    case Hole(id, phys, _, args) =>
      ResidualAllModest(f, args, b, ht, acc);
      HoleModest(f, ht, id, phys, EnclAll(f, args, b, ht));
      SumModest(ResidualAll(f, args, b, ht, acc), HoleEval(f, ht, id, phys, EnclAll(f, args, b, ht)).residual);
    case Disj(cands) => ResidualAllModest(f, cands, b, ht, acc);
  }

  lemma {:induction false} ResidualAllModest(f: Fpu, ns: seq<Node>, b: Box, ht: HoleTable, acc: XR)
    requires AllWellFormed(ns) && Outward(f) && ModestWrappers(ht) && !Lt(acc, ZERO)
    ensures !Lt(ResidualAll(f, ns, b, ht, acc), ZERO)
    decreases ns, 0
  {
    if ns != [] {
      ResidualAllModest(f, ns[..|ns| - 1], b, ht, acc);
      ResidualModest(f, ns[|ns| - 1], b, ht, ResidualAll(f, ns[..|ns| - 1], b, ht, acc));
    }
  }

  /** With a slack that is not negative, values are positive on safe boxes and negative on
      discarded ones wherever the evaluation is faithful. */
  lemma PavedSign(f: Fpu, w: World, p: Program, b: Box, v: real)
    requires Interval.Sound(f) && WellFormed(p.root) && InBox(w, b) && WrappersSound(p.holes, w.hv)
    requires ModestWrappers(p.holes) && !Lt(p.ks, ZERO)
    requires Faithful(f, p.root, b, p.holes) && Value(f, w, b, p.holes, p.root, v)
    ensures ShownSafe(f, p, b) ==> v > 0.0
    ensures ShownFailing(f, p, b) ==> v < 0.0
  {
    hide Encl;
    hide ResidualFrom;
    hide TraceOf;
    hide Faithful;
    hide Value;
    Fundamental(f, w, b, p.holes, p.root, v);
    ResidualModest(f, p.root, b, p.holes, ZERO);
    SumModest(ResidualFrom(f, p.root, b, p.holes, ZERO), p.ks);
  }

  /** Every value over the box, where the evaluation is faithful, is positive. */
  ghost predicate PositiveOn(f: Fpu, p: Program, b: Box)
    requires WellFormed(p.root)
  {
    forall w: World, v ::
      InBox(w, b) && WrappersSound(p.holes, w.hv) && Faithful(f, p.root, b, p.holes)
        && Value(f, w, b, p.holes, p.root, v)
      ==> v > 0.0
  }

  ghost predicate NegativeOn(f: Fpu, p: Program, b: Box)
    requires WellFormed(p.root)
  {
    forall w: World, v ::
      InBox(w, b) && WrappersSound(p.holes, w.hv) && Faithful(f, p.root, b, p.holes)
        && Value(f, w, b, p.holes, p.root, v)
      ==> v < 0.0
  }

  ghost predicate AllPositive(f: Fpu, p: Program, bs: seq<Box>)
    requires WellFormed(p.root)
  {
    forall i :: 0 <= i < |bs| ==> PositiveOn(f, p, bs[i])
  }

  ghost predicate AllNegative(f: Fpu, p: Program, bs: seq<Box>)
    requires WellFormed(p.root)
  {
    forall i :: 0 <= i < |bs| ==> NegativeOn(f, p, bs[i])
  }

  lemma SignsOn(f: Fpu, p: Program, b: Box)
    requires Interval.Sound(f) && WellFormed(p.root) && ModestWrappers(p.holes) && !Lt(p.ks, ZERO)
    ensures ShownSafe(f, p, b) ==> PositiveOn(f, p, b)
    ensures ShownFailing(f, p, b) ==> NegativeOn(f, p, b)
  {
    hide ShownSafe;
    hide ShownFailing;
    hide Value;
    hide Faithful;
    hide InBox;
    forall w: World, v | InBox(w, b) && WrappersSound(p.holes, w.hv) && Faithful(f, p.root, b, p.holes) &&
      Value(f, w, b, p.holes, p.root, v)
      ensures (ShownSafe(f, p, b) ==> v > 0.0) && (ShownFailing(f, p, b) ==> v < 0.0)
    {
      PavedSign(f, w, p, b, v);
    }
  }

  lemma {:induction false} RunShown(f: Fpu, p: Program, keys: seq<string>, epsilon: real, v: Paving, n: nat)
    requires WellFormed(p.root) && AllListed(keys, v.work) && AllSafe(f, p, v.safe) && AllFailing(f, p, v.gone)
    requires AllListed(keys, v.safe)
    ensures var r := Run(f, p, keys, epsilon, v, n);
      AllSafe(f, p, r.safe) && AllFailing(f, p, r.gone) && AllListed(keys, r.safe)
    decreases n
  {
    hide ShownSafe;
    hide ShownFailing;
    hide Lists;
    hide Halved;
    hide MaxWidth;
    if n > 0 && |v.work| > 0 {
      WorkListed(f, p, keys, epsilon, v);
      RunShown(f, p, keys, epsilon, Next(f, p, keys, epsilon, v), n - 1);
    }
  }

  lemma RunSigns(f: Fpu, p: Program, keys: seq<string>, epsilon: real, init: Box, n: nat)
    requires Interval.Sound(f) && WellFormed(p.root) && ModestWrappers(p.holes) && !Lt(p.ks, ZERO) && Lists(keys, init)
    ensures var r := Run(f, p, keys, epsilon, Start(init), n); AllPositive(f, p, r.safe) && AllNegative(f, p, r.gone)
  {
    var r := Run(f, p, keys, epsilon, Start(init), n);
    RunShown(f, p, keys, epsilon, Start(init), n);
    hide Run;
    hide ShownSafe;
    hide ShownFailing;
    hide PositiveOn;
    hide NegativeOn;
    hide Lists;
    hide ModestWrappers;
    forall b: Box
      ensures ShownSafe(f, p, b) ==> PositiveOn(f, p, b)
      ensures ShownFailing(f, p, b) ==> NegativeOn(f, p, b)
    {
      SignsOn(f, p, b);
    }
  }

  // ----- how fine the result is -----

  datatype Config = Config(epsilon: real, maxIterations: nat)

  datatype SiviaResult = SiviaResult(safe: seq<Box>, unknown: seq<Box>, iterations: nat, fraction: XR)

  /** No side is as wide as epsilon. */
  predicate Narrow(f: Fpu, b: Box, epsilon: real) {
    0.0 < epsilon && forall s :: s in b ==> !Le(Fin(epsilon), Width(f, b[s]))
  }

  lemma {:induction false} NarrowSoFar(f: Fpu, b: Box, keys: seq<string>, epsilon: real, n: nat)
    requires n <= |keys| && Lists(keys, b)
    ensures !MaxWidth(f, b, keys, n).NaN?
    ensures Lt(MaxWidth(f, b, keys, n), Fin(epsilon)) <==>
      0.0 < epsilon && forall i :: 0 <= i < n ==> !Le(Fin(epsilon), Width(f, b[keys[i]]))
  {
    hide Width;
    if n > 0 { NarrowSoFar(f, b, keys, epsilon, n - 1); }
  }

  lemma NarrowExactly(f: Fpu, b: Box, keys: seq<string>, epsilon: real)
    requires Lists(keys, b)
    ensures Lt(MaxWidth(f, b, keys, |keys|), Fin(epsilon)) <==> Narrow(f, b, epsilon)
  {
    hide Width;
    hide MaxWidth;
    NarrowSoFar(f, b, keys, epsilon, |keys|);
  }

  /** The enclosure over b does not stay clear of zero by more than the residual on either side. */
  predicate Undecided(f: Fpu, p: Program, b: Box)
    requires WellFormed(p.root)
  {
    var r := Evaluated(f, At(p, b));
    !Tainted(r.ms) && r.residual.Fin? ==>
      (r.ms.lo.Fin? ==> r.ms.lo.r <= r.residual.r) && (r.ms.hi.Fin? ==> -r.residual.r <= r.ms.hi.r)
  }

  /** And here it does on one side. */
  predicate Clear(f: Fpu, p: Program, b: Box)
    requires WellFormed(p.root)
  {
    var r := Evaluated(f, At(p, b));
    Finite(r.ms) && r.residual.Fin? ==> r.ms.lo.r > r.residual.r || -r.residual.r > r.ms.hi.r
  }

  /** b was there from the start, or is half of a box that is undecided and not narrow. */
  ghost predicate Born(f: Fpu, p: Program, keys: seq<string>, epsilon: real, init: Box, b: Box)
    requires WellFormed(p.root)
  {
    b == init || exists x: Box :: Parent(f, p, keys, epsilon, x, b)
  }

  predicate Parent(f: Fpu, p: Program, keys: seq<string>, epsilon: real, x: Box, b: Box)
    requires WellFormed(p.root)
  {
    && Lists(keys, x) && Undecided(f, p, x) && !Narrow(f, x, epsilon)
    && (b == Halved(f, x, keys).0 || b == Halved(f, x, keys).1)
  }

  ghost predicate AllBorn(f: Fpu, p: Program, keys: seq<string>, epsilon: real, init: Box, bs: seq<Box>)
    requires WellFormed(p.root)
  {
    forall i :: 0 <= i < |bs| ==> Born(f, p, keys, epsilon, init, bs[i])
  }

  predicate AllGiven(f: Fpu, p: Program, epsilon: real, bs: seq<Box>)
    requires WellFormed(p.root)
  {
    forall i :: 0 <= i < |bs| ==> Undecided(f, p, bs[i]) && Narrow(f, bs[i], epsilon)
  }

  predicate AllClear(f: Fpu, p: Program, bs: seq<Box>)
    requires WellFormed(p.root)
  {
    forall i :: 0 <= i < |bs| ==> Clear(f, p, bs[i])
  }

  /** Boxes are kept or discarded when they are decided, given up when they are narrow as well, and
      split when they are not. */
  ghost predicate Sorted(f: Fpu, p: Program, keys: seq<string>, epsilon: real, init: Box, v: Paving)
    requires WellFormed(p.root)
  {
    && AllClear(f, p, v.safe) && AllClear(f, p, v.gone) && AllGiven(f, p, epsilon, v.unknown)
    && AllBorn(f, p, keys, epsilon, init, v.work) && AllBorn(f, p, keys, epsilon, init, v.safe)
    && AllBorn(f, p, keys, epsilon, init, v.unknown) && AllBorn(f, p, keys, epsilon, init, v.gone)
  }

  lemma ShownIsClear(f: Fpu, p: Program, b: Box)
    requires WellFormed(p.root)
    ensures ShownSafe(f, p, b) || ShownFailing(f, p, b) ==> Clear(f, p, b)
    ensures !ShownSafe(f, p, b) && !ShownFailing(f, p, b) ==> Undecided(f, p, b)
  {
    hide Evaluated;
  }

  lemma JudgedFine(f: Fpu, p: Program, keys: seq<string>, epsilon: real, x: Box)
    requires WellFormed(p.root) && Lists(keys, x)
    ensures match Judged(f, p, keys, epsilon, x)
            case KeepSafe => Clear(f, p, x)
            case Discard => Clear(f, p, x)
            case Give => Undecided(f, p, x) && Narrow(f, x, epsilon)
            case Split(b1, b2) => Parent(f, p, keys, epsilon, x, b1) && Parent(f, p, keys, epsilon, x, b2)
  {
    ShownIsClear(f, p, x);
    NarrowExactly(f, x, keys, epsilon);
    hide ShownSafe;
    hide ShownFailing;
    hide Clear;
    hide Undecided;
    hide Narrow;
    hide Halved;
    hide MaxWidth;
  }

  lemma BornSnoc(f: Fpu, p: Program, keys: seq<string>, epsilon: real, init: Box, bs: seq<Box>, b: Box)
    requires WellFormed(p.root)
    ensures AllBorn(f, p, keys, epsilon, init, bs + [b]) <==>
      AllBorn(f, p, keys, epsilon, init, bs) && Born(f, p, keys, epsilon, init, b)
  {
    hide Born;
    assert (bs + [b])[|bs|] == b && forall i :: 0 <= i < |bs| ==> (bs + [b])[i] == bs[i];
  }

  lemma GivenSnoc(f: Fpu, p: Program, epsilon: real, bs: seq<Box>, b: Box)
    requires WellFormed(p.root)
    ensures AllGiven(f, p, epsilon, bs) && Undecided(f, p, b) && Narrow(f, b, epsilon) ==>
      AllGiven(f, p, epsilon, bs + [b])
    ensures AllClear(f, p, bs) && Clear(f, p, b) ==> AllClear(f, p, bs + [b])
  {
    hide Undecided;
    hide Clear;
    hide Narrow;
  }

  lemma NextSorted(f: Fpu, p: Program, keys: seq<string>, epsilon: real, init: Box, v: Paving)
    requires WellFormed(p.root) && AllListed(keys, v.work) && |v.work| > 0 && Sorted(f, p, keys, epsilon, init, v)
    ensures Sorted(f, p, keys, epsilon, init, Next(f, p, keys, epsilon, v))
  {
    var rest, x := v.work[..|v.work| - 1], Last(v.work);
    var o := Judged(f, p, keys, epsilon, x);
    JudgedFine(f, p, keys, epsilon, x);
    if o.Split? {
      assert Born(f, p, keys, epsilon, init, o.b1) && Born(f, p, keys, epsilon, init, o.b2);
      BornSnoc(f, p, keys, epsilon, init, rest, o.b1);
      BornSnoc(f, p, keys, epsilon, init, rest + [o.b1], o.b2);
    }
    assert v.work == rest + [x];
    hide *;
    BornSnoc(f, p, keys, epsilon, init, rest, x);
    BornSnoc(f, p, keys, epsilon, init, v.safe, x);
    BornSnoc(f, p, keys, epsilon, init, v.unknown, x);
    BornSnoc(f, p, keys, epsilon, init, v.gone, x);
    GivenSnoc(f, p, epsilon, v.unknown, x);
    GivenSnoc(f, p, epsilon, v.safe, x);
    GivenSnoc(f, p, epsilon, v.gone, x);
    NextIs(f, p, keys, epsilon, v);
    AdvancedSorted(f, p, keys, epsilon, init, v, o);
  }

  lemma AdvancedSorted(f: Fpu, p: Program, keys: seq<string>, epsilon: real, init: Box, v: Paving, o: Outcome)
    requires WellFormed(p.root) && |v.work| > 0 && Sorted(f, p, keys, epsilon, init, v)
    requires var (rest, x) := (v.work[..|v.work| - 1], Last(v.work));
      match o
      case KeepSafe => AllClear(f, p, v.safe + [x])
      case Discard => AllClear(f, p, v.gone + [x])
      case Give => AllGiven(f, p, epsilon, v.unknown + [x])
      case Split(b1, b2) => AllBorn(f, p, keys, epsilon, init, rest + [b1] + [b2])
    requires AllBorn(f, p, keys, epsilon, init, v.work[..|v.work| - 1])
    requires AllBorn(f, p, keys, epsilon, init, v.safe + [Last(v.work)])
    requires AllBorn(f, p, keys, epsilon, init, v.unknown + [Last(v.work)])
    requires AllBorn(f, p, keys, epsilon, init, v.gone + [Last(v.work)])
    ensures Sorted(f, p, keys, epsilon, init, Advanced(v, o))
  {
    hide AllBorn;
    hide AllClear;
    hide AllGiven;
  }

  lemma {:induction false} RunSorted(f: Fpu, p: Program, keys: seq<string>, epsilon: real, init: Box, v: Paving, n: nat)
    requires WellFormed(p.root) && AllListed(keys, v.work) && Sorted(f, p, keys, epsilon, init, v)
    ensures Sorted(f, p, keys, epsilon, init, Run(f, p, keys, epsilon, v, n))
    decreases n
  {
    hide Sorted;
    hide Next;
    if n > 0 && |v.work| > 0 {
      WorkListed(f, p, keys, epsilon, v);
      NextSorted(f, p, keys, epsilon, init, v);
      RunSorted(f, p, keys, epsilon, init, Next(f, p, keys, epsilon, v), n - 1);
    }
  }

  lemma {:induction false} RunEmpties(f: Fpu, p: Program, keys: seq<string>, epsilon: real, v: Paving, n: nat)
    requires WellFormed(p.root) && AllListed(keys, v.work)
    ensures Steps(f, p, keys, epsilon, v, n) <= n
    ensures Steps(f, p, keys, epsilon, v, n) < n ==> |Run(f, p, keys, epsilon, v, n).work| == 0
    decreases n
  {
    hide Next;
    if n > 0 && |v.work| > 0 {
      WorkListed(f, p, keys, epsilon, v);
      RunEmpties(f, p, keys, epsilon, Next(f, p, keys, epsilon, v), n - 1);
    }
  }

  /** All undecided boxes but the last few are narrow, and those few were still pending when the
      steps ran out. */
  ghost predicate Fine(f: Fpu, p: Program, keys: seq<string>, cfg: Config, init: Box, res: SiviaResult, gone: seq<Box>)
    requires WellFormed(p.root)
  {
    && res.iterations <= cfg.maxIterations
    && exists pending: seq<Box> :: |pending| <= |res.unknown| && (res.iterations < cfg.maxIterations ==> |pending| == 0)
         && Settles(f, p, keys, cfg.epsilon, init, res, gone, pending)
  }

  ghost predicate Settles(f: Fpu, p: Program, keys: seq<string>, epsilon: real, init: Box, res: SiviaResult,
                          gone: seq<Box>, pending: seq<Box>)
    requires WellFormed(p.root) && |pending| <= |res.unknown|
  {
    var given := res.unknown[..|res.unknown| - |pending|];
    res.unknown == given + pending && Sorted(f, p, keys, epsilon, init, Paving(pending, res.safe, given, gone))
  }

  lemma RunFine(f: Fpu, p: Program, keys: seq<string>, cfg: Config, init: Box, fraction: XR)
    requires WellFormed(p.root) && Lists(keys, init)
    ensures var v := Run(f, p, keys, cfg.epsilon, Start(init), cfg.maxIterations);
      var steps := Steps(f, p, keys, cfg.epsilon, Start(init), cfg.maxIterations);
      Fine(f, p, keys, cfg, init, SiviaResult(v.safe, v.unknown + v.work, steps, fraction), v.gone)
  {
    var v := Run(f, p, keys, cfg.epsilon, Start(init), cfg.maxIterations);
    var steps := Steps(f, p, keys, cfg.epsilon, Start(init), cfg.maxIterations);
    RunSorted(f, p, keys, cfg.epsilon, init, Start(init), cfg.maxIterations);
    RunEmpties(f, p, keys, cfg.epsilon, Start(init), cfg.maxIterations);
    hide Sorted;
    hide Run;
    hide Steps;
    var res := SiviaResult(v.safe, v.unknown + v.work, steps, fraction);
    assert res.unknown[..|v.unknown|] == v.unknown;
    assert Settles(f, p, keys, cfg.epsilon, init, res, v.gone, v.work);
  }

  // ----- the whole run -----

  /** What is promised of a result and of the boxes that were discarded on the way. */
  ghost predicate Promised(f: Fpu, p: Program, keys: seq<string>, cfg: Config, init: Box, res: SiviaResult,
                           gone: seq<Box>)
    requires WellFormed(p.root) && Lists(keys, init)
  {
    var done := Paving([], res.safe, res.unknown, gone);
    && Fine(f, p, keys, cfg, init, res, gone)
    && (Interval.Sound(f) && ModestWrappers(p.holes) && !Lt(p.ks, ZERO) ==>
         AllPositive(f, p, res.safe) && AllNegative(f, p, gone))
    && (NeverWhole(init) ==> Covers(done, init))
    && (Exact(f) ==> (Covers(done, init) <==> !Squanders(f, p, keys, cfg.epsilon, init, cfg.maxIterations)))
    && (Exact(f) && FiniteBox(init) ==>
          && Clean(done, keys)
          && (VolumeOf(done, keys) == Volume(init, keys, |keys|) <==>
                |Repeats(f, p, keys, cfg.epsilon, Start(init), cfg.maxIterations)| == 0)
          && (NarrowNameless(f, init, cfg.epsilon) ==> VolumeOf(done, keys) == Volume(init, keys, |keys|))
          && Volume(init, keys, |keys|) > 0.0
          && res.fraction == Fin(Quot(Total(keys, res.safe), Volume(init, keys, |keys|)))
          && 0.0 <= res.fraction.r <= 1.0)
  }

  /** Out of steps, what is pending counts as undecided. */
  function Finished(v: Paving): Paving { Paving([], v.safe, v.unknown + v.work, v.gone) }

  lemma FinishedCovers(v: Paving, init: Box)
    ensures Covers(Finished(v), init) <==> Covers(v, init)
  {
    hide InBox;
    forall w: World
      ensures Held(w, v.unknown + v.work) <==> Held(w, v.unknown) || Held(w, v.work)
    {
      HeldAppend(w, v.unknown, v.work);
    }
    hide Held;
  }

  lemma FinishedVolume(v: Paving, keys: seq<string>)
    requires Clean(v, keys)
    ensures Clean(Finished(v), keys) && VolumeOf(Finished(v), keys) == VolumeOf(v, keys)
  {
    TotalAppend(keys, v.unknown, v.work);
    hide Lists;
    hide FiniteBox;
  }

  lemma FinitePromises(f: Fpu, p: Program, keys: seq<string>, cfg: Config, init: Box)
    requires WellFormed(p.root) && Lists(keys, init) && Exact(f) && FiniteBox(init)
    ensures var done := Finished(Run(f, p, keys, cfg.epsilon, Start(init), cfg.maxIterations));
      && Clean(done, keys)
      && (VolumeOf(done, keys) == Volume(init, keys, |keys|) <==>
            |Repeats(f, p, keys, cfg.epsilon, Start(init), cfg.maxIterations)| == 0)
      && (NarrowNameless(f, init, cfg.epsilon) ==> VolumeOf(done, keys) == Volume(init, keys, |keys|))
      && Volume(init, keys, |keys|) > 0.0
      && FractionX(f, keys, init, done.safe) == Fin(Quot(Total(keys, done.safe), Volume(init, keys, |keys|)))
      && 0.0 <= Quot(Total(keys, done.safe), Volume(init, keys, |keys|)) <= 1.0
  {
    var r := Run(f, p, keys, cfg.epsilon, Start(init), cfg.maxIterations);
    StartClean(init, keys);
    VolumeExactly(f, p, keys, cfg.epsilon, init, cfg.maxIterations);
    FinishedVolume(r, keys);
    SafeVolumeBound(f, p, keys, cfg.epsilon, init, cfg.maxIterations);
    FractionExact(f, keys, init, r.safe);
    if NarrowNameless(f, init, cfg.epsilon) {
      assert AllNarrow(f, Start(init).work, cfg.epsilon);
      NoRepeats(f, p, keys, cfg.epsilon, Start(init), cfg.maxIterations);
    }
    hide Run;
    hide Repeats;
    hide Clean;
    hide VolumeOf;
    hide Volume;
    hide Total;
    hide FractionX;
    hide Quot;
    hide Exact;
    hide FiniteBox;
    hide NarrowNameless;
  }

  /** The paving's theorem: signs on safe and discarded boxes; every point covered, exactly unless the
      run begins by splitting a whole line; volumes that add up exactly when no box is repeated; a
      safe fraction between zero and one; and no box given up or split without need. */
  lemma SiviaPaves(f: Fpu, p: Program, keys: seq<string>, cfg: Config, init: Box)
    requires WellFormed(p.root) && Lists(keys, init)
    ensures var v := Run(f, p, keys, cfg.epsilon, Start(init), cfg.maxIterations);
      var steps := Steps(f, p, keys, cfg.epsilon, Start(init), cfg.maxIterations);
      && AllListed(keys, v.safe)
      && Promised(f, p, keys, cfg, init,
                  SiviaResult(v.safe, v.unknown + v.work, steps, FractionX(f, keys, init, v.safe)), v.gone)
  {
    var v := Run(f, p, keys, cfg.epsilon, Start(init), cfg.maxIterations);
    RunShown(f, p, keys, cfg.epsilon, Start(init), cfg.maxIterations);
    RunFine(f, p, keys, cfg, init, FractionX(f, keys, init, v.safe));
    hide Fine;
    hide Steps;
    CoversExactly(f, p, keys, cfg.epsilon, init, cfg.maxIterations);
    FinishedCovers(v, init);
    if Interval.Sound(f) && ModestWrappers(p.holes) && !Lt(p.ks, ZERO) {
      RunSigns(f, p, keys, cfg.epsilon, init, cfg.maxIterations);
    }
    if Exact(f) && FiniteBox(init) { FinitePromises(f, p, keys, cfg, init); }
    hide Run;
    hide Repeats;
    hide Clean;
    hide VolumeOf;
    hide Volume;
    hide Total;
    hide FractionX;
    hide Quot;
    hide Exact;
    hide FiniteBox;
    hide NarrowNameless;
    hide Covers;
    hide Squanders;
    hide NeverWhole;
    hide AllPositive;
    hide AllNegative;
    hide ModestWrappers;
    hide Interval.Sound;
    hide Lists;
    hide AllListed;
  }

  method RunSivia(f: Fpu, p: Program, init: Box, keys: seq<string>, cfg: Config)
    returns (res: SiviaResult, ghost gone: seq<Box>)
    requires WellFormed(p.root) && Lists(keys, init)
    ensures res.iterations == Steps(f, p, keys, cfg.epsilon, Start(init), cfg.maxIterations)
    ensures Finished(Run(f, p, keys, cfg.epsilon, Start(init), cfg.maxIterations)) ==
      Paving([], res.safe, res.unknown, gone)
    ensures Promised(f, p, keys, cfg, init, res, gone)
  {
    hide Promised;
    hide Judged;
    hide VolumeX;
    hide Lists;
    var work, safe, unknown: seq<Box> := [init], [], [];
    gone := [];
    var iterations: nat := 0;
    var totalVol := BoxVolume(f, init, keys);
    var safeVol := ZERO;
    ghost var run, steps := Run(f, p, keys, cfg.epsilon, Start(init), cfg.maxIterations),
                            Steps(f, p, keys, cfg.epsilon, Start(init), cfg.maxIterations);
    while |work| > 0 && iterations < cfg.maxIterations
      invariant iterations <= cfg.maxIterations && AllListed(keys, work) && AllListed(keys, safe)
      invariant run == Run(f, p, keys, cfg.epsilon, Paving(work, safe, unknown, gone), cfg.maxIterations - iterations)
      invariant steps == iterations +
        Steps(f, p, keys, cfg.epsilon, Paving(work, safe, unknown, gone), cfg.maxIterations - iterations)
      invariant safeVol == SumX(f, keys, safe)
      decreases cfg.maxIterations - iterations
    {
      WorkListed(f, p, keys, cfg.epsilon, Paving(work, safe, unknown, gone));
      var x := work[|work| - 1];
      work := work[..|work| - 1];
      iterations := iterations + 1;
      var o := Judge(f, p, keys, cfg.epsilon, x);
      match o {
        case KeepSafe =>
          var more := BoxVolume(f, x, keys);
          assert (safe + [x])[..|safe|] == safe;
          safe := safe + [x];
          safeVol := X.Add(safeVol, more);
        case Discard =>
          gone := gone + [x];
        case Give =>
          unknown := unknown + [x];
        case Split(b1, b2) =>
          work := work + [b1] + [b2];
      }
    }
    unknown := unknown + work;
    var fraction := if Lt(ZERO, totalVol) then X.Div(safeVol, totalVol) else ZERO;
    SiviaPaves(f, p, keys, cfg, init);
    res := SiviaResult(safe, unknown, iterations, fraction);
  }

  /** A variable without a name is never split: a box with nothing else comes back twice. */
  lemma NamelessTwice(f: Fpu, a: Ival)
    requires Exact(f) && Finite(a) && Proper(a)
    ensures var b: Box := map["" := a]; Lists([""], b) && FiniteBox(b) && Halved(f, b, [""]) == (b, b)
  {
  }
}
