/** The wrapper of a function that is monotone in all its arguments: its values at two corners. */
module MonotoneWrap {
  import opened ExtReal
  import opened Interval
  import opened Holes

  /** The wrapped function on doubles, infinities included. */
  type Fn = seq<XR> -> XR

  function Lows(ins: seq<Ival>): (r: seq<XR>)
    ensures |r| == |ins| && forall i :: 0 <= i < |ins| ==> r[i] == ins[i].lo
  {
    seq(|ins|, i requires 0 <= i < |ins| => ins[i].lo)
  }

  function Highs(ins: seq<Ival>): (r: seq<XR>)
    ensures |r| == |ins| && forall i :: 0 <= i < |ins| ==> r[i] == ins[i].hi
  {
    seq(|ins|, i requires 0 <= i < |ins| => ins[i].hi)
  }

  predicate SomeEmpty(ins: seq<Ival>) { exists i :: 0 <= i < |ins| && IsEmpty(ins[i]) }

  function Wrap(f: Fpu, sign: int, phys: Ival, g: Fn, ins: seq<Ival>): WrapResult {
    if SomeEmpty(ins) then PhysWrap(f, phys)
    else
      var (a, b) := if sign >= 0 then (Lows(ins), Highs(ins)) else (Highs(ins), Lows(ins));
      WrapResult(Meet(Of(g(a), g(b)), phys), ZERO, false)
  }

  method ComputeWrap(f: Fpu, sign: int, phys: Ival, g: Fn, ins: seq<Ival>) returns (r: WrapResult)
    ensures r == Wrap(f, sign, phys, g, ins)
  {
    var a: seq<XR>, b: seq<XR> := [], [];
    var i := 0;
    while i < |ins|
      invariant 0 <= i <= |ins| && forall k :: 0 <= k < i ==> !IsEmpty(ins[k])
      invariant a == (if sign >= 0 then Lows(ins) else Highs(ins))[..i]
      invariant b == (if sign >= 0 then Highs(ins) else Lows(ins))[..i]
    {
      if IsEmpty(ins[i]) {
        return PhysWrap(f, phys);
      }
      a := a + [if sign >= 0 then ins[i].lo else ins[i].hi];
      b := b + [if sign >= 0 then ins[i].hi else ins[i].lo];
      i := i + 1;
    }
    assert !SomeEmpty(ins);
    assert a == (if sign >= 0 then Lows(ins) else Highs(ins)) && b == if sign >= 0 then Highs(ins) else Lows(ins);
    var lo, hi := g(a), g(b);
    r := WrapResult(Meet(Of(lo, hi), phys), ZERO, false);
  }

  predicate Ordered(xs: seq<XR>, ys: seq<XR>) {
    |xs| == |ys| && forall i :: 0 <= i < |xs| ==> Le(xs[i], ys[i])
  }

  ghost predicate Increasing(g: Fn) { forall xs, ys :: Ordered(xs, ys) ==> Le(g(xs), g(ys)) }

  ghost predicate Decreasing(g: Fn) { forall xs, ys :: Ordered(xs, ys) ==> Le(g(ys), g(xs)) }

  function Points(xs: seq<real>): (r: seq<XR>)
    ensures |r| == |xs| && forall i :: 0 <= i < |xs| ==> r[i] == Fin(xs[i])
  {
    seq(|xs|, i requires 0 <= i < |xs| => Fin(xs[i]))
  }

  /** Whatever sign is declared, the two corners enclose a function that is monotone either way. */
  lemma WrapSound(f: Fpu, sign: int, phys: Ival, g: Fn, ins: seq<Ival>, xs: seq<real>, v: real)
    requires Increasing(g) || Decreasing(g)
    requires AllContain(ins, xs) && g(Points(xs)) == Fin(v) && Contains(phys, v)
    ensures Contains(Wrap(f, sign, phys, g, ins).encl, v)
  {
    assert !SomeEmpty(ins) && Ordered(Lows(ins), Points(xs)) && Ordered(Points(xs), Highs(ins));
    var lo, hi := g(Lows(ins)), g(Highs(ins));
    OfHolds(lo, hi, v);
    MeetSound(Of(lo, hi), phys, v);
    MeetSound(Of(hi, lo), phys, v);
    hide Of;
    hide Meet;
    hide Contains;
  }

  lemma OfHolds(lo: XR, hi: XR, v: real)
    requires (Le(lo, Fin(v)) && Le(Fin(v), hi)) || (Le(hi, Fin(v)) && Le(Fin(v), lo))
    ensures Contains(Of(lo, hi), v) && Contains(Of(hi, lo), v)
  {
  }

  ghost predicate Bounded(ins: seq<Ival>) { forall i :: 0 <= i < |ins| ==> Finite(ins[i]) && Proper(ins[i]) }

  function Reals(xs: seq<XR>): (r: seq<real>)
    requires forall i :: 0 <= i < |xs| ==> xs[i].Fin?
    ensures |r| == |xs| && forall i :: 0 <= i < |xs| ==> r[i] == xs[i].r
  {
    seq(|xs|, i requires 0 <= i < |xs| => xs[i].r)
  }

  /** Over a bounded box the wrapper holds only what lies in the physical range and between two values of
      the function in the box. */
  lemma WrapTight(f: Fpu, sign: int, phys: Ival, g: Fn, ins: seq<Ival>, v: real) returns (xs: seq<real>, ys: seq<real>)
    requires Bounded(ins) && g(Lows(ins)).Fin? && g(Highs(ins)).Fin? && Proper(phys)
    requires Contains(Wrap(f, sign, phys, g, ins).encl, v)
    ensures Contains(phys, v) && AllContain(ins, xs) && AllContain(ins, ys)
    ensures Le(g(Points(xs)), Fin(v)) && Le(Fin(v), g(Points(ys)))
  {
    assert !SomeEmpty(ins);
    xs, ys := Reals(Lows(ins)), Reals(Highs(ins));
    assert Points(xs) == Lows(ins) && Points(ys) == Highs(ins);
    if !Le(g(Lows(ins)), g(Highs(ins))) { xs, ys := ys, xs; }
    var (a, b) := if sign >= 0 then (Lows(ins), Highs(ins)) else (Highs(ins), Lows(ins));
    MeetSound(Of(g(a), g(b)), phys, v);
  }
}
