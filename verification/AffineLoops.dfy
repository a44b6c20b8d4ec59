/** Affine operations as they run: coefficient tables filled symbol by symbol, and the counter of new symbols. */
module AffineLoops {
  import opened ExtReal
  import opened Reals
  import opened Interval
  import opened Enclosure
  import opened Options
  import opened Affine

  /** The coefficients of the symbols in keys. */
  function Part(t: map<nat, real>, keys: set<nat>): map<nat, real> {
    map k | k in keys && k in t :: t[k]
  }

  /** Adds s times every coefficient of u. */
  method AddInto(t: map<nat, real>, s: real, u: map<nat, real>) returns (r: map<nat, real>)
    ensures r == Mix(1.0, t, s, u)
  {
    r := t;
    var left := u.Keys;
    while left != {}
      invariant left <= u.Keys && r.Keys == t.Keys + (u.Keys - left)
      invariant forall k :: k in r ==> r[k] == (if k in u && k !in left then Coef(t, k) + Prod(s, u[k]) else t[k])
      decreases left
    {
      var k :| k in left;
      r := r[k := Coef(r, k) + Prod(s, u[k])];
      left := left - {k};
    }
    MixedAll(t, s, u, r);
  }

  lemma MixedAll(t: map<nat, real>, s: real, u: map<nat, real>, r: map<nat, real>)
    requires r.Keys == t.Keys + u.Keys
    requires forall k :: k in r ==> r[k] == (if k in u then Coef(t, k) + Prod(s, u[k]) else t[k])
    ensures r == Mix(1.0, t, s, u)
  {
    forall k | k in r
      ensures r[k] == Mix(1.0, t, s, u)[k]
    {
      TimesOne(Coef(t, k));
    }
  }

  /** s times every coefficient. */
  method Scaled(s: real, t: map<nat, real>) returns (r: map<nat, real>)
    ensures r == Mix(s, t, 0.0, map[])
  {
    r := map[];
    var left := t.Keys;
    while left != {}
      invariant left <= t.Keys && r.Keys == t.Keys - left && forall k :: k in r ==> r[k] == Prod(s, t[k])
      decreases left
    {
      var k :| k in left;
      r := r[k := Prod(s, t[k])];
      left := left - {k};
    }
  }

  lemma {:induction false} PartGrows(t: map<nat, real>, keys: set<nat>, k: nat, n: nat)
    requires k in t && k !in keys
    ensures Spread(Part(t, keys + {k}), n) == Spread(Part(t, keys), n) + (if k < n then AbsOf(t[k]) else 0.0)
  {
    if n > 0 { PartGrows(t, keys, k, n - 1); }
  }

  /** The sum of the sizes of the coefficients, in whatever order. */
  method SumOfSizes(t: map<nat, real>, start: real, ghost n: nat) returns (r: real)
    requires Below(t, n)
    ensures r == start + Spread(t, n)
  {
    r := start;
    var left := t.Keys;
    ghost var done: set<nat> := {};
    NothingSpread(n);
    assert Part(t, done) == map[];
    while left != {}
      invariant left !! done && left + done == t.Keys && r == start + Spread(Part(t, done), n)
      decreases left
    {
      var k :| k in left;
      PartGrows(t, done, k, n);
      r := r + AbsOf(t[k]);
      left, done := left - {k}, done + {k};
    }
    assert Part(t, done) == t;
  }

  lemma {:induction false} NothingSpread(n: nat)
    ensures Spread(map[], n) == 0.0
  {
    if n > 0 { NothingSpread(n - 1); }
  }

  method AddForms(a: Aff, b: Aff) returns (r: Aff)
    ensures r == Plus(a, b)
  {
    var t := AddInto(a.t, 1.0, b.t);
    r := Aff(a.c + b.c, t, a.err + b.err);
  }

  method NegateForm(a: Aff) returns (r: Aff)
    ensures r == Negative(a)
  {
    var t := Scaled(-1.0, a.t);
    r := Aff(-a.c, t, a.err);
  }

  method ScaleForm(s: real, a: Aff) returns (r: Aff)
    ensures r == Scale(s, a)
  {
    var t := Scaled(s, a.t);
    r := Aff(Prod(s, a.c), t, Prod(AbsOf(s), a.err));
  }

  method MultiplyForms(a: Aff, b: Aff, ghost n: nat) returns (r: Aff)
    requires Below(a.t, n) && Below(b.t, n)
    ensures r == Times(a, b, n)
  {
    var first := AddInto(map[], b.c, a.t);
    var t := AddInto(first, a.c, b.t);
    MixedTwice(a.c, b.c, a.t, b.t);
    var ra := SumOfSizes(a.t, 0.0, n);
    var rb := SumOfSizes(b.t, 0.0, n);
    r := Aff(Prod(a.c, b.c), t,
             Prod(a.err, AbsOf(b.c) + rb) + Prod(b.err, AbsOf(a.c) + ra) + Prod(a.err, b.err) + Prod(ra, rb));
  }

  lemma MixedTwice(p: real, q: real, s: map<nat, real>, t: map<nat, real>)
    ensures Mix(1.0, Mix(1.0, map[], q, s), p, t) == Mix(q, s, p, t)
  {
    var once := Mix(1.0, map[], q, s);
    forall k | k in s.Keys + t.Keys
      ensures Mix(1.0, once, p, t)[k] == Mix(q, s, p, t)[k]
    {
      TimesOne(Coef(once, k));
      TimesOne(0.0);
      MixAt(1.0, map[], q, s, k);
    }
  }

  method RadiusOf(a: Aff, ghost n: nat) returns (r: real)
    requires Below(a.t, n)
    ensures r == Rad(a, n)
  {
    r := SumOfSizes(a.t, a.err, n);
  }

  /** The counter that every new symbol takes one number from. */
  class Symbols {
    var next: nat

    constructor ()
      ensures next == 1
    {
      next := 1;
    }

    method Sym(centre: real, radius: real) returns (a: Aff)
      modifies this`next
      ensures radius == 0.0 ==> next == old(next) && a == Constant(centre)
      ensures radius != 0.0 ==> next == old(next) + 1 && a == Aff(centre, map[old(next) := AbsOf(radius)], 0.0)
      ensures old(next) <= next && Formed(a, next)
    {
      a := Constant(centre);
      if radius != 0.0 {
        var mine: nat := next;
        a := Aff(centre, map[mine := AbsOf(radius)], 0.0);
        next := next + 1;
      }
    }

    /** A form for an interval: it takes a number only if it needs a symbol. */
    method FromInterval(f: Fpu, x: Ival) returns (r: Option<Aff>)
      modifies this`next
      ensures match FromIval(f, x, old(next))
              case None => r == None && next == old(next)
              case Some((a, m)) => r == Some(a) && next == m
    {
      if !Finite(x) || IsEmpty(x) || !Width(f, x).Fin? {
        return None;
      }
      var a := Sym((x.lo.r + x.hi.r) / 2.0, Width(f, x).r / 2.0);
      r := Some(a);
    }
  }
}
