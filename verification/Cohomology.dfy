/** A union-find with potentials: every node knows how far it lies from its component's root. */
module UnionFind {

  /** The abstract state of a node: its component's root, its potential relative to that
      root, and a rank that grows towards the root. */
  datatype Place<K> = Place(root: K, phi: real, rank: nat)

  /** What the parent and potential tables say of one node: a root stands for itself; any
      other node hangs below a node of higher rank in the same component. */
  ghost predicate NodeOk<K>(x: K, p: map<K, K>, pot: map<K, real>, at: map<K, Place<K>>) {
    && x in at && x in p && x in pot
    && at[x].root in at && at[at[x].root].root == at[x].root
    && if p[x] == x
       then at[x].root == x && pot[x] == 0.0 && at[x].phi == 0.0
       else && p[x] in at && at[x].root != x && at[p[x]].root == at[x].root
            && at[x].phi == pot[x] + at[p[x]].phi
            && at[x].rank < at[p[x]].rank && at[x].rank < at[at[x].root].rank
  }

  ghost predicate Forest<K(!new)>(p: map<K, K>, pot: map<K, real>, at: map<K, Place<K>>) {
    && (forall x :: x in p <==> x in at) && (forall x :: x in pot <==> x in at)
    && (forall x {:trigger NodeOk(x, p, pot, at)} :: x in at ==> NodeOk(x, p, pot, at))
  }

  lemma EnterKeeps<K(!new)>(p: map<K, K>, pot: map<K, real>, at: map<K, Place<K>>, x: K)
    requires Forest(p, pot, at) && x !in p
    ensures Forest(p[x := x], pot[x := 0.0], at[x := Place(x, 0.0, 0)])
  {
    var p', pot', at' := p[x := x], pot[x := 0.0], at[x := Place(x, 0.0, 0)];
    forall y | y in at'
      ensures NodeOk(y, p', pot', at')
    {
      if y != x { assert NodeOk(y, p, pot, at); }
    }
  }

  /** Pointing a node straight at its root keeps the forest. */
  lemma CompressKeeps<K(!new)>(p: map<K, K>, pot: map<K, real>, at: map<K, Place<K>>, x: K)
    requires Forest(p, pot, at) && x in at && p[x] != x
    ensures Forest(p[x := at[x].root], pot[x := at[x].phi], at)
  {
    var p', pot' := p[x := at[x].root], pot[x := at[x].phi];
    assert NodeOk(x, p, pot, at) && NodeOk(at[x].root, p, pot, at);
    forall y | y in at
      ensures NodeOk(y, p', pot', at)
    {
      assert NodeOk(y, p, pot, at);
    }
  }

  /** What hanging the root rb below the root ra with potential w does to every place. */
  ghost function Rerooted<K>(at: map<K, Place<K>>, ra: K, rb: K, w: real): (r: map<K, Place<K>>)
    requires ra in at && rb in at
    ensures r.Keys == at.Keys
  {
    map x | x in at ::
      if at[x].root == rb then Place(ra, at[x].phi + w, at[x].rank)
      else if x == ra && at[x].rank <= at[rb].rank then Place(at[x].root, at[x].phi, at[rb].rank + 1)
      else at[x]
  }

  lemma LinkKeeps<K(!new)>(p: map<K, K>, pot: map<K, real>, at: map<K, Place<K>>, ra: K, rb: K, w: real)
    requires Forest(p, pot, at)
    requires ra in at && rb in at && at[ra].root == ra && at[rb].root == rb && ra != rb
    ensures Forest(p[rb := ra], pot[rb := w], Rerooted(at, ra, rb, w))
  {
    var p', pot', at' := p[rb := ra], pot[rb := w], Rerooted(at, ra, rb, w);
    assert NodeOk(ra, p, pot, at) && NodeOk(rb, p, pot, at);
    forall x | x in at'
      ensures NodeOk(x, p', pot', at')
    {
      assert NodeOk(x, p, pot, at) && NodeOk(p[x], p, pot, at) && NodeOk(at[x].root, p, pot, at);
    }
  }

  class DSU<K(==, !new)> {
    var p: map<K, K>
    var pot: map<K, real>
    ghost var at: map<K, Place<K>>
    ghost var top: nat

    ghost predicate Valid()
      reads this
    {
      Forest(p, pot, at) && forall x :: x in at ==> at[x].rank <= top
    }

    constructor ()
      ensures Valid() && at == map[]
    {
      p, pot, at, top := map[], map[], map[], 0;
    }

    /** Finds the root of x, entering x as a new root when it is unknown, and points x at it.
        Compression changes the parents, never the components or the potentials. */
    method Find(x: K) returns (r: K)
      requires Valid()
      modifies this
      ensures Valid() && top == old(top)
      ensures at == if x in old(at) then old(at) else old(at)[x := Place(x, 0.0, 0)]
      ensures x in at && r == at[x].root && p[x] == r && pot[x] == at[x].phi
      ensures x in old(at) ==> forall y :: y in old(at) && old(at)[y].rank < old(at)[x].rank ==>
        p[y] == old(p)[y] && pot[y] == old(pot)[y]
      decreases if x in at then top - at[x].rank + 1 else top + 2
    {
      if x !in p {
        EnterKeeps(p, pot, at, x);
        p, pot, at := p[x := x], pot[x := 0.0], at[x := Place(x, 0.0, 0)];
      }
      assert NodeOk(x, p, pot, at);
      if p[x] == x { return x; }
      r := Find(p[x]);
      assert NodeOk(x, p, pot, at) && NodeOk(r, p, pot, at);
      CompressKeeps(p, pot, at, x);
      pot := pot[x := pot[x] + pot[p[x]]];
      p := p[x := r];
    }

    method Potential(x: K) returns (v: real)
      requires Valid()
      modifies this
      ensures Valid() && top == old(top)
      ensures at == if x in old(at) then old(at) else old(at)[x := Place(x, 0.0, 0)]
      ensures x in at && v == at[x].phi
    {
      var r := Find(x);
      v := pot[x];
    }

    /** Hangs the root rb below the root ra with potential w. */
    method Link(ra: K, rb: K, w: real)
      requires Valid() && ra in at && rb in at && at[ra].root == ra && at[rb].root == rb && ra != rb
      modifies this
      ensures Valid() && at == Rerooted(old(at), ra, rb, w)
    {
      LinkKeeps(p, pot, at, ra, rb, w);
      p, pot := p[rb := ra], pot[rb := w];
      at := Rerooted(at, ra, rb, w);
      top := if top < at[ra].rank then at[ra].rank else top;
    }
  }
}

/** Gluing obstruction: overlapping regions impose offsets on a symbol; the offsets glue
    when one potential per region explains all of them. */
module Cohomology {
  import opened UnionFind
  import opened Reals

  datatype Overlap = Overlap(a: string, b: string, sym: string, offset: real)

  datatype Cocycle = Cocycle(sym: string, loop: seq<string>, discrepancy: real)

  const TOLERANCE: real := 0.000000001

  // ----- meaning -----

  function Endpoints(os: seq<Overlap>): set<string> {
    if os == [] then {}
    else Endpoints(os[..|os| - 1]) + {os[|os| - 1].a, os[|os| - 1].b}
  }

  /** The region potentials g explain every offset. */
  ghost predicate Fits(g: string -> real, os: seq<Overlap>) {
    forall o :: o in os ==> g(o.b) - g(o.a) == o.offset
  }

  ghost predicate NearlyFits(g: string -> real, os: seq<Overlap>) {
    forall o :: o in os ==> AbsOf(o.offset - (g(o.b) - g(o.a))) <= 0.000000001
  }

  ghost predicate Solvable(os: seq<Overlap>) {
    exists g: string -> real :: Fits(g, os)
  }

  ghost predicate NearlySolvable(os: seq<Overlap>) {
    exists g: string -> real :: NearlyFits(g, os)
  }

  function Steps(k: int, g: real): real { k as real * g }

  ghost predicate Multiple(r: real, g: real) { exists k: int :: r == Steps(k, g) }

  /** Every offset is a multiple of the grain g. */
  ghost predicate Grained(os: seq<Overlap>, g: real) {
    forall o :: o in os ==> Multiple(o.offset, g)
  }

  ghost predicate Constant(colour: string -> bool, os: seq<Overlap>) {
    forall o :: o in os ==> colour(o.a) == colour(o.b)
  }

  /** No two-colouring that every overlap respects separates x from y. */
  ghost predicate Linked(os: seq<Overlap>, x: string, y: string) {
    forall colour: string -> bool :: Constant(colour, os) ==> colour(x) == colour(y)
  }

  ghost function Component(os: seq<Overlap>, x: string): set<string> {
    set y | y in Endpoints(os) && Linked(os, x, y)
  }

  ghost function Components(os: seq<Overlap>): set<set<string>> {
    set x | x in Endpoints(os) :: Component(os, x)
  }

  // ----- the union-find's state explains the overlaps seen so far -----

  type Places = map<string, Place<string>>

  ghost function Roots(at: Places): set<string> {
    set x | x in at && at[x].root == x
  }

  ghost predicate RootOk(at: Places, x: string)
    requires x in at
  {
    at[x].root in at && at[at[x].root].root == at[x].root
  }

  ghost predicate RootsOk(at: Places) {
    forall x {:trigger RootOk(at, x)} :: x in at ==> RootOk(at, x)
  }

  ghost predicate Explains(g: string -> real, at: Places) {
    forall x :: x in at ==> g(x) - g(at[x].root) == at[x].phi
  }

  ghost predicate Colours(colour: string -> bool, at: Places) {
    forall x :: x in at ==> colour(x) == colour(at[x].root)
  }

  /** at joins exactly the endpoints of os, and every overlap lies inside a component. */
  ghost predicate Joins(os: seq<Overlap>, at: Places) {
    && at.Keys == Endpoints(os)
    && forall o :: o in os ==> o.a in at && o.b in at && at[o.a].root == at[o.b].root
  }

  ghost predicate TreeFits(tree: seq<Overlap>, at: Places) {
    forall o :: o in tree ==>
      o.a in at && o.b in at && at[o.a].root == at[o.b].root && at[o.b].phi - at[o.a].phi == o.offset
  }

  /** Potentials that fit the tree edges are forced inside each component. */
  ghost predicate Forced(tree: seq<Overlap>, at: Places) {
    forall g: string -> real :: Fits(g, tree) ==> Explains(g, at)
  }

  /** The tree edges hold each component together. */
  ghost predicate Spanned(tree: seq<Overlap>, at: Places) {
    forall colour: string -> bool :: Constant(colour, tree) ==> Colours(colour, at)
  }

  ghost predicate GrainedPlaces(at: Places, g: real) { forall x :: x in at ==> Multiple(at[x].phi, g) }

  /** Potentials have every grain that the tree edges have. */
  ghost predicate GrainKept(tree: seq<Overlap>, at: Places) {
    forall g: real :: Grained(tree, g) ==> GrainedPlaces(at, g)
  }

  ghost predicate Spans(tree: seq<Overlap>, at: Places) {
    && RootsOk(at) && TreeFits(tree, at) && Forced(tree, at) && Spanned(tree, at) && GrainKept(tree, at)
    && |Roots(at)| + |tree| == |at|
  }

  ghost function Enter(at: Places, x: string): (r: Places)
    ensures x in r && r.Keys == at.Keys + {x}
    ensures forall y :: y in at ==> r[y] == at[y]
    ensures x !in at ==> r[x] == Place(x, 0.0, 0)
  {
    if x in at then at else at[x := Place(x, 0.0, 0)]
  }

  lemma EnterRoots(at: Places, x: string)
    requires RootsOk(at)
    ensures RootsOk(Enter(at, x))
  {
    var at1 := Enter(at, x);
    forall y | y in at1
      ensures RootOk(at1, y)
    {
      if y in at { assert RootOk(at, y); }
    }
  }

  lemma EnterCount(at: Places, x: string)
    requires RootsOk(at)
    ensures |Roots(Enter(at, x))| - |Roots(at)| == |Enter(at, x)| - |at|
  {
    if x !in at {
      var at1 := Enter(at, x);
      assert Roots(at1) == Roots(at) + {x};
    }
  }

  lemma EnterSpans(tree: seq<Overlap>, at: Places, x: string)
    requires Spans(tree, at)
    ensures Spans(tree, Enter(at, x))
  {
    var at1 := Enter(at, x);
    EnterRoots(at, x);
    EnterCount(at, x);
    forall g: string -> real | Fits(g, tree)
      ensures Explains(g, at1)
    {
      assert Explains(g, at);
    }
    forall colour: string -> bool | Constant(colour, tree)
      ensures Colours(colour, at1)
    {
      assert Colours(colour, at);
    }
    forall g: real | Grained(tree, g)
      ensures GrainedPlaces(at1, g)
    {
      assert GrainedPlaces(at, g);
      ZeroMultiple(g);
    }
  }

  lemma ZeroMultiple(g: real)
    ensures Multiple(0.0, g)
  {
    assert 0.0 == Steps(0, g);
  }

  ghost function Linkage(at: Places, o: Overlap): (r: Places)
    requires o.a in at && o.b in at && RootsOk(at)
    ensures r.Keys == at.Keys
  {
    assert RootOk(at, o.a) && RootOk(at, o.b);
    Rerooted(at, at[o.a].root, at[o.b].root, at[o.a].phi + o.offset - at[o.b].phi)
  }

  lemma LinkForced(tree: seq<Overlap>, at: Places, o: Overlap)
    requires RootsOk(at) && Forced(tree, at) && o.a in at && o.b in at && at[o.a].root != at[o.b].root
    ensures Forced(tree + [o], Linkage(at, o))
  {
    var tree' := tree + [o];
    assert o in tree' && forall e :: e in tree ==> e in tree';
    forall g: string -> real | Fits(g, tree')
      ensures Explains(g, Linkage(at, o))
    {
      assert Fits(g, tree);
      assert Explains(g, at);
      assert g(o.b) - g(o.a) == o.offset;
    }
  }

  lemma LinkSpanned(tree: seq<Overlap>, at: Places, o: Overlap)
    requires RootsOk(at) && Spanned(tree, at) && o.a in at && o.b in at && at[o.a].root != at[o.b].root
    ensures Spanned(tree + [o], Linkage(at, o))
  {
    var tree' := tree + [o];
    assert o in tree' && forall e :: e in tree ==> e in tree';
    forall colour: string -> bool | Constant(colour, tree')
      ensures Colours(colour, Linkage(at, o))
    {
      assert Constant(colour, tree);
      assert Colours(colour, at);
      assert colour(o.a) == colour(o.b);
    }
  }

  lemma StepsSum(i: int, j: int, k: int, g: real)
    ensures Steps(i, g) + Steps(j, g) - Steps(k, g) == Steps(i + j - k, g)
  {
  }

  lemma MultipleSum(x: real, y: real, z: real, g: real)
    requires Multiple(x, g) && Multiple(y, g) && Multiple(z, g)
    ensures Multiple(x + y - z, g)
  {
    var i, j, k :| x == Steps(i, g) && y == Steps(j, g) && z == Steps(k, g);
    hide Steps;
    StepsSum(i, j, k, g);
  }

  lemma LinkGrain(tree: seq<Overlap>, at: Places, o: Overlap, g: real)
    requires RootsOk(at) && GrainedPlaces(at, g) && Multiple(o.offset, g)
    requires o.a in at && o.b in at && at[o.a].root != at[o.b].root
    ensures GrainedPlaces(Linkage(at, o), g)
  {
    hide Multiple;
    var w := at[o.a].phi + o.offset - at[o.b].phi;
    MultipleSum(at[o.a].phi, o.offset, at[o.b].phi, g);
    ZeroMultiple(g);
    forall x | x in at
      ensures Multiple(Linkage(at, o)[x].phi, g)
    {
      MultipleSum(at[x].phi, w, 0.0, g);
    }
  }

  lemma LinkKeepsGrain(tree: seq<Overlap>, at: Places, o: Overlap)
    requires RootsOk(at) && GrainKept(tree, at) && o.a in at && o.b in at && at[o.a].root != at[o.b].root
    ensures GrainKept(tree + [o], Linkage(at, o))
  {
    hide Multiple;
    var tree' := tree + [o];
    assert o in tree' && forall e :: e in tree ==> e in tree';
    forall g: real | Grained(tree', g)
      ensures GrainedPlaces(Linkage(at, o), g)
    {
      assert Grained(tree, g);
      LinkGrain(tree, at, o, g);
    }
  }

  lemma LinkRoots(at: Places, o: Overlap)
    requires RootsOk(at) && o.a in at && o.b in at && at[o.a].root != at[o.b].root
    ensures RootsOk(Linkage(at, o)) && |Roots(Linkage(at, o))| == |Roots(at)| - 1
  {
    var at' := Linkage(at, o);
    assert RootOk(at, o.a) && RootOk(at, o.b);
    forall x | x in at'
      ensures RootOk(at', x)
    {
      assert RootOk(at, x);
    }
    assert Roots(at') == Roots(at) - {at[o.b].root};
  }

  /** Joining two components by the offset between them keeps everything, with one root less. */
  lemma LinkSpans(tree: seq<Overlap>, at: Places, o: Overlap)
    requires Spans(tree, at) && o.a in at && o.b in at && at[o.a].root != at[o.b].root
    ensures Spans(tree + [o], Linkage(at, o))
  {
    LinkForced(tree, at, o);
    LinkSpanned(tree, at, o);
    LinkKeepsGrain(tree, at, o);
    LinkRoots(at, o);
  }

  /** os is split into tree and back. */
  ghost predicate Sorted(os: seq<Overlap>, tree: seq<Overlap>, back: seq<Overlap>) {
    && (forall o :: o in tree ==> o in os) && (forall o :: o in back ==> o in os)
    && (forall o :: o in os ==> o in tree || o in back)
    && |os| == |tree| + |back|
  }

  /** What a finished union-find proves about the overlaps: the offsets glue exactly when
      the forced potentials fit the overlaps that closed a cycle. */
  ghost predicate Tracks(os: seq<Overlap>, tree: seq<Overlap>, back: seq<Overlap>, at: Places) {
    && Joins(os, at) && Spans(tree, at)
    && Sorted(os, tree, back)
  }

  ghost function PhiOf(at: Places): string -> real {
    x => if x in at then at[x].phi else 0.0
  }

  /** The discrepancy of a back edge under the forced potentials. */
  ghost function Discrepancy(at: Places, o: Overlap): real
    requires o.a in at && o.b in at
  {
    o.offset - (at[o.b].phi - at[o.a].phi)
  }

  /** Any potentials that fit the tree leave each overlap the same discrepancy. */
  lemma DiscrepancyForced(os: seq<Overlap>, tree: seq<Overlap>, back: seq<Overlap>, at: Places,
                          g: string -> real, o: Overlap)
    requires Tracks(os, tree, back, at) && Fits(g, tree) && o in os
    ensures Discrepancy(at, o) == o.offset - (g(o.b) - g(o.a))
  {
    assert Explains(g, at);
  }

  lemma FarMultiple(k: int, g: real)
    requires k != 0 && g > 0.0
    ensures AbsOf(Steps(k, g)) >= g
  {
    var n := if k < 0 then -k else k;
    assert Steps(n, g) == g + Steps(n - 1, g) && Steps(n - 1, g) >= 0.0;
  }

  /** Between zero and the tolerance there is no multiple of a grain beyond it. */
  lemma NoSmallMultiple(r: real, g: real)
    requires g > TOLERANCE && Multiple(r, g) && AbsOf(r) <= TOLERANCE
    ensures r == 0.0
  {
    var k :| r == Steps(k, g);
    if k == 0 {
      assert Steps(0, g) == 0.0;
    } else {
      FarMultiple(k, g);
    }
  }

  ghost predicate AllZero(back: seq<Overlap>, at: Places)
    requires forall o :: o in back ==> o.a in at && o.b in at
  {
    forall o :: o in back ==> Discrepancy(at, o) == 0.0
  }

  ghost predicate AllSmall(back: seq<Overlap>, at: Places)
    requires forall o :: o in back ==> o.a in at && o.b in at
  {
    forall o :: o in back ==> AbsOf(Discrepancy(at, o)) <= TOLERANCE
  }

  /** The offsets glue exactly when no overlap that closed a cycle shows a discrepancy. */
  lemma GluingTest(os: seq<Overlap>, tree: seq<Overlap>, back: seq<Overlap>, at: Places)
    requires Tracks(os, tree, back, at)
    ensures Solvable(os) <==> AllZero(back, at)
  {
    if g: string -> real :| Fits(g, os) {
      assert Fits(g, tree);
      forall o | o in back
        ensures Discrepancy(at, o) == 0.0
      {
        DiscrepancyForced(os, tree, back, at, g, o);
      }
    }
    if AllZero(back, at) {
      var phi := PhiOf(at);
      forall o | o in os
        ensures phi(o.b) - phi(o.a) == o.offset
      {
        if o in back { assert Discrepancy(at, o) == 0.0; }
      }
      assert Fits(phi, os);
    }
  }

  lemma NearGluing(os: seq<Overlap>, tree: seq<Overlap>, back: seq<Overlap>, at: Places)
    requires Tracks(os, tree, back, at) && AllSmall(back, at)
    ensures NearlySolvable(os)
  {
    var phi := PhiOf(at);
    forall o | o in os
      ensures AbsOf(o.offset - (phi(o.b) - phi(o.a))) <= TOLERANCE
    {
      assert o in tree || AbsOf(Discrepancy(at, o)) <= TOLERANCE;
    }
    assert NearlyFits(phi, os);
  }

  /** A grain beyond the tolerance leaves no room between zero and the tolerance. */
  lemma GrainedGluing(os: seq<Overlap>, tree: seq<Overlap>, back: seq<Overlap>, at: Places, g: real)
    requires Tracks(os, tree, back, at) && Grained(os, g) && g > TOLERANCE
    ensures AllSmall(back, at) <==> AllZero(back, at)
  {
    hide Multiple;
    assert Grained(tree, g);
    assert GrainedPlaces(at, g);
    forall o | o in back
      ensures AbsOf(Discrepancy(at, o)) <= TOLERANCE <==> Discrepancy(at, o) == 0.0
    {
      MultipleSum(o.offset, at[o.a].phi, at[o.b].phi, g);
      if AbsOf(Discrepancy(at, o)) <= TOLERANCE { NoSmallMultiple(Discrepancy(at, o), g); }
    }
  }

  /** Two regions have one root exactly when the overlaps link them. */
  lemma RootsAreComponents(os: seq<Overlap>, tree: seq<Overlap>, back: seq<Overlap>, at: Places, x: string, y: string)
    requires Tracks(os, tree, back, at) && x in at && y in at
    ensures at[x].root == at[y].root <==> Linked(os, x, y)
  {
    if at[x].root == at[y].root {
      forall colour: string -> bool | Constant(colour, os)
        ensures colour(x) == colour(y)
      {
        assert Constant(colour, tree);
        assert Colours(colour, at);
      }
    }
    if Linked(os, x, y) {
      var r := at[x].root;
      var colour := z => z in at && at[z].root == r;
      assert Constant(colour, os);
      assert colour(x) == colour(y);
    }
  }

  lemma {:induction false} InjectiveImageSize(s: set<string>, f: string -> set<string>)
    requires forall x, y :: x in s && y in s && f(x) == f(y) ==> x == y
    ensures |set x | x in s :: f(x)| == |s|
  {
    if s != {} {
      var e :| e in s;
      InjectiveImageSize(s - {e}, f);
      assert (set x | x in s :: f(x)) == (set x | x in s - {e} :: f(x)) + {f(e)};
    }
  }

  /** There are as many components as roots. */
  lemma CountComponents(os: seq<Overlap>, tree: seq<Overlap>, back: seq<Overlap>, at: Places)
    requires Tracks(os, tree, back, at)
    ensures |Components(os)| == |Roots(at)|
  {
    var f := x => Component(os, x);
    forall x, y | x in at && y in at
      ensures f(x) == f(y) <==> at[x].root == at[y].root
    {
      SameComponent(os, tree, back, at, x, y);
    }
    InjectiveImageSize(Roots(at), f);
    var images := set x | x in Roots(at) :: f(x);
    forall c | c in Components(os)
      ensures c in images
    {
      var x :| x in Endpoints(os) && c == Component(os, x);
      assert RootOk(at, x);
      assert at[x].root in Roots(at) && f(at[x].root) == f(x);
    }
    assert images == Components(os);
  }

  lemma SameComponent(os: seq<Overlap>, tree: seq<Overlap>, back: seq<Overlap>, at: Places, x: string, y: string)
    requires Tracks(os, tree, back, at) && x in at && y in at
    ensures Component(os, x) == Component(os, y) <==> at[x].root == at[y].root
  {
    forall z | z in at
      ensures z in Component(os, x) <==> at[x].root == at[z].root
      ensures z in Component(os, y) <==> at[y].root == at[z].root
    {
      RootsAreComponents(os, tree, back, at, x, z);
      RootsAreComponents(os, tree, back, at, y, z);
    }
    assert y in Component(os, y);
  }

  // ----- one overlap at a time -----

  ghost function Entered(at: Places, o: Overlap): (r: Places)
    ensures o.a in r && o.b in r && r.Keys == at.Keys + {o.a, o.b}
    ensures forall y :: y in at ==> r[y] == at[y]
  {
    Enter(Enter(at, o.a), o.b)
  }

  // ----- the two passes over one symbol's overlaps -----

  lemma ForestRoots(p: map<string, string>, pot: map<string, real>, at: Places)
    requires Forest(p, pot, at)
    ensures RootsOk(at)
  {
    forall x | x in at
      ensures RootOk(at, x)
    {
      assert NodeOk(x, p, pot, at);
    }
  }

  method FindBoth(dsu: DSU<string>, o: Overlap) returns (ra: string, rb: string)
    requires dsu.Valid()
    modifies dsu
    ensures dsu.Valid() && dsu.at == Entered(old(dsu.at), o)
    ensures ra == dsu.at[o.a].root && rb == dsu.at[o.b].root
  {
    ra := dsu.Find(o.a);
    rb := dsu.Find(o.b);
  }

  method LinkBoth(dsu: DSU<string>, o: Overlap, ra: string, rb: string)
    requires dsu.Valid() && o.a in dsu.at && o.b in dsu.at && RootsOk(dsu.at)
    requires ra == dsu.at[o.a].root && rb == dsu.at[o.b].root && ra != rb
    modifies dsu
    ensures dsu.Valid() && dsu.at == Linkage(old(dsu.at), o)
  {
    var pa := dsu.Potential(o.a);
    var pb := dsu.Potential(o.b);
    assert RootOk(dsu.at, o.a) && RootOk(dsu.at, o.b);
    dsu.Link(ra, rb, pa + o.offset - pb);
  }

  /** Enters an overlap's regions and joins their components unless they already are one. */
  method Absorb(dsu: DSU<string>, o: Overlap) returns (joined: bool)
    requires dsu.Valid()
    modifies dsu
    ensures dsu.Valid() && RootsOk(Entered(old(dsu.at), o))
    ensures joined <==> Entered(old(dsu.at), o)[o.a].root != Entered(old(dsu.at), o)[o.b].root
    ensures dsu.at == if joined then Linkage(Entered(old(dsu.at), o), o) else Entered(old(dsu.at), o)
  {
    var ra, rb := FindBoth(dsu, o);
    ForestRoots(dsu.p, dsu.pot, dsu.at);
    joined := ra != rb;
    if joined { LinkBoth(dsu, o, ra, rb); }
  }

  /** The overlaps that joined two components, those that closed a cycle, and the final places. */
  datatype Pass = Pass(tree: seq<Overlap>, back: seq<Overlap>, at: Places)

  ghost function Run(os: seq<Overlap>): (r: Pass)
    ensures RootsOk(r.at)
  {
    if os == [] then Pass([], [], map[])
    else
      var r0 := Run(os[..|os| - 1]);
      var o := os[|os| - 1];
      EnterRoots(r0.at, o.a);
      EnterRoots(Enter(r0.at, o.a), o.b);
      var at := Entered(r0.at, o);
      if at[o.a].root == at[o.b].root then Pass(r0.tree, r0.back + [o], at)
      else
        LinkRoots(at, o);
        Pass(r0.tree + [o], r0.back, Linkage(at, o))
  }

  lemma {:induction false} RunSpans(os: seq<Overlap>)
    ensures Spans(Run(os).tree, Run(os).at)
  {
    if os == [] {
      assert Roots(Run(os).at) == {};
    } else {
      var r0, o := Run(os[..|os| - 1]), os[|os| - 1];
      RunSpans(os[..|os| - 1]);
      EnterSpans(r0.tree, r0.at, o.a);
      EnterSpans(r0.tree, Enter(r0.at, o.a), o.b);
      var at := Entered(r0.at, o);
      if at[o.a].root != at[o.b].root { LinkSpans(r0.tree, at, o); }
    }
  }

  lemma LastOr<T>(os: seq<T>, e: T)
    requires os != [] && e in os
    ensures e in os[..|os| - 1] || e == os[|os| - 1]
  {
  }

  lemma LinkageRoots(at: Places, o: Overlap, x: string)
    requires RootsOk(at) && o.a in at && o.b in at && x in at
    ensures Linkage(at, o)[x].root == if at[x].root == at[o.b].root then at[o.a].root else at[x].root
  {
    assert RootOk(at, x) && RootOk(at, o.a) && RootOk(at, o.b);
  }

  /** Absorbing an overlap never separates two nodes of one component, and joins its own. */
  lemma RunRoots(os: seq<Overlap>, x: string, y: string)
    requires os != []
    requires var o := os[|os| - 1]; x in Entered(Run(os[..|os| - 1]).at, o) && y in Entered(Run(os[..|os| - 1]).at, o)
    requires var at1 := Entered(Run(os[..|os| - 1]).at, os[|os| - 1]);
      at1[x].root == at1[y].root || (x == os[|os| - 1].a && y == os[|os| - 1].b)
    ensures x in Run(os).at && y in Run(os).at && Run(os).at[x].root == Run(os).at[y].root
  {
    var r0, o := Run(os[..|os| - 1]), os[|os| - 1];
    var at1 := Entered(r0.at, o);
    EnterRoots(r0.at, o.a);
    EnterRoots(Enter(r0.at, o.a), o.b);
    LinkageRoots(at1, o, x);
    LinkageRoots(at1, o, y);
  }

  lemma {:induction false} RunJoins(os: seq<Overlap>)
    ensures Joins(os, Run(os).at)
  {
    if os != [] {
      var r0, o := Run(os[..|os| - 1]), os[|os| - 1];
      RunJoins(os[..|os| - 1]);
      var at1, at2 := Entered(r0.at, o), Run(os).at;
      forall e | e in os
        ensures e.a in at2 && e.b in at2 && at2[e.a].root == at2[e.b].root
      {
        LastOr(os, e);
        RunRoots(os, e.a, e.b);
      }
    }
  }

  lemma {:induction false} RunSorted(os: seq<Overlap>)
    ensures Sorted(os, Run(os).tree, Run(os).back)
  {
    if os != [] {
      RunSorted(os[..|os| - 1]);
      forall e | e in os
        ensures e in Run(os).tree || e in Run(os).back
      {
        LastOr(os, e);
      }
    }
  }

  lemma RunTracks(os: seq<Overlap>)
    ensures Tracks(os, Run(os).tree, Run(os).back, Run(os).at)
  {
    RunSpans(os);
    RunJoins(os);
    RunSorted(os);
  }

  /** First pass: joins regions overlap by overlap, setting aside those that close a cycle. */
  method BuildForest(os: seq<Overlap>) returns (dsu: DSU<string>, nodes: set<string>, back: seq<Overlap>)
    ensures fresh(dsu) && dsu.Valid() && nodes == Endpoints(os)
    ensures back == Run(os).back && dsu.at == Run(os).at
  {
    dsu := new DSU();
    nodes, back := {}, [];
    var i := 0;
    while i < |os|
      invariant 0 <= i <= |os| && fresh(dsu) && dsu.Valid()
      invariant nodes == Endpoints(os[..i])
      invariant back == Run(os[..i]).back && dsu.at == Run(os[..i]).at
    {
      assert os[..i + 1][..i] == os[..i];
      nodes := nodes + {os[i].a, os[i].b};
      var joined := Absorb(dsu, os[i]);
      if !joined { back := back + [os[i]]; }
      i := i + 1;
    }
    assert os[..i] == os;
  }

  function ClassOf(o: Overlap, disc: real): Cocycle {
    Cocycle(o.sym, [o.a, o.b], disc)
  }

  /** The classes of the overlaps whose discrepancy exceeds the tolerance, in order. */
  ghost function ClassesOf(back: seq<Overlap>, at: Places): seq<Cocycle>
    requires forall o :: o in back ==> o.a in at && o.b in at
  {
    if back == [] then []
    else
      var o := back[|back| - 1];
      var front := ClassesOf(back[..|back| - 1], at);
      if AbsOf(Discrepancy(at, o)) > TOLERANCE then front + [ClassOf(o, Discrepancy(at, o))] else front
  }

  lemma {:induction false} ClassesMeaning(back: seq<Overlap>, at: Places)
    requires forall o :: o in back ==> o.a in at && o.b in at
    ensures ClassesOf(back, at) == [] <==> AllSmall(back, at)
    ensures forall c :: c in ClassesOf(back, at) ==>
      exists o :: o in back && c == ClassOf(o, Discrepancy(at, o)) && AbsOf(c.discrepancy) > TOLERANCE
    ensures forall o :: o in back && AbsOf(Discrepancy(at, o)) > TOLERANCE ==>
      ClassOf(o, Discrepancy(at, o)) in ClassesOf(back, at)
  {
    if back != [] {
      var front, o := back[..|back| - 1], back[|back| - 1];
      ClassesMeaning(front, at);
      assert back == front + [o];
      assert AllSmall(back, at) <==> AllSmall(front, at) && AbsOf(Discrepancy(at, o)) <= TOLERANCE;
    }
  }

  method Measure(dsu: DSU<string>, o: Overlap) returns (disc: real)
    requires dsu.Valid() && o.a in dsu.at && o.b in dsu.at
    modifies dsu
    ensures dsu.Valid() && dsu.at == old(dsu.at) && disc == Discrepancy(dsu.at, o)
  {
    var pb := dsu.Potential(o.b);
    var pa := dsu.Potential(o.a);
    disc := o.offset - (pb - pa);
  }

  /** Second pass: measures every set-aside overlap against the final potentials. */
  method MeasureCycles(dsu: DSU<string>, back: seq<Overlap>)
    returns (obstructed: bool, classes: seq<Cocycle>, cycles: nat)
    requires dsu.Valid() && forall o :: o in back ==> o.a in dsu.at && o.b in dsu.at
    modifies dsu
    ensures classes == ClassesOf(back, old(dsu.at)) && cycles == |back|
    ensures obstructed <==> |classes| > 0
  {
    obstructed, classes, cycles := false, [], 0;
    var i := 0;
    while i < |back|
      invariant 0 <= i <= |back| && cycles == i
      invariant dsu.Valid() && dsu.at == old(dsu.at)
      invariant classes == ClassesOf(back[..i], dsu.at)
      invariant obstructed <==> classes != []
    {
      var disc := Measure(dsu, back[i]);
      assert back[..i + 1][..i] == back[..i];
      if AbsOf(disc) > TOLERANCE {
        obstructed := true;
        classes := classes + [ClassOf(back[i], disc)];
      }
      cycles := cycles + 1;
      i := i + 1;
    }
    assert back[..i] == back;
  }

  /** c reports the overlap o: potentials that fit the tree edges all miss o's offset by
      the same amount, and that amount exceeds the tolerance. */
  ghost predicate WitnessedBy(os: seq<Overlap>, c: Cocycle, o: Overlap) {
    && c.sym == o.sym && c.loop == [o.a, o.b] && AbsOf(c.discrepancy) > 0.000000001
    && forall g: string -> real :: Fits(g, Run(os).tree) ==> c.discrepancy == o.offset - (g(o.b) - g(o.a))
  }

  lemma Witness(os: seq<Overlap>, c: Cocycle, o: Overlap)
    requires o in Run(os).back && o.a in Run(os).at && o.b in Run(os).at
    requires c == ClassOf(o, Discrepancy(Run(os).at, o)) && AbsOf(c.discrepancy) > TOLERANCE
    ensures o in os && WitnessedBy(os, c, o)
  {
    RunTracks(os);
    forall g: string -> real | Fits(g, Run(os).tree)
      ensures c.discrepancy == o.offset - (g(o.b) - g(o.a))
    {
      DiscrepancyForced(os, Run(os).tree, Run(os).back, Run(os).at, g, o);
    }
  }

  /** The classes that the two passes report for one symbol's overlaps. */
  ghost function SymbolClasses(os: seq<Overlap>): seq<Cocycle> {
    RunTracks(os);
    ClassesOf(Run(os).back, Run(os).at)
  }

  /** Some potentials fit every overlap within the tolerance except those that a class reports. */
  ghost predicate NothingHidden(os: seq<Overlap>, classes: seq<Cocycle>) {
    exists g: string -> real :: FitsUnreported(g, os, classes)
  }

  ghost predicate FitsUnreported(g: string -> real, os: seq<Overlap>, classes: seq<Cocycle>) {
    forall o :: o in os ==>
      AbsOf(o.offset - (g(o.b) - g(o.a))) <= 0.000000001 || exists c :: c in classes && WitnessedBy(os, c, o)
  }

  lemma SymbolReports(os: seq<Overlap>)
    ensures NothingHidden(os, SymbolClasses(os))
  {
    hide *;
    hide Run;
    var phi := PhiOf(Run(os).at);
    forall o | o in os
      ensures AbsOf(o.offset - (phi(o.b) - phi(o.a))) <= 0.000000001
           || exists c :: c in SymbolClasses(os) && WitnessedBy(os, c, o)
    {
      OneReported(os, o);
    }
    FitsSome(phi, os, SymbolClasses(os));
  }

  lemma FitsSome(g: string -> real, os: seq<Overlap>, classes: seq<Cocycle>)
    requires forall o :: o in os ==>
      AbsOf(o.offset - (g(o.b) - g(o.a))) <= 0.000000001 || exists c :: c in classes && WitnessedBy(os, c, o)
    ensures NothingHidden(os, classes)
  {
    hide WitnessedBy;
    assert FitsUnreported(g, os, classes);
  }

  lemma OneReported(os: seq<Overlap>, o: Overlap)
    requires o in os
    ensures var phi := PhiOf(Run(os).at);
      AbsOf(o.offset - (phi(o.b) - phi(o.a))) <= 0.000000001
      || (exists c :: c in SymbolClasses(os) && WitnessedBy(os, c, o))
  {
    var tree, back, at := Run(os).tree, Run(os).back, Run(os).at;
    RunTracks(os);
    hide Run;
    TreeOrBack(os, tree, back, at, o);
    if o in back && AbsOf(Discrepancy(at, o)) > TOLERANCE {
      hide PhiOf;
      ClassesMeaning(back, at);
      var c := ClassOf(o, Discrepancy(at, o));
      hide Tracks;
      hide Discrepancy;
      Witness(os, c, o);
    }
  }

  lemma TreeOrBack(os: seq<Overlap>, tree: seq<Overlap>, back: seq<Overlap>, at: Places, o: Overlap)
    requires Tracks(os, tree, back, at) && o in os
    ensures o.a in at && o.b in at
    ensures var phi := PhiOf(at); Discrepancy(at, o) == o.offset - (phi(o.b) - phi(o.a))
    ensures o !in back ==> Discrepancy(at, o) == 0.0
  {
  }

  /** One symbol's verdict: no class is reported when the offsets glue, and then some potentials
      fit within the tolerance. With a grain beyond the tolerance the verdict is exact. */
  lemma SymbolVerdict(os: seq<Overlap>)
    ensures Solvable(os) ==> SymbolClasses(os) == []
    ensures SymbolClasses(os) == [] ==> NearlySolvable(os)
    ensures (exists g :: g > TOLERANCE && Grained(os, g)) ==> (SymbolClasses(os) == [] <==> Solvable(os))
    ensures forall c :: c in SymbolClasses(os) ==> exists o :: o in os && WitnessedBy(os, c, o)
  {
    var tree, back, at := Run(os).tree, Run(os).back, Run(os).at;
    RunTracks(os);
    ClassesMeaning(back, at);
    GluingTest(os, tree, back, at);
    if AllSmall(back, at) { NearGluing(os, tree, back, at); }
    if g :| g > TOLERANCE && Grained(os, g) { GrainedGluing(os, tree, back, at, g); }
    forall c | c in SymbolClasses(os)
      ensures exists o :: o in os && WitnessedBy(os, c, o)
    {
      var o :| o in back && c == ClassOf(o, Discrepancy(at, o)) && AbsOf(c.discrepancy) > TOLERANCE;
      Witness(os, c, o);
    }
  }

  /** Edges - nodes + components: the number of independent cycles of the overlap graph. */
  ghost function CycleRank(os: seq<Overlap>): int {
    |os| - |Endpoints(os)| + |Components(os)|
  }

  /** As many overlaps close a cycle as the graph has independent cycles. */
  lemma CycleCount(os: seq<Overlap>)
    ensures |Run(os).back| == CycleRank(os)
  {
    RunTracks(os);
    CountComponents(os, Run(os).tree, Run(os).back, Run(os).at);
  }

  method AnalyseSymbol(os: seq<Overlap>) returns (obstructed: bool, classes: seq<Cocycle>, cycles: nat)
    ensures obstructed <==> |classes| > 0
    ensures classes == SymbolClasses(os)
    ensures cycles == |Run(os).back|
  {
    var dsu, nodes, back := BuildForest(os);
    RunTracks(os);
    obstructed, classes, cycles := MeasureCycles(dsu, back);
  }

  // ----- all symbols together -----

  datatype Summary = Summary(h0: nat, h1Rank: int, obstructed: bool, classes: seq<Cocycle>)

  /** The overlaps that speak about sym, in order. */
  function Of(overlaps: seq<Overlap>, sym: string): seq<Overlap> {
    if overlaps == [] then []
    else
      var last := overlaps[|overlaps| - 1];
      var front := Of(overlaps[..|overlaps| - 1], sym);
      if last.sym == sym then front + [last] else front
  }

  function Symbols(overlaps: seq<Overlap>): seq<string> {
    if overlaps == [] then []
    else
      var front := Symbols(overlaps[..|overlaps| - 1]);
      var last := overlaps[|overlaps| - 1].sym;
      if last in front then front else front + [last]
  }

  lemma {:induction false} OfMember(overlaps: seq<Overlap>, sym: string, o: Overlap)
    ensures o in Of(overlaps, sym) <==> o in overlaps && o.sym == sym
  {
    if overlaps != [] {
      OfMember(overlaps[..|overlaps| - 1], sym, o);
      if o in overlaps { LastOr(overlaps, o); }
    }
  }

  lemma {:induction false} SymbolsMember(overlaps: seq<Overlap>, sym: string)
    ensures sym in Symbols(overlaps) <==> Of(overlaps, sym) != []
  {
    if overlaps != [] { SymbolsMember(overlaps[..|overlaps| - 1], sym); }
  }

  /** The cycle ranks of the first i symbols' overlap graphs, added up. */
  ghost function RankSum(syms: seq<string>, overlaps: seq<Overlap>, i: nat): int
    requires i <= |syms|
  {
    if i == 0 then 0 else RankSum(syms, overlaps, i - 1) + CycleRank(Of(overlaps, syms[i - 1]))
  }

  ghost function BackSum(syms: seq<string>, overlaps: seq<Overlap>, i: nat): int
    requires i <= |syms|
  {
    if i == 0 then 0 else BackSum(syms, overlaps, i - 1) + |Run(Of(overlaps, syms[i - 1])).back|
  }

  lemma {:induction false} BackSumIsRank(syms: seq<string>, overlaps: seq<Overlap>, i: nat)
    requires i <= |syms|
    ensures BackSum(syms, overlaps, i) == RankSum(syms, overlaps, i)
  {
    if i > 0 {
      BackSumIsRank(syms, overlaps, i - 1);
      CycleCount(Of(overlaps, syms[i - 1]));
    }
  }

  /** The classes reported for the first i symbols. */
  ghost function AllClasses(syms: seq<string>, overlaps: seq<Overlap>, i: nat): seq<Cocycle>
    requires i <= |syms|
  {
    if i == 0 then [] else AllClasses(syms, overlaps, i - 1) + SymbolClasses(Of(overlaps, syms[i - 1]))
  }

  lemma {:induction false} SilentSymbol(syms: seq<string>, overlaps: seq<Overlap>, i: nat, k: nat)
    requires k < i <= |syms| && AllClasses(syms, overlaps, i) == []
    ensures SymbolClasses(Of(overlaps, syms[k])) == []
  {
    if k < i - 1 { SilentSymbol(syms, overlaps, i - 1, k); }
  }

  lemma {:induction false} ClassSource(syms: seq<string>, overlaps: seq<Overlap>, i: nat, c: Cocycle)
    returns (k: nat)
    requires i <= |syms| && c in AllClasses(syms, overlaps, i)
    ensures k < i && c in SymbolClasses(Of(overlaps, syms[k]))
  {
    k := i - 1;
    if c !in SymbolClasses(Of(overlaps, syms[k])) { k := ClassSource(syms, overlaps, i - 1, c); }
  }

  method GroupBySymbol(overlaps: seq<Overlap>) returns (syms: seq<string>, bySym: map<string, seq<Overlap>>)
    ensures syms == Symbols(overlaps)
    ensures forall k :: 0 <= k < |syms| ==> syms[k] in bySym && bySym[syms[k]] == Of(overlaps, syms[k])
  {
    syms, bySym := [], map[];
    var i := 0;
    while i < |overlaps|
      invariant 0 <= i <= |overlaps|
      invariant syms == Symbols(overlaps[..i])
      invariant forall sym :: sym in syms <==> sym in bySym
      invariant forall sym :: sym in bySym ==> bySym[sym] == Of(overlaps[..i], sym)
    {
      var o := overlaps[i];
      assert overlaps[..i + 1][..i] == overlaps[..i];
      SymbolsMember(overlaps[..i], o.sym);
      if o.sym in bySym {
        bySym := bySym[o.sym := bySym[o.sym] + [o]];
      } else {
        bySym := bySym[o.sym := [o]];
        syms := syms + [o.sym];
      }
      i := i + 1;
    }
    assert overlaps[..i] == overlaps;
  }

  ghost predicate Glues(overlaps: seq<Overlap>, sym: string) {
    Solvable(Of(overlaps, sym))
  }

  ghost predicate NearlyGlues(overlaps: seq<Overlap>, sym: string) {
    NearlySolvable(Of(overlaps, sym))
  }

  ghost predicate Reported(overlaps: seq<Overlap>, c: Cocycle) {
    exists o :: o in Of(overlaps, c.sym) && WitnessedBy(Of(overlaps, c.sym), c, o)
  }

  lemma GrainedOf(overlaps: seq<Overlap>, sym: string, g: real)
    requires Grained(overlaps, g)
    ensures Grained(Of(overlaps, sym), g)
  {
    forall o | o in Of(overlaps, sym)
      ensures Multiple(o.offset, g)
    {
      OfMember(overlaps, sym, o);
    }
  }

  ghost predicate BeyondTolerance(overlaps: seq<Overlap>) { exists g :: g > 0.000000001 && Grained(overlaps, g) }

  /** SymbolVerdict on one symbol of the whole list. */
  lemma OneVerdict(overlaps: seq<Overlap>, sym: string)
    ensures Glues(overlaps, sym) ==> SymbolClasses(Of(overlaps, sym)) == []
    ensures SymbolClasses(Of(overlaps, sym)) == [] ==> NearlyGlues(overlaps, sym)
    ensures BeyondTolerance(overlaps) ==> (SymbolClasses(Of(overlaps, sym)) == [] <==> Glues(overlaps, sym))
    ensures forall c :: c in SymbolClasses(Of(overlaps, sym)) ==> Reported(overlaps, c)
  {
    SymbolVerdict(Of(overlaps, sym));
    if g :| g > TOLERANCE && Grained(overlaps, g) { GrainedOf(overlaps, sym, g); }
    forall c | c in SymbolClasses(Of(overlaps, sym))
      ensures Reported(overlaps, c)
    {
      var o :| o in Of(overlaps, sym) && WitnessedBy(Of(overlaps, sym), c, o);
      OfMember(overlaps, sym, o);
    }
  }

  ghost predicate AllGlue(overlaps: seq<Overlap>) { forall sym :: sym in Symbols(overlaps) ==> Glues(overlaps, sym) }

  ghost function Classes(overlaps: seq<Overlap>): seq<Cocycle> {
    AllClasses(Symbols(overlaps), overlaps, |Symbols(overlaps)|)
  }

  lemma {:induction false} ClassesPart(syms: seq<string>, overlaps: seq<Overlap>, i: nat, k: nat, c: Cocycle)
    requires k < i <= |syms| && c in SymbolClasses(Of(overlaps, syms[k]))
    ensures c in AllClasses(syms, overlaps, i)
  {
    hide SymbolClasses;
    hide Of;
    if k < i - 1 { ClassesPart(syms, overlaps, i - 1, k, c); }
  }

  /** What a symbol's overlaps have reported is reported. */
  lemma AllReported(overlaps: seq<Overlap>, sym: string)
    requires sym in Symbols(overlaps)
    ensures NothingHidden(Of(overlaps, sym), Classes(overlaps))
  {
    hide SymbolClasses;
    hide WitnessedBy;
    var syms, os := Symbols(overlaps), Of(overlaps, sym);
    SymbolReports(os);
    var k :| 0 <= k < |syms| && syms[k] == sym;
    forall c | c in SymbolClasses(os) ensures c in Classes(overlaps) {
      ClassesPart(syms, overlaps, |syms|, k, c);
    }
    var g :| FitsUnreported(g, os, SymbolClasses(os));
    assert FitsUnreported(g, os, Classes(overlaps));
  }

  /** The verdict over all symbols: gluing offsets are never reported, silence means that
      every symbol has potentials within the tolerance, and offsets with a grain beyond it are
      reported exactly when some symbol has no region potentials. Every reported class is a
      real mismatch. */
  lemma CohomologyVerdict(overlaps: seq<Overlap>)
    ensures AllGlue(overlaps) ==> Classes(overlaps) == []
    ensures Classes(overlaps) == [] ==> forall sym :: sym in Symbols(overlaps) ==> NearlyGlues(overlaps, sym)
    ensures forall sym :: sym in Symbols(overlaps) ==> NothingHidden(Of(overlaps, sym), Classes(overlaps))
    ensures BeyondTolerance(overlaps) ==> (Classes(overlaps) == [] <==> AllGlue(overlaps))
    ensures forall c :: c in Classes(overlaps) ==> Reported(overlaps, c)
  {
    var syms, classes := Symbols(overlaps), Classes(overlaps);
    forall c | c in classes
      ensures exists sym :: sym in syms && SymbolClasses(Of(overlaps, sym)) != []
      ensures Reported(overlaps, c)
    {
      var k := ClassSource(syms, overlaps, |syms|, c);
      OneVerdict(overlaps, syms[k]);
    }
    assert classes != [] ==> classes[0] in classes;
    forall sym | sym in syms
      ensures classes == [] ==> SymbolClasses(Of(overlaps, sym)) == []
      ensures Glues(overlaps, sym) ==> SymbolClasses(Of(overlaps, sym)) == []
      ensures SymbolClasses(Of(overlaps, sym)) == [] ==> NearlyGlues(overlaps, sym)
      ensures BeyondTolerance(overlaps) ==> (SymbolClasses(Of(overlaps, sym)) == [] <==> Glues(overlaps, sym))
      ensures NothingHidden(Of(overlaps, sym), classes)
    {
      OneVerdict(overlaps, sym);
      AllReported(overlaps, sym);
      var k :| 0 <= k < |syms| && syms[k] == sym;
      if classes == [] { SilentSymbol(syms, overlaps, |syms|, k); }
    }
  }

  /** One overlap of a region with itself by no more than the tolerance. */
  function Slip(a: string, sym: string, x: real): seq<Overlap> { [Overlap(a, a, sym, x)] }

  lemma SlipSymbols(a: string, sym: string, x: real)
    ensures var os := Slip(a, sym, x); Of(os, sym) == os && Symbols(os) == [sym]
  {
    assert Slip(a, sym, x)[..0] == [];
  }

  lemma SlipUnsolvable(a: string, sym: string, x: real)
    requires x != 0.0
    ensures !Solvable(Slip(a, sym, x))
  {
    assert Overlap(a, a, sym, x) in Slip(a, sym, x);
  }

  lemma SlipSilent(a: string, sym: string, x: real)
    requires AbsOf(x) <= TOLERANCE
    ensures SymbolClasses(Slip(a, sym, x)) == []
  {
    hide Spans;
    hide Run;
    var os := Slip(a, sym, x);
    RunTracks(os);
    ClassesMeaning(Run(os).back, Run(os).at);
  }

  /** No potentials explain it, and it is not reported. */
  lemma SlipUnreported(a: string, sym: string, x: real)
    requires 0.0 < x <= 0.000000001
    ensures !AllGlue(Slip(a, sym, x)) && Classes(Slip(a, sym, x)) == []
  {
    hide Solvable;
    hide SymbolClasses;
    hide Of;
    hide Symbols;
    var os := Slip(a, sym, x);
    SlipSymbols(a, sym, x);
    SlipUnsolvable(a, sym, x);
    SlipSilent(a, sym, x);
    hide Slip;
    assert AllClasses([sym], os, 0) == [];
    assert Symbols(os)[0] == sym && !Glues(os, sym);
  }

  /** For offsets of one grain, silence and gluing are the same exactly when the grain is beyond
      the tolerance. */
  lemma GrainExactly(g: real, a: string, sym: string)
    requires g > 0.0
    ensures (forall overlaps :: Grained(overlaps, g) ==> (Classes(overlaps) == [] <==> AllGlue(overlaps))) <==>
      g > 0.000000001
  {
    hide Classes;
    hide AllGlue;
    if g > TOLERANCE {
      forall overlaps | Grained(overlaps, g)
        ensures Classes(overlaps) == [] <==> AllGlue(overlaps)
      {
        CohomologyVerdict(overlaps);
      }
    } else {
      var os := Slip(a, sym, g);
      assert g == Steps(1, g);
      assert Grained(os, g);
      SlipUnreported(a, sym, g);
    }
  }

  method VisitSymbol(syms: seq<string>, overlaps: seq<Overlap>, i: nat, os: seq<Overlap>,
                     rank0: int, obstructed0: bool, classes0: seq<Cocycle>)
    returns (rank: int, obstructed: bool, classes: seq<Cocycle>)
    requires i < |syms| && os == Of(overlaps, syms[i])
    requires rank0 == BackSum(syms, overlaps, i) && classes0 == AllClasses(syms, overlaps, i)
    requires obstructed0 <==> |classes0| > 0
    ensures rank == BackSum(syms, overlaps, i + 1) && classes == AllClasses(syms, overlaps, i + 1)
    ensures obstructed <==> |classes| > 0
  {
    var bad, found, cycles := AnalyseSymbol(os);
    rank := rank0 + cycles;
    obstructed := obstructed0 || bad;
    classes := classes0 + found;
  }

  lemma Nothing(syms: seq<string>, overlaps: seq<Overlap>)
    ensures BackSum(syms, overlaps, 0) == 0 && AllClasses(syms, overlaps, 0) == []
  {
  }

  lemma AllOfThem(overlaps: seq<Overlap>)
    ensures Classes(overlaps) == AllClasses(Symbols(overlaps), overlaps, |Symbols(overlaps)|)
  {
  }

  method Cohomology(regions: seq<string>, overlaps: seq<Overlap>) returns (h: Summary)
    ensures h.h0 == |regions|
    ensures h.h1Rank == RankSum(Symbols(overlaps), overlaps, |Symbols(overlaps)|)
    ensures h.classes == Classes(overlaps)
    ensures h.obstructed <==> |h.classes| > 0
  {
    hide *;
    var syms, bySym := GroupBySymbol(overlaps);
    Nothing(syms, overlaps);
    var obstructed, rank := false, 0;
    var classes: seq<Cocycle> := [];
    var i := 0;
    while i < |syms|
      invariant 0 <= i <= |syms|
      invariant rank == BackSum(syms, overlaps, i)
      invariant classes == AllClasses(syms, overlaps, i)
      invariant obstructed <==> |classes| > 0
    {
      rank, obstructed, classes := VisitSymbol(syms, overlaps, i, bySym[syms[i]], rank, obstructed, classes);
      i := i + 1;
    }
    BackSumIsRank(syms, overlaps, |syms|);
    AllOfThem(overlaps);
    h := Summary(|regions|, rank, obstructed, classes);
  }
}
