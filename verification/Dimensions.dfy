/** Dimensional inference: a system of integer equations over the seven base
    dimensions, decided through the Smith normal form. */
module Dimensions {
  import opened Division
  import opened Matrices
  import opened SmithForm

  const AXES: nat := 7

  type Dim = d: seq<int> | |d| == 7 witness [0, 0, 0, 0, 0, 0, 0]

  const NONE: Dim := [0, 0, 0, 0, 0, 0, 0]

  datatype Term = Term(sym: nat, coef: int)

  datatype DimConstraint = DimConstraint(terms: seq<Term>, rhs: Dim)

  datatype DimResult = DimResult(dims: map<string, Dim>, consistent: bool, clashes: seq<string>)

  // ----- meaning -----

  function TermSum(terms: seq<Term>, val: seq<Dim>, k: nat): int
    requires k < AXES && forall t :: t in terms ==> t.sym < |val|
  {
    if terms == [] then 0
    else
      var last := terms[|terms| - 1];
      TermSum(terms[..|terms| - 1], val, k) + last.coef * val[last.sym][k]
  }

  /** The constraint's weighted dimensions and its constant cancel on every axis. */
  ghost predicate Holds(c: DimConstraint, val: seq<Dim>)
    requires forall t :: t in c.terms ==> t.sym < |val|
  {
    forall k :: 0 <= k < AXES ==> TermSum(c.terms, val, k) + c.rhs[k] == 0
  }

  ghost predicate WellFormed(n: nat, cons: seq<DimConstraint>, known: map<nat, Dim>) {
    && (forall r :: 0 <= r < |cons| ==> forall t :: t in cons[r].terms ==> t.sym < n)
    && (forall s :: s in known ==> s < n)
  }

  ghost predicate Solution(n: nat, cons: seq<DimConstraint>, known: map<nat, Dim>, val: seq<Dim>)
    requires WellFormed(n, cons, known)
  {
    && |val| == n
    && (forall s :: s in known ==> val[s] == known[s])
    && (forall r :: 0 <= r < |cons| ==> Holds(cons[r], val))
  }

  /** Two solutions give symbol s different dimensions. */
  ghost predicate Varies(n: nat, cons: seq<DimConstraint>, known: map<nat, Dim>, s: nat)
    requires WellFormed(n, cons, known) && s < n
  {
    exists val1, val2 ::
      Solution(n, cons, known, val1) && Solution(n, cons, known, val2) && val1[s] != val2[s]
  }

  /** The graph that the extraction layer fills in. */
  class DimGraph {
    var syms: seq<string>
    var idx: map<string, nat>
    var cons: seq<DimConstraint>
    var known: map<nat, Dim>

    ghost predicate Valid()
      reads this
    {
      && WellFormed(|syms|, cons, known)
      && (forall i :: 0 <= i < |syms| ==> syms[i] in idx && idx[syms[i]] == i)
      && (forall name :: name in idx ==> idx[name] < |syms| && syms[idx[name]] == name)
    }

    constructor ()
      ensures Valid() && syms == [] && cons == [] && known == map[]
    {
      syms, idx, cons, known := [], map[], [], map[];
    }

    method Sym(name: string) returns (i: nat)
      requires Valid()
      modifies this
      ensures Valid() && i < |syms| && syms[i] == name
      ensures cons == old(cons) && known == old(known)
      ensures syms == if name in old(idx) then old(syms) else old(syms) + [name]
    {
      if name in idx { return idx[name]; }
      i := |syms|;
      idx := idx[name := i];
      syms := syms + [name];
    }

    /** dim(a) = dim(b) */
    method AddEq(a: nat, b: nat)
      requires Valid() && a < |syms| && b < |syms|
      modifies this
      ensures Valid() && syms == old(syms) && known == old(known)
      ensures |cons| == |old(cons)| + 1 && cons[..|old(cons)|] == old(cons)
      ensures cons[|old(cons)|].rhs == NONE
      ensures forall val: seq<Dim> :: |val| == |syms| ==> (Holds(cons[|old(cons)|], val) <==> val[a] == val[b])
    {
      var c := DimConstraint([Term(a, 1), Term(b, -1)], NONE);
      forall val: seq<Dim> | |val| == |syms|
        ensures Holds(c, val) <==> val[a] == val[b]
      {
        EqMeaning(a, b, val);
      }
      cons := cons + [c];
    }

    /** dim(out) = sum of coef * dim(sym) over ins */
    method AddCombo(out: nat, ins: seq<Term>)
      requires Valid() && out < |syms| && forall t :: t in ins ==> t.sym < |syms|
      modifies this
      ensures Valid() && syms == old(syms) && known == old(known)
      ensures |cons| == |old(cons)| + 1 && cons[..|old(cons)|] == old(cons)
      ensures cons[|old(cons)|].rhs == NONE
      ensures forall val: seq<Dim> :: |val| == |syms| ==>
        (Holds(cons[|old(cons)|], val) <==> forall k :: 0 <= k < AXES ==> val[out][k] == TermSum(ins, val, k))
    {
      var terms := [Term(out, 1)];
      var i := 0;
      while i < |ins|
        invariant 0 <= i <= |ins|
        invariant terms == ComboTerms(out, ins[..i])
      {
        assert ins[..i + 1][..i] == ins[..i];
        terms := terms + [Term(ins[i].sym, -ins[i].coef)];
        i := i + 1;
      }
      assert ins[..i] == ins;
      var c := DimConstraint(terms, NONE);
      ComboInRange(out, ins, |syms|);
      forall val: seq<Dim> | |val| == |syms|
        ensures Holds(c, val) <==> forall k :: 0 <= k < AXES ==> val[out][k] == TermSum(ins, val, k)
      {
        forall k | 0 <= k < AXES
          ensures TermSum(terms, val, k) == val[out][k] - TermSum(ins, val, k)
        {
          ComboMeaning(out, ins, val, k);
        }
      }
      cons := cons + [c];
    }

    method SetKnown(s: nat, d: Dim)
      requires Valid() && s < |syms|
      modifies this
      ensures Valid() && syms == old(syms) && cons == old(cons) && known == old(known)[s := d]
    {
      known := known[s := d];
    }
  }

  function ComboTerms(out: nat, ins: seq<Term>): seq<Term> {
    if ins == [] then [Term(out, 1)]
    else
      var last := ins[|ins| - 1];
      ComboTerms(out, ins[..|ins| - 1]) + [Term(last.sym, -last.coef)]
  }

  lemma {:induction false} ComboInRange(out: nat, ins: seq<Term>, n: nat)
    requires out < n && forall t :: t in ins ==> t.sym < n
    ensures forall t :: t in ComboTerms(out, ins) ==> t.sym < n
  {
    if ins != [] { ComboInRange(out, ins[..|ins| - 1], n); }
  }

  lemma {:induction false} ComboMeaning(out: nat, ins: seq<Term>, val: seq<Dim>, k: nat)
    requires k < AXES && out < |val| && forall t :: t in ins ==> t.sym < |val|
    requires forall t :: t in ComboTerms(out, ins) ==> t.sym < |val|
    ensures TermSum(ComboTerms(out, ins), val, k) == val[out][k] - TermSum(ins, val, k)
  {
    var all := ComboTerms(out, ins);
    if ins == [] {
      assert all[..0] == [];
    } else {
      ComboInRange(out, ins[..|ins| - 1], |val|);
      ComboMeaning(out, ins[..|ins| - 1], val, k);
      assert all[..|all| - 1] == ComboTerms(out, ins[..|ins| - 1]);
    }
  }

  lemma EqMeaning(a: nat, b: nat, val: seq<Dim>)
    requires a < |val| && b < |val|
    ensures Holds(DimConstraint([Term(a, 1), Term(b, -1)], NONE), val) <==> val[a] == val[b]
  {
    var terms := [Term(a, 1), Term(b, -1)];
    forall k | 0 <= k < AXES
      ensures TermSum(terms, val, k) == val[a][k] - val[b][k]
    {
      var first := [Term(a, 1)];
      assert terms[..1] == first && first[..0] == [];
      assert TermSum(first, val, k) == val[a][k];
    }
  }

  // ----- linear systems over the integers -----

  ghost predicate Solves(a: Mat, b: Mat, x: Mat, n: nat)
    requires IsMat(a, |a|, n)
  {
    IsMat(x, n, AXES) && Mul(a, x, AXES) == b
  }

  /** What makes row i of d * y == c solvable on axis k, for a diagonal d. */
  ghost predicate RowSolvable(d: Mat, c: Mat, m: nat, n: nat, i: nat, k: nat)
    requires IsMat(d, m, n) && IsMat(c, m, AXES) && i < m && k < AXES
  {
    if i < n && d[i][i] != 0 then Divides(d[i][i], c[i][k]) else c[i][k] == 0
  }

  lemma DiagonalProduct(d: Mat, y: Mat, m: nat, n: nat, i: nat, k: nat)
    requires Diagonal(d, m, n) && IsMat(y, n, AXES) && i < m && k < AXES
    ensures Mul(d, y, AXES)[i][k] == if i < n then d[i][i] * y[i][k] else 0
  {
    if i < n {
      DotSingle(d[i], Col(y, k), i);
    } else {
      DotZero(d[i], Col(y, k));
    }
  }

  /** A solution x of a * x == b is v * y for a solution y of the diagonal system. */
  lemma ToDiagonal(a: Mat, s: Smith, m: nat, n: nat, b: Mat, x: Mat, vi: Mat)
    requires IsSmith(a, s, m, n) && Inverses(s.v, vi, n) && IsMat(b, m, AXES) && Solves(a, b, x, n)
    ensures IsMat(Mul(vi, x, AXES), n, AXES)
    ensures Mul(s.d, Mul(vi, x, AXES), AXES) == Mul(s.u, b, AXES)
    ensures Mul(s.v, Mul(vi, x, AXES), AXES) == x
  {
    var y := Mul(vi, x, AXES);
    var ua := Mul(s.u, a, n);
    MulAssoc(s.v, vi, x, AXES);
    IdentLeft(x, AXES);
    MulAssoc(ua, s.v, y, AXES);
    MulAssoc(s.u, a, x, AXES);
  }

  /** Conversely every solution y of the diagonal system yields the solution v * y. */
  lemma FromDiagonal(a: Mat, s: Smith, m: nat, n: nat, b: Mat, y: Mat)
    requires IsSmith(a, s, m, n) && IsMat(b, m, AXES) && IsMat(y, n, AXES)
    requires Mul(s.d, y, AXES) == Mul(s.u, b, AXES)
    ensures Solves(a, b, Mul(s.v, y, AXES), n)
  {
    var ui :| Inverses(s.u, ui, m);
    var x := Mul(s.v, y, AXES);
    var ua := Mul(s.u, a, n);
    MulAssoc(ua, s.v, y, AXES);
    MulAssoc(s.u, a, x, AXES);
    MulAssoc(ui, s.u, Mul(a, x, AXES), AXES);
    MulAssoc(ui, s.u, b, AXES);
    IdentLeft(Mul(a, x, AXES), AXES);
    IdentLeft(b, AXES);
  }

  /** A solvable system passes the divisibility test on every row and axis. */
  lemma SolvableRows(a: Mat, s: Smith, m: nat, n: nat, b: Mat, x: Mat, i: nat, k: nat)
    requires IsSmith(a, s, m, n) && IsMat(b, m, AXES) && Solves(a, b, x, n) && i < m && k < AXES
    ensures RowSolvable(s.d, Mul(s.u, b, AXES), m, n, i, k)
  {
    var vi :| Inverses(s.v, vi, n);
    ToDiagonal(a, s, m, n, b, x, vi);
    var y := Mul(vi, x, AXES);
    DiagonalProduct(s.d, y, m, n, i, k);
    if i < n {
      assert Mul(s.u, b, AXES)[i][k] == Times(s.d[i][i], y[i][k]);
    }
  }

  /** y solves the diagonal system when each row does. */
  lemma DiagonalSolved(d: Mat, y: Mat, c: Mat, m: nat, n: nat)
    requires Diagonal(d, m, n) && IsMat(y, n, AXES) && IsMat(c, m, AXES)
    requires forall i, k :: 0 <= i < m && 0 <= k < AXES ==> c[i][k] == if i < n then d[i][i] * y[i][k] else 0
    ensures Mul(d, y, AXES) == c
  {
    forall i | 0 <= i < m
      ensures Mul(d, y, AXES)[i] == c[i]
    {
      forall k | 0 <= k < AXES
        ensures Mul(d, y, AXES)[i][k] == c[i][k]
      {
        DiagonalProduct(d, y, m, n, i, k);
      }
    }
  }

  predicate Free(d: Mat, m: nat, n: nat, i: nat)
    requires IsMat(d, m, n) && i < n
  {
    i >= m || d[i][i] == 0
  }

  /** Two solutions of the diagonal system agree away from the free coordinates. */
  lemma PinnedAgree(d: Mat, y: Mat, z: Mat, m: nat, n: nat, i: nat)
    requires Diagonal(d, m, n) && IsMat(y, n, AXES) && IsMat(z, n, AXES) && i < n
    requires Mul(d, y, AXES) == Mul(d, z, AXES) && !Free(d, m, n, i)
    ensures y[i] == z[i]
  {
    forall k | 0 <= k < AXES
      ensures y[i][k] == z[i][k]
    {
      DiagonalProduct(d, y, m, n, i, k);
      DiagonalProduct(d, z, m, n, i, k);
      QuotientUnique(d[i][i], d[i][i] * y[i][k], y[i][k]);
      QuotientUnique(d[i][i], d[i][i] * z[i][k], z[i][k]);
    }
  }

  /** An unknown that no free coordinate touches has the same value in every solution. */
  lemma DeterminedValue(a: Mat, s: Smith, m: nat, n: nat, b: Mat, y: Mat, j: nat, x: Mat)
    requires IsSmith(a, s, m, n) && IsMat(b, m, AXES) && IsMat(y, n, AXES) && j < n
    requires Mul(s.d, y, AXES) == Mul(s.u, b, AXES)
    requires forall i :: 0 <= i < n && Free(s.d, m, n, i) ==> s.v[j][i] == 0
    requires Solves(a, b, x, n)
    ensures x[j] == Mul(s.v, y, AXES)[j]
  {
    var vi :| Inverses(s.v, vi, n);
    ToDiagonal(a, s, m, n, b, x, vi);
    var z := Mul(vi, x, AXES);
    forall k | 0 <= k < AXES
      ensures x[j][k] == Mul(s.v, y, AXES)[j][k]
    {
      forall i | 0 <= i < n && s.v[j][i] != 0
        ensures y[i] == z[i]
      {
        PinnedAgree(s.d, y, z, m, n, i);
      }
      DotAgree(s.v[j], Col(y, k), Col(z, k));
      assert x[j][k] == Dot(s.v[j], Col(z, k));
    }
  }

  function Bumped(y: Mat, i: nat): Mat
    requires i < |y| && |y[i]| == AXES
  {
    y[i := y[i][0 := y[i][0] + 1]]
  }

  /** A free coordinate can be moved without leaving the diagonal system's solutions. */
  lemma BumpedSolves(d: Mat, y: Mat, m: nat, n: nat, i: nat)
    requires Diagonal(d, m, n) && IsMat(y, n, AXES) && i < n && Free(d, m, n, i)
    ensures Mul(d, Bumped(y, i), AXES) == Mul(d, y, AXES)
  {
    forall r, k | 0 <= r < m && 0 <= k < AXES
      ensures Mul(d, y, AXES)[r][k] == if r < n then d[r][r] * Bumped(y, i)[r][k] else 0
    {
      DiagonalProduct(d, y, m, n, r, k);
    }
    DiagonalSolved(d, Bumped(y, i), Mul(d, y, AXES), m, n);
  }

  /** An unknown that a free coordinate touches takes two values. */
  lemma FreeValue(a: Mat, s: Smith, m: nat, n: nat, b: Mat, y: Mat, j: nat, i: nat)
    requires IsSmith(a, s, m, n) && IsMat(b, m, AXES) && IsMat(y, n, AXES) && j < n && i < n
    requires Mul(s.d, y, AXES) == Mul(s.u, b, AXES)
    requires Free(s.d, m, n, i) && s.v[j][i] != 0
    ensures exists x1, x2 :: Solves(a, b, x1, n) && Solves(a, b, x2, n) && x1[j] != x2[j]
  {
    var z := Bumped(y, i);
    BumpedSolves(s.d, y, m, n, i);
    FromDiagonal(a, s, m, n, b, y);
    FromDiagonal(a, s, m, n, b, z);
    var x1, x2 := Mul(s.v, y, AXES), Mul(s.v, z, AXES);
    assert x1[j] != x2[j] by {
      assert Col(z, 0) == Col(y, 0)[i := y[i][0] + 1];
      DotUpdateRight(s.v[j], Col(y, 0), i, y[i][0] + 1);
      assert x2[j][0] == x1[j][0] + s.v[j][i];
    }
  }

  /** The product of two matrices, skipping zero factors as it accumulates. */
  method MatMul(a: Mat, b: Mat, n: nat) returns (c: Mat)
    requires IsMat(a, |a|, |b|) && IsMat(b, |b|, n)
    ensures c == Mul(a, b, n)
  {
    c := seq(|a|, _ => seq(n, _ => 0));
    var i := 0;
    while i < |a|
      invariant 0 <= i <= |a| && IsMat(c, |a|, n)
      invariant forall r :: 0 <= r < i ==> c[r] == VecMat(a[r], b, n)
      invariant forall r, j :: i <= r < |a| && 0 <= j < n ==> c[r][j] == 0
    {
      var t := 0;
      while t < |b|
        invariant 0 <= t <= |b| && IsMat(c, |a|, n)
        invariant forall r :: 0 <= r < i ==> c[r] == VecMat(a[r], b, n)
        invariant forall r, j :: i < r < |a| && 0 <= j < n ==> c[r][j] == 0
        invariant forall j :: 0 <= j < n ==> c[i][j] == Dot(a[i][..t], Col(b, j)[..t])
      {
        ghost var before := c[i];
        if a[i][t] != 0 {
          var j := 0;
          while j < n
            invariant 0 <= j <= n && IsMat(c, |a|, n)
            invariant forall r :: 0 <= r < i ==> c[r] == VecMat(a[r], b, n)
            invariant forall r, l :: i < r < |a| && 0 <= l < n ==> c[r][l] == 0
            invariant forall l :: 0 <= l < j ==> c[i][l] == before[l] + a[i][t] * b[t][l]
            invariant forall l :: j <= l < n ==> c[i][l] == before[l]
          {
            c := c[i := c[i][j := c[i][j] + a[i][t] * b[t][j]]];
            j := j + 1;
          }
        }
        forall j | 0 <= j < n
          ensures c[i][j] == Dot(a[i][..t + 1], Col(b, j)[..t + 1])
        {
          DotSnoc(a[i], Col(b, j), t);
        }
        t := t + 1;
      }
      forall j | 0 <= j < n
        ensures c[i][j] == VecMat(a[i], b, n)[j]
      {
        assert a[i][..t] == a[i] && Col(b, j)[..t] == Col(b, j);
      }
      assert c[i] == VecMat(a[i], b, n);
      i := i + 1;
    }
  }

  lemma {:induction false} DotSnoc(x: Row, y: Row, t: nat)
    requires |x| == |y| && t < |x|
    ensures Dot(x[..t + 1], y[..t + 1]) == Dot(x[..t], y[..t]) + x[t] * y[t]
  {
    if t > 0 {
      DotSnoc(x[1..], y[1..], t - 1);
      assert x[..t + 1][1..] == x[1..][..t] && y[..t + 1][1..] == y[1..][..t];
      assert x[..t][1..] == x[1..][..t - 1] && y[..t][1..] == y[1..][..t - 1];
    }
  }

  /** Reads a solution off the diagonal system, or finds the row that has none. */
  method ReadDiagonal(d: Mat, c: Mat, m: nat, n: nat) returns (consistent: bool, y: Mat)
    requires Diagonal(d, m, n) && IsMat(c, m, AXES)
    ensures consistent <==> forall i, k :: 0 <= i < m && 0 <= k < AXES ==> RowSolvable(d, c, m, n, i, k)
    ensures IsMat(y, n, AXES) && (consistent ==> Mul(d, y, AXES) == c)
  {
    var lim := Lesser(m, n);
    consistent, y := true, seq(n, _ => seq(AXES, _ => 0));
    var k := 0;
    while k < AXES
      invariant 0 <= k <= AXES && IsMat(y, n, AXES)
      invariant consistent <==> forall i, l :: 0 <= i < m && 0 <= l < k ==> RowSolvable(d, c, m, n, i, l)
      invariant consistent ==> forall i, l :: 0 <= i < m && 0 <= l < k ==>
        c[i][l] == if i < n then d[i][i] * y[i][l] else 0
    {
      ghost var before := consistent;
      var i := 0;
      while i < lim
        invariant 0 <= i <= lim && IsMat(y, n, AXES)
        invariant consistent <==> before && forall r :: 0 <= r < i ==> RowSolvable(d, c, m, n, r, k)
        invariant consistent ==> forall r, l :: 0 <= r < m && 0 <= l < k ==>
          c[r][l] == if r < n then d[r][r] * y[r][l] else 0
        invariant consistent ==> forall r :: 0 <= r < i ==> c[r][k] == d[r][r] * y[r][k]
      {
        var dii := d[i][i];
        ghost var was := consistent;
        if dii != 0 {
          RemainderMeaning(c[i][k], dii);
          if TruncRem(c[i][k], dii) != 0 {
            consistent := false;
          } else {
            y := y[i := y[i][k := TruncDiv(c[i][k], dii)]];
          }
        } else if c[i][k] != 0 {
          consistent := false;
        }
        assert consistent <==> was && RowSolvable(d, c, m, n, i, k);
        i := i + 1;
      }
      while i < m
        invariant lim <= i && (i <= m || i == lim) && IsMat(y, n, AXES)
        invariant consistent <==> before && forall r :: 0 <= r < i && r < m ==> RowSolvable(d, c, m, n, r, k)
        invariant consistent ==> forall r, l :: 0 <= r < m && 0 <= l < k ==>
          c[r][l] == if r < n then d[r][r] * y[r][l] else 0
        invariant consistent ==> forall r :: 0 <= r < i && r < m ==>
          c[r][k] == if r < n then d[r][r] * y[r][k] else 0
      {
        ghost var was := consistent;
        if c[i][k] != 0 { consistent := false; }
        assert consistent <==> was && RowSolvable(d, c, m, n, i, k);
        i := i + 1;
      }
      k := k + 1;
    }
    if consistent { DiagonalSolved(d, y, c, m, n); }
  }

  /** Marks the unknowns that no free coordinate touches. */
  method MarkDetermined(d: Mat, v: Mat, m: nat, n: nat) returns (determined: seq<bool>)
    requires IsMat(d, m, n) && IsMat(v, n, n)
    ensures |determined| == n
    ensures forall j :: 0 <= j < n ==>
      (determined[j] <==> forall i :: 0 <= i < n && Free(d, m, n, i) ==> v[j][i] == 0)
  {
    determined := seq(n, _ => true);
    var j := 0;
    while j < n
      invariant 0 <= j <= n && |determined| == n
      invariant forall l :: 0 <= l < j ==>
        (determined[l] <==> forall i :: 0 <= i < n && Free(d, m, n, i) ==> v[l][i] == 0)
      invariant forall l :: j <= l < n ==> determined[l]
    {
      var i := 0;
      while i < n
        invariant 0 <= i <= n && |determined| == n
        invariant forall l :: 0 <= l < j ==>
          (determined[l] <==> forall r :: 0 <= r < n && Free(d, m, n, r) ==> v[l][r] == 0)
        invariant determined[j] <==> forall r :: 0 <= r < i && Free(d, m, n, r) ==> v[j][r] == 0
        invariant forall l :: j < l < n ==> determined[l]
      {
        if Free(d, m, n, i) && v[j][i] != 0 { determined := determined[j := false]; }
        i := i + 1;
      }
      j := j + 1;
    }
  }

  /** Decides a * x == b over the integers. A consistent system comes with one solution,
      exact on the determined unknowns; every other unknown really varies. */
  method SolveSystem(a: Mat, b: Mat, n: nat) returns (consistent: bool, x: Mat, determined: seq<bool>)
    requires IsMat(a, |a|, n) && IsMat(b, |a|, AXES) && (a == [] ==> n == 0)
    ensures consistent <==> exists z :: Solves(a, b, z, n)
    ensures IsMat(x, n, AXES) && |determined| == n
    ensures consistent ==> forall j, z :: 0 <= j < n && determined[j] && Solves(a, b, z, n) ==> z[j] == x[j]
    ensures consistent ==> forall j :: 0 <= j < n && !determined[j] ==>
      exists x1, x2 :: Solves(a, b, x1, n) && Solves(a, b, x2, n) && x1[j] != x2[j]
  {
    var m := |a|;
    var s := SmithNormalForm(a);
    assert IsSmith(a, s, m, n);
    var c := MatMul(s.u, b, AXES);
    var y;
    consistent, y := ReadDiagonal(s.d, c, m, n);
    x := MatMul(s.v, y, AXES);
    determined := MarkDetermined(s.d, s.v, m, n);
    if consistent {
      FromDiagonal(a, s, m, n, b, y);
      forall j, z | 0 <= j < n && determined[j] && Solves(a, b, z, n)
        ensures z[j] == x[j]
      {
        DeterminedValue(a, s, m, n, b, y, j, z);
      }
      forall j | 0 <= j < n && !determined[j]
        ensures exists x1, x2 :: Solves(a, b, x1, n) && Solves(a, b, x2, n) && x1[j] != x2[j]
      {
        var i :| 0 <= i < n && Free(s.d, m, n, i) && s.v[j][i] != 0;
        FreeValue(a, s, m, n, b, y, j, i);
      }
    } else {
      forall z | Solves(a, b, z, n)
        ensures false
      {
        var i, k :| 0 <= i < m && 0 <= k < AXES && !RowSolvable(s.d, c, m, n, i, k);
        SolvableRows(a, s, m, n, b, z, i, k);
      }
    }
  }

  // ----- from the graph to the system and back -----

  /** unk lists the symbols without a known dimension; umap is its inverse, -1 elsewhere. */
  ghost predicate Numbering(n: nat, known: map<nat, Dim>, unk: seq<nat>, umap: seq<int>) {
    && |umap| == n
    && (forall s :: 0 <= s < n ==>
      if s in known then umap[s] == -1 else 0 <= umap[s] < |unk| && unk[umap[s]] == s)
    && (forall j :: 0 <= j < |unk| ==> unk[j] < n && unk[j] !in known && umap[unk[j]] == j)
  }

  ghost predicate TermsNumbered(terms: seq<Term>, known: map<nat, Dim>, umap: seq<int>, nu: nat) {
    forall t :: t in terms ==> t.sym < |umap| && umap[t.sym] < nu && (umap[t.sym] < 0 ==> t.sym in known)
  }

  /** The coefficients that a constraint's terms put on the unknowns. */
  ghost function CoefRow(terms: seq<Term>, known: map<nat, Dim>, umap: seq<int>, nu: nat): (r: Row)
    requires TermsNumbered(terms, known, umap, nu)
    ensures |r| == nu
  {
    if terms == [] then seq(nu, _ => 0)
    else
      var r0 := CoefRow(terms[..|terms| - 1], known, umap, nu);
      var last := terms[|terms| - 1];
      var u := umap[last.sym];
      if u >= 0 then r0[u := r0[u] + last.coef] else r0
  }

  /** What a constraint's known terms contribute to the right-hand side. */
  ghost function KnownRow(terms: seq<Term>, known: map<nat, Dim>, umap: seq<int>, nu: nat): (r: Row)
    requires TermsNumbered(terms, known, umap, nu)
    ensures |r| == AXES
  {
    if terms == [] then NONE
    else
      var r0 := KnownRow(terms[..|terms| - 1], known, umap, nu);
      var last := terms[|terms| - 1];
      if umap[last.sym] >= 0 then r0 else Axpy(r0, last.coef, known[last.sym])
  }

  ghost function Restrict(val: seq<Dim>, unk: seq<nat>): (x: Mat)
    requires forall j :: 0 <= j < |unk| ==> unk[j] < |val|
    ensures IsMat(x, |unk|, AXES)
  {
    seq(|unk|, j requires 0 <= j < |unk| => val[unk[j]])
  }

  ghost function Extend(x: Mat, known: map<nat, Dim>, unk: seq<nat>, umap: seq<int>, n: nat): (val: seq<Dim>)
    requires Numbering(n, known, unk, umap) && IsMat(x, |unk|, AXES)
    ensures |val| == n
    ensures forall s :: 0 <= s < n && s in known ==> val[s] == known[s]
    ensures Restrict(val, unk) == x
  {
    var val: seq<Dim> :=
      seq(n, s requires 0 <= s < n => if s in known then known[s] else (var d: Dim := x[umap[s]]; d));
    assert forall j :: 0 <= j < |unk| ==> Restrict(val, unk)[j] == x[j];
    val
  }

  /** A constraint's sum is its matrix row applied to the unknowns minus the known part. */
  lemma {:induction false} RowMeaning(terms: seq<Term>, n: nat, known: map<nat, Dim>, unk: seq<nat>, umap: seq<int>,
                                      val: seq<Dim>, k: nat)
    requires k < AXES && Numbering(n, known, unk, umap) && TermsNumbered(terms, known, umap, |unk|)
    requires |val| == n && forall s :: s in known && s < n ==> val[s] == known[s]
    ensures TermSum(terms, val, k)
      == Dot(CoefRow(terms, known, umap, |unk|), Col(Restrict(val, unk), k)) - KnownRow(terms, known, umap, |unk|)[k]
  {
    hide Dot;
    var x := Col(Restrict(val, unk), k);
    if terms == [] {
      DotZero(CoefRow(terms, known, umap, |unk|), x);
    } else {
      var front, last := terms[..|terms| - 1], terms[|terms| - 1];
      RowMeaning(front, n, known, unk, umap, val, k);
      var u := umap[last.sym];
      if u >= 0 {
        var r0 := CoefRow(front, known, umap, |unk|);
        DotUpdate(r0, x, u, r0[u] + last.coef);
        assert x[u] == val[last.sym][k];
        assert (r0[u] + last.coef) * x[u] == r0[u] * x[u] + last.coef * x[u];
      } else {
        assert val[last.sym] == known[last.sym];
      }
    }
  }

  ghost function SystemRow(c: DimConstraint, known: map<nat, Dim>, umap: seq<int>, nu: nat): Row
    requires TermsNumbered(c.terms, known, umap, nu)
  {
    Axpy(KnownRow(c.terms, known, umap, nu), 1, c.rhs)
  }

  ghost predicate IsRow(c: DimConstraint, ra: Row, rb: Row, known: map<nat, Dim>, umap: seq<int>, nu: nat) {
    && TermsNumbered(c.terms, known, umap, nu)
    && ra == CoefRow(c.terms, known, umap, nu)
    && rb == SystemRow(c, known, umap, nu)
  }

  ghost predicate IsSystem(a: Mat, b: Mat, n: nat, cons: seq<DimConstraint>, known: map<nat, Dim>,
                           unk: seq<nat>, umap: seq<int>)
  {
    && WellFormed(n, cons, known) && Numbering(n, known, unk, umap)
    && IsMat(a, |cons|, |unk|) && IsMat(b, |cons|, AXES)
    && (forall r :: 0 <= r < |cons| ==> IsRow(cons[r], a[r], b[r], known, umap, |unk|))
  }

  /** The solutions of the graph are exactly the solutions of the matrix system. */
  lemma SystemMeaning(a: Mat, b: Mat, n: nat, cons: seq<DimConstraint>, known: map<nat, Dim>,
                      unk: seq<nat>, umap: seq<int>, val: seq<Dim>)
    requires IsSystem(a, b, n, cons, known, unk, umap)
    requires |val| == n && forall s :: s in known ==> val[s] == known[s]
    ensures Solution(n, cons, known, val) <==> Solves(a, b, Restrict(val, unk), |unk|)
  {
    var x := Restrict(val, unk);
    var ax := Mul(a, x, AXES);
    forall r, k | 0 <= r < |cons| && 0 <= k < AXES
      ensures ax[r][k] == b[r][k] <==> TermSum(cons[r].terms, val, k) + cons[r].rhs[k] == 0
    {
      RowMeaning(cons[r].terms, n, known, unk, umap, val, k);
      assert ax[r][k] == Dot(a[r], Col(x, k));
    }
    if Solution(n, cons, known, val) {
      assert forall r :: 0 <= r < |cons| ==> Holds(cons[r], val);
      forall r | 0 <= r < |cons|
        ensures ax[r] == b[r]
      {
        assert forall k :: 0 <= k < AXES ==> ax[r][k] == b[r][k];
      }
      assert ax == b;
    }
    if Solves(a, b, x, |unk|) {
      forall r | 0 <= r < |cons|
        ensures Holds(cons[r], val)
      {
        assert forall k :: 0 <= k < AXES ==> ax[r][k] == b[r][k];
      }
    }
  }

  lemma SomeUnknown(n: nat, known: map<nat, Dim>, unk: seq<nat>, umap: seq<int>)
    requires Numbering(n, known, unk, umap) && unk != []
    ensures exists s :: 0 <= s < n && s !in known
  {
    assert unk[0] !in known;
  }

  method NumberUnknowns(n: nat, known: map<nat, Dim>) returns (unk: seq<nat>, umap: seq<int>)
    ensures Numbering(n, known, unk, umap)
  {
    unk, umap := [], seq(n, _ => -1);
    var s := 0;
    while s < n
      invariant 0 <= s <= n && |umap| == n
      invariant forall i :: s <= i < n ==> umap[i] == -1
      invariant forall i :: 0 <= i < s ==>
        if i in known then umap[i] == -1 else 0 <= umap[i] < |unk| && unk[umap[i]] == i
      invariant forall j :: 0 <= j < |unk| ==> unk[j] < s && unk[j] !in known && umap[unk[j]] == j
    {
      if s !in known {
        umap := umap[s := |unk|];
        unk := unk + [s];
      }
      s := s + 1;
    }
  }

  method SubtractScaled(row: Row, co: int, d: Dim) returns (r: Row)
    requires |row| == AXES
    ensures r == Axpy(row, co, d)
  {
    r := row;
    var k := 0;
    while k < AXES
      invariant 0 <= k <= AXES && |r| == AXES
      invariant forall l :: 0 <= l < k ==> r[l] == row[l] - co * d[l]
      invariant forall l :: k <= l < AXES ==> r[l] == row[l]
    {
      r := r[k := r[k] - co * d[k]];
      k := k + 1;
    }
  }

  /** One constraint's terms, added to rows of zeros. */
  method FillRow(c: DimConstraint, known: map<nat, Dim>, umap: seq<int>, nu: nat, zeroA: Row, zeroB: Row)
    returns (ra: Row, rb: Row)
    requires TermsNumbered(c.terms, known, umap, nu) && zeroA == seq(nu, _ => 0) && zeroB == NONE && |c.rhs| == AXES
    ensures IsRow(c, ra, rb, known, umap, nu) && |ra| == nu && |rb| == AXES
  {
    ra, rb := zeroA, zeroB;
    var p := 0;
    while p < |c.terms|
      invariant 0 <= p <= |c.terms| && |rb| == AXES && TermsNumbered(c.terms[..p], known, umap, nu)
      invariant ra == CoefRow(c.terms[..p], known, umap, nu) && rb == KnownRow(c.terms[..p], known, umap, nu)
    {
      var s, co := c.terms[p].sym, c.terms[p].coef;
      assert c.terms[..p + 1][..p] == c.terms[..p];
      if umap[s] >= 0 {
        ra := ra[umap[s] := ra[umap[s]] + co];
      } else {
        rb := SubtractScaled(rb, co, known[s]);
      }
      p := p + 1;
    }
    assert c.terms[..p] == c.terms;
    rb := SubtractScaled(rb, 1, c.rhs);
  }

  method BuildSystem(n: nat, cons: seq<DimConstraint>, known: map<nat, Dim>, unk: seq<nat>, umap: seq<int>)
    returns (a: Mat, b: Mat)
    requires WellFormed(n, cons, known) && Numbering(n, known, unk, umap)
    ensures IsSystem(a, b, n, cons, known, unk, umap)
    ensures IsMat(a, |cons|, |unk|) && IsMat(b, |cons|, AXES)
  {
    hide IsRow;
    var nu := |unk|;
    a := seq(|cons|, _ => seq(nu, _ => 0));
    b := seq(|cons|, _ => seq(AXES, _ => 0));
    var r := 0;
    while r < |cons|
      invariant 0 <= r <= |cons| && IsMat(a, |cons|, nu) && IsMat(b, |cons|, AXES)
      invariant forall i :: 0 <= i < r ==> IsRow(cons[i], a[i], b[i], known, umap, nu)
      invariant forall i :: r <= i < |cons| ==> a[i] == seq(nu, _ => 0) && b[i] == NONE
    {
      assert TermsNumbered(cons[r].terms, known, umap, nu);
      var ra, rb := FillRow(cons[r], known, umap, nu, a[r], b[r]);
      a, b := a[r := ra], b[r := rb];
      r := r + 1;
    }
  }

  function NamesOf(syms: seq<string>, terms: seq<Term>): seq<string>
    requires forall t :: t in terms ==> t.sym < |syms|
  {
    seq(|terms|, i requires 0 <= i < |terms| => syms[terms[i].sym])
  }

  function AllNames(syms: seq<string>, cons: seq<DimConstraint>): seq<string>
    requires forall r :: 0 <= r < |cons| ==> forall t :: t in cons[r].terms ==> t.sym < |syms|
  {
    if cons == [] then []
    else AllNames(syms, cons[..|cons| - 1]) + NamesOf(syms, cons[|cons| - 1].terms)
  }

  method ListClashes(syms: seq<string>, cons: seq<DimConstraint>) returns (clashes: seq<string>)
    requires forall r :: 0 <= r < |cons| ==> forall t :: t in cons[r].terms ==> t.sym < |syms|
    ensures clashes == AllNames(syms, cons)
  {
    clashes := [];
    var r := 0;
    while r < |cons|
      invariant 0 <= r <= |cons| && clashes == AllNames(syms, cons[..r])
    {
      ghost var before := clashes;
      var terms := cons[r].terms;
      var i := 0;
      while i < |terms|
        invariant 0 <= i <= |terms| && clashes == before + NamesOf(syms, terms)[..i]
      {
        clashes := clashes + [syms[terms[i].sym]];
        i := i + 1;
      }
      assert cons[..r + 1][..r] == cons[..r];
      r := r + 1;
    }
    assert cons[..r] == cons;
  }

  lemma SystemSolutions(a: Mat, b: Mat, n: nat, cons: seq<DimConstraint>, known: map<nat, Dim>,
                        unk: seq<nat>, umap: seq<int>)
    requires IsSystem(a, b, n, cons, known, unk, umap)
    ensures (exists val :: Solution(n, cons, known, val)) <==> exists x :: Solves(a, b, x, |unk|)
    ensures forall val :: Solution(n, cons, known, val) ==> Solves(a, b, Restrict(val, unk), |unk|)
  {
    forall val | Solution(n, cons, known, val)
      ensures Solves(a, b, Restrict(val, unk), |unk|)
    {
      SystemMeaning(a, b, n, cons, known, unk, umap, val);
    }
    if x :| Solves(a, b, x, |unk|) {
      SystemMeaning(a, b, n, cons, known, unk, umap, Extend(x, known, unk, umap, n));
    }
  }

  lemma VariesThrough(a: Mat, b: Mat, n: nat, cons: seq<DimConstraint>, known: map<nat, Dim>,
                      unk: seq<nat>, umap: seq<int>, s: nat)
    requires IsSystem(a, b, n, cons, known, unk, umap) && s < n && s !in known
    requires exists x1, x2 :: Solves(a, b, x1, |unk|) && Solves(a, b, x2, |unk|) && x1[umap[s]] != x2[umap[s]]
    ensures Varies(n, cons, known, s)
  {
    var j := umap[s];
    var x1, x2 :| Solves(a, b, x1, |unk|) && Solves(a, b, x2, |unk|) && x1[j] != x2[j];
    var val1, val2 := Extend(x1, known, unk, umap, n), Extend(x2, known, unk, umap, n);
    SystemMeaning(a, b, n, cons, known, unk, umap, val1);
    SystemMeaning(a, b, n, cons, known, unk, umap, val2);
    assert Restrict(val1, unk)[j] == val1[s] && Restrict(val2, unk)[j] == val2[s];
  }

  /** The graph has a solution exactly when consistent is set. Then a reported dimension is
      the symbol's dimension in every solution, and a symbol left out takes two in some two. */
  method InferDims(g: DimGraph) returns (res: DimResult)
    requires g.Valid()
    requires g.cons == [] ==> forall s :: 0 <= s < |g.syms| ==> s in g.known
    ensures res.consistent <==> exists val :: Solution(|g.syms|, g.cons, g.known, val)
    ensures res.consistent ==> forall s :: 0 <= s < |g.syms| ==>
      if g.syms[s] in res.dims
        then forall val :: Solution(|g.syms|, g.cons, g.known, val) ==> val[s] == res.dims[g.syms[s]]
        else Varies(|g.syms|, g.cons, g.known, s)
    ensures forall s :: s in g.known ==> g.syms[s] in res.dims && res.dims[g.syms[s]] == g.known[s]
    ensures res.clashes == if res.consistent then [] else AllNames(g.syms, g.cons)
  {
    hide Solves;
    hide IsSystem;
    var n := |g.syms|;
    var unk, umap := NumberUnknowns(n, g.known);
    var a, b := BuildSystem(n, g.cons, g.known, unk, umap);
    if unk != [] { SomeUnknown(n, g.known, unk, umap); }
    var consistent, x, determined := SolveSystem(a, b, |unk|);
    var dims := Report(g, unk, umap, x, determined);
    var clashes := [];
    if !consistent { clashes := ListClashes(g.syms, g.cons); }
    res := DimResult(dims, consistent, clashes);

    SystemSolutions(a, b, n, g.cons, g.known, unk, umap);
    if consistent {
      forall s | 0 <= s < n && g.syms[s] !in dims
        ensures Varies(n, g.cons, g.known, s)
      {
        VariesThrough(a, b, n, g.cons, g.known, unk, umap, s);
      }
      forall s, val | 0 <= s < n && g.syms[s] in dims && Solution(n, g.cons, g.known, val)
        ensures val[s] == dims[g.syms[s]]
      {
        if s !in g.known {
          assert Restrict(val, unk)[umap[s]] == val[s];
        }
      }
    }
  }

  /** Collects the known dimensions and the determined ones under the symbols' names. */
  method Report(g: DimGraph, unk: seq<nat>, umap: seq<int>, x: Mat, determined: seq<bool>)
    returns (dims: map<string, Dim>)
    requires g.Valid() && Numbering(|g.syms|, g.known, unk, umap)
    requires IsMat(x, |unk|, AXES) && |determined| == |unk|
    ensures forall s :: 0 <= s < |g.syms| ==>
      (g.syms[s] in dims <==> s in g.known || determined[umap[s]])
    ensures forall s :: 0 <= s < |g.syms| && g.syms[s] in dims ==>
      dims[g.syms[s]] == if s in g.known then g.known[s] else x[umap[s]]
  {
    dims := map[];
    var s := 0;
    while s < |g.syms|
      invariant 0 <= s <= |g.syms|
      invariant forall i :: 0 <= i < |g.syms| ==> (g.syms[i] in dims <==> i < s && i in g.known)
      invariant forall i :: 0 <= i < s && i in g.known ==> dims[g.syms[i]] == g.known[i]
    {
      if s in g.known { dims := dims[g.syms[s] := g.known[s]]; }
      s := s + 1;
    }
    var j := 0;
    while j < |unk|
      invariant 0 <= j <= |unk|
      invariant forall i :: 0 <= i < |g.syms| ==>
        (g.syms[i] in dims <==> i in g.known || (umap[i] < j && determined[umap[i]]))
      invariant forall i :: 0 <= i < |g.syms| && g.syms[i] in dims ==>
        dims[g.syms[i]] == if i in g.known then g.known[i] else x[umap[i]]
    {
      if determined[j] {
        var d: Dim := x[j];
        dims := dims[g.syms[unk[j]] := d];
      }
      j := j + 1;
    }
  }
}
