/** Integer matrices as sequences of rows: products, elementary row and column
    operations, and the algebra that the Smith normal form rests on. */
module Matrices {

  type Row = seq<int>
  type Mat = seq<Row>

  predicate IsMat(a: Mat, m: nat, n: nat) {
    |a| == m && forall i :: 0 <= i < m ==> |a[i]| == n
  }

  function Dot(x: Row, y: Row): int
    requires |x| == |y|
  {
    if x == [] then 0 else x[0] * y[0] + Dot(x[1..], y[1..])
  }

  function Col(b: Mat, j: nat): Row
    requires forall i :: 0 <= i < |b| ==> j < |b[i]|
  {
    seq(|b|, i requires 0 <= i < |b| => b[i][j])
  }

  /** The row vector x times the matrix b, which has n columns. */
  function VecMat(x: Row, b: Mat, n: nat): (r: Row)
    requires IsMat(b, |x|, n)
  {
    seq(n, j requires 0 <= j < n => Dot(x, Col(b, j)))
  }

  function Mul(a: Mat, b: Mat, n: nat): (r: Mat)
    requires IsMat(a, |a|, |b|) && IsMat(b, |b|, n)
  {
    seq(|a|, i requires 0 <= i < |a| => VecMat(a[i], b, n))
  }

  function Unit(n: nat, i: nat): Row {
    seq(n, j => if i == j then 1 else 0)
  }

  function Ident(n: nat): Mat {
    seq(n, i requires 0 <= i => Unit(n, i))
  }

  // ----- elementary operations -----

  /** x - q * y, the update that row_addmul and col_addmul make. */
  function Axpy(x: Row, q: int, y: Row): Row
    requires |x| == |y|
  {
    seq(|x|, j requires 0 <= j < |x| => x[j] - q * y[j])
  }

  function Negated(x: Row): Row {
    seq(|x|, j requires 0 <= j < |x| => -x[j])
  }

  function SwapAt<T>(x: seq<T>, i: nat, j: nat): seq<T>
    requires i < |x| && j < |x|
  {
    x[i := x[j]][j := x[i]]
  }

  function RowAdd(a: Mat, dst: nat, src: nat, q: int): Mat
    requires dst < |a| && src < |a| && |a[dst]| == |a[src]|
  {
    a[dst := Axpy(a[dst], q, a[src])]
  }

  function RowNeg(a: Mat, i: nat): Mat
    requires i < |a|
  {
    a[i := Negated(a[i])]
  }

  function EntryAdd(x: Row, dst: nat, src: nat, q: int): Row
    requires dst < |x| && src < |x|
  {
    x[dst := x[dst] - q * x[src]]
  }

  function ColAdd(a: Mat, dst: nat, src: nat, q: int): Mat
    requires forall i :: 0 <= i < |a| ==> dst < |a[i]| && src < |a[i]|
  {
    seq(|a|, i requires 0 <= i < |a| => EntryAdd(a[i], dst, src, q))
  }

  function ColSwap(a: Mat, c1: nat, c2: nat): Mat
    requires forall i :: 0 <= i < |a| ==> c1 < |a[i]| && c2 < |a[i]|
  {
    seq(|a|, i requires 0 <= i < |a| => SwapAt(a[i], c1, c2))
  }

  function ColNeg(a: Mat, c: nat): Mat
    requires forall i :: 0 <= i < |a| ==> c < |a[i]|
  {
    seq(|a|, i requires 0 <= i < |a| => a[i][c := -a[i][c]])
  }

  // ----- dot products -----

  lemma {:induction false} DotComm(x: Row, y: Row)
    requires |x| == |y|
    ensures Dot(x, y) == Dot(y, x)
  {
    if x != [] { DotComm(x[1..], y[1..]); }
  }

  lemma {:induction false} DotAxpy(x: Row, q: int, y: Row, z: Row)
    requires |x| == |y| == |z|
    ensures Dot(Axpy(x, q, y), z) == Dot(x, z) - q * Dot(y, z)
  {
    if x != [] {
      assert Axpy(x, q, y)[1..] == Axpy(x[1..], q, y[1..]);
      DotAxpy(x[1..], q, y[1..], z[1..]);
      assert (x[0] - q * y[0]) * z[0] == x[0] * z[0] - q * (y[0] * z[0]);
      assert q * Dot(y, z) == q * (y[0] * z[0]) + q * Dot(y[1..], z[1..]);
    }
  }

  lemma {:induction false} DotZero(x: Row, y: Row)
    requires |x| == |y|
    requires forall k :: 0 <= k < |x| ==> x[k] == 0 || y[k] == 0
    ensures Dot(x, y) == 0
  {
    if x != [] { DotZero(x[1..], y[1..]); }
  }

  /** Changing one entry changes the product by the change times its partner. */
  lemma {:induction false} DotUpdate(x: Row, y: Row, i: nat, v: int)
    requires |x| == |y| && i < |x|
    ensures Dot(x[i := v], y) == Dot(x, y) - x[i] * y[i] + v * y[i]
  {
    if i == 0 {
      assert x[i := v][1..] == x[1..];
    } else {
      assert x[i := v][1..] == x[1..][i - 1 := v];
      DotUpdate(x[1..], y[1..], i - 1, v);
    }
  }

  lemma DotUpdateRight(x: Row, y: Row, i: nat, v: int)
    requires |x| == |y| && i < |x|
    ensures Dot(x, y[i := v]) == Dot(x, y) - x[i] * y[i] + x[i] * v
  {
    DotComm(x, y);
    DotComm(x, y[i := v]);
    DotUpdate(y, x, i, v);
  }

  /** A vector that is zero away from i picks out one entry. */
  lemma {:induction false} DotSingle(x: Row, y: Row, i: nat)
    requires |x| == |y| && i < |x|
    requires forall k :: 0 <= k < |x| && k != i ==> x[k] == 0
    ensures Dot(x, y) == x[i] * y[i]
  {
    var z := x[i := 0];
    DotZero(z, y);
    DotUpdate(z, y, i, x[i]);
    assert z[i := x[i]] == x;
  }

  lemma {:induction false} DotAgree(x: Row, y: Row, z: Row)
    requires |x| == |y| == |z|
    requires forall k :: 0 <= k < |x| ==> x[k] == 0 || y[k] == z[k]
    ensures Dot(x, y) == Dot(x, z)
  {
    if x != [] { DotAgree(x[1..], y[1..], z[1..]); }
  }

  // ----- associativity and the identity -----

  lemma VecMatCons(x: Row, b: Mat, n: nat)
    requires x != [] && IsMat(b, |x|, n)
    ensures VecMat(x, b, n) == Axpy(VecMat(x[1..], b[1..], n), -x[0], b[0])
  {
    forall j | 0 <= j < n
      ensures VecMat(x, b, n)[j] == Axpy(VecMat(x[1..], b[1..], n), -x[0], b[0])[j]
    {
      assert Col(b, j)[1..] == Col(b[1..], j);
    }
  }

  lemma {:induction false} DotAssoc(x: Row, b: Mat, y: Row)
    requires IsMat(b, |x|, |y|)
    ensures Dot(VecMat(x, b, |y|), y) == Dot(x, seq(|b|, r requires 0 <= r < |b| => Dot(b[r], y)))
  {
    var n := |y|;
    var prods := seq(|b|, r requires 0 <= r < |b| => Dot(b[r], y));
    if x == [] {
      assert forall j :: 0 <= j < n ==> VecMat(x, b, n)[j] == 0;
      DotZero(VecMat(x, b, n), y);
    } else {
      var rest := VecMat(x[1..], b[1..], n);
      VecMatCons(x, b, n);
      DotAxpy(rest, -x[0], b[0], y);
      DotAssoc(x[1..], b[1..], y);
      assert prods[1..] == seq(|b[1..]|, r requires 0 <= r < |b[1..]| => Dot(b[1..][r], y));
    }
  }

  lemma VecMatAssoc(x: Row, b: Mat, c: Mat, n: nat)
    requires IsMat(b, |x|, |c|) && IsMat(c, |c|, n)
    ensures VecMat(VecMat(x, b, |c|), c, n) == VecMat(x, Mul(b, c, n), n)
  {
    forall j | 0 <= j < n
      ensures VecMat(VecMat(x, b, |c|), c, n)[j] == VecMat(x, Mul(b, c, n), n)[j]
    {
      DotAssoc(x, b, Col(c, j));
      assert Col(Mul(b, c, n), j) == seq(|b|, r requires 0 <= r < |b| => Dot(b[r], Col(c, j)));
    }
  }

  lemma MulAssoc(a: Mat, b: Mat, c: Mat, n: nat)
    requires IsMat(a, |a|, |b|) && IsMat(b, |b|, |c|) && IsMat(c, |c|, n)
    ensures Mul(Mul(a, b, |c|), c, n) == Mul(a, Mul(b, c, n), n)
  {
    forall i | 0 <= i < |a|
      ensures Mul(Mul(a, b, |c|), c, n)[i] == Mul(a, Mul(b, c, n), n)[i]
    {
      VecMatAssoc(a[i], b, c, n);
    }
  }

  lemma IdentLeft(a: Mat, n: nat)
    requires IsMat(a, |a|, n)
    ensures Mul(Ident(|a|), a, n) == a
  {
    forall i | 0 <= i < |a|
      ensures Mul(Ident(|a|), a, n)[i] == a[i]
    {
      forall j | 0 <= j < n
        ensures VecMat(Unit(|a|, i), a, n)[j] == a[i][j]
      {
        DotSingle(Unit(|a|, i), Col(a, j), i);
      }
      assert Ident(|a|)[i] == Unit(|a|, i);
      assert VecMat(Unit(|a|, i), a, n) == a[i];
    }
  }

  lemma IdentRight(a: Mat, n: nat)
    requires IsMat(a, |a|, n)
    ensures Mul(a, Ident(n), n) == a
  {
    forall i | 0 <= i < |a|
      ensures Mul(a, Ident(n), n)[i] == a[i]
    {
      forall j | 0 <= j < n
        ensures VecMat(a[i], Ident(n), n)[j] == a[i][j]
      {
        assert Col(Ident(n), j) == Unit(n, j);
        DotComm(a[i], Unit(n, j));
        DotSingle(Unit(n, j), a[i], j);
      }
      assert VecMat(a[i], Ident(n), n) == a[i];
    }
  }

  // ----- elementary operations commute with products -----

  lemma MulRowAdd(a: Mat, b: Mat, n: nat, dst: nat, src: nat, q: int)
    requires IsMat(a, |a|, |b|) && IsMat(b, |b|, n) && dst < |a| && src < |a|
    ensures Mul(RowAdd(a, dst, src, q), b, n) == RowAdd(Mul(a, b, n), dst, src, q)
  {
    forall j | 0 <= j < n
      ensures VecMat(Axpy(a[dst], q, a[src]), b, n)[j] == Axpy(VecMat(a[dst], b, n), q, VecMat(a[src], b, n))[j]
    {
      DotAxpy(a[dst], q, a[src], Col(b, j));
    }
    assert VecMat(Axpy(a[dst], q, a[src]), b, n) == Axpy(VecMat(a[dst], b, n), q, VecMat(a[src], b, n));
    forall i | 0 <= i < |a|
      ensures Mul(RowAdd(a, dst, src, q), b, n)[i] == RowAdd(Mul(a, b, n), dst, src, q)[i]
    {
    }
  }

  lemma MulRowSwap(a: Mat, b: Mat, n: nat, r1: nat, r2: nat)
    requires IsMat(a, |a|, |b|) && IsMat(b, |b|, n) && r1 < |a| && r2 < |a|
    ensures Mul(SwapAt(a, r1, r2), b, n) == SwapAt(Mul(a, b, n), r1, r2)
  {
    forall i | 0 <= i < |a|
      ensures Mul(SwapAt(a, r1, r2), b, n)[i] == SwapAt(Mul(a, b, n), r1, r2)[i]
    {
    }
  }

  lemma MulRowNeg(a: Mat, b: Mat, n: nat, r: nat)
    requires IsMat(a, |a|, |b|) && IsMat(b, |b|, n) && r < |a|
    ensures Mul(RowNeg(a, r), b, n) == RowNeg(Mul(a, b, n), r)
  {
    var zero := seq(|b|, _ => 0);
    forall j | 0 <= j < n
      ensures VecMat(Negated(a[r]), b, n)[j] == Negated(VecMat(a[r], b, n))[j]
    {
      assert Negated(a[r]) == Axpy(zero, 1, a[r]);
      DotAxpy(zero, 1, a[r], Col(b, j));
      DotZero(zero, Col(b, j));
    }
    assert VecMat(Negated(a[r]), b, n) == Negated(VecMat(a[r], b, n));
    forall i | 0 <= i < |a|
      ensures Mul(RowNeg(a, r), b, n)[i] == RowNeg(Mul(a, b, n), r)[i]
    {
    }
  }

  lemma MulColAdd(a: Mat, b: Mat, n: nat, dst: nat, src: nat, q: int)
    requires IsMat(a, |a|, |b|) && IsMat(b, |b|, n) && dst < n && src < n
    ensures Mul(a, ColAdd(b, dst, src, q), n) == ColAdd(Mul(a, b, n), dst, src, q)
  {
    var b' := ColAdd(b, dst, src, q);
    forall i | 0 <= i < |a|
      ensures VecMat(a[i], b', n) == EntryAdd(VecMat(a[i], b, n), dst, src, q)
    {
      forall j | 0 <= j < n
        ensures VecMat(a[i], b', n)[j] == EntryAdd(VecMat(a[i], b, n), dst, src, q)[j]
      {
        if j == dst {
          assert Col(b', j) == Axpy(Col(b, dst), q, Col(b, src));
          DotComm(a[i], Col(b', j));
          DotComm(a[i], Col(b, dst));
          DotComm(a[i], Col(b, src));
          DotAxpy(Col(b, dst), q, Col(b, src), a[i]);
        } else {
          assert Col(b', j) == Col(b, j);
        }
      }
    }
    assert Mul(a, b', n) == ColAdd(Mul(a, b, n), dst, src, q);
  }

  lemma MulColSwap(a: Mat, b: Mat, n: nat, c1: nat, c2: nat)
    requires IsMat(a, |a|, |b|) && IsMat(b, |b|, n) && c1 < n && c2 < n
    ensures Mul(a, ColSwap(b, c1, c2), n) == ColSwap(Mul(a, b, n), c1, c2)
  {
    var b' := ColSwap(b, c1, c2);
    forall i | 0 <= i < |a|
      ensures VecMat(a[i], b', n) == SwapAt(VecMat(a[i], b, n), c1, c2)
    {
      forall j | 0 <= j < n
        ensures VecMat(a[i], b', n)[j] == SwapAt(VecMat(a[i], b, n), c1, c2)[j]
      {
        var from := if j == c1 then c2 else if j == c2 then c1 else j;
        assert Col(b', j) == Col(b, from);
      }
    }
    assert Mul(a, b', n) == ColSwap(Mul(a, b, n), c1, c2);
  }

  lemma MulColNeg(a: Mat, b: Mat, n: nat, c: nat)
    requires IsMat(a, |a|, |b|) && IsMat(b, |b|, n) && c < n
    ensures Mul(a, ColNeg(b, c), n) == ColNeg(Mul(a, b, n), c)
  {
    var b' := ColNeg(b, c);
    var zero := seq(|b|, _ => 0);
    forall i | 0 <= i < |a|
      ensures VecMat(a[i], b', n) == VecMat(a[i], b, n)[c := -VecMat(a[i], b, n)[c]]
    {
      forall j | 0 <= j < n
        ensures VecMat(a[i], b', n)[j] == VecMat(a[i], b, n)[c := -VecMat(a[i], b, n)[c]][j]
      {
        if j == c {
          assert Col(b', j) == Axpy(zero, 1, Col(b, c));
          DotComm(a[i], Col(b', j));
          DotComm(a[i], Col(b, c));
          DotZero(zero, a[i]);
          DotAxpy(zero, 1, Col(b, c), a[i]);
        } else {
          assert Col(b', j) == Col(b, j);
        }
      }
    }
    assert Mul(a, b', n) == ColNeg(Mul(a, b, n), c);
  }

  // ----- the inverse of an elementary operation cancels inside a product -----

  lemma DotCancel(x: Row, y: Row, dst: nat, src: nat, q: int)
    requires |x| == |y| && dst < |x| && src < |x| && dst != src
    ensures Dot(EntryAdd(x, src, dst, -q), y[dst := y[dst] - q * y[src]]) == Dot(x, y)
  {
    var xs, xd, ys, yd := x[src], x[dst], y[src], y[dst];
    var w, z := yd - q * ys, xs - (-q) * xd;
    var y' := y[dst := w];
    DotUpdate(x, y', src, z);
    DotUpdateRight(x, y, dst, w);
    assert Dot(x[src := z], y') == Dot(x, y) - xd * yd + xd * w - xs * ys + z * ys;
    CancelTerms(xs, xd, ys, yd, q);
  }

  lemma CancelTerms(xs: int, xd: int, ys: int, yd: int, q: int)
    ensures xd * (yd - q * ys) + (xs - (-q) * xd) * ys == xd * yd + xs * ys
  {
    var p := xd * ys;
    assert xd * (yd - q * ys) == xd * yd - q * p;
    assert (xs - (-q) * xd) * ys == xs * ys + q * p;
  }

  lemma CancelAdd(a: Mat, b: Mat, n: nat, dst: nat, src: nat, q: int)
    requires IsMat(a, |a|, |b|) && IsMat(b, |b|, n) && dst < |b| && src < |b| && dst != src
    ensures Mul(ColAdd(a, src, dst, -q), RowAdd(b, dst, src, q), n) == Mul(a, b, n)
  {
    var a', b' := ColAdd(a, src, dst, -q), RowAdd(b, dst, src, q);
    forall i | 0 <= i < |a|
      ensures VecMat(a'[i], b', n) == VecMat(a[i], b, n)
    {
      forall j | 0 <= j < n
        ensures VecMat(a'[i], b', n)[j] == VecMat(a[i], b, n)[j]
      {
        var y := Col(b, j);
        assert Col(b', j) == y[dst := y[dst] - q * y[src]];
        DotCancel(a[i], y, dst, src, q);
      }
    }
    assert Mul(a', b', n) == Mul(a, b, n);
  }

  lemma DotSwap(x: Row, y: Row, i: nat, j: nat)
    requires |x| == |y| && i < |x| && j < |x|
    ensures Dot(SwapAt(x, i, j), SwapAt(y, i, j)) == Dot(x, y)
  {
    if i != j {
      var x1, y1 := x[i := x[j]], y[i := y[j]];
      var y' := y1[j := y[i]];
      assert y'[i] == y[j] && y'[j] == y[i] && x1[j] == x[j] && y1[j] == y[j];
      DotUpdate(x1, y', j, x[i]);
      DotUpdate(x, y', i, x[j]);
      DotUpdateRight(x, y1, j, y[i]);
      DotUpdateRight(x, y, i, y[j]);
    } else {
      assert SwapAt(x, i, j) == x && SwapAt(y, i, j) == y;
    }
  }

  lemma CancelSwap(a: Mat, b: Mat, n: nat, r1: nat, r2: nat)
    requires IsMat(a, |a|, |b|) && IsMat(b, |b|, n) && r1 < |b| && r2 < |b|
    ensures Mul(ColSwap(a, r1, r2), SwapAt(b, r1, r2), n) == Mul(a, b, n)
  {
    var a', b' := ColSwap(a, r1, r2), SwapAt(b, r1, r2);
    forall i | 0 <= i < |a|
      ensures VecMat(a'[i], b', n) == VecMat(a[i], b, n)
    {
      forall j | 0 <= j < n
        ensures VecMat(a'[i], b', n)[j] == VecMat(a[i], b, n)[j]
      {
        assert Col(b', j) == SwapAt(Col(b, j), r1, r2);
        DotSwap(a[i], Col(b, j), r1, r2);
      }
    }
    assert Mul(a', b', n) == Mul(a, b, n);
  }

  lemma CancelNeg(a: Mat, b: Mat, n: nat, r: nat)
    requires IsMat(a, |a|, |b|) && IsMat(b, |b|, n) && r < |b|
    ensures Mul(ColNeg(a, r), RowNeg(b, r), n) == Mul(a, b, n)
  {
    var a', b' := ColNeg(a, r), RowNeg(b, r);
    forall i | 0 <= i < |a|
      ensures VecMat(a'[i], b', n) == VecMat(a[i], b, n)
    {
      forall j | 0 <= j < n
        ensures VecMat(a'[i], b', n)[j] == VecMat(a[i], b, n)[j]
      {
        var x, y := a[i], Col(b, j);
        assert Col(b', j) == y[r := -y[r]];
        DotUpdate(x, y[r := -y[r]], r, -x[r]);
        DotUpdateRight(x, y, r, -y[r]);
        assert (-x[r] - x[r]) * -y[r] + (-y[r] - y[r]) * x[r] == 0;
      }
    }
    assert Mul(a', b', n) == Mul(a, b, n);
  }

  // ----- matrices invertible over the integers -----

  ghost predicate Inverses(u: Mat, ui: Mat, m: nat) {
    IsMat(u, m, m) && IsMat(ui, m, m) && Mul(u, ui, m) == Ident(m) && Mul(ui, u, m) == Ident(m)
  }

  ghost predicate Unimodular(u: Mat, m: nat) {
    exists ui :: Inverses(u, ui, m)
  }

  lemma IdentUnimodular(m: nat)
    ensures Inverses(Ident(m), Ident(m), m)
  {
    IdentLeft(Ident(m), m);
  }

  lemma IdentAdd(m: nat, dst: nat, src: nat, q: int)
    requires dst < m && src < m && dst != src
    ensures RowAdd(ColAdd(Ident(m), src, dst, -q), dst, src, q) == Ident(m)
  {
    var round := RowAdd(ColAdd(Ident(m), src, dst, -q), dst, src, q);
    forall i | 0 <= i < m
      ensures round[i] == Ident(m)[i]
    {
      assert forall j :: 0 <= j < m ==> round[i][j] == Unit(m, i)[j];
      assert Ident(m)[i] == Unit(m, i);
    }
    assert round == Ident(m);
  }

  lemma InverseRowAdd(u: Mat, ui: Mat, m: nat, dst: nat, src: nat, q: int)
    requires Inverses(u, ui, m) && dst < m && src < m && dst != src
    ensures Inverses(RowAdd(u, dst, src, q), ColAdd(ui, src, dst, -q), m)
  {
    var ui' := ColAdd(ui, src, dst, -q);
    MulRowAdd(u, ui', m, dst, src, q);
    MulColAdd(u, ui, m, src, dst, -q);
    IdentAdd(m, dst, src, q);
    CancelAdd(ui, u, m, dst, src, q);
  }

  lemma IdentSwap(m: nat, r1: nat, r2: nat)
    requires r1 < m && r2 < m
    ensures SwapAt(ColSwap(Ident(m), r1, r2), r1, r2) == Ident(m)
  {
    var round := SwapAt(ColSwap(Ident(m), r1, r2), r1, r2);
    forall i | 0 <= i < m
      ensures round[i] == Ident(m)[i]
    {
      assert forall j :: 0 <= j < m ==> round[i][j] == Unit(m, i)[j];
      assert Ident(m)[i] == Unit(m, i);
    }
    assert round == Ident(m);
  }

  lemma InverseRowSwap(u: Mat, ui: Mat, m: nat, r1: nat, r2: nat)
    requires Inverses(u, ui, m) && r1 < m && r2 < m
    ensures Inverses(SwapAt(u, r1, r2), ColSwap(ui, r1, r2), m)
  {
    MulRowSwap(u, ColSwap(ui, r1, r2), m, r1, r2);
    MulColSwap(u, ui, m, r1, r2);
    IdentSwap(m, r1, r2);
    CancelSwap(ui, u, m, r1, r2);
  }

  lemma IdentNeg(m: nat, r: nat)
    requires r < m
    ensures RowNeg(ColNeg(Ident(m), r), r) == Ident(m)
  {
    var round := RowNeg(ColNeg(Ident(m), r), r);
    forall i | 0 <= i < m
      ensures round[i] == Ident(m)[i]
    {
      assert forall j :: 0 <= j < m ==> round[i][j] == Unit(m, i)[j];
      assert Ident(m)[i] == Unit(m, i);
    }
    assert round == Ident(m);
  }

  lemma InverseRowNeg(u: Mat, ui: Mat, m: nat, r: nat)
    requires Inverses(u, ui, m) && r < m
    ensures Inverses(RowNeg(u, r), ColNeg(ui, r), m)
  {
    MulRowNeg(u, ColNeg(ui, r), m, r);
    MulColNeg(u, ui, m, r);
    IdentNeg(m, r);
    CancelNeg(ui, u, m, r);
  }

  lemma InverseColAdd(v: Mat, vi: Mat, n: nat, dst: nat, src: nat, q: int)
    requires Inverses(v, vi, n) && dst < n && src < n && dst != src
    ensures Inverses(ColAdd(v, dst, src, q), RowAdd(vi, src, dst, -q), n)
  {
    InverseRowAdd(vi, v, n, src, dst, -q);
  }

  lemma InverseColSwap(v: Mat, vi: Mat, n: nat, c1: nat, c2: nat)
    requires Inverses(v, vi, n) && c1 < n && c2 < n
    ensures Inverses(ColSwap(v, c1, c2), SwapAt(vi, c1, c2), n)
  {
    InverseRowSwap(vi, v, n, c1, c2);
  }
}
