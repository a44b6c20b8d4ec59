/** The in-place Smith normal form: the matrix being reduced and both transforms
    are objects that the elementary operations update. */
module SmithForm {
  import opened Division
  import opened Matrices

  /** A matrix that its operations update in place. */
  class IMat {
    var rows: Mat

    constructor (a: Mat)
      ensures rows == a
    {
      rows := a;
    }

    method RowSwap(r1: nat, r2: nat)
      requires r1 < |rows| && r2 < |rows|
      modifies this
      ensures rows == SwapAt(old(rows), r1, r2)
    {
      rows := rows[r1 := rows[r2]][r2 := rows[r1]];
    }

    method ColumnSwap(c1: nat, c2: nat)
      requires forall i :: 0 <= i < |rows| ==> c1 < |rows[i]| && c2 < |rows[i]|
      modifies this
      ensures rows == ColSwap(old(rows), c1, c2)
    {
      var i := 0;
      while i < |rows|
        invariant 0 <= i <= |rows| == |old(rows)|
        invariant forall k :: 0 <= k < i ==> rows[k] == SwapAt(old(rows)[k], c1, c2)
        invariant forall k :: i <= k < |rows| ==> rows[k] == old(rows)[k]
      {
        rows := rows[i := rows[i][c1 := rows[i][c2]][c2 := rows[i][c1]]];
        i := i + 1;
      }
    }

    method RowAddMul(dst: nat, src: nat, q: int)
      requires dst < |rows| && src < |rows| && dst != src && |rows[dst]| == |rows[src]|
      modifies this
      ensures rows == RowAdd(old(rows), dst, src, q)
    {
      if q == 0 {
        assert Axpy(rows[dst], q, rows[src]) == rows[dst];
        return;
      }
      var j := 0;
      while j < |rows[dst]|
        invariant |rows| == |old(rows)| && 0 <= j <= |rows[dst]| == |old(rows)[dst]|
        invariant forall i :: 0 <= i < |rows| && i != dst ==> rows[i] == old(rows)[i]
        invariant forall k :: 0 <= k < j ==> rows[dst][k] == old(rows)[dst][k] - q * old(rows)[src][k]
        invariant forall k :: j <= k < |rows[dst]| ==> rows[dst][k] == old(rows)[dst][k]
      {
        rows := rows[dst := rows[dst][j := rows[dst][j] - q * rows[src][j]]];
        j := j + 1;
      }
      assert rows[dst] == Axpy(old(rows)[dst], q, old(rows)[src]);
    }

    method ColumnAddMul(dst: nat, src: nat, q: int)
      requires forall i :: 0 <= i < |rows| ==> dst < |rows[i]| && src < |rows[i]|
      modifies this
      ensures rows == ColAdd(old(rows), dst, src, q)
    {
      if q == 0 {
        assert forall i :: 0 <= i < |rows| ==> EntryAdd(rows[i], dst, src, q) == rows[i];
        return;
      }
      var i := 0;
      while i < |rows|
        invariant 0 <= i <= |rows| == |old(rows)|
        invariant forall k :: 0 <= k < i ==> rows[k] == EntryAdd(old(rows)[k], dst, src, q)
        invariant forall k :: i <= k < |rows| ==> rows[k] == old(rows)[k]
      {
        rows := rows[i := rows[i][dst := rows[i][dst] - q * rows[i][src]]];
        i := i + 1;
      }
    }

    method NegateRow(r: nat)
      requires r < |rows|
      modifies this
      ensures rows == RowNeg(old(rows), r)
    {
      var j := 0;
      while j < |rows[r]|
        invariant |rows| == |old(rows)| && 0 <= j <= |rows[r]| == |old(rows)[r]|
        invariant forall i :: 0 <= i < |rows| && i != r ==> rows[i] == old(rows)[i]
        invariant forall k :: 0 <= k < j ==> rows[r][k] == -old(rows)[r][k]
        invariant forall k :: j <= k < |rows[r]| ==> rows[r][k] == old(rows)[r][k]
      {
        rows := rows[r := rows[r][j := -rows[r][j]]];
        j := j + 1;
      }
      assert rows[r] == Negated(old(rows)[r]);
    }
  }

  // ----- what every step keeps -----

  /** u * orig * v == a, with u and v invertible over the integers. */
  ghost predicate Factored(orig: Mat, a: Mat, u: Mat, ui: Mat, v: Mat, vi: Mat, m: nat, n: nat) {
    && IsMat(orig, m, n)
    && Inverses(u, ui, m)
    && Inverses(v, vi, n)
    && a == Mul(Mul(u, orig, n), v, n)
  }

  lemma Shapes(orig: Mat, a: Mat, u: Mat, ui: Mat, v: Mat, vi: Mat, m: nat, n: nat)
    requires Factored(orig, a, u, ui, v, vi, m, n)
    ensures IsMat(a, m, n) && IsMat(u, m, m) && IsMat(ui, m, m) && IsMat(v, n, n) && IsMat(vi, n, n)
  {
  }

  /** Outside the block that starts at (t, t) the matrix is diagonal, and every
      pivot so far divides everything from its own position on. */
  ghost predicate Reduced(a: Mat, m: nat, n: nat, t: nat) {
    && IsMat(a, m, n) && t <= m && t <= n
    && (forall i, j :: 0 <= i < m && 0 <= j < n && i != j && (i < t || j < t) ==> a[i][j] == 0)
    && (forall s :: 0 <= s < t ==> a[s][s] != 0)
    && (forall s, i, j :: 0 <= s < t && s <= i < m && s <= j < n ==> Divides(a[s][s], a[i][j]))
  }

  ghost predicate ColumnClear(a: Mat, m: nat, n: nat, t: nat)
    requires IsMat(a, m, n) && t < n
  {
    forall i :: t < i < m ==> a[i][t] == 0
  }

  ghost predicate RowClear(a: Mat, m: nat, n: nat, t: nat)
    requires IsMat(a, m, n) && t < m
  {
    forall j :: t < j < n ==> a[t][j] == 0
  }

  /** Some entry right of the pivot is not a multiple of it. */
  ghost predicate Misfit(a: Mat, m: nat, n: nat, t: nat)
    requires IsMat(a, m, n) && t < m && t < n
  {
    exists j :: t < j < n && !Divides(a[t][t], a[t][j])
  }

  lemma KeepRowAdd(orig: Mat, a: Mat, u: Mat, ui: Mat, v: Mat, vi: Mat, m: nat, n: nat, dst: nat, src: nat, q: int)
    requires Factored(orig, a, u, ui, v, vi, m, n) && dst < m && src < m && dst != src
    ensures Factored(orig, RowAdd(a, dst, src, q), RowAdd(u, dst, src, q), ColAdd(ui, src, dst, -q), v, vi, m, n)
  {
    InverseRowAdd(u, ui, m, dst, src, q);
    MulRowAdd(u, orig, n, dst, src, q);
    MulRowAdd(Mul(u, orig, n), v, n, dst, src, q);
  }

  lemma KeepRowSwap(orig: Mat, a: Mat, u: Mat, ui: Mat, v: Mat, vi: Mat, m: nat, n: nat, r1: nat, r2: nat)
    requires Factored(orig, a, u, ui, v, vi, m, n) && r1 < m && r2 < m
    ensures Factored(orig, SwapAt(a, r1, r2), SwapAt(u, r1, r2), ColSwap(ui, r1, r2), v, vi, m, n)
  {
    InverseRowSwap(u, ui, m, r1, r2);
    MulRowSwap(u, orig, n, r1, r2);
    MulRowSwap(Mul(u, orig, n), v, n, r1, r2);
  }

  lemma KeepRowNeg(orig: Mat, a: Mat, u: Mat, ui: Mat, v: Mat, vi: Mat, m: nat, n: nat, r: nat)
    requires Factored(orig, a, u, ui, v, vi, m, n) && r < m
    ensures Factored(orig, RowNeg(a, r), RowNeg(u, r), ColNeg(ui, r), v, vi, m, n)
  {
    InverseRowNeg(u, ui, m, r);
    MulRowNeg(u, orig, n, r);
    MulRowNeg(Mul(u, orig, n), v, n, r);
  }

  lemma KeepColAdd(orig: Mat, a: Mat, u: Mat, ui: Mat, v: Mat, vi: Mat, m: nat, n: nat, dst: nat, src: nat, q: int)
    requires Factored(orig, a, u, ui, v, vi, m, n) && dst < n && src < n && dst != src
    ensures Factored(orig, ColAdd(a, dst, src, q), u, ui, ColAdd(v, dst, src, q), RowAdd(vi, src, dst, -q), m, n)
  {
    InverseColAdd(v, vi, n, dst, src, q);
    MulColAdd(Mul(u, orig, n), v, n, dst, src, q);
  }

  lemma KeepColSwap(orig: Mat, a: Mat, u: Mat, ui: Mat, v: Mat, vi: Mat, m: nat, n: nat, c1: nat, c2: nat)
    requires Factored(orig, a, u, ui, v, vi, m, n) && c1 < n && c2 < n
    ensures Factored(orig, ColSwap(a, c1, c2), u, ui, ColSwap(v, c1, c2), SwapAt(vi, c1, c2), m, n)
  {
    InverseColSwap(v, vi, n, c1, c2);
    MulColSwap(Mul(u, orig, n), v, n, c1, c2);
  }

  lemma ReducedRowAdd(a: Mat, m: nat, n: nat, t: nat, dst: nat, src: nat, q: int)
    requires Reduced(a, m, n, t) && t <= dst < m && t <= src < m
    ensures Reduced(RowAdd(a, dst, src, q), m, n, t)
  {
    var b := RowAdd(a, dst, src, q);
    forall s, i, j | 0 <= s < t && s <= i < m && s <= j < n
      ensures Divides(b[s][s], b[i][j])
    {
      if i == dst { DividesCombination(a[s][s], a[dst][j], q, a[src][j]); }
    }
  }

  lemma ReducedRowSwap(a: Mat, m: nat, n: nat, t: nat, r1: nat, r2: nat)
    requires Reduced(a, m, n, t) && t <= r1 < m && t <= r2 < m
    ensures Reduced(SwapAt(a, r1, r2), m, n, t)
  {
  }

  lemma ColAddEntries(a: Mat, m: nat, n: nat, dst: nat, src: nat, q: int)
    requires IsMat(a, m, n) && dst < n && src < n
    ensures IsMat(ColAdd(a, dst, src, q), m, n)
    ensures forall i, j :: 0 <= i < m && 0 <= j < n ==>
      ColAdd(a, dst, src, q)[i][j] == if j == dst then a[i][dst] - q * a[i][src] else a[i][j]
  {
  }

  lemma ReducedColAdd(a: Mat, m: nat, n: nat, t: nat, dst: nat, src: nat, q: int)
    requires Reduced(a, m, n, t) && t <= dst < n && t <= src < n
    ensures Reduced(ColAdd(a, dst, src, q), m, n, t)
  {
    ColAddEntries(a, m, n, dst, src, q);
    hide ColAdd;
    var b := ColAdd(a, dst, src, q);
    forall s, i, j | 0 <= s < t && s <= i < m && s <= j < n
      ensures Divides(b[s][s], b[i][j])
    {
      if j == dst { DividesCombination(a[s][s], a[i][dst], q, a[i][src]); }
    }
  }

  lemma ReducedColSwap(a: Mat, m: nat, n: nat, t: nat, c1: nat, c2: nat)
    requires Reduced(a, m, n, t) && t <= c1 < n && t <= c2 < n
    ensures Reduced(ColSwap(a, c1, c2), m, n, t)
  {
    var b := ColSwap(a, c1, c2);
    assert forall i, j :: 0 <= i < m && 0 <= j < n ==>
      b[i][j] == a[i][if j == c1 then c2 else if j == c2 then c1 else j];
  }

  /** The pivot at (t, t) is isolated and divides the rest of the block. */
  lemma ReducedStep(a: Mat, m: nat, n: nat, t: nat)
    requires Reduced(a, m, n, t) && t < m && t < n && a[t][t] != 0
    requires ColumnClear(a, m, n, t) && RowClear(a, m, n, t)
    requires forall i, j :: t < i < m && t < j < n ==> Divides(a[t][t], a[i][j])
    ensures Reduced(a, m, n, t + 1)
  {
    DividesZero(a[t][t]);
    assert a[t][t] == Times(a[t][t], 1);
  }

  // ----- one round: pick a pivot, clear its column and row, look for a misfit -----

  ghost predicate BlockZero(a: Mat, m: nat, n: nat, t: nat)
    requires IsMat(a, m, n)
  {
    forall i, j :: t <= i < m && t <= j < n ==> a[i][j] == 0
  }

  /** The first entry of least magnitude among the nonzero entries of the block. */
  method Pivot(a: Mat, m: nat, n: nat, t: nat) returns (found: bool, pi: nat, pj: nat)
    requires IsMat(a, m, n) && t < m && t < n
    ensures !found <==> BlockZero(a, m, n, t)
    ensures found ==> t <= pi < m && t <= pj < n && a[pi][pj] != 0
    ensures found ==> forall i, j :: t <= i < m && t <= j < n && a[i][j] != 0 ==> Abs(a[pi][pj]) <= Abs(a[i][j])
    ensures found && a[t][t] != 0 && Abs(a[t][t]) <= Abs(a[pi][pj]) ==> pi == t && pj == t
  {
    found, pi, pj := false, t, t;
    var best := 0;
    var i := t;
    while i < m
      invariant t <= i <= m && t <= pi < m && t <= pj < n
      invariant found ==> a[pi][pj] != 0 && best == Abs(a[pi][pj])
      invariant forall k, j :: t <= k < i && t <= j < n && a[k][j] != 0 ==> found && best <= Abs(a[k][j])
      invariant i > t && a[t][t] != 0 && Abs(a[t][t]) <= best ==> pi == t && pj == t
      invariant i == t ==> !found
    {
      var j := t;
      while j < n
        invariant t <= j <= n && t <= pi < m && t <= pj < n
        invariant found ==> a[pi][pj] != 0 && best == Abs(a[pi][pj])
        invariant forall k, l :: t <= k < i && t <= l < n && a[k][l] != 0 ==> found && best <= Abs(a[k][l])
        invariant forall l :: t <= l < j && a[i][l] != 0 ==> found && best <= Abs(a[i][l])
        invariant (i > t || j > t) && a[t][t] != 0 && Abs(a[t][t]) <= best ==> pi == t && pj == t
        invariant i == t && j == t ==> !found
      {
        if a[i][j] != 0 {
          var av := Abs(a[i][j]);
          if !found || av < best {
            found, best, pi, pj := true, av, i, j;
          }
        }
        j := j + 1;
      }
      i := i + 1;
    }
  }

  /** Subtracts the pivot row from row i; when a remainder is left in the pivot's
      column the two rows trade places, and the remainder becomes the pivot. */
  method EliminateRow(a: IMat, u: IMat, t: nat, i: nat, m: nat, n: nat,
                      ghost orig: Mat, ghost ui0: Mat, ghost v: Mat, ghost vi: Mat)
    returns (hit: bool, ghost ui: Mat)
    requires a != u && t < i < m && t < n
    requires Factored(orig, a.rows, u.rows, ui0, v, vi, m, n)
    requires Reduced(a.rows, m, n, t) && a.rows[t][t] != 0
    modifies a, u
    ensures Factored(orig, a.rows, u.rows, ui, v, vi, m, n)
    ensures Reduced(a.rows, m, n, t) && a.rows[t][t] != 0
    ensures hit ==> Abs(a.rows[t][t]) < Abs(old(a.rows)[t][t])
    ensures !hit ==> a.rows[i][t] == 0 && forall k :: 0 <= k < m && k != i ==> a.rows[k] == old(a.rows)[k]
  {
    hide Factored;
    Shapes(orig, a.rows, u.rows, ui0, v, vi, m, n);
    var q := TruncDiv(a.rows[i][t], a.rows[t][t]);
    RemainderMeaning(a.rows[i][t], a.rows[t][t]);
    KeepRowAdd(orig, a.rows, u.rows, ui0, v, vi, m, n, i, t, q);
    ReducedRowAdd(a.rows, m, n, t, i, t, q);
    a.RowAddMul(i, t, q);
    u.RowAddMul(i, t, q);
    ui := ColAdd(ui0, t, i, -q);
    hit := a.rows[i][t] != 0;
    if hit {
      KeepRowSwap(orig, a.rows, u.rows, ui, v, vi, m, n, t, i);
      ReducedRowSwap(a.rows, m, n, t, t, i);
      a.RowSwap(t, i);
      u.RowSwap(t, i);
      ui := Matrices.ColSwap(ui, t, i);
    }
  }

  /** One sweep down the pivot's column. Every swap leaves a strictly smaller pivot;
      a sweep without a swap leaves the column clear and the pivot's row alone. */
  method ColumnPass(a: IMat, u: IMat, t: nat, m: nat, n: nat,
                    ghost orig: Mat, ghost ui0: Mat, ghost v: Mat, ghost vi: Mat)
    returns (again: bool, ghost ui: Mat)
    requires a != u && t < m && t < n
    requires Factored(orig, a.rows, u.rows, ui0, v, vi, m, n)
    requires Reduced(a.rows, m, n, t) && a.rows[t][t] != 0
    modifies a, u
    ensures Factored(orig, a.rows, u.rows, ui, v, vi, m, n)
    ensures Reduced(a.rows, m, n, t) && a.rows[t][t] != 0
    ensures again ==> Abs(a.rows[t][t]) < Abs(old(a.rows)[t][t]) && !ColumnClear(old(a.rows), m, n, t)
    ensures !again ==> a.rows[t] == old(a.rows)[t] && ColumnClear(a.rows, m, n, t)
  {
    hide Factored;
    again, ui := false, ui0;
    var i := t + 1;
    while i < m
      invariant t < i <= m
      invariant Factored(orig, a.rows, u.rows, ui, v, vi, m, n)
      invariant Reduced(a.rows, m, n, t) && a.rows[t][t] != 0
      invariant again ==> Abs(a.rows[t][t]) < Abs(old(a.rows)[t][t]) && !ColumnClear(old(a.rows), m, n, t)
      invariant !again ==> a.rows[t] == old(a.rows)[t] && forall k :: t < k < i ==> a.rows[k][t] == 0
      invariant !again ==> forall k :: i <= k < m ==> a.rows[k] == old(a.rows)[k]
    {
      if a.rows[i][t] != 0 {
        var hit;
        hit, ui := EliminateRow(a, u, t, i, m, n, orig, ui, v, vi);
        again := again || hit;
      }
      i := i + 1;
    }
  }

  /** The column counterpart of EliminateRow. */
  method EliminateColumn(a: IMat, v: IMat, t: nat, j: nat, m: nat, n: nat,
                         ghost orig: Mat, ghost u: Mat, ghost ui: Mat, ghost vi0: Mat)
    returns (hit: bool, ghost vi: Mat)
    requires a != v && t < j < n && t < m
    requires Factored(orig, a.rows, u, ui, v.rows, vi0, m, n)
    requires Reduced(a.rows, m, n, t) && a.rows[t][t] != 0
    modifies a, v
    ensures Factored(orig, a.rows, u, ui, v.rows, vi, m, n)
    ensures Reduced(a.rows, m, n, t) && a.rows[t][t] != 0
    ensures hit ==> Abs(a.rows[t][t]) < Abs(old(a.rows)[t][t])
    ensures !hit ==> a.rows[t][j] == 0 && Divides(a.rows[t][t], old(a.rows)[t][j])
    ensures !hit ==> forall i, k :: 0 <= i < m && 0 <= k < n && k != j ==> a.rows[i][k] == old(a.rows)[i][k]
  {
    hide Factored;
    Shapes(orig, a.rows, u, ui, v.rows, vi0, m, n);
    var q := TruncDiv(a.rows[t][j], a.rows[t][t]);
    RemainderMeaning(a.rows[t][j], a.rows[t][t]);
    KeepColAdd(orig, a.rows, u, ui, v.rows, vi0, m, n, j, t, q);
    ReducedColAdd(a.rows, m, n, t, j, t, q);
    a.ColumnAddMul(j, t, q);
    v.ColumnAddMul(j, t, q);
    vi := RowAdd(vi0, t, j, -q);
    assert forall i :: 0 <= i < m ==> a.rows[i] == EntryAdd(old(a.rows)[i], j, t, q);
    hit := a.rows[t][j] != 0;
    if hit {
      KeepColSwap(orig, a.rows, u, ui, v.rows, vi, m, n, t, j);
      ReducedColSwap(a.rows, m, n, t, t, j);
      a.ColumnSwap(t, j);
      v.ColumnSwap(t, j);
      vi := SwapAt(vi, t, j);
    }
  }

  /** One sweep along the pivot's row. Every swap leaves a strictly smaller pivot; a sweep
      without a swap means every entry was a multiple of the pivot, and the row is clear. */
  method RowPass(a: IMat, v: IMat, t: nat, m: nat, n: nat,
                 ghost orig: Mat, ghost u: Mat, ghost ui: Mat, ghost vi0: Mat)
    returns (again: bool, ghost vi: Mat)
    requires a != v && t < m && t < n
    requires Factored(orig, a.rows, u, ui, v.rows, vi0, m, n)
    requires Reduced(a.rows, m, n, t) && a.rows[t][t] != 0
    modifies a, v
    ensures Factored(orig, a.rows, u, ui, v.rows, vi, m, n)
    ensures Reduced(a.rows, m, n, t) && a.rows[t][t] != 0
    ensures again ==> Abs(a.rows[t][t]) < Abs(old(a.rows)[t][t])
    ensures !again ==> a.rows[t][t] == old(a.rows)[t][t] && RowClear(a.rows, m, n, t)
    ensures !again ==> !Misfit(old(a.rows), m, n, t)
    ensures !again && ColumnClear(old(a.rows), m, n, t) ==> ColumnClear(a.rows, m, n, t)
  {
    hide Factored;
    again, vi := false, vi0;
    var j := t + 1;
    while j < n
      invariant t < j <= n
      invariant Factored(orig, a.rows, u, ui, v.rows, vi, m, n)
      invariant Reduced(a.rows, m, n, t) && a.rows[t][t] != 0
      invariant again ==> Abs(a.rows[t][t]) < Abs(old(a.rows)[t][t])
      invariant !again ==> forall k :: 0 <= k < m ==> a.rows[k][t] == old(a.rows)[k][t]
      invariant !again ==> forall k :: t < k < j ==> a.rows[t][k] == 0 && Divides(a.rows[t][t], old(a.rows)[t][k])
      invariant !again ==> forall k :: j <= k < n ==> a.rows[t][k] == old(a.rows)[t][k]
    {
      if a.rows[t][j] != 0 {
        var hit;
        hit, vi := EliminateColumn(a, v, t, j, m, n, orig, u, ui, vi);
        again := again || hit;
      } else {
        DividesZero(a.rows[t][t]);
      }
      j := j + 1;
    }
  }

  /** Clears the pivot's column and row; terminates because every sweep that swaps
      leaves a strictly smaller pivot. A misfit in the row forces at least one swap. */
  method ClearCross(a: IMat, u: IMat, v: IMat, t: nat, m: nat, n: nat,
                    ghost orig: Mat, ghost ui0: Mat, ghost vi0: Mat)
    returns (ghost ui: Mat, ghost vi: Mat)
    requires a != u && a != v && u != v && t < m && t < n
    requires Factored(orig, a.rows, u.rows, ui0, v.rows, vi0, m, n)
    requires Reduced(a.rows, m, n, t) && a.rows[t][t] != 0
    modifies a, u, v
    ensures Factored(orig, a.rows, u.rows, ui, v.rows, vi, m, n)
    ensures Reduced(a.rows, m, n, t) && a.rows[t][t] != 0
    ensures ColumnClear(a.rows, m, n, t) && RowClear(a.rows, m, n, t)
    ensures Abs(a.rows[t][t]) <= Abs(old(a.rows)[t][t])
    ensures ColumnClear(old(a.rows), m, n, t) && Misfit(old(a.rows), m, n, t)
      ==> Abs(a.rows[t][t]) < Abs(old(a.rows)[t][t])
  {
    hide Factored;
    ui, vi := ui0, vi0;
    var again := true;
    while again
      invariant Factored(orig, a.rows, u.rows, ui, v.rows, vi, m, n)
      invariant Reduced(a.rows, m, n, t) && a.rows[t][t] != 0
      invariant !again ==> ColumnClear(a.rows, m, n, t) && RowClear(a.rows, m, n, t)
      invariant Abs(a.rows[t][t]) <= Abs(old(a.rows)[t][t])
      invariant Abs(a.rows[t][t]) < Abs(old(a.rows)[t][t])
        || (again && a.rows == old(a.rows))
        || (!again && !(ColumnClear(old(a.rows), m, n, t) && Misfit(old(a.rows), m, n, t)))
      decreases Abs(a.rows[t][t]), again
    {
      var hitColumn, hitRow;
      hitColumn, ui := ColumnPass(a, u, t, m, n, orig, ui, v.rows, vi);
      hitRow, vi := RowPass(a, v, t, m, n, orig, u.rows, ui, vi);
      again := hitColumn || hitRow;
    }
  }

  /** The first row of the block below the pivot with an entry the pivot does not divide. */
  method FindMisfit(a: Mat, t: nat, m: nat, n: nat) returns (found: bool, row: nat)
    requires IsMat(a, m, n) && t < m && t < n && a[t][t] != 0
    ensures found ==> t < row < m && exists j :: t < j < n && !Divides(a[t][t], a[row][j])
    ensures !found ==> forall i, j :: t < i < m && t < j < n ==> Divides(a[t][t], a[i][j])
  {
    found, row := false, t;
    var i := t + 1;
    while i < m
      invariant t < i <= m
      invariant forall k, j :: t < k < i && t < j < n ==> Divides(a[t][t], a[k][j])
    {
      var j := t + 1;
      while j < n
        invariant t < j
        invariant forall l :: t < l < j && l < n ==> Divides(a[t][t], a[i][l])
      {
        RemainderMeaning(a[i][j], a[t][t]);
        if TruncRem(a[i][j], a[t][t]) != 0 {
          found, row := true, i;
          return;
        }
        j := j + 1;
      }
      i := i + 1;
    }
  }

  /** When the pivot fails to divide the block, a row with a misfit is added to its own. */
  method SpreadMisfit(a: IMat, u: IMat, t: nat, m: nat, n: nat,
                      ghost orig: Mat, ghost ui0: Mat, ghost v: Mat, ghost vi: Mat)
    returns (again: bool, ghost ui: Mat)
    requires a != u && t < m && t < n
    requires Factored(orig, a.rows, u.rows, ui0, v, vi, m, n)
    requires Reduced(a.rows, m, n, t) && a.rows[t][t] != 0
    requires ColumnClear(a.rows, m, n, t) && RowClear(a.rows, m, n, t)
    modifies a, u
    ensures Factored(orig, a.rows, u.rows, ui, v, vi, m, n)
    ensures Reduced(a.rows, m, n, t) && a.rows[t][t] == old(a.rows)[t][t]
    ensures again ==> ColumnClear(a.rows, m, n, t) && Misfit(a.rows, m, n, t)
    ensures !again ==> Reduced(a.rows, m, n, t + 1)
  {
    hide Factored;
    Shapes(orig, a.rows, u.rows, ui0, v, vi, m, n);
    ui := ui0;
    var i;
    again, i := FindMisfit(a.rows, t, m, n);
    if again {
      ghost var j :| t < j < n && !Divides(a.rows[t][t], a.rows[i][j]);
      KeepRowAdd(orig, a.rows, u.rows, ui, v, vi, m, n, t, i, -1);
      ReducedRowAdd(a.rows, m, n, t, t, i, -1);
      a.RowAddMul(t, i, -1);
      u.RowAddMul(t, i, -1);
      ui := ColAdd(ui, i, t, 1);
      assert a.rows[t][j] == a.rows[i][j];
    } else {
      ReducedStep(a.rows, m, n, t);
    }
  }

  // ----- the normal form -----

  function Lesser(m: nat, n: nat): nat { if m < n then m else n }

  datatype Smith = Smith(u: Mat, d: Mat, v: Mat, rank: nat)

  ghost predicate Diagonal(d: Mat, m: nat, n: nat) {
    IsMat(d, m, n) && forall i, j :: 0 <= i < m && 0 <= j < n && i != j ==> d[i][j] == 0
  }

  /** The Smith normal form of orig, with both transforms invertible over the integers. */
  ghost predicate IsSmith(orig: Mat, s: Smith, m: nat, n: nat) {
    && IsMat(orig, m, n)
    && Unimodular(s.u, m) && Unimodular(s.v, n)
    && IsMat(s.u, m, m) && IsMat(s.v, n, n)
    && s.d == Mul(Mul(s.u, orig, n), s.v, n)
    && Diagonal(s.d, m, n)
    && s.rank <= Lesser(m, n)
    && (forall i :: 0 <= i < s.rank ==> s.d[i][i] > 0)
    && (forall i :: s.rank <= i < Lesser(m, n) ==> s.d[i][i] == 0)
    && (forall i, j :: 0 <= i <= j < Lesser(m, n) && i < s.rank ==> Divides(s.d[i][i], s.d[j][j]))
  }

  /** Moves the least nonzero entry of the block to (t, t). */
  method BringPivot(a: IMat, u: IMat, v: IMat, t: nat, m: nat, n: nat,
                    ghost orig: Mat, ghost ui0: Mat, ghost vi0: Mat)
    returns (found: bool, ghost ui: Mat, ghost vi: Mat)
    requires a != u && a != v && u != v && t < m && t < n
    requires Factored(orig, a.rows, u.rows, ui0, v.rows, vi0, m, n)
    requires Reduced(a.rows, m, n, t)
    modifies a, u, v
    ensures Factored(orig, a.rows, u.rows, ui, v.rows, vi, m, n)
    ensures Reduced(a.rows, m, n, t)
    ensures !found ==> BlockZero(a.rows, m, n, t)
    ensures found ==> a.rows[t][t] != 0
    ensures old(a.rows)[t][t] != 0 ==>
      found && (a.rows == old(a.rows) || Abs(a.rows[t][t]) < Abs(old(a.rows)[t][t]))
  {
    hide Factored;
    Shapes(orig, a.rows, u.rows, ui0, v.rows, vi0, m, n);
    ui, vi := ui0, vi0;
    var pi, pj;
    found, pi, pj := Pivot(a.rows, m, n, t);
    if found {
      if pi != t {
        KeepRowSwap(orig, a.rows, u.rows, ui, v.rows, vi, m, n, t, pi);
        ReducedRowSwap(a.rows, m, n, t, t, pi);
        a.RowSwap(t, pi);
        u.RowSwap(t, pi);
        ui := Matrices.ColSwap(ui, t, pi);
      }
      assert a.rows[t][pj] == old(a.rows)[pi][pj];
      if pj != t {
        KeepColSwap(orig, a.rows, u.rows, ui, v.rows, vi, m, n, t, pj);
        ReducedColSwap(a.rows, m, n, t, t, pj);
        a.ColumnSwap(t, pj);
        v.ColumnSwap(t, pj);
        vi := SwapAt(vi, t, pj);
      }
      assert a.rows[t][t] == old(a.rows)[pi][pj];
    }
  }

  method Flip(a: IMat, u: IMat, m: nat, n: nat, i: nat,
              ghost orig: Mat, ghost ui0: Mat, ghost v: Mat, ghost vi: Mat)
    returns (ghost ui: Mat)
    requires a != u && i < Lesser(m, n)
    requires Factored(orig, a.rows, u.rows, ui0, v, vi, m, n) && Diagonal(a.rows, m, n)
    modifies a, u
    ensures Factored(orig, a.rows, u.rows, ui, v, vi, m, n) && Diagonal(a.rows, m, n)
    ensures forall k :: 0 <= k < Lesser(m, n) ==>
      a.rows[k][k] == if k == i then -old(a.rows)[k][k] else old(a.rows)[k][k]
  {
    KeepRowNeg(orig, a.rows, u.rows, ui0, v, vi, m, n, i);
    a.NegateRow(i);
    u.NegateRow(i);
    ui := ColNeg(ui0, i);
  }

  /** Makes the diagonal non-negative and counts its nonzero entries. */
  method Finish(a: IMat, u: IMat, m: nat, n: nat, ghost t: nat,
                ghost orig: Mat, ghost ui0: Mat, ghost v: Mat, ghost vi: Mat)
    returns (rank: nat, ghost ui: Mat)
    requires a != u
    requires Factored(orig, a.rows, u.rows, ui0, v, vi, m, n)
    requires Reduced(a.rows, m, n, t) && BlockZero(a.rows, m, n, t)
    modifies a, u
    ensures Factored(orig, a.rows, u.rows, ui, v, vi, m, n)
    ensures Diagonal(a.rows, m, n) && rank == t
    ensures forall i :: 0 <= i < t ==> a.rows[i][i] > 0
    ensures forall i :: t <= i < Lesser(m, n) ==> a.rows[i][i] == 0
    ensures forall i, j :: 0 <= i <= j < Lesser(m, n) && i < t ==> Divides(a.rows[i][i], a.rows[j][j])
  {
    hide Factored;
    rank, ui := 0, ui0;
    var i := 0;
    var lim := Lesser(m, n);
    assert t <= lim;
    while i < lim
      invariant 0 <= i <= lim
      invariant Factored(orig, a.rows, u.rows, ui, v, vi, m, n)
      invariant Diagonal(a.rows, m, n)
      invariant forall k :: 0 <= k < lim ==> Abs(a.rows[k][k]) == Abs(old(a.rows)[k][k])
      invariant forall k :: 0 <= k < i ==> a.rows[k][k] >= 0
      invariant rank == if i < t then i else t
    {
      if a.rows[i][i] < 0 {
        ui := Flip(a, u, m, n, i, orig, ui, v, vi);
      }
      if a.rows[i][i] != 0 { rank := rank + 1; }
      i := i + 1;
    }
    forall i, j | 0 <= i <= j < lim && i < t
      ensures Divides(a.rows[i][i], a.rows[j][j])
    {
      DividesUpToSign(old(a.rows)[i][i], old(a.rows)[j][j], a.rows[i][i], a.rows[j][j]);
    }
  }

  lemma DividesUpToSign(d: int, x: int, e: int, y: int)
    requires Divides(d, x) && Abs(d) == Abs(e) && Abs(x) == Abs(y)
    ensures Divides(e, y)
  {
    var k :| x == Times(d, k);
    assert x == Times(-d, -k) && -x == Times(d, -k) && -x == Times(-d, k);
  }

  lemma Untouched(orig: Mat, m: nat, n: nat)
    requires IsMat(orig, m, n)
    ensures Factored(orig, orig, Ident(m), Ident(m), Ident(n), Ident(n), m, n)
  {
    IdentUnimodular(m);
    IdentUnimodular(n);
    IdentLeft(orig, n);
    IdentRight(orig, n);
  }

  lemma Normal(orig: Mat, a: Mat, u: Mat, ui: Mat, v: Mat, vi: Mat, m: nat, n: nat, rank: nat)
    requires Factored(orig, a, u, ui, v, vi, m, n) && Diagonal(a, m, n) && rank <= Lesser(m, n)
    requires forall i :: 0 <= i < rank ==> a[i][i] > 0
    requires forall i :: rank <= i < Lesser(m, n) ==> a[i][i] == 0
    requires forall i, j :: 0 <= i <= j < Lesser(m, n) && i < rank ==> Divides(a[i][i], a[j][j])
    ensures IsSmith(orig, Smith(u, a, v, rank), m, n)
  {
  }

  /** Reduces a copy of orig in place. A round that ends in a misfit keeps t; the next one
      then ends with a strictly smaller pivot, so only finitely many rounds share a t. */
  method SmithNormalForm(orig: Mat) returns (s: Smith)
    requires orig != [] ==> IsMat(orig, |orig|, |orig[0]|)
    ensures IsSmith(orig, s, |orig|, if orig == [] then 0 else |orig[0]|)
  {
    var m := |orig|;
    var n := if m == 0 then 0 else |orig[0]|;
    var a := new IMat(orig);
    var u := new IMat(Ident(m));
    var v := new IMat(Ident(n));
    ghost var ui, vi := Ident(m), Ident(n);
    hide Factored;
    hide IsSmith;
    Untouched(orig, m, n);
    var t := 0;
    var lim := Lesser(m, n);
    ghost var retry := false;
    while t < lim
      invariant t <= lim && fresh(a) && fresh(u) && fresh(v) && a != u && a != v && u != v
      invariant Factored(orig, a.rows, u.rows, ui, v.rows, vi, m, n)
      invariant Reduced(a.rows, m, n, t)
      invariant retry ==> t < lim && a.rows[t][t] != 0 && ColumnClear(a.rows, m, n, t) && Misfit(a.rows, m, n, t)
      decreases lim - t, !retry, if retry then Abs(a.rows[t][t]) else 0
    {
      var found;
      found, ui, vi := BringPivot(a, u, v, t, m, n, orig, ui, vi);
      if !found { break; }
      ui, vi := ClearCross(a, u, v, t, m, n, orig, ui, vi);
      var again;
      again, ui := SpreadMisfit(a, u, t, m, n, orig, ui, v.rows, vi);
      retry := again;
      if again { continue; }
      t := t + 1;
    }
    var rank;
    rank, ui := Finish(a, u, m, n, t, orig, ui, v.rows, vi);
    s := Smith(u.rows, a.rows, v.rows, rank);
    Normal(orig, a.rows, u.rows, ui, v.rows, vi, m, n, rank);
  }
}
