/** Why the solver inside backend/anomaly/structural_break.rs gives up: the pivot it stops at,
    and what a pivot of exactly zero says about the matrix. */
module SingularSystems {
  import opened Options
  import opened Vectors
  import opened GaussianElimination

  /** The pivot below `tol` that elimination stops at; None when it runs through. */
  function StoppingPivot(m: Mat, w: nat, tol: real, col: nat): (r: Option<real>)
    requires tol > 0.0 && Rect(m, w) && |m| <= w && col <= |m|
    ensures r.Some? ==> 0.0 <= r.value < tol
    decreases |m| - col
  {
    if col == |m| then None
    else
      var next := ColumnStep(m, w, tol, col);
      if next.None? then Some(Abs(m[PivotRow(m, w, col, |m|)][col])) else StoppingPivot(next.value, w, tol, col + 1)
  }

  lemma {:induction false} StopsExactly(m: Mat, w: nat, tol: real, col: nat)
    requires tol > 0.0 && Rect(m, w) && |m| <= w && col <= |m|
    ensures Forward(m, w, tol, col).None? <==> StoppingPivot(m, w, tol, col).Some?
    decreases |m| - col
  {
    hide ColumnStep, PivotRow;
    var next := if col < |m| then ColumnStep(m, w, tol, col) else None;
    if next.Some? {
      StopsExactly(next.value, w, tol, col + 1);
    }
  }

  // ----- columns beyond the square do not matter -----

  ghost predicate SameFront(a: Mat, wa: nat, b: Mat, wb: nat) {
    && Rect(a, wa) && Rect(b, wb) && |a| == |b| <= wa && |b| <= wb
    && forall i, j :: 0 <= i < |a| && 0 <= j < |a| ==> a[i][j] == b[i][j]
  }

  lemma {:induction false} SamePivot(a: Mat, wa: nat, b: Mat, wb: nat, col: nat, upto: nat)
    requires SameFront(a, wa, b, wb) && col < upto <= |a|
    ensures PivotRow(a, wa, col, upto) == PivotRow(b, wb, col, upto)
  {
    if upto > col + 1 { SamePivot(a, wa, b, wb, col, upto - 1); }
  }

  lemma SameSwap(a: Mat, wa: nat, b: Mat, wb: nat, i: nat, j: nat)
    requires SameFront(a, wa, b, wb) && i < |a| && j < |a|
    ensures SameFront(Swapped(a, i, j), wa, Swapped(b, i, j), wb)
  {
  }

  lemma SameTail(x: Vec, p: Vec, x': Vec, p': Vec, f: real, from: nat, k: nat)
    requires |x| == |p| >= k && |x'| == |p'| >= k
    requires forall j :: 0 <= j < k ==> x[j] == x'[j] && p[j] == p'[j]
    ensures forall j :: 0 <= j < k ==> TailAxpy(x, f, p, from)[j] == TailAxpy(x', f, p', from)[j]
  {
  }

  lemma {:induction false} SameElimination(a: Mat, wa: nat, b: Mat, wb: nat, col: nat, upto: nat)
    requires SameFront(a, wa, b, wb) && col < upto <= |a| && a[col][col] != 0.0
    ensures SameFront(Eliminated(a, wa, col, upto), wa, Eliminated(b, wb, col, upto), wb)
  {
    if upto > col + 1 {
      SameElimination(a, wa, b, wb, col, upto - 1);
      var e, e' := Eliminated(a, wa, col, upto - 1), Eliminated(b, wb, col, upto - 1);
      var x, p, x', p' := e[upto - 1], e[col], e'[upto - 1], e'[col];
      var f := x[col] / p[col];
      assert f == x'[col] / p'[col];
      SameTail(x, p, x', p', f, col, |a|);
    }
  }

  lemma SameStep(a: Mat, wa: nat, b: Mat, wb: nat, tol: real, col: nat)
    requires SameFront(a, wa, b, wb) && tol > 0.0 && col < |a|
    ensures ColumnStep(a, wa, tol, col).None? <==> ColumnStep(b, wb, tol, col).None?
    ensures ColumnStep(a, wa, tol, col).Some? ==>
              SameFront(ColumnStep(a, wa, tol, col).value, wa, ColumnStep(b, wb, tol, col).value, wb)
  {
    hide Eliminated, PivotRow;
    SamePivot(a, wa, b, wb, col, |a|);
    var p := PivotRow(a, wa, col, |a|);
    if Abs(a[p][col]) >= tol {
      SameSwap(a, wa, b, wb, col, p);
      SameElimination(Swapped(a, col, p), wa, Swapped(b, col, p), wb, col, |a|);
    }
  }

  lemma {:induction false} SameStop(a: Mat, wa: nat, b: Mat, wb: nat, tol: real, col: nat)
    requires SameFront(a, wa, b, wb) && tol > 0.0 && col <= |a|
    ensures StoppingPivot(a, wa, tol, col) == StoppingPivot(b, wb, tol, col)
    decreases |a| - col
  {
    hide ColumnStep;
    if col < |a| {
      SameStep(a, wa, b, wb, tol, col);
      var next, next' := ColumnStep(a, wa, tol, col), ColumnStep(b, wb, tol, col);
      if next.Some? {
        SameStop(next.value, wa, next'.value, wb, tol, col + 1);
      } else {
        SamePivot(a, wa, b, wb, col, |a|);
      }
    }
  }

  // ----- a zero pivot -----

  lemma {:induction false} DotTail(a: Vec, b: Vec, c: Vec, k: nat)
    requires |a| == |c| && |b| == k <= |a| && c[..k] == b
    requires forall j :: k <= j < |a| ==> c[j] == 0.0
    ensures Dot(a, c) == Dot(a[..k], b)
  {
    if k == |a| {
      assert a[..k] == a && c == b;
    } else {
      var m := |a| - 1;
      DotTail(a[..m], b, c[..m], k);
      assert a[..m][..k] == a[..k];
    }
  }

  /** The first `col` rows, cut after column `col`: a square triangular system. */
  function Corner(m: Mat, w: nat, col: nat): (r: Mat)
    requires Rect(m, w) && col < |m| <= w
    ensures |r| == col && Rect(r, col + 1)
  {
    seq(col, i requires 0 <= i < col => m[i][..col + 1])
  }

  /** A triangular matrix whose next column is zero from the diagonal down has a kernel. */
  lemma TriangularKernel(m: Mat, w: nat, col: nat) returns (v: Vec)
    requires Rect(m, w) && col < |m| <= w && Triangular(m, w, col)
    requires forall i :: col <= i < |m| ==> m[i][col] == 0.0
    ensures |v| == w && v[col] == -1.0 && Orthogonal(m, v)
  {
    var t := Corner(m, w, col);
    assert Triangular(t, col + 1, col);
    var b := BackSubstituted(t, 0);
    BackSubstitutionUnique(t, 0, b);
    var head := b + [-1.0];
    v := head + Zeros(w - col - 1);
    forall i | 0 <= i < |m| ensures Dot(m[i], v) == 0.0 {
      DotTail(m[i], head, v, col + 1);
      if i < col {
        assert t[i] == m[i][..col + 1] && Dot(t[i], head) == 0.0;
      } else {
        DotZero(m[i][..col + 1], head);
      }
    }
  }

  /** If elimination stops at a pivot of exactly zero, some vector other than zero is orthogonal
      to every row it was given. */
  lemma {:induction false} ZeroPivotKernel(m: Mat, w: nat, tol: real, col: nat) returns (v: Vec, i: nat)
    requires tol > 0.0 && Rect(m, w) && |m| <= w && col <= |m| && Triangular(m, w, col)
    requires StoppingPivot(m, w, tol, col) == Some(0.0)
    ensures |v| == w && i < |m| && v[i] == -1.0 && Orthogonal(m, v)
    decreases |m| - col
  {
    hide Orthogonal;
    var next := ColumnStep(m, w, tol, col);
    if next.Some? {
      ColumnStepSolutions(m, w, tol, col, Zeros(w));
      v, i := ZeroPivotKernel(next.value, w, tol, col + 1);
      ColumnStepSolutions(m, w, tol, col, v);
    } else {
      forall i | col <= i < |m| ensures m[i][col] == 0.0 {
        assert Abs(m[i][col]) <= Abs(m[PivotRow(m, w, col, |m|)][col]) == 0.0;
      }
      v := TriangularKernel(m, w, col);
      i := col;
    }
  }
}
