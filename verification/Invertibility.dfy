/** Exactly when the inversion of backend/anomaly/mahalanobis_math.rs succeeds: for matrices
    that are not singular and lose no pivot to the fixed tolerance. */
module Invertibility {
  import opened Options
  import opened Vectors
  import opened GaussianElimination
  import opened SingularSystems
  import opened LeastSquares
  import opened GaussJordan

  /** One column of the reduction, from a pivot row on. */
  function Advanced(m: Mat, w: nat, col: nat, p: nat): (r: Mat)
    requires Rect(m, w) && col <= p < |m| <= w && m[p][col] != 0.0
    ensures |r| == |m| && Rect(r, w)
  {
    Cleared(ScaledRow(Swapped(m, col, p), w, col), w, col, |m|)
  }

  /** The pivot below `tol` that the reduction stops at; None when it runs through. */
  function LostPivot(m: Mat, w: nat, tol: real, col: nat): (r: Option<real>)
    requires tol > 0.0 && Rect(m, w) && |m| <= w && col <= |m|
    ensures r.Some? ==> 0.0 <= r.value < tol
    decreases |m| - col
  {
    if col == |m| then None
    else
      var p := PivotRow(m, w, col, |m|);
      if Abs(m[p][col]) < tol then Some(Abs(m[p][col])) else LostPivot(Advanced(m, w, col, p), w, tol, col + 1)
  }

  lemma {:induction false} LostExactly(m: Mat, w: nat, tol: real, col: nat)
    requires tol > 0.0 && Rect(m, w) && |m| <= w && col <= |m|
    ensures Reduced(m, w, tol, col).None? <==> LostPivot(m, w, tol, col).Some?
    decreases |m| - col
  {
    hide PivotRow, Cleared, ScaledRow;
    if col < |m| {
      var p := PivotRow(m, w, col, |m|);
      if Abs(m[p][col]) >= tol { LostExactly(Advanced(m, w, col, p), w, tol, col + 1); }
    }
  }

  lemma AdvancedUnitColumns(m: Mat, w: nat, col: nat, p: nat)
    requires Rect(m, w) && col <= p < |m| <= w && m[p][col] != 0.0 && UnitColumns(m, w, col)
    ensures UnitColumns(Advanced(m, w, col, p), w, col + 1)
  {
    var s := Swapped(m, col, p);
    SwappedUnitColumns(m, w, col, p);
    ScaledUnitColumns(s, w, col);
    ClearedUnitColumns(ScaledRow(s, w, col), w, col);
  }

  lemma ClearedBack(m: Mat, w: nat, col: nat, v: Vec)
    requires Rect(m, w) && |v| == w && col < |m| && col < w && Orthogonal(Cleared(m, w, col, |m|), v)
    ensures Orthogonal(m, v)
  {
    ClearedRows(m, w, col, |m|);
    var e := Cleared(m, w, col, |m|);
    assert Dot(e[col], v) == Dot(m[col], v) == 0.0;
    forall i | 0 <= i < |m| ensures Dot(m[i], v) == 0.0 {
      if i != col {
        DotAxpy(m[i], m[i][col], m[col], v);
        assert Dot(e[i], v) == 0.0;
      }
    }
  }

  lemma ScaledBack(m: Mat, w: nat, col: nat, v: Vec)
    requires Rect(m, w) && |v| == w && col < |m| && col < w && m[col][col] != 0.0
    requires Orthogonal(ScaledRow(m, w, col), v)
    ensures Orthogonal(m, v)
  {
    var s, d, x := ScaledRow(m, w, col), m[col][col], Dot(m[col], v);
    DotScaled(m[col], d, v);
    forall i | 0 <= i < |m| ensures Dot(m[i], v) == 0.0 {
      assert Dot(s[i], v) == 0.0;
      if i == col { assert x / d == 0.0 && (x / d) * d == x; }
    }
  }

  /** Vectors orthogonal to the rows after a step were orthogonal to them before. */
  lemma AdvancedBack(m: Mat, w: nat, col: nat, p: nat, v: Vec)
    requires Rect(m, w) && col <= p < |m| <= w == |v| && m[p][col] != 0.0
    requires Orthogonal(Advanced(m, w, col, p), v)
    ensures Orthogonal(m, v)
  {
    var s := Swapped(m, col, p);
    ClearedBack(ScaledRow(s, w, col), w, col, v);
    ScaledBack(s, w, col, v);
    SwappedSolutions(m, col, p, v);
  }

  /** A row cut after column `col`, against the entries of that column above it. */
  lemma CutRow(row: Vec, front: Vec, head: Vec, v: Vec, col: nat, x: real)
    requires col < |row| == |v| && |head| == |front| == col && row[..col + 1] == front + [x]
    requires v[..col + 1] == head + [-1.0] && forall j :: col < j < |v| ==> v[j] == 0.0
    ensures Dot(row, v) == Dot(front, head) - x
  {
    DotTail(row, head + [-1.0], v, col + 1);
    DotLast(front, head, x, -1.0);
  }

  /** After unit columns a column that is zero from the diagonal down has a kernel. */
  lemma UnitKernel(m: Mat, w: nat, col: nat) returns (v: Vec)
    requires Rect(m, w) && col < |m| <= w && UnitColumns(m, w, col)
    requires forall i :: col <= i < |m| ==> m[i][col] == 0.0
    ensures |v| == w && v[col] == -1.0 && Orthogonal(m, v)
    ensures forall j :: col < j < w ==> v[j] == 0.0
  {
    var head := seq(col, i requires 0 <= i < col => m[i][col]);
    v := (head + [-1.0]) + Zeros(w - col - 1);
    forall i | 0 <= i < |m| ensures Dot(m[i], v) == 0.0 {
      UnitRow(m, w, col, i, head, m[i][..col]);
      CutRow(m[i], m[i][..col], head, v, col, m[i][col]);
    }
  }

  lemma UnitRow(m: Mat, w: nat, col: nat, i: nat, head: Vec, front: Vec)
    requires Rect(m, w) && col < |m| <= w && UnitColumns(m, w, col) && i < |m| && front == m[i][..col]
    requires |head| == col && forall i :: 0 <= i < col ==> head[i] == m[i][col]
    requires forall i :: col <= i < |m| ==> m[i][col] == 0.0
    ensures Dot(front, head) == m[i][col]
  {
    if i < col {
      assert front == Unit(col, i);
      DotSymmetric(front, head);
      DotUnit(head, i);
    } else {
      DotZero(front, head);
    }
  }

  lemma {:induction false} LostZeroKernel(m: Mat, w: nat, tol: real, col: nat) returns (v: Vec, i: nat)
    requires tol > 0.0 && Rect(m, w) && |m| <= w && col <= |m| && UnitColumns(m, w, col)
    requires LostPivot(m, w, tol, col) == Some(0.0)
    ensures |v| == w && i < |m| && v[i] == -1.0 && Orthogonal(m, v)
    ensures forall j :: |m| <= j < w ==> v[j] == 0.0
    decreases |m| - col
  {
    hide Orthogonal, Advanced;
    var p := PivotRow(m, w, col, |m|);
    if Abs(m[p][col]) >= tol {
      AdvancedUnitColumns(m, w, col, p);
      v, i := LostZeroKernel(Advanced(m, w, col, p), w, tol, col + 1);
      AdvancedBack(m, w, col, p, v);
    } else {
      forall i | col <= i < |m| ensures m[i][col] == 0.0 {
        assert Abs(m[i][col]) <= Abs(m[p][col]) == 0.0;
      }
      v := UnitKernel(m, w, col);
      i := col;
    }
  }

  /** Some vector other than zero is sent to zero. */
  ghost predicate Singular(a: Mat)
    requires Square(a)
  {
    exists v: Vec :: |v| == |a| && v != Zeros(|a|) && Orthogonal(a, v)
  }

  /** The reduction of [A, I] meets a pivot that is not zero and below the tolerance. */
  predicate LosesPivot(a: Mat)
    requires Square(a)
  {
    var p := LostPivot(WithIdentity(a), 2 * |a|, TINY, 0);
    p.Some? && p.value > 0.0
  }

  lemma FrontKernel(a: Mat, m: Mat, v: Vec, u: Vec)
    requires Square(a) && m == WithIdentity(a) && |v| == 2 * |a| && Orthogonal(m, v) && u == v[..|a|]
    requires forall j :: |a| <= j < |v| ==> v[j] == 0.0
    ensures Orthogonal(a, u)
  {
    var n := |a|;
    forall i | 0 <= i < n ensures Dot(a[i], u) == 0.0 {
      DotTail(m[i], u, v, n);
      assert m[i][..n] == a[i] && Dot(m[i], v) == 0.0;
    }
  }

  lemma ZeroPivotIsSingular(a: Mat)
    requires Square(a) && LostPivot(WithIdentity(a), 2 * |a|, TINY, 0) == Some(0.0)
    ensures Singular(a)
  {
    hide LostPivot, Orthogonal, WithIdentity;
    var n, m := |a|, WithIdentity(a);
    var v, k := LostZeroKernel(m, 2 * n, TINY, 0);
    var u := v[..n];
    FrontKernel(a, m, v, u);
    assert u != Zeros(n) by { assert u[k] != Zeros(n)[k]; }
  }

  lemma LeftInverseNotSingular(a: Mat, b: Mat, v: Vec)
    requires Square(a) && |b| == |a| == |v| && Square(b) && LeftInverse(b, a) && Orthogonal(a, v)
    ensures v == Zeros(|a|)
  {
    var n := |a|;
    forall i | 0 <= i < n ensures v[i] == 0.0 {
      var row := Combine(a, n, b[i]);
      forall c | 0 <= c < n ensures row[c] == Unit(n, i)[c] {
        CombineAt(a, n, b[i], c);
        assert Dot(b[i], Column(a, n, c)) == Unit(n, i)[c];
      }
      assert row == Unit(n, i);
      Adjoint(a, b[i], v);
      DotSymmetric(b[i], Fit(a, v));
      DotZero(Fit(a, v), b[i]);
      DotSymmetric(row, v);
      DotUnit(v, i);
    }
  }

  /** A matrix is inverted exactly when it is not singular and no pivot falls strictly between
      0 and the tolerance. */
  lemma InverseExactly(a: Mat)
    requires Square(a)
    ensures Inverse(a).Some? <==> !Singular(a) && !LosesPivot(a)
  {
    LostExactly(WithIdentity(a), 2 * |a|, TINY, 0);
    if Inverse(a).Some? {
      InverseIsLeft(a);
      if Singular(a) {
        var v: Vec :| |v| == |a| && v != Zeros(|a|) && Orthogonal(a, v);
        LeftInverseNotSingular(a, Inverse(a).value, v);
      }
    } else if !LosesPivot(a) {
      ZeroPivotIsSingular(a);
    }
  }

  /** A single number is inverted exactly when it is at least 1e-12 in size. */
  lemma OneByOne(x: real)
    ensures Inverse([[x]]).Some? <==> Abs(x) >= 0.000000000001
  {
    var m := WithIdentity([[x]]);
    LostExactly(m, 2, TINY, 0);
    assert m[0][0] == x && PivotRow(m, 2, 0, 1) == 0;
    if Abs(x) >= TINY { assert LostPivot(Advanced(m, 2, 0, 0), 2, TINY, 1) == None; }
  }
}
