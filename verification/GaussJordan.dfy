/** The matrix inverse of backend/anomaly/mahalanobis_math.rs: Gauss-Jordan elimination with
    partial pivoting on the augmented rows [A | I]. */
module GaussJordan {
  import opened Options
  import opened Vectors
  import opened GaussianElimination
  import opened LeastSquares

  function Unit(n: nat, i: nat): (r: Vec)
    ensures |r| == n
  {
    seq(n, j => if j == i then 1.0 else 0.0)
  }

  predicate Square(a: Mat) {
    forall i :: 0 <= i < |a| ==> |a[i]| == |a|
  }

  function Identity(n: nat): (r: Mat)
    ensures |r| == n && Square(r)
  {
    seq(n, i requires 0 <= i < n => Unit(n, i))
  }

  function WithIdentity(a: Mat): (r: Mat)
    requires Square(a)
    ensures |r| == |a| && Rect(r, 2 * |a|)
  {
    seq(|a|, i requires 0 <= i < |a| => a[i] + Unit(|a|, i))
  }

  /** Column `col` cleared from the rows 0..upto other than `col`, whose pivot is 1. */
  function Cleared(m: Mat, w: nat, col: nat, upto: nat): (r: Mat)
    requires Rect(m, w) && col < |m| && col < w && upto <= |m|
    ensures |r| == |m| && Rect(r, w) && r[col] == m[col] && r[upto..] == m[upto..]
  {
    if upto == 0 then m
    else
      var e := Cleared(m, w, col, upto - 1);
      var i := upto - 1;
      if i == col then e else e[i := Axpy(e[i], e[i][col], e[col])]
  }

  function ScaledRow(m: Mat, w: nat, col: nat): (r: Mat)
    requires Rect(m, w) && col < |m| && col < w && m[col][col] != 0.0
    ensures |r| == |m| && Rect(r, w)
  {
    m[col := Scaled(m[col], m[col][col])]
  }

  /** Elimination from column `col` on; None once a pivot is below `tol`. */
  function Reduced(m: Mat, w: nat, tol: real, col: nat): (r: Option<Mat>)
    requires tol > 0.0 && Rect(m, w) && |m| <= w && col <= |m|
    ensures r.Some? ==> |r.value| == |m| && Rect(r.value, w)
    decreases |m| - col
  {
    if col == |m| then Some(m)
    else
      var p := PivotRow(m, w, col, |m|);
      if Abs(m[p][col]) < tol then None
      else Reduced(Cleared(ScaledRow(Swapped(m, col, p), w, col), w, col, |m|), w, tol, col + 1)
  }

  const TINY: real := 0.000000000001

  function RightHalf(m: Mat): (r: Mat)
    requires Rect(m, 2 * |m|)
    ensures |r| == |m| && Square(r)
  {
    seq(|m|, i requires 0 <= i < |m| => m[i][|m|..])
  }

  function Inverse(a: Mat): (r: Option<Mat>)
    requires Square(a)
    ensures r.Some? ==> |r.value| == |a| && Square(r.value)
  {
    match Reduced(WithIdentity(a), 2 * |a|, TINY, 0)
    case None => None
    case Some(m) => Some(RightHalf(m))
  }

  // ----- what every step keeps -----

  /** The columns before `upto` are those of the identity. */
  ghost predicate UnitColumns(m: Mat, w: nat, upto: nat)
    requires Rect(m, w) && upto <= w
  {
    forall i, j :: 0 <= i < |m| && 0 <= j < upto ==> m[i][j] == if i == j then 1.0 else 0.0
  }

  lemma {:induction false} ClearedRows(m: Mat, w: nat, col: nat, upto: nat)
    requires Rect(m, w) && col < |m| && col < w && upto <= |m|
    ensures var e := Cleared(m, w, col, upto);
            forall i :: 0 <= i < |m| ==> e[i] == if i < upto && i != col then Axpy(m[i], m[i][col], m[col]) else m[i]
  {
    if upto > 0 { ClearedRows(m, w, col, upto - 1); }
  }

  lemma ClearedOrthogonal(m: Mat, w: nat, col: nat, v: Vec)
    requires Rect(m, w) && |v| == w && col < |m| && col < w && Orthogonal(m, v)
    ensures Orthogonal(Cleared(m, w, col, |m|), v)
  {
    ClearedRows(m, w, col, |m|);
    forall i | 0 <= i < |m| ensures Dot(Cleared(m, w, col, |m|)[i], v) == 0.0 {
      DotAxpy(m[i], m[i][col], m[col], v);
    }
  }

  lemma ScaledOrthogonal(m: Mat, w: nat, col: nat, v: Vec)
    requires Rect(m, w) && |v| == w && col < |m| && col < w && m[col][col] != 0.0 && Orthogonal(m, v)
    ensures Orthogonal(ScaledRow(m, w, col), v)
  {
    DotScaled(m[col], m[col][col], v);
  }

  lemma SwappedUnitColumns(m: Mat, w: nat, col: nat, p: nat)
    requires Rect(m, w) && col <= p < |m| <= w && UnitColumns(m, w, col)
    ensures UnitColumns(Swapped(m, col, p), w, col)
  {
  }

  lemma ScaledUnitColumns(m: Mat, w: nat, col: nat)
    requires Rect(m, w) && col < |m| <= w && m[col][col] != 0.0 && UnitColumns(m, w, col)
    ensures UnitColumns(ScaledRow(m, w, col), w, col) && ScaledRow(m, w, col)[col][col] == 1.0
  {
    var s := ScaledRow(m, w, col);
    forall j | 0 <= j < col ensures s[col][j] == 0.0 {
      assert m[col][j] == 0.0;
    }
  }

  lemma ClearedUnitColumns(m: Mat, w: nat, col: nat)
    requires Rect(m, w) && col < |m| <= w && m[col][col] == 1.0 && UnitColumns(m, w, col)
    ensures UnitColumns(Cleared(m, w, col, |m|), w, col + 1)
  {
    ClearedRows(m, w, col, |m|);
    var e := Cleared(m, w, col, |m|);
    forall i, j | 0 <= i < |m| && 0 <= j < col + 1 ensures e[i][j] == if i == j then 1.0 else 0.0 {
      if i != col {
        assert e[i][j] == m[i][j] - m[i][col] * m[col][j];
        if j < col { assert m[col][j] == 0.0; }
      }
    }
  }

  /** A finished reduction has the identity on its left, and its rows are orthogonal to every
      vector the first rows were orthogonal to. */
  lemma {:induction false} ReducedKeeps(m: Mat, w: nat, tol: real, col: nat, v: Vec)
    requires tol > 0.0 && Rect(m, w) && |m| <= w == |v| && col <= |m| && UnitColumns(m, w, col)
    requires Orthogonal(m, v) && Reduced(m, w, tol, col).Some?
    ensures var r := Reduced(m, w, tol, col).value; UnitColumns(r, w, |m|) && Orthogonal(r, v)
    decreases |m| - col
  {
    if col < |m| {
      var p := PivotRow(m, w, col, |m|);
      var s := Swapped(m, col, p);
      SwappedSolutions(m, col, p, v);
      SwappedUnitColumns(m, w, col, p);
      var t := ScaledRow(s, w, col);
      ScaledOrthogonal(s, w, col, v);
      ScaledUnitColumns(s, w, col);
      ClearedOrthogonal(t, w, col, v);
      ClearedUnitColumns(t, w, col);
      ReducedKeeps(Cleared(t, w, col, |m|), w, tol, col + 1, v);
    }
  }

  // ----- the inverse -----

  lemma {:induction false} DotUnit(a: Vec, i: nat)
    requires i < |a|
    ensures Dot(a, Unit(|a|, i)) == a[i]
  {
    var m := |a| - 1;
    if i == m {
      DotSymmetric(a[..m], Unit(|a|, i)[..m]);
      DotZero(Unit(|a|, i)[..m], a[..m]);
    } else {
      assert Unit(|a|, i)[..m] == Unit(m, i);
      DotUnit(a[..m], i);
    }
  }

  /** Right half times A minus left half, at column `c`, as one dot product. */
  function Witness(a: Mat, c: nat): (v: Vec)
    requires Square(a) && c < |a|
    ensures |v| == 2 * |a|
  {
    Axpy(Zeros(|a|), 1.0, Unit(|a|, c)) + Column(a, |a|, c)
  }

  lemma WitnessDot(left: Vec, right: Vec, a: Mat, c: nat)
    requires Square(a) && c < |a| == |left| == |right|
    ensures Dot(left + right, Witness(a, c)) == Dot(right, Column(a, |a|, c)) - left[c]
  {
    var n := |a|;
    var u := Axpy(Zeros(n), 1.0, Unit(n, c));
    DotConcat(left, right, u, Column(a, n, c));
    DotSymmetric(left, u);
    DotAxpy(Zeros(n), 1.0, Unit(n, c), left);
    DotZero(Zeros(n), left);
    DotSymmetric(Unit(n, c), left);
    DotUnit(left, c);
  }

  /** Row `i` of B A is row `i` of the identity. */
  ghost predicate LeftInverse(b: Mat, a: Mat)
    requires Square(a) && |b| == |a| && Square(b)
  {
    forall i, c :: 0 <= i < |a| && 0 <= c < |a| ==> Dot(b[i], Column(a, |a|, c)) == Unit(|a|, i)[c]
  }

  /** `Some(b)` is a left inverse, whatever the size of the matrix. */
  lemma InverseIsLeft(a: Mat)
    requires Square(a) && Inverse(a).Some?
    ensures LeftInverse(Inverse(a).value, a)
  {
    var n, m := |a|, WithIdentity(a);
    var b := Inverse(a).value;
    forall i, c | 0 <= i < n && 0 <= c < n ensures Dot(b[i], Column(a, n, c)) == Unit(n, i)[c] {
      var v := Witness(a, c);
      forall r | 0 <= r < n ensures Dot(m[r], v) == 0.0 {
        WitnessDot(a[r], Unit(n, r), a, c);
        DotSymmetric(Unit(n, r), Column(a, n, c));
        DotUnit(Column(a, n, c), r);
      }
      ReducedKeeps(m, 2 * n, TINY, 0, v);
      var row := Reduced(m, 2 * n, TINY, 0).value[i];
      assert row == row[..n] + row[n..];
      WitnessDot(row[..n], row[n..], a, c);
    }
  }

  predicate Symmetric(a: Mat)
    requires Square(a)
  {
    forall i, j :: 0 <= i < |a| && 0 <= j < |a| ==> a[i][j] == a[j][i]
  }

  lemma SymmetricFit(a: Mat, b: Mat, i: nat)
    requires Square(a) && Symmetric(a) && |b| == |a| && Square(b) && LeftInverse(b, a) && i < |a|
    ensures Fit(a, b[i]) == Unit(|a|, i) == Combine(a, |a|, b[i])
  {
    forall c | 0 <= c < |a| ensures Fit(a, b[i])[c] == Unit(|a|, i)[c] == Combine(a, |a|, b[i])[c] {
      assert Column(a, |a|, c) == a[c];
      DotSymmetric(a[c], b[i]);
      CombineAt(a, |a|, b[i], c);
      assert Dot(b[i], Column(a, |a|, c)) == Unit(|a|, i)[c];
    }
  }

  /** A left inverse of a symmetric matrix is symmetric and a right inverse as well. */
  lemma SymmetricInverse(a: Mat, b: Mat)
    requires Square(a) && Symmetric(a) && |b| == |a| && Square(b) && LeftInverse(b, a)
    ensures Symmetric(b) && LeftInverse(a, b)
  {
    var n := |a|;
    forall i, j | 0 <= i < n && 0 <= j < n ensures b[i][j] == b[j][i] {
      SymmetricFit(a, b, i);
      SymmetricFit(a, b, j);
      Adjoint(a, b[i], b[j]);
      DotUnit(b[i], j);
      DotSymmetric(Unit(n, i), b[j]);
      DotUnit(b[j], i);
    }
    forall i, c | 0 <= i < n && 0 <= c < n ensures Dot(a[i], Column(b, n, c)) == Unit(n, i)[c] {
      assert Column(b, n, c) == b[c];
      SymmetricFit(a, b, c);
      assert Fit(a, b[c])[i] == Unit(n, c)[i];
    }
  }

  /** A (B d) == d */
  lemma InverseSolves(a: Mat, b: Mat, d: Vec)
    requires Square(a) && Symmetric(a) && |b| == |a| == |d| && Square(b) && LeftInverse(b, a)
    ensures Fit(a, Fit(b, d)) == d
  {
    var n, z := |a|, Fit(b, d);
    SymmetricInverse(a, b);
    forall r | 0 <= r < n ensures Fit(a, z)[r] == d[r] {
      Adjoint(b, a[r], d);
      SymmetricFit(b, a, r);
      DotSymmetric(Unit(n, r), d);
      DotUnit(d, r);
    }
  }

  ghost predicate PositiveSemidefinite(a: Mat)
    requires Square(a)
  {
    forall z: Vec {:trigger Fit(a, z)} :: |z| == |a| ==> Dot(z, Fit(a, z)) >= 0.0
  }

  /** The inverse of a symmetric positive semidefinite matrix has no negative squared distance. */
  lemma InverseSemidefinite(a: Mat, b: Mat, d: Vec)
    requires Square(a) && Symmetric(a) && PositiveSemidefinite(a)
    requires |b| == |a| == |d| && Square(b) && LeftInverse(b, a)
    ensures Dot(d, Fit(b, d)) >= 0.0
  {
    // with z = B d, d'B d == z'A z
    InverseSolves(a, b, d);
    DotSymmetric(d, Fit(b, d));
  }

  // ----- the loops -----

  method InvertRows(matrix: Mat) returns (inv: Option<Mat>)
    requires Square(matrix)
    ensures inv == Inverse(matrix)
  {
    var aug := Augment(matrix);
    var ok := ReduceAll(aug);
    if !ok { return None; }
    var right := ExtractRight(aug);
    inv := Some(right);
  }

  method ReduceAll(aug: array<Vec>) returns (ok: bool)
    requires Rect(aug[..], 2 * aug.Length)
    modifies aug
    ensures Rect(aug[..], 2 * aug.Length)
    ensures var r := Reduced(old(aug[..]), 2 * aug.Length, TINY, 0); ok == r.Some? && (ok ==> aug[..] == r.value)
  {
    ghost var m0, w := aug[..], 2 * aug.Length;
    hide Reduced, PivotRow, Cleared, ScaledRow, Swapped;
    for col := 0 to aug.Length
      invariant Rect(aug[..], w)
      invariant Reduced(m0, w, TINY, 0) == Reduced(aug[..], w, TINY, col)
    {
      ReducedStep(aug[..], w, TINY, col);
      ok := ReduceColumn(aug, col);
      if !ok { return false; }
    }
    ReducedEnd(aug[..], w, TINY);
    return true;
  }

  lemma ReducedStep(m: Mat, w: nat, tol: real, col: nat)
    requires tol > 0.0 && Rect(m, w) && |m| <= w && col < |m|
    ensures var p := PivotRow(m, w, col, |m|);
            Reduced(m, w, tol, col)
            == if Abs(m[p][col]) < tol then None
               else Reduced(Cleared(ScaledRow(Swapped(m, col, p), w, col), w, col, |m|), w, tol, col + 1)
  {
    hide Cleared, ScaledRow;
  }

  lemma ReducedEnd(m: Mat, w: nat, tol: real)
    requires tol > 0.0 && Rect(m, w) && |m| <= w
    ensures Reduced(m, w, tol, |m|) == Some(m)
  {
  }

  method Augment(matrix: Mat) returns (aug: array<Vec>)
    requires Square(matrix)
    ensures fresh(aug) && aug[..] == WithIdentity(matrix)
  {
    var n := |matrix|;
    aug := new Vec[n](_ => []);
    for i := 0 to n
      invariant forall r :: 0 <= r < i ==> aug[r] == matrix[r] + Unit(n, r)
    {
      var row := matrix[i];
      for j := 0 to n
        invariant row == matrix[i] + Unit(n, i)[..j]
      {
        row := row + [if i == j then 1.0 else 0.0];
      }
      aug[i] := row;
    }
  }

  method ExtractRight(aug: array<Vec>) returns (right: Mat)
    requires Rect(aug[..], 2 * aug.Length)
    ensures right == RightHalf(aug[..])
  {
    right := [];
    for i := 0 to aug.Length
      invariant right == RightHalf(aug[..])[..i]
    {
      right := right + [aug[i][aug.Length..]];
    }
  }

  method ReduceColumn(aug: array<Vec>, col: nat) returns (ok: bool)
    requires Rect(aug[..], 2 * aug.Length) && col < aug.Length
    modifies aug
    ensures Rect(aug[..], 2 * aug.Length)
    ensures var m := old(aug[..]); var w := 2 * |m|; var p := PivotRow(m, w, col, |m|);
            && ok == (Abs(m[p][col]) >= TINY)
            && (ok ==> aug[..] == Cleared(ScaledRow(Swapped(m, col, p), w, col), w, col, |m|))
  {
    var n := aug.Length;
    ghost var m := aug[..];
    var maxRow, maxVal := col, Abs(aug[col][col]);
    for row := col + 1 to n
      invariant maxRow == PivotRow(m, 2 * n, col, row) && maxVal == Abs(m[maxRow][col])
    {
      if Abs(aug[row][col]) > maxVal {
        maxVal, maxRow := Abs(aug[row][col]), row;
      }
    }
    if maxVal < TINY {
      return false;
    }
    aug[col], aug[maxRow] := aug[maxRow], aug[col];
    assert aug[..] == Swapped(m, col, maxRow);
    aug[col] := DivideRow(aug[col], aug[col][col]);
    assert aug[..] == ScaledRow(Swapped(m, col, maxRow), 2 * n, col);
    ClearColumn(aug, col);
    return true;
  }

  method DivideRow(row: Vec, pivot: real) returns (r: Vec)
    requires pivot != 0.0
    ensures r == Scaled(row, pivot)
  {
    r := row;
    for j := 0 to |row|
      invariant |r| == |row|
      invariant forall c :: 0 <= c < |row| ==> r[c] == if c < j then row[c] / pivot else row[c]
    {
      r := r[j := r[j] / pivot];
    }
  }

  method SubtractRow(row: Vec, factor: real, pivotRow: Vec) returns (r: Vec)
    requires |row| == |pivotRow|
    ensures r == Axpy(row, factor, pivotRow)
  {
    r := row;
    for j := 0 to |row|
      invariant |r| == |row|
      invariant forall c :: 0 <= c < |row| ==> r[c] == if c < j then row[c] - factor * pivotRow[c] else row[c]
    {
      r := r[j := r[j] - factor * pivotRow[j]];
    }
    forall c | 0 <= c < |row| ensures r[c] == Axpy(row, factor, pivotRow)[c] {}
  }

  method ClearColumn(aug: array<Vec>, col: nat)
    requires Rect(aug[..], 2 * aug.Length) && col < aug.Length
    modifies aug
    ensures var m := old(aug[..]); aug[..] == Cleared(m, 2 * |m|, col, |m|)
  {
    var n := aug.Length;
    ghost var m := aug[..];
    for row := 0 to n
      invariant aug[..] == Cleared(m, 2 * n, col, row)
    {
      assert aug[..][row] == aug[row] && aug[..][col] == aug[col];
      if row != col {
        aug[row] := SubtractRow(aug[row], aug[row][col], aug[col]);
      }
    }
  }
}
