/** The linear solver inside backend/anomaly/structural_break.rs: forward elimination with
    partial pivoting and back substitution on the augmented rows [A | b]. */
module GaussianElimination {
  import opened Options
  import opened Vectors

  // ----- elimination as functions on matrices -----

  /** Row of the largest absolute entry of column `col` among rows col..upto, first if tied. */
  function PivotRow(m: Mat, w: nat, col: nat, upto: nat): (r: nat)
    requires Rect(m, w) && col < w && col < upto <= |m|
    ensures col <= r < upto
    ensures forall i :: col <= i < upto ==> Abs(m[i][col]) <= Abs(m[r][col])
  {
    if upto == col + 1 then col
    else
      var best := PivotRow(m, w, col, upto - 1);
      if Abs(m[upto - 1][col]) > Abs(m[best][col]) then upto - 1 else best
  }

  /** Of rows with entries of the same size the first one is taken. */
  lemma {:induction false} FirstOfTies(m: Mat, w: nat, col: nat, upto: nat)
    requires Rect(m, w) && col < w && col < upto <= |m|
    ensures forall i :: col <= i < PivotRow(m, w, col, upto) ==> Abs(m[i][col]) < Abs(m[PivotRow(m, w, col, upto)][col])
  {
    if upto > col + 1 { FirstOfTies(m, w, col, upto - 1); }
  }

  function Swapped(m: Mat, i: nat, j: nat): (r: Mat)
    requires i < |m| && j < |m|
    ensures |r| == |m|
  {
    m[i := m[j]][j := m[i]]
  }

  /** `row - f * p` on the columns from `from` on. */
  function TailAxpy(row: Vec, f: real, p: Vec, from: nat): (r: Vec)
    requires |row| == |p|
    ensures |r| == |row|
  {
    seq(|row|, j requires 0 <= j < |row| => if j < from then row[j] else row[j] - f * p[j])
  }

  /** Column `col` eliminated from the rows col + 1..upto. */
  function Eliminated(m: Mat, w: nat, col: nat, upto: nat): (r: Mat)
    requires Rect(m, w) && col < w && col < upto <= |m| && m[col][col] != 0.0
    ensures |r| == |m| && Rect(r, w) && r[..col + 1] == m[..col + 1] && r[upto..] == m[upto..]
  {
    if upto == col + 1 then m
    else
      var e := Eliminated(m, w, col, upto - 1);
      var row := e[upto - 1];
      e[upto - 1 := TailAxpy(row, row[col] / e[col][col], e[col], col)]
  }

  /** One column: the largest entry is swapped up, the rows below are cleared; None when it is below `tol`. */
  function ColumnStep(m: Mat, w: nat, tol: real, col: nat): (r: Option<Mat>)
    requires tol > 0.0 && Rect(m, w) && |m| <= w && col < |m|
    ensures r.Some? ==> |r.value| == |m| && Rect(r.value, w)
  {
    var p := PivotRow(m, w, col, |m|);
    if Abs(m[p][col]) < tol then None else Some(Eliminated(Swapped(m, col, p), w, col, |m|))
  }

  /** Forward elimination from column `col` on; None once a pivot is below `tol`. */
  function Forward(m: Mat, w: nat, tol: real, col: nat): (r: Option<Mat>)
    requires tol > 0.0 && Rect(m, w) && |m| <= w && col <= |m|
    ensures r.Some? ==> |r.value| == |m| && Rect(r.value, w)
    decreases |m| - col
  {
    if col == |m| then Some(m)
    else
      var next := ColumnStep(m, w, tol, col);
      if next.None? then None else Forward(next.value, w, tol, col + 1)
  }

  /** Entries i..k of the solution of an upper triangular system. */
  function BackSubstituted(m: Mat, i: nat): (r: Vec)
    requires Rect(m, |m| + 1) && i <= |m| && forall j :: i <= j < |m| ==> m[j][j] != 0.0
    ensures |r| == |m| - i
    decreases |m| - i
  {
    if i == |m| then []
    else
      var t := BackSubstituted(m, i + 1);
      [(m[i][|m|] - Dot(m[i][i + 1..|m|], t)) / m[i][i]] + t
  }

  ghost predicate Triangular(m: Mat, w: nat, upto: nat)
    requires Rect(m, w) && |m| <= w && upto <= |m|
  {
    && (forall i :: 0 <= i < upto ==> m[i][i] != 0.0)
    && (forall i, j :: 0 <= j < upto && j < i < |m| ==> m[i][j] == 0.0)
  }

  /** `beta` satisfies every augmented row. */
  ghost predicate Solves(m: Mat, beta: Vec)
    requires Rect(m, |beta| + 1)
  {
    Orthogonal(m, beta + [-1.0])
  }

  // ----- every step keeps the solution set -----

  lemma {:induction false} EliminatedRows(m: Mat, w: nat, col: nat, upto: nat)
    requires Rect(m, w) && |m| <= w && col < upto <= |m| && m[col][col] != 0.0
    requires Triangular(m, w, col)
    ensures var e := Eliminated(m, w, col, upto);
            && (forall i :: col < i < upto ==> e[i] == Axpy(m[i], m[i][col] / m[col][col], m[col]))
            && (forall i :: 0 <= i < |m| && !(col < i < upto) ==> e[i] == m[i])
  {
    if upto > col + 1 {
      EliminatedRows(m, w, col, upto - 1);
      var e := Eliminated(m, w, col, upto - 1);
      var i := upto - 1;
      var f := m[i][col] / m[col][col];
      assert e[i] == m[i] && e[col] == m[col];
      forall j | 0 <= j < w ensures TailAxpy(m[i], f, m[col], col)[j] == Axpy(m[i], f, m[col])[j] {
        if j < col { assert m[col][j] == 0.0; }
      }
      assert TailAxpy(m[i], f, m[col], col) == Axpy(m[i], f, m[col]);
    }
  }

  lemma EliminatedTriangular(m: Mat, w: nat, col: nat)
    requires Rect(m, w) && |m| <= w && col < |m| && m[col][col] != 0.0
    requires Triangular(m, w, col)
    ensures Triangular(Eliminated(m, w, col, |m|), w, col + 1)
  {
    EliminatedRows(m, w, col, |m|);
    var e := Eliminated(m, w, col, |m|);
    forall i, j | 0 <= j < col + 1 && j < i < |m| ensures e[i][j] == 0.0 {
      if col < i {
        var f := m[i][col] / m[col][col];
        assert e[i][j] == m[i][j] - f * m[col][j];
        if j < col { assert m[i][j] == 0.0 && m[col][j] == 0.0; }
      }
    }
  }

  lemma EliminatedSolutions(m: Mat, w: nat, col: nat, v: Vec)
    requires Rect(m, w) && |m| <= w == |v| && col < |m| && m[col][col] != 0.0
    requires Triangular(m, w, col)
    ensures Orthogonal(Eliminated(m, w, col, |m|), v) <==> Orthogonal(m, v)
  {
    EliminatedRows(m, w, col, |m|);
    var e := Eliminated(m, w, col, |m|);
    assert Dot(e[col], v) == Dot(m[col], v);
    forall i | 0 <= i < |m|
      ensures Dot(m[col], v) == 0.0 ==> (Dot(e[i], v) == 0.0 <==> Dot(m[i], v) == 0.0)
    {
      if col < i {
        DotAxpy(m[i], m[i][col] / m[col][col], m[col], v);
      }
    }
  }

  lemma SwappedSolutions(m: Mat, i: nat, j: nat, v: Vec)
    requires Rect(m, |v|) && i < |m| && j < |m|
    ensures Orthogonal(Swapped(m, i, j), v) <==> Orthogonal(m, v)
  {
    var s := Swapped(m, i, j);
    assert forall r :: 0 <= r < |m| ==> m[r] == s[if r == i then j else if r == j then i else r];
  }

  lemma SwappedTriangular(m: Mat, w: nat, col: nat, p: nat)
    requires Rect(m, w) && |m| <= w && col <= p < |m| && Triangular(m, w, col)
    ensures Triangular(Swapped(m, col, p), w, col)
  {
  }

  lemma ColumnStepSolutions(m: Mat, w: nat, tol: real, col: nat, v: Vec)
    requires tol > 0.0 && Rect(m, w) && |m| <= w == |v| && col < |m| && Triangular(m, w, col)
    requires ColumnStep(m, w, tol, col).Some?
    ensures var next := ColumnStep(m, w, tol, col).value;
            Triangular(next, w, col + 1) && (Orthogonal(next, v) <==> Orthogonal(m, v))
  {
    var p := PivotRow(m, w, col, |m|);
    var s := Swapped(m, col, p);
    SwappedSolutions(m, col, p, v);
    SwappedTriangular(m, w, col, p);
    EliminatedSolutions(s, w, col, v);
    EliminatedTriangular(s, w, col);
  }

  /** What forward elimination returns is triangular and has exactly the solutions it started with. */
  lemma {:induction false} ForwardSolutions(m: Mat, w: nat, tol: real, col: nat, v: Vec)
    requires tol > 0.0 && Rect(m, w) && |m| <= w == |v| && col <= |m| && Triangular(m, w, col)
    requires Forward(m, w, tol, col).Some?
    ensures var u := Forward(m, w, tol, col).value;
            Triangular(u, w, |m|) && (Orthogonal(u, v) <==> Orthogonal(m, v))
    decreases |m| - col
  {
    hide ColumnStep, Orthogonal;
    if col < |m| {
      var next := ColumnStep(m, w, tol, col).value;
      ColumnStepSolutions(m, w, tol, col, v);
      ForwardSolutions(next, w, tol, col + 1, v);
    }
  }

  // ----- back substitution -----

  lemma {:induction false} SkipZeros(row: Vec, i: nat, b: Vec, a: real, y: real)
    requires |row| == |b| && i < |b| && a == row[i] && y == b[i]
    requires forall j :: 0 <= j < i ==> row[j] == 0.0
    ensures Dot(row, b) == a * y + Dot(row[i + 1..], b[i + 1..])
    decreases |row|
  {
    var m := |row| - 1;
    if i == m {
      DotZero(row[..m], b[..m]);
    } else {
      SkipZeros(row[..m], i, b[..m], a, y);
      assert row[..m][i + 1..] == row[i + 1..][..m - i - 1];
      assert b[..m][i + 1..] == b[i + 1..][..m - i - 1];
    }
  }

  lemma MinusLast(front: Vec, b: Vec, last: real)
    requires |front| == |b|
    ensures Dot(front + [last], b + [-1.0]) == Dot(front, b) - last
  {
    DotLast(front, b, last, -1.0);
  }

  /** A triangular row read from its diagonal on. */
  lemma RowFromDiagonal(row: Vec, k: nat, i: nat, b: Vec, a: real, y: real, rest: real, last: real)
    requires |row| == k + 1 && |b| == k && i < k && a == row[i] && y == b[i] && last == row[k]
    requires rest == Dot(row[i + 1..k], b[i + 1..])
    requires forall j :: 0 <= j < i ==> row[j] == 0.0
    ensures Dot(row, b + [-1.0]) == a * y + rest - last
  {
    var front := row[..k];
    assert row == front + [last] && front[i + 1..] == row[i + 1..k];
    SkipZeros(front, i, b, a, y);
    MinusLast(front, b, last);
  }

  lemma DivisionSolves(a: real, y: real, rest: real, last: real, q: real)
    requires a != 0.0 && q == (last - rest) / a
    ensures y == q <==> a * y + rest - last == 0.0
  {
    assert a * q == last - rest;
    if a * y + rest - last == 0.0 {
      assert a * (y - q) == 0.0;
    }
  }

  lemma BackSubstitutedFirst(m: Mat, i: nat, t: Vec, a: real, rest: real, last: real)
    requires Rect(m, |m| + 1) && Triangular(m, |m| + 1, |m|) && i < |m| && t == BackSubstituted(m, i + 1)
    requires a == m[i][i] && rest == Dot(m[i][i + 1..|m|], t) && last == m[i][|m|]
    ensures BackSubstituted(m, i)[0] == (last - rest) / a
  {
  }

  /** Once the entries below are the substituted ones, row `i` fixes entry `i`. */
  lemma BackSubstitutionStep(m: Mat, i: nat, b: Vec, t: Vec)
    requires Rect(m, |m| + 1) && Triangular(m, |m| + 1, |m|) && |b| == |m| && i < |m|
    requires b[i + 1..] == t == BackSubstituted(m, i + 1)
    ensures b[i] == BackSubstituted(m, i)[0] <==> Dot(m[i], b + [-1.0]) == 0.0
  {
    var k, row := |m|, m[i];
    var a, y, rest, last, q := row[i], b[i], Dot(row[i + 1..k], t), row[k], BackSubstituted(m, i)[0];
    BackSubstitutedFirst(m, i, t, a, rest, last);
    RowFromDiagonal(row, k, i, b, a, y, rest, last);
    DivisionSolves(a, y, rest, last, q);
  }

  lemma BackSubstitutedSplit(m: Mat, i: nat, b: Vec)
    requires Rect(m, |m| + 1) && Triangular(m, |m| + 1, |m|) && |b| == |m| && i < |m|
    ensures b[i..] == BackSubstituted(m, i)
       <==> b[i] == BackSubstituted(m, i)[0] && b[i + 1..] == BackSubstituted(m, i + 1)
  {
    var s := BackSubstituted(m, i);
    assert s == [s[0]] + BackSubstituted(m, i + 1);
    assert b[i..] == [b[i]] + b[i + 1..];
    assert s[1..] == BackSubstituted(m, i + 1) && b[i..][1..] == b[i + 1..];
  }

  /** Row by row from below, a vector satisfies the triangular rows exactly when it ends in
      the back substituted entries. */
  lemma {:induction false} BackSubstitutionUnique(m: Mat, i: nat, b: Vec)
    requires Rect(m, |m| + 1) && Triangular(m, |m| + 1, |m|) && |b| == |m| && i <= |m|
    ensures b[i..] == BackSubstituted(m, i) <==> SolvesFrom(m, i, b)
    decreases |m| - i
  {
    if i < |m| {
      BackSubstitutionUnique(m, i + 1, b);
      BackSubstitutedSplit(m, i, b);
      SolvesFromSplit(m, i, b);
      if b[i + 1..] == BackSubstituted(m, i + 1) { BackSubstitutionStep(m, i, b, b[i + 1..]); }
    }
  }

  lemma SolvesFromSplit(m: Mat, i: nat, b: Vec)
    requires Rect(m, |b| + 1) && i < |m|
    ensures SolvesFrom(m, i, b) <==> Dot(m[i], b + [-1.0]) == 0.0 && SolvesFrom(m, i + 1, b)
  {
  }

  ghost predicate SolvesFrom(m: Mat, i: nat, b: Vec)
    requires Rect(m, |b| + 1)
  {
    forall r :: i <= r < |m| ==> Dot(m[r], b + [-1.0]) == 0.0
  }

  // ----- the solver -----

  /** The pivot tolerance. */
  const SINGULAR: real := 0.0000000001

  function Solve(m: Mat): (r: Option<Vec>)
    requires Rect(m, |m| + 1)
    ensures r.Some? ==> |r.value| == |m|
  {
    var u := Forward(m, |m| + 1, SINGULAR, 0);
    if u.None? then None
    else
      assert Triangular(u.value, |m| + 1, |m|) by { ForwardSolutions(m, |m| + 1, SINGULAR, 0, Zeros(|m| + 1)); }
      Some(BackSubstituted(u.value, 0))
  }

  /** `Some(beta)`: `beta`, and nothing else, solves the system the solver was given. */
  lemma SolveIsExact(m: Mat, b: Vec)
    requires Rect(m, |m| + 1) && |b| == |m| && Solve(m).Some?
    ensures Solves(m, b) <==> b == Solve(m).value
  {
    var u := Forward(m, |m| + 1, SINGULAR, 0).value;
    ForwardSolutions(m, |m| + 1, SINGULAR, 0, b + [-1.0]);
    BackSubstitutionUnique(u, 0, b);
    assert b[0..] == b;
  }

  /** The loops over the rows of the augmented matrix. */
  method SolveRows(rows: array<Vec>) returns (beta: Option<Vec>)
    requires Rect(rows[..], rows.Length + 1)
    modifies rows
    ensures beta == Solve(old(rows[..]))
  {
    ghost var m0, w := rows[..], rows.Length + 1;
    var ok := EliminateRows(rows, w);
    if !ok { return None; }
    ForwardSolutions(m0, w, SINGULAR, 0, Zeros(w));
    var b := BackSubstitute(rows);
    return Some(b);
  }

  lemma ForwardFinished(m: Mat, w: nat, tol: real)
    requires tol > 0.0 && Rect(m, w) && |m| <= w
    ensures Forward(m, w, tol, |m|) == Some(m)
  {
  }

  lemma ForwardStep(m: Mat, w: nat, tol: real, col: nat, next: Option<Mat>)
    requires tol > 0.0 && Rect(m, w) && |m| <= w && col < |m| && next == ColumnStep(m, w, tol, col)
    ensures Forward(m, w, tol, col) == if next.None? then None else Forward(next.value, w, tol, col + 1)
  {
  }

  method EliminateRows(rows: array<Vec>, ghost w: nat) returns (ok: bool)
    requires Rect(rows[..], w) && w == rows.Length + 1
    modifies rows
    ensures Rect(rows[..], w)
    ensures var u := Forward(old(rows[..]), w, SINGULAR, 0); ok == u.Some? && (ok ==> rows[..] == u.value)
  {
    hide Forward, ColumnStep;
    ghost var m0 := rows[..];
    for col := 0 to rows.Length
      invariant Rect(rows[..], w)
      invariant Forward(m0, w, SINGULAR, 0) == Forward(rows[..], w, SINGULAR, col)
    {
      ghost var m := rows[..];
      ForwardStep(m, w, SINGULAR, col, ColumnStep(m, w, SINGULAR, col));
      ok := EliminateColumn(rows, w, col);
      if !ok { return false; }
    }
    ForwardFinished(rows[..], w, SINGULAR);
    return true;
  }

  method FindPivot(rows: array<Vec>, col: nat) returns (maxRow: nat, maxVal: real)
    requires Rect(rows[..], rows.Length + 1) && col < rows.Length
    ensures maxRow == PivotRow(rows[..], rows.Length + 1, col, rows.Length)
    ensures maxVal == Abs(rows[maxRow][col])
    ensures forall i :: col <= i < maxRow ==> Abs(rows[i][col]) < maxVal
  {
    var k := rows.Length;
    FirstOfTies(rows[..], k + 1, col, k);
    maxRow, maxVal := col, Abs(rows[col][col]);
    for row := col + 1 to k
      invariant maxRow == PivotRow(rows[..], k + 1, col, row) && maxVal == Abs(rows[maxRow][col])
    {
      if Abs(rows[row][col]) > maxVal {
        maxVal, maxRow := Abs(rows[row][col]), row;
      }
    }
  }

  method EliminateRow(row: Vec, pivot: Vec, col: nat) returns (r: Vec)
    requires |row| == |pivot| && col < |row| && pivot[col] != 0.0
    ensures r == TailAxpy(row, row[col] / pivot[col], pivot, col)
  {
    var factor := row[col] / pivot[col];
    r := row;
    for j := col to |row|
      invariant |r| == |row|
      invariant forall c :: 0 <= c < |row| ==> r[c] == if col <= c < j then row[c] - factor * pivot[c] else row[c]
    {
      r := r[j := r[j] - factor * pivot[j]];
    }
    forall c | 0 <= c < |row| ensures r[c] == TailAxpy(row, factor, pivot, col)[c] {}
  }

  method EliminateColumn(rows: array<Vec>, ghost w: nat, col: nat) returns (ok: bool)
    requires Rect(rows[..], w) && w == rows.Length + 1 && col < rows.Length
    modifies rows
    ensures Rect(rows[..], w)
    ensures var next := ColumnStep(old(rows[..]), w, SINGULAR, col);
            ok == next.Some? && (ok ==> rows[..] == next.value)
  {
    ghost var m := rows[..];
    var maxRow, maxVal := FindPivot(rows, col);
    if maxVal < SINGULAR {
      return false;
    }
    rows[col], rows[maxRow] := rows[maxRow], rows[col];
    assert rows[..] == Swapped(m, col, maxRow);
    EliminateBelow(rows, col);
    return true;
  }

  method EliminateBelow(rows: array<Vec>, col: nat)
    requires Rect(rows[..], rows.Length + 1) && col < rows.Length && rows[col][col] != 0.0
    modifies rows
    ensures var m := old(rows[..]); rows[..] == Eliminated(m, |m| + 1, col, |m|)
  {
    var k := rows.Length;
    ghost var s := rows[..];
    for row := col + 1 to k
      invariant rows[..] == Eliminated(s, k + 1, col, row)
    {
      assert rows[..][row] == rows[row] && rows[..][col] == rows[col] == s[..col + 1][col];
      rows[row] := EliminateRow(rows[row], rows[col], col);
    }
  }

  method SubtractTail(row: Vec, beta: Vec, i: nat) returns (sum: real)
    requires |row| == |beta| + 1 && i < |beta|
    ensures sum == row[|beta|] - Dot(row[i + 1..|beta|], beta[i + 1..])
  {
    var k := |beta|;
    sum := row[k];
    for j := i + 1 to k
      invariant sum == row[k] - Dot(row[i + 1..j], beta[i + 1..j])
    {
      assert row[i + 1..j + 1][..j - i - 1] == row[i + 1..j];
      assert beta[i + 1..j + 1][..j - i - 1] == beta[i + 1..j];
      sum := sum - row[j] * beta[j];
    }
    assert beta[i + 1..k] == beta[i + 1..];
  }

  method BackSubstitute(rows: array<Vec>) returns (beta: Vec)
    requires Rect(rows[..], rows.Length + 1) && forall j :: 0 <= j < rows.Length ==> rows[j][j] != 0.0
    ensures beta == BackSubstituted(rows[..], 0)
  {
    var k := rows.Length;
    ghost var m := rows[..];
    beta := Zeros(k);
    for i := k downto 0
      invariant |beta| == k && beta[i..] == BackSubstituted(m, i)
    {
      assert m[i] == rows[i];
      var sum := SubtractTail(rows[i], beta, i);
      ghost var tail := beta[i + 1..];
      beta := beta[i := sum / rows[i][i]];
      assert beta[i..] == [sum / rows[i][i]] + tail;
    }
    assert beta[0..] == beta;
  }
}
