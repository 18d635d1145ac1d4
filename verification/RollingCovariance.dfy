/** The insertion and removal steps of the sliding Welford estimator of
    backend/anomaly/mahalanobis_math.rs. `clampAll` is the program as it is, which clamps
    covariances as well as variances at 0. */
module RollingCovariance {
  import opened Reals
  import opened Vectors
  import opened VectorLaws
  import opened LeastSquares

  // ----- the flattened upper triangle -----

  /** Index pairs of the rows before `i`, in storage order. */
  function CellsBefore(d: nat, i: nat): (r: seq<(nat, nat)>)
    requires i <= d
    ensures forall p :: 0 <= p < |r| ==> r[p].0 <= r[p].1 < d
  {
    if i == 0 then []
    else CellsBefore(d, i - 1) + seq(d - (i - 1), t requires 0 <= t < d - (i - 1) => (i - 1, i - 1 + t))
  }

  function Cells(d: nat): (r: seq<(nat, nat)>)
    ensures forall p :: 0 <= p < |r| ==> r[p].0 <= r[p].1 < d
  {
    CellsBefore(d, d)
  }

  /** Where the pair (i, j) is stored. */
  function Slot(d: nat, i: nat, j: nat): nat
    requires i <= j <= d
  {
    |CellsBefore(d, i)| + (j - i)
  }

  lemma {:induction false} CellsPrefix(d: nat, i: nat, k: nat)
    requires i <= k <= d
    ensures CellsBefore(d, i) <= CellsBefore(d, k)
  {
    if i < k { CellsPrefix(d, i, k - 1); }
  }

  lemma CellAt(d: nat, i: nat, j: nat)
    requires i <= j < d
    ensures Slot(d, i, j) < |Cells(d)| && Cells(d)[Slot(d, i, j)] == (i, j)
  {
    CellsPrefix(d, i + 1, d);
    assert CellsBefore(d, i + 1)[Slot(d, i, j)] == (i, j);
  }

  /** The storage order goes through the cells of each row in turn. */
  lemma SlotEnds(d: nat)
    ensures Slot(d, 0, 0) == 0 && Slot(d, d, d) == |Cells(d)|
  {
  }

  lemma SlotNextRow(d: nat, i: nat)
    requires i < d
    ensures Slot(d, i, d) == Slot(d, i + 1, i + 1)
  {
  }

  lemma SlotNext(d: nat, i: nat, j: nat)
    requires i <= j < d
    ensures Slot(d, i, j + 1) == Slot(d, i, j) + 1 <= |Cells(d)|
  {
    CellAt(d, i, j);
  }

  lemma {:induction false} CellCount(d: nat, i: nat)
    requires i <= d
    ensures 2 * |CellsBefore(d, i)| == i * (2 * d - i + 1)
  {
    if i > 0 {
      CellCount(d, i - 1);
      assert (i - 1) * (2 * d - (i - 1) + 1) + 2 * (d - (i - 1)) == i * (2 * d - i + 1);
    }
  }

  // ----- batch moments -----

  datatype Moments = Moments(n: nat, mean: Vec, m2: Vec)

  function MeanOf(D: Mat, d: nat): (r: Vec)
    requires Rect(D, d) && D != []
    ensures |r| == d
  {
    seq(d, i requires 0 <= i < d => Dot(Ones(|D|), Column(D, d, i)) / |D| as real)
  }

  function Centered(D: Mat, d: nat): (r: Mat)
    requires Rect(D, d) && D != []
    ensures |r| == |D| && Rect(r, d)
  {
    seq(|D|, t requires 0 <= t < |D| => Axpy(D[t], 1.0, MeanOf(D, d)))
  }

  /** Sum of the products of the centered columns `i` and `j`. */
  function Cross(D: Mat, d: nat, i: nat, j: nat): real
    requires Rect(D, d) && D != [] && i < d && j < d
  {
    Dot(Column(Centered(D, d), d, i), Column(Centered(D, d), d, j))
  }

  function Batch(D: Mat, d: nat): Moments
    requires Rect(D, d) && D != []
  {
    var cells := Cells(d);
    Moments(|D|, MeanOf(D, d), seq(|cells|, p requires 0 <= p < |cells| => Cross(D, d, cells[p].0, cells[p].1)))
  }

  lemma MeanTimesCount(D: Mat, d: nat, i: nat)
    requires Rect(D, d) && D != [] && i < d
    ensures |D| as real * MeanOf(D, d)[i] == Dot(Ones(|D|), Column(D, d, i))
  {
  }

  lemma CenteredColumn(D: Mat, d: nat, i: nat)
    requires Rect(D, d) && D != [] && i < d
    ensures Column(Centered(D, d), d, i) == Axpy(Column(D, d, i), MeanOf(D, d)[i], Ones(|D|))
  {
    forall t | 0 <= t < |D|
      ensures Column(Centered(D, d), d, i)[t] == Axpy(Column(D, d, i), MeanOf(D, d)[i], Ones(|D|))[t]
    {
      assert Centered(D, d)[t][i] == D[t][i] - 1.0 * MeanOf(D, d)[i];
    }
  }

  lemma CrossIsCentered(D: Mat, d: nat, i: nat, j: nat, one: Vec)
    requires Rect(D, d) && D != [] && i < d && j < d && one == Ones(|D|)
    ensures Cross(D, d, i, j)
         == Dot(Axpy(Column(D, d, i), MeanOf(D, d)[i], one), Axpy(Column(D, d, j), MeanOf(D, d)[j], one))
  {
    CenteredColumn(D, d, i);
    CenteredColumn(D, d, j);
  }

  lemma MeanTimesCountNamed(D: Mat, d: nat, i: nat, c: Vec, n: real, m: real, sum: real)
    requires Rect(D, d) && D != [] && i < d && c == Column(D, d, i)
    requires n == |D| as real && m == MeanOf(D, d)[i] && sum == Dot(Ones(|D|), c)
    ensures n * m == sum
  {
    MeanTimesCount(D, d, i);
  }

  /** Sum of centered products == sum of products - n * mean * mean. */
  lemma CrossFormula(D: Mat, d: nat, i: nat, j: nat)
    requires Rect(D, d) && D != [] && i < d && j < d
    ensures Cross(D, d, i, j)
         == Dot(Column(D, d, i), Column(D, d, j)) - |D| as real * MeanOf(D, d)[i] * MeanOf(D, d)[j]
  {
    var ci, cj, a, b := Column(D, d, i), Column(D, d, j), MeanOf(D, d)[i], MeanOf(D, d)[j];
    var n, si, sj := |D| as real, Dot(Ones(|D|), ci), Dot(Ones(|D|), cj);
    MeanTimesCountNamed(D, d, i, ci, n, a, si);
    MeanTimesCountNamed(D, d, j, cj, n, b, sj);
    CrossNamed(D, d, i, j, ci, cj, a, b, n, si, sj, Dot(ci, cj));
  }

  lemma CrossFormulaNamed(D: Mat, d: nat, i: nat, j: nat, a: real, b: real, n: real, p: real)
    requires Rect(D, d) && D != [] && i < d && j < d && a == MeanOf(D, d)[i] && b == MeanOf(D, d)[j]
    requires n == |D| as real && p == Dot(Column(D, d, i), Column(D, d, j))
    ensures Cross(D, d, i, j) == p - n * a * b
  {
    CrossFormula(D, d, i, j);
  }

  lemma CrossNamed(D: Mat, d: nat, i: nat, j: nat, ci: Vec, cj: Vec, a: real, b: real, n: real, si: real, sj: real,
                   p: real)
    requires Rect(D, d) && D != [] && i < d && j < d && ci == Column(D, d, i) && cj == Column(D, d, j)
    requires a == MeanOf(D, d)[i] && b == MeanOf(D, d)[j] && n == |D| as real && p == Dot(ci, cj)
    requires si == Dot(Ones(|D|), ci) && sj == Dot(Ones(|D|), cj) && n * a == si && n * b == sj
    ensures Cross(D, d, i, j) == p - n * a * b
  {
    CrossIsCentered(D, d, i, j, Ones(|D|));
    CenteredDot(ci, cj, a, b, n, si, sj, p);
  }

  // ----- one insertion, one removal -----

  function MeanWith(s: Moments, x: Vec): (r: Vec)
    requires |s.mean| == |x|
    ensures |r| == |x|
  {
    seq(|x|, i requires 0 <= i < |x| => s.mean[i] + (x[i] - s.mean[i]) / (s.n + 1) as real)
  }

  function Inserted(s: Moments, x: Vec): (r: Moments)
    requires |s.mean| == |x| && |s.m2| == |Cells(|x|)|
    ensures |r.mean| == |x| && |r.m2| == |s.m2|
  {
    var mean, cells := MeanWith(s, x), Cells(|x|);
    Moments(s.n + 1, mean, seq(|cells|, p requires 0 <= p < |cells| =>
      s.m2[p] + (x[cells[p].0] - s.mean[cells[p].0]) * (x[cells[p].1] - mean[cells[p].1])))
  }

  /** The mean without `x` of `count` values with mean `m`. */
  function Unshifted(count: nat, m: real, x: real): real
    requires count >= 2
  {
    (count as real * m - x) / (count - 1) as real
  }

  function MeanWithout(s: Moments, x: Vec): (r: Vec)
    requires |s.mean| == |x| && s.n >= 2
    ensures |r| == |x|
  {
    seq(|x|, i requires 0 <= i < |x| => Unshifted(s.n, s.mean[i], x[i]))
  }

  function CellWithout(s: Moments, x: Vec, a: nat, b: nat, value: real, clampAll: bool): real
    requires |s.mean| == |x| && s.n >= 2 && a < |x| && b < |x|
  {
    Clamped(value - (x[a] - s.mean[a]) * (x[b] - MeanWithout(s, x)[b]), clampAll || a == b)
  }

  function Removed(s: Moments, x: Vec, clampAll: bool): (r: Moments)
    requires |s.mean| == |x| && |s.m2| == |Cells(|x|)|
    ensures |r.mean| == |x| && |r.m2| == |s.m2|
  {
    if s.n <= 1 then Moments(0, Zeros(|x|), Zeros(|s.m2|))
    else
      var cells := Cells(|x|);
      Moments(s.n - 1, MeanWithout(s, x), seq(|cells|, p requires 0 <= p < |cells| =>
        CellWithout(s, x, cells[p].0, cells[p].1, s.m2[p], clampAll)))
  }

  function Clamped(v: real, clamp: bool): real {
    if clamp && v < 0.0 then 0.0 else v
  }

  /** With u = (x - a) / (n + 1), v = (y - b) / (n + 1) everything is a polynomial. */
  lemma WelfordPolynomial(n: real, a: real, b: real, u: real, v: real)
    ensures var x, y := a + (n + 1.0) * u, b + (n + 1.0) * v;
            (x - a) * (y - (b + v)) == x * y + n * a * b - (n + 1.0) * (a + u) * (b + v)
  {
    assert (a + (n + 1.0) * u) * (b + (n + 1.0) * v)
        == a * b + (n + 1.0) * (a * v) + (n + 1.0) * (u * b) + (n + 1.0) * (n + 1.0) * (u * v);
    assert (n + 1.0) * (a + u) * (b + v)
        == (n + 1.0) * (a * b) + (n + 1.0) * (a * v) + (n + 1.0) * (u * b) + (n + 1.0) * (u * v);
    assert ((n + 1.0) * u) * (n * v) == (n + 1.0) * n * (u * v);
    assert (b + (n + 1.0) * v) - (b + v) == n * v;
  }

  lemma Stepped(n: real, a: real, x: real)
    requires n >= 1.0
    ensures var u := (x - a) / (n + 1.0);
            x == a + (n + 1.0) * u && (n + 1.0) * (a + u) == n * a + x
  {
    var u := (x - a) / (n + 1.0);
    assert (n + 1.0) * u == x - a;
    assert (n + 1.0) * (a + u) == (n + 1.0) * a + (n + 1.0) * u;
    assert (n + 1.0) * a == n * a + a;
  }

  lemma InsertMeans(D: Mat, d: nat, x: Vec)
    requires Rect(D, d) && D != [] && |x| == d
    ensures MeanWith(Batch(D, d), x) == MeanOf(D + [x], d)
  {
    forall i | 0 <= i < d ensures MeanWith(Batch(D, d), x)[i] == MeanOf(D + [x], d)[i] {
      InsertMean(D, d, x, i);
    }
  }

  /** Inserting is what the batch moments do when an observation is appended. */
  lemma InsertIsBatch(D: Mat, d: nat, x: Vec)
    requires Rect(D, d) && D != [] && |x| == d
    ensures Rect(D + [x], d) && Inserted(Batch(D, d), x) == Batch(D + [x], d)
  {
    var E, s, cells := D + [x], Inserted(Batch(D, d), x), Cells(d);
    InsertMeans(D, d, x);
    forall p | 0 <= p < |cells| ensures s.m2[p] == Batch(E, d).m2[p] { InsertEntry(D, d, x, p); }
    assert s.m2 == Batch(E, d).m2;
  }

  lemma InsertEntry(D: Mat, d: nat, x: Vec, p: nat)
    requires Rect(D, d) && D != [] && |x| == d && p < |Cells(d)|
    ensures Rect(D + [x], d) && Inserted(Batch(D, d), x).m2[p] == Batch(D + [x], d).m2[p]
  {
    var E := D + [x];
    var (i, j) := Cells(d)[p];
    InsertMeans(D, d, x);
    InsertCross(D, d, x, i, j, x[i], MeanOf(D, d)[i], x[j], MeanOf(E, d)[j]);
  }

  lemma InsertMean(D: Mat, d: nat, x: Vec, i: nat)
    requires Rect(D, d) && D != [] && |x| == d && i < d
    ensures var m := MeanOf(D, d)[i];
            MeanOf(D + [x], d)[i] == m + (x[i] - m) / (|D| + 1) as real
  {
    var n, m := |D| as real, MeanOf(D, d)[i];
    assert Column(D + [x], d, i) == Column(D, d, i) + [x[i]] && Ones(|D| + 1) == Ones(|D|) + [1.0];
    DotLast(Ones(|D|), Column(D, d, i), 1.0, x[i]);
    MeanTimesCount(D, d, i);
    MeanTimesCount(D + [x], d, i);
    Stepped(n, m, x[i]);
    SameProduct(n + 1.0, MeanOf(D + [x], d)[i], m + (x[i] - m) / (n + 1.0));
  }

  lemma InsertMeanNamed(D: Mat, d: nat, x: Vec, i: nat, n: real, m: real, y: real, u: real)
    requires Rect(D, d) && D != [] && |x| == d && i < d && n == |D| as real && m == MeanOf(D, d)[i] && y == x[i]
    requires u == (y - m) / (n + 1.0)
    ensures MeanOf(D + [x], d)[i] == m + u
  {
    InsertMean(D, d, x, i);
  }

  /** The two new deviations are `y` from the old mean `a` and `z` from the new mean `b'`. */
  lemma InsertCross(D: Mat, d: nat, x: Vec, i: nat, j: nat, y: real, a: real, z: real, b': real)
    requires Rect(D, d) && D != [] && |x| == d && i < d && j < d
    requires y == x[i] && z == x[j] && a == MeanOf(D, d)[i] && b' == MeanOf(D + [x], d)[j]
    ensures Cross(D + [x], d, i, j) == Cross(D, d, i, j) + (y - a) * (z - b')
  {
    var E, n, b, p := D + [x], |D| as real, MeanOf(D, d)[j], Dot(Column(D, d, i), Column(D, d, j));
    var n', u, v, a', p' := n + 1.0, (y - a) / (n + 1.0), (z - b) / (n + 1.0), MeanOf(D + [x], d)[i], p + y * z;
    AppendedProduct(D, d, x, i, j, y, z, p);
    InsertMeanNamed(D, d, x, i, n, a, y, u);
    InsertMeanNamed(D, d, x, j, n, b, z, v);
    CrossFormulaNamed(D, d, i, j, a, b, n, p);
    CrossFormulaNamed(E, d, i, j, a', b', n', p');
    WelfordCross(n, n', a, b, y, z, u, v, a', b', p, p', Cross(D, d, i, j), Cross(E, d, i, j));
  }

  lemma AppendedProduct(D: Mat, d: nat, x: Vec, i: nat, j: nat, y: real, z: real, p: real)
    requires Rect(D, d) && |x| == d && i < d && j < d && p == Dot(Column(D, d, i), Column(D, d, j))
    requires y == x[i] && z == x[j]
    ensures Dot(Column(D + [x], d, i), Column(D + [x], d, j)) == p + y * z
  {
    assert Column(D + [x], d, i) == Column(D, d, i) + [y] && Column(D + [x], d, j) == Column(D, d, j) + [z];
    DotLast(Column(D, d, i), Column(D, d, j), y, z);
  }

  lemma WelfordCross(n: real, n': real, a: real, b: real, x: real, y: real, u: real, v: real, a': real, b': real,
                     p: real, p': real, before: real, after: real)
    requires n >= 1.0 && n' == n + 1.0 && u == (x - a) / (n + 1.0) && v == (y - b) / (n + 1.0)
    requires a' == a + u && b' == b + v && p' == p + x * y
    requires before == p - n * a * b && after == p' - n' * a' * b'
    ensures after == before + (x - a) * (y - b')
  {
    Stepped(n, a, x);
    Stepped(n, b, y);
    WelfordPolynomial(n, a, b, u, v);
  }

  lemma RotateMean(D: Mat, d: nat, x: Vec)
    requires Rect(D, d) && D != [] && |x| == d
    ensures Rect(D + [x], d) && Rect([x] + D, d) && MeanOf([x] + D, d) == MeanOf(D + [x], d)
  {
    var E, F := D + [x], [x] + D;
    forall i | 0 <= i < d ensures MeanOf(F, d)[i] == MeanOf(E, d)[i] {
      RotateDot(Ones(|D|), Column(D, d, i), 1.0, x[i]);
      assert Ones(|D| + 1) == Ones(|D|) + [1.0] == [1.0] + Ones(|D|);
      assert Column(E, d, i) == Column(D, d, i) + [x[i]] && Column(F, d, i) == [x[i]] + Column(D, d, i);
    }
  }

  lemma RotateCross(D: Mat, d: nat, x: Vec, i: nat, j: nat)
    requires Rect(D, d) && D != [] && |x| == d && i < d && j < d
    ensures Rect(D + [x], d) && Rect([x] + D, d) && Cross([x] + D, d, i, j) == Cross(D + [x], d, i, j)
  {
    var E, F := D + [x], [x] + D;
    RotateMean(D, d, x);
    var a, b, n := MeanOf(E, d)[i], MeanOf(E, d)[j], |E| as real;
    var p := Dot(Column(E, d, i), Column(E, d, j));
    RotatedProduct(D, d, x, i, j);
    CrossFormulaNamed(E, d, i, j, a, b, n, p);
    CrossFormulaNamed(F, d, i, j, a, b, n, p);
  }

  lemma RotatedProduct(D: Mat, d: nat, x: Vec, i: nat, j: nat)
    requires Rect(D, d) && |x| == d && i < d && j < d
    ensures Dot(Column([x] + D, d, i), Column([x] + D, d, j)) == Dot(Column(D + [x], d, i), Column(D + [x], d, j))
  {
    var E, F := D + [x], [x] + D;
    RotateDot(Column(D, d, i), Column(D, d, j), x[i], x[j]);
    assert Column(E, d, i) == Column(D, d, i) + [x[i]] && Column(E, d, j) == Column(D, d, j) + [x[j]];
    assert Column(F, d, i) == [x[i]] + Column(D, d, i) && Column(F, d, j) == [x[j]] + Column(D, d, j);
  }

  /** Batch moments do not depend on which end an observation is added to. */
  lemma BatchRotates(D: Mat, d: nat, x: Vec)
    requires Rect(D, d) && D != [] && |x| == d
    ensures Rect(D + [x], d) && Rect([x] + D, d) && Batch([x] + D, d) == Batch(D + [x], d)
  {
    RotateMean(D, d, x);
    var cells := Cells(d);
    forall p | 0 <= p < |cells| ensures Batch([x] + D, d).m2[p] == Batch(D + [x], d).m2[p] {
      RotateCross(D, d, x, cells[p].0, cells[p].1);
    }
    assert Batch([x] + D, d).m2 == Batch(D + [x], d).m2;
  }

  lemma RotateDot(a: Vec, b: Vec, x: real, y: real)
    requires |a| == |b|
    ensures Dot([x] + a, [y] + b) == Dot(a + [x], b + [y])
  {
    DotConcat([x], a, [y], b);
    DotConcat(a, [x], b, [y]);
  }

  lemma UndoAlgebra(n: real, a: real, b: real, u: real, v: real)
    ensures var x, y := a + (n + 1.0) * u, b + (n + 1.0) * v;
            (x - (a + u)) * (y - b) == (x - a) * (y - (b + v))
  {
    assert (n * u) * ((n + 1.0) * v) == ((n + 1.0) * u) * (n * v);
    assert (a + (n + 1.0) * u) - (a + u) == n * u && (b + (n + 1.0) * v) - (b + v) == n * v;
  }

  lemma UndoProduct(n: real, a: real, b: real, x: real, y: real)
    requires n >= 1.0
    ensures (x - (a + (x - a) / (n + 1.0))) * (y - b) == (x - a) * (y - (b + (y - b) / (n + 1.0)))
  {
    Stepped(n, a, x);
    Stepped(n, b, y);
    UndoAlgebra(n, a, b, (x - a) / (n + 1.0), (y - b) / (n + 1.0));
  }

  /** Entry by entry, removing what was just inserted gives back the clamped old entry. */
  lemma UndoEntry(s: Moments, x: Vec, clampAll: bool, p: nat)
    requires s.n >= 1 && |s.mean| == |x| && |s.m2| == |Cells(|x|)| && p < |s.m2|
    ensures var r := Removed(Inserted(s, x), x, clampAll);
            && r.mean == s.mean
            && r.m2[p] == Clamped(s.m2[p], clampAll || Cells(|x|)[p].0 == Cells(|x|)[p].1)
  {
    UndoMean(s, x, clampAll);
    var (i, j) := Cells(|x|)[p];
    UndoProduct(s.n as real, s.mean[i], s.mean[j], x[i], x[j]);
  }

  lemma UndoMean(s: Moments, x: Vec, clampAll: bool)
    requires s.n >= 1 && |s.mean| == |x| && |s.m2| == |Cells(|x|)|
    ensures Removed(Inserted(s, x), x, clampAll).mean == s.mean
  {
    var r := Removed(Inserted(s, x), x, clampAll);
    forall i | 0 <= i < |x| ensures r.mean[i] == s.mean[i] {
      var n, a := s.n as real, s.mean[i];
      Stepped(n, a, x[i]);
      assert Inserted(s, x).mean[i] == a + (x[i] - a) / (n + 1.0);
      assert r.mean[i] == (n * a + x[i] - x[i]) / n;
      SameProduct(n, (n * a) / n, a);
    }
  }

  ghost predicate Nonnegative(d: nat, m2: Vec, diagonalOnly: bool)
    requires |m2| == |Cells(d)|
  {
    forall p :: 0 <= p < |m2| && (!diagonalOnly || Cells(d)[p].0 == Cells(d)[p].1) ==> m2[p] >= 0.0
  }

  /** Removing an observation that was just inserted gives back the old moments exactly when the
      clamped entries were not negative. */
  lemma RemovalUndoesInsertion(s: Moments, x: Vec, clampAll: bool)
    requires s.n >= 1 && |s.mean| == |x| && |s.m2| == |Cells(|x|)|
    ensures Removed(Inserted(s, x), x, clampAll) == s <==> Nonnegative(|x|, s.m2, !clampAll)
  {
    var r, cells := Removed(Inserted(s, x), x, clampAll), Cells(|x|);
    UndoMean(s, x, clampAll);
    forall p | 0 <= p < |s.m2| ensures r.m2[p] == Clamped(s.m2[p], clampAll || cells[p].0 == cells[p].1) {
      UndoEntry(s, x, clampAll, p);
    }
    if Nonnegative(|x|, s.m2, !clampAll) {
      assert r.m2 == s.m2;
    } else {
      var p :| 0 <= p < |s.m2| && (clampAll || cells[p].0 == cells[p].1) && s.m2[p] < 0.0;
      assert r.m2[p] != s.m2[p];
    }
  }

  lemma VariancesNonnegative(D: Mat, d: nat)
    requires Rect(D, d) && D != []
    ensures Nonnegative(d, Batch(D, d).m2, true)
  {
    var cells := Cells(d);
    forall p | 0 <= p < |cells| && cells[p].0 == cells[p].1 ensures Batch(D, d).m2[p] >= 0.0 {
      SquareNonnegative(Column(Centered(D, d), d, cells[p].0));
    }
  }

  /** Taking the oldest observation out of a window: right without clamped covariances, and as
      shipped exactly when no covariance of the remaining window is negative. */
  lemma RemoveIsBatch(D: Mat, d: nat, x: Vec)
    requires Rect(D, d) && D != [] && |x| == d
    ensures Rect([x] + D, d)
    ensures Removed(Batch([x] + D, d), x, false) == Batch(D, d)
    ensures Removed(Batch([x] + D, d), x, true) == Batch(D, d) <==> Nonnegative(d, Batch(D, d).m2, false)
  {
    BatchRotates(D, d, x);
    InsertIsBatch(D, d, x);
    VariancesNonnegative(D, d);
    RemovalUndoesInsertion(Batch(D, d), x, false);
    RemovalUndoesInsertion(Batch(D, d), x, true);
  }

  /** Two observations that move against each other: taking an older one out of the shipped
      window leaves a covariance of 0 where the window's is negative. */
  lemma ClampLosesCovariance(x: Vec)
    requires |x| == 2
    ensures var D := [[0.0, 1.0], [1.0, 0.0]];
            Rect([x] + D, 2) && Removed(Batch([x] + D, 2), x, true) != Batch(D, 2)
  {
    var D := [[0.0, 1.0], [1.0, 0.0]];
    var a, b := Column(D, 2, 0), Column(D, 2, 1);
    assert a == [0.0] + [1.0] && b == [1.0] + [0.0] && Ones(2) == [1.0] + [1.0];
    DotConcat([0.0], [1.0], [1.0], [0.0]);
    DotConcat([1.0], [0.0], [1.0], [1.0]);
    DotConcat([1.0], [1.0], [1.0], [0.0]);
    DotOne(0.0, 1.0);
    DotOne(1.0, 0.0);
    DotOne(1.0, 1.0);
    DotConcat([1.0], [1.0], [0.0], [1.0]);
    CrossFormula(D, 2, 0, 1);
    assert MeanOf(D, 2)[0] == 0.5 && MeanOf(D, 2)[1] == 0.5;
    assert Cross(D, 2, 0, 1) == -0.5;
    RemoveIsBatch(D, 2, x);
    CellAt(2, 0, 1);
    assert Slot(2, 0, 1) == 1;
    assert Batch(D, 2).m2[1] < 0.0;
  }
}
