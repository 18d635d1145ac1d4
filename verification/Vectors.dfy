/** Vectors and matrices of reals as sequences, and how dot products follow row operations. */
module Vectors {
  type Vec = seq<real>
  type Mat = seq<Vec>

  function Abs(x: real): real {
    if x < 0.0 then -x else x
  }

  function Dot(a: Vec, b: Vec): real
    requires |a| == |b|
  {
    if a == [] then 0.0
    else
      var m := |a| - 1;
      Dot(a[..m], b[..m]) + a[m] * b[m]
  }

  /** `a - f * b` */
  function Axpy(a: Vec, f: real, b: Vec): (r: Vec)
    requires |a| == |b|
    ensures |r| == |a|
  {
    seq(|a|, j requires 0 <= j < |a| => a[j] - f * b[j])
  }

  function Scaled(a: Vec, d: real): (r: Vec)
    requires d != 0.0
    ensures |r| == |a|
  {
    seq(|a|, j requires 0 <= j < |a| => a[j] / d)
  }

  function Zeros(n: nat): (r: Vec)
    ensures |r| == n
  {
    seq(n, _ => 0.0)
  }

  function Ones(n: nat): (r: Vec)
    ensures |r| == n
  {
    seq(n, _ => 1.0)
  }

  function Negated(x: Vec): (r: Vec)
    ensures |r| == |x|
  {
    seq(|x|, i requires 0 <= i < |x| => -x[i])
  }

  function Total(x: Vec): real {
    if x == [] then 0.0 else Total(x[..|x| - 1]) + x[|x| - 1]
  }

  ghost predicate Rect(m: Mat, w: nat) {
    forall i :: 0 <= i < |m| ==> |m[i]| == w
  }

  /** Every row is orthogonal to `w`. */
  ghost predicate Orthogonal(m: Mat, w: Vec)
    requires Rect(m, |w|)
  {
    forall i :: 0 <= i < |m| ==> Dot(m[i], w) == 0.0
  }

  lemma AxpyPrefix(a: Vec, f: real, b: Vec, m: nat)
    requires |a| == |b| && m <= |a|
    ensures Axpy(a, f, b)[..m] == Axpy(a[..m], f, b[..m])
  {
    forall j | 0 <= j < m ensures Axpy(a, f, b)[j] == Axpy(a[..m], f, b[..m])[j] {
      assert a[..m][j] == a[j] && b[..m][j] == b[j];
    }
  }

  lemma LinearStep(p: real, q: real, x: real, y: real, f: real, w: real)
    ensures p - f * q + (x - f * y) * w == (p + x * w) - f * (q + y * w)
  {
    assert (x - f * y) * w == x * w - f * (y * w);
    assert f * (q + y * w) == f * q + f * (y * w);
  }

  lemma {:induction false} DotAxpy(a: Vec, f: real, b: Vec, w: Vec)
    requires |a| == |b| == |w|
    ensures Dot(Axpy(a, f, b), w) == Dot(a, w) - f * Dot(b, w)
  {
    if a != [] {
      var m := |a| - 1;
      AxpyPrefix(a, f, b, m);
      DotAxpy(a[..m], f, b[..m], w[..m]);
      LinearStep(Dot(a[..m], w[..m]), Dot(b[..m], w[..m]), a[m], b[m], f, w[m]);
    }
  }

  /** The same with the combination on the right. */
  lemma {:induction false} DotAxpyRight(w: Vec, a: Vec, f: real, b: Vec)
    requires |a| == |b| == |w|
    ensures Dot(w, Axpy(a, f, b)) == Dot(w, a) - f * Dot(w, b)
  {
    if a != [] {
      var m := |a| - 1;
      AxpyPrefix(a, f, b, m);
      DotAxpyRight(w[..m], a[..m], f, b[..m]);
      LinearStep(Dot(w[..m], a[..m]), Dot(w[..m], b[..m]), a[m], b[m], f, w[m]);
    }
  }

  /** `a + f * b` against `w`, with the value of `b` against `w` given. */
  lemma DotPlus(a: Vec, f: real, b: Vec, w: Vec, bw: real)
    requires |a| == |b| == |w| && bw == Dot(b, w)
    ensures Dot(Axpy(a, -f, b), w) == Dot(a, w) + f * bw
  {
    var g, aw, r := -f, Dot(a, w), Dot(Axpy(a, -f, b), w);
    DotAxpy(a, g, b, w);
    Opposite(f, g, Dot(b, w), bw, aw, r);
  }

  lemma Opposite(f: real, g: real, x: real, y: real, aw: real, r: real)
    requires g == -f && x == y && r == aw - g * x
    ensures r == aw + f * y
  {
  }

  lemma DotLast(a: Vec, b: Vec, x: real, y: real)
    requires |a| == |b|
    ensures Dot(a + [x], b + [y]) == Dot(a, b) + x * y
  {
    assert (a + [x])[..|a|] == a && (b + [y])[..|a|] == b;
  }

  lemma {:induction false} DotScaled(a: Vec, d: real, w: Vec)
    requires |a| == |w| && d != 0.0
    ensures Dot(Scaled(a, d), w) == Dot(a, w) / d
  {
    if a != [] {
      var m := |a| - 1;
      assert Scaled(a, d)[..m] == Scaled(a[..m], d);
      DotScaled(a[..m], d, w[..m]);
      QuotientStep(Dot(a[..m], w[..m]), a[m], w[m], d);
    }
  }

  lemma QuotientStep(p: real, x: real, y: real, d: real)
    requires d != 0.0
    ensures p / d + (x / d) * y == (p + x * y) / d
  {
    var u, v := p / d, x / d;
    assert u * d == p && v * d == x;
    assert (u + v * y) * d == p + x * y;
  }

  lemma {:induction false} DotSymmetric(a: Vec, b: Vec)
    requires |a| == |b|
    ensures Dot(a, b) == Dot(b, a)
  {
    if a != [] {
      DotSymmetric(a[..|a| - 1], b[..|a| - 1]);
    }
  }

  lemma {:induction false} DotConcat(a: Vec, c: Vec, b: Vec, d: Vec)
    requires |a| == |b| && |c| == |d|
    ensures Dot(a + c, b + d) == Dot(a, b) + Dot(c, d)
  {
    if c == [] {
      assert a + c == a && b + d == b;
    } else {
      var m := |c| - 1;
      assert (a + c)[..|a| + m] == a + c[..m] && (b + d)[..|a| + m] == b + d[..m];
      DotConcat(a, c[..m], b, d[..m]);
    }
  }

  lemma DotSplit(a: Vec, b: Vec, i: nat)
    requires |a| == |b| && i <= |a|
    ensures Dot(a, b) == Dot(a[..i], b[..i]) + Dot(a[i..], b[i..])
  {
    assert a == a[..i] + a[i..] && b == b[..i] + b[i..];
    DotConcat(a[..i], a[i..], b[..i], b[i..]);
  }

  lemma {:induction false} DotFront(a: Vec, b: Vec)
    requires |a| == |b| > 0
    ensures Dot(a, b) == a[0] * b[0] + Dot(a[1..], b[1..])
  {
    var m := |a| - 1;
    if m == 0 {
      assert a[..0] == [];
    } else {
      DotFront(a[..m], b[..m]);
      assert a[..m][1..] == a[1..][..m - 1] && b[..m][1..] == b[1..][..m - 1];
    }
  }

  lemma {:induction false} DotZero(a: Vec, w: Vec)
    requires |a| == |w| && forall i :: 0 <= i < |a| ==> a[i] == 0.0
    ensures Dot(a, w) == 0.0
  {
    if a != [] { DotZero(a[..|a| - 1], w[..|a| - 1]); }
  }

  lemma DotOne(x: real, y: real)
    ensures Dot([x], [y]) == x * y
  {
    assert [x][..0] == [];
  }
}
