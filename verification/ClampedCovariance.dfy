/** What backend/anomaly/mahalanobis_math.rs would compute if its samples were counted and its
    removals still clamped covariances at 0: how far every entry is off, after any run. */
module ClampedCovariance {
  import opened Vectors
  import opened Windows
  import opened RollingCovariance
  import opened CovarianceEstimator

  const COUNTED: Version := Version(true, true)

  /** The entries of the observations' last window, computed at once. */
  function WindowCells(xs: Mat, d: nat, w: nat): (r: Vec)
    requires Rect(xs, d) && xs != []
    ensures |r| == |Cells(d)|
  {
    Batch(LastOf(xs, Width(w)), d).m2
  }

  function Larger(a: real, b: real): real {
    if a > b then a else b
  }

  /** The larger of `e` and how far below 0 `c` is, entry by entry. */
  function Worse(e: Vec, c: Vec): (r: Vec)
    requires |e| == |c|
    ensures |r| == |e|
  {
    seq(|e|, p requires 0 <= p < |e| => Larger(e[p], -c[p]))
  }

  /** How far below 0 an entry of a window has been, at the worst of the removals so far. */
  function Excess(xs: Mat, d: nat, w: nat): (r: Vec)
    requires Rect(xs, d)
    ensures |r| == |Cells(d)|
  {
    if xs == [] then Zeros(|Cells(d)|)
    else
      var before := Excess(xs[..|xs| - 1], d, w);
      if |xs| <= Width(w) then before else Worse(before, WindowCells(xs, d, w))
  }

  /** `m` is the largest of 0 and the values of `dip` after `lo` and up to `n`. */
  ghost predicate IsWorst(m: real, dip: nat -> real, lo: nat, n: nat) {
    && m >= 0.0
    && (forall k: nat :: lo < k <= n ==> m >= dip(k))
    && (m == 0.0 || exists k: nat :: lo < k <= n && m == dip(k))
  }

  lemma WorstGrows(m: real, r: real, dip: nat -> real, lo: nat, n: nat)
    requires IsWorst(m, dip, lo, n) && r == if n + 1 <= lo then m else Larger(m, dip(n + 1))
    ensures IsWorst(r, dip, lo, n + 1)
  {
  }

  /** How far below 0 entry `p` of the window is, by the number of observations. */
  function Dips(xs: Mat, d: nat, w: nat, p: nat): nat -> real
    requires Rect(xs, d) && p < |Cells(d)|
  {
    (k: nat) => if 0 < k <= |xs| then -WindowCells(xs[..k], d, w)[p] else 0.0
  }

  lemma ExcessNext(xs: Mat, d: nat, w: nat, all: Mat)
    requires Rect(all, d) && all != [] && xs == all[..|all| - 1]
    ensures Excess(all, d, w) == if |all| <= Width(w) then Excess(xs, d, w) else Worse(Excess(xs, d, w), WindowCells(all, d, w))
  {
    hide Worse, WindowCells, Cells;
  }

  lemma ExcessGrows(xs: Mat, d: nat, w: nat, p: nat, n: nat)
    requires Rect(xs, d) && p < |Cells(d)| && n < |xs|
    ensures var e, f := Excess(xs[..n], d, w)[p], Excess(xs[..n + 1], d, w)[p];
            f == if n + 1 <= Width(w) then e else Larger(e, Dips(xs, d, w, p)(n + 1))
  {
    hide Excess, WindowCells, Cells, Larger;
    var all := xs[..n + 1];
    assert all[..n] == xs[..n];
    ExcessNext(xs[..n], d, w, all);
  }

  /** The excess is the running maximum of the negative parts of the windows' entries. */
  lemma {:induction false} ExcessIsWorstDip(xs: Mat, d: nat, w: nat, p: nat, n: nat)
    requires Rect(xs, d) && p < |Cells(d)| && n <= |xs|
    ensures IsWorst(Excess(xs[..n], d, w)[p], Dips(xs, d, w, p), Width(w), n)
  {
    if n == 0 {
      NoExcess(xs[..0], d, w);
    } else {
      hide Excess, Dips, Cells, WindowCells, IsWorst;
      ExcessIsWorstDip(xs, d, w, p, n - 1);
      ExcessGrows(xs, d, w, p, n - 1);
      WorstGrows(Excess(xs[..n - 1], d, w)[p], Excess(xs[..n], d, w)[p], Dips(xs, d, w, p), Width(w), n - 1);
    }
  }

  lemma NoExcess(xs: Mat, d: nat, w: nat)
    requires xs == []
    ensures Excess(xs, d, w) == Zeros(|Cells(d)|)
  {
  }

  // ----- one step -----

  /** Moments with every entry raised. */
  function Raised(s: Moments, e: Vec): (r: Moments)
    requires |e| == |s.m2|
    ensures |r.m2| == |s.m2| && r.mean == s.mean && r.n == s.n
  {
    s.(m2 := seq(|e|, p requires 0 <= p < |e| => s.m2[p] + e[p]))
  }

  /** An insertion adds the same whatever the entries are. */
  lemma InsertRaised(s: Moments, e: Vec, x: Vec)
    requires |s.mean| == |x| && |e| == |s.m2| == |Cells(|x|)|
    ensures Inserted(Raised(s, e), x) == Raised(Inserted(s, x), e)
  {
    var a, b := Inserted(Raised(s, e), x), Raised(Inserted(s, x), e);
    assert MeanWith(Raised(s, e), x) == MeanWith(s, x);
    forall p | 0 <= p < |e| ensures a.m2[p] == b.m2[p] {}
    assert a.m2 == b.m2;
  }

  /** A removal with the clamp raises what is left of the window, where that is not enough. */
  lemma RemoveRaised(rest: Mat, d: nat, x: Vec, e: Vec, f: Vec)
    requires Rect(rest, d) && rest != [] && |x| == d && |e| == |f| == |Cells(d)|
    requires f == Worse(e, Batch(rest, d).m2)
    ensures Rect([x] + rest, d) && Removed(Raised(Batch([x] + rest, d), e), x, true) == Raised(Batch(rest, d), f)
  {
    var s := Raised(Batch(rest, d), e);
    BatchRotates(rest, d, x);
    InsertIsBatch(rest, d, x);
    InsertRaised(Batch(rest, d), e, x);
    var r := Removed(Inserted(s, x), x, true);
    UndoMean(s, x, true);
    forall p | 0 <= p < |e| ensures r.m2[p] == Raised(Batch(rest, d), f).m2[p] { UndoEntry(s, x, true, p); }
    assert r.m2 == Raised(Batch(rest, d), f).m2;
  }

  ghost predicate Exceeds(e: Estimator, xs: Mat, d: nat, w: nat)
    requires Rect(xs, d) && xs != []
  {
    var b := LastOf(xs, Width(w));
    e.buffer == b && e.moments == Raised(Batch(b, d), Excess(xs, d, w))
  }

  lemma ExceedsStep(xs: Mat, d: nat, w: nat, x: Vec, e: Estimator)
    requires Rect(xs, d) && xs != [] && |x| == d && Exceeds(e, xs, d, w)
    ensures Exceeds(Step(e, x, w, COUNTED), xs + [x], d, w)
  {
    var all, b, was, now := xs + [x], LastOf(xs, Width(w)), Excess(xs, d, w), Excess(xs + [x], d, w);
    LastOfStep(xs, x, Width(w));
    ExcessNext(xs, d, w, all);
    InsertIsBatch(b, d, x);
    InsertRaised(Batch(b, d), was, x);
    hide Excess, Inserted, Removed, Cells, Worse;
    if |b| >= w {
      var rest := b[1..] + [x];
      assert b + [x] == [b[0]] + rest && rest == LastOf(all, Width(w));
      RemoveRaised(rest, d, b[0], was, now);
    }
  }

  /** After any run of the counted, clamped version mean, count and buffer are those of the last
      window, and each entry is that window's raised by the excess. */
  lemma {:induction false} ClampedExceedsBatch(xs: Mat, d: nat, w: nat)
    requires Rect(xs, d) && xs != []
    ensures Exceeds(Run(xs, d, w, COUNTED), xs, d, w)
  {
    var m := |xs| - 1;
    var ys, x := xs[..m], xs[m];
    assert xs == ys + [x];
    if m == 0 {
      SingleBatch(x);
      assert LastOf(xs, Width(w)) == [x];
    } else {
      ClampedExceedsBatch(ys, d, w);
      ExceedsStep(ys, d, w, x, Run(ys, d, w, COUNTED));
    }
  }

  /** No window left by a removal had a negative entry. */
  ghost predicate NeverNegative(xs: Mat, d: nat, w: nat)
    requires Rect(xs, d)
  {
    forall p: nat, k: nat :: p < |Cells(d)| && Width(w) < k <= |xs| ==> Dips(xs, d, w, p)(k) <= 0.0
  }

  /** So the counting repair alone is enough exactly when no window left by a removal has had a
      negative covariance. */
  lemma ClampHarmlessExactly(xs: Mat, d: nat, w: nat)
    requires Rect(xs, d) && xs != []
    ensures Run(xs, d, w, COUNTED).moments == Batch(LastOf(xs, Width(w)), d) <==> NeverNegative(xs, d, w)
  {
    ClampedExceedsBatch(xs, d, w);
    hide Run, Batch, Excess, NeverNegative;
    RaisedSame(Batch(LastOf(xs, Width(w)), d), Excess(xs, d, w));
    ExcessZero(xs, d, w, Excess(xs, d, w));
  }

  lemma RaisedSame(s: Moments, e: Vec)
    requires |e| == |s.m2|
    ensures Raised(s, e) == s <==> forall p :: 0 <= p < |e| ==> e[p] == 0.0
  {
    if forall p :: 0 <= p < |e| ==> e[p] == 0.0 {
      assert Raised(s, e).m2 == s.m2;
    } else {
      var p :| 0 <= p < |e| && e[p] != 0.0;
      assert Raised(s, e).m2[p] != s.m2[p];
    }
  }

  lemma WorstIsZero(m: real, dip: nat -> real, lo: nat, n: nat)
    requires IsWorst(m, dip, lo, n)
    ensures m == 0.0 <==> forall k: nat :: lo < k <= n ==> dip(k) <= 0.0
  {
  }

  lemma ExcessZero(xs: Mat, d: nat, w: nat, e: Vec)
    requires Rect(xs, d) && e == Excess(xs, d, w)
    ensures (forall p :: 0 <= p < |e| ==> e[p] == 0.0) <==> NeverNegative(xs, d, w)
  {
    forall p: nat | p < |e|
      ensures e[p] == 0.0 <==> forall k: nat :: Width(w) < k <= |xs| ==> Dips(xs, d, w, p)(k) <= 0.0
    {
      ExcessIsWorstDip(xs, d, w, p, |xs|);
      assert xs[..|xs|] == xs;
      WorstIsZero(e[p], Dips(xs, d, w, p), Width(w), |xs|);
    }
  }
}
