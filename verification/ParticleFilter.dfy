/** Systematic resampling and the effective sample size of backend/anomaly/particle_filter.py. */
module ParticleFilter {
  import opened Reals
  import opened Vectors
  import opened VectorLaws

  /** Weights of a normalised particle set. */
  ghost predicate Simplex(w: Vec) {
    && w != []
    && (forall j :: 0 <= j < |w| ==> w[j] >= 0.0)
    && Total(w) == 1.0
  }

  /** The i-th sampling point. */
  function Point(u0: real, n: nat, i: nat): real
    requires n > 0
  {
    u0 + i as real / n as real
  }

  /** The cumulative sum of the weights before index `j`. */
  function Before(w: Vec, j: nat): real
    requires j <= |w|
  {
    Total(w[..j])
  }

  lemma BeforeStep(w: Vec, j: nat)
    requires j < |w|
    ensures Before(w, j + 1) == Before(w, j) + w[j]
  {
    assert w[..j + 1][..j] == w[..j];
  }

  lemma {:induction false} BeforeMonotone(w: Vec, i: nat, j: nat)
    requires i <= j <= |w| && forall k :: 0 <= k < |w| ==> w[k] >= 0.0
    ensures Before(w, i) <= Before(w, j)
  {
    if i < j {
      BeforeMonotone(w, i, j - 1);
      BeforeStep(w, j - 1);
    }
  }

  lemma BeforeRange(w: Vec, j: nat)
    requires Simplex(w) && j <= |w|
    ensures 0.0 <= Before(w, j) <= 1.0 && Before(w, 0) == 0.0 && Before(w, |w|) == 1.0
  {
    assert w[..|w|] == w;
    BeforeMonotone(w, 0, j);
    BeforeMonotone(w, j, |w|);
  }

  /** Particle `j` owns the points from the weights before it up to its own. */
  predicate Owns(w: Vec, j: nat, u: real) {
    j < |w| && Before(w, j) <= u < Before(w, j + 1)
  }

  /** The ancestors of all points. */
  ghost predicate IsAncestry(w: Vec, u0: real, anc: seq<nat>)
    requires w != []
  {
    |anc| == |w| && forall i :: 0 <= i < |anc| ==> Owns(w, anc[i], Point(u0, |w|, i))
  }

  predicate StartOk(u0: real, n: nat)
    requires n > 0
  {
    0.0 <= u0 < 1.0 / n as real
  }

  /** Every sampling point lies in [0, 1). */
  lemma PointRange(u0: real, n: nat, i: nat)
    requires n > 0 && StartOk(u0, n) && i < n
    ensures 0.0 <= Point(u0, n, i) < 1.0
    ensures Point(u0, n, i + 1) == Point(u0, n, i) + 1.0 / n as real
  {
    var r := n as real;
    assert (i + 1) as real / r == i as real / r + 1.0 / r;
    DivideMonotone((i + 1) as real, r, r);
    DivideMonotone(0.0, i as real, r);
  }

  lemma DivideMonotone(x: real, y: real, r: real)
    requires r > 0.0 && x <= y
    ensures x / r <= y / r && r / r == 1.0 && 0.0 / r == 0.0
  {
    assert y / r - x / r == (y - x) / r;
  }

  // ----- the two-index loop -----

  /** Cumulative sums; entry `j` is the weight up to and including particle `j`. */
  method CumulativeSum(w: Vec) returns (c: Vec)
    ensures |c| == |w| && forall j :: 0 <= j < |w| ==> c[j] == Before(w, j + 1)
  {
    c := [];
    var sum := 0.0;
    for j := 0 to |w|
      invariant |c| == j && sum == Before(w, j)
      invariant forall k :: 0 <= k < j ==> c[k] == Before(w, k + 1)
    {
      BeforeStep(w, j);
      sum := sum + w[j];
      c := c + [sum];
    }
  }

  /** The resampling loop: it never reads past the last particle and takes fewer than 2n steps. */
  method SystematicIndices(w: Vec, u0: real) returns (anc: seq<nat>, steps: nat)
    requires Simplex(w) && StartOk(u0, |w|)
    ensures IsAncestry(w, u0, anc)
    ensures steps < 2 * |w|
  {
    var n := |w|;
    var cumsum := CumulativeSum(w);
    anc, steps := [], 0;
    var i, j := 0, 0;
    BeforeRange(w, n);
    PointRange(u0, n, 0);
    while i < n
      invariant i <= n && j < n && |anc| == i && steps == i + j
      invariant i < n ==> Before(w, j) <= Point(u0, n, i)
      invariant forall k :: 0 <= k < i ==> Owns(w, anc[k], Point(u0, n, k))
      decreases n - i, n - j
    {
      PointRange(u0, n, i);
      if u0 + i as real / n as real < cumsum[j] {
        anc := anc + [j];
        i := i + 1;
      } else {
        j := j + 1;
      }
      steps := steps + 1;
    }
  }

  /** Owners are unique, so the ancestry is. */
  lemma AncestryUnique(w: Vec, u0: real, a: seq<nat>, b: seq<nat>)
    requires Simplex(w) && IsAncestry(w, u0, a) && IsAncestry(w, u0, b)
    ensures a == b
  {
    forall i | 0 <= i < |a| ensures a[i] == b[i] {
      var u := Point(u0, |w|, i);
      assert Owns(w, a[i], u) && Owns(w, b[i], u);
      if a[i] < b[i] { BeforeMonotone(w, a[i] + 1, b[i]); }
      if b[i] < a[i] { BeforeMonotone(w, b[i] + 1, a[i]); }
    }
  }

  // ----- offspring counts -----

  function Count(s: seq<nat>, j: nat): nat {
    if s == [] then 0 else Count(s[..|s| - 1], j) + if s[|s| - 1] == j then 1 else 0
  }

  function CountBelow(s: seq<nat>, j: nat): nat {
    if s == [] then 0 else CountBelow(s[..|s| - 1], j) + if s[|s| - 1] < j then 1 else 0
  }

  lemma {:induction false} CountSplit(s: seq<nat>, j: nat)
    ensures CountBelow(s, j + 1) == CountBelow(s, j) + Count(s, j)
  {
    if s != [] { CountSplit(s[..|s| - 1], j); }
  }

  /** When membership in "below j" is decided by the index, the count is where it switches. */
  lemma {:induction false} CountIsSwitch(s: seq<nat>, j: nat, k: nat)
    requires k <= |s| && forall i :: 0 <= i < |s| ==> (s[i] < j <==> i < k)
    ensures CountBelow(s, j) == k
  {
    if s != [] {
      CountIsSwitch(s[..|s| - 1], j, if k < |s| then k else |s| - 1);
    }
  }

  lemma OwnerBelow(w: Vec, a: nat, u: real, j: nat)
    requires Simplex(w) && Owns(w, a, u) && j <= |w|
    ensures a < j <==> u < Before(w, j)
  {
    if a < j { BeforeMonotone(w, a + 1, j); } else { BeforeMonotone(w, j, a); }
  }

  /** Ancestor indices never decrease. */
  lemma AncestryOrdered(w: Vec, u0: real, anc: seq<nat>, i: nat, k: nat)
    requires Simplex(w) && StartOk(u0, |w|) && IsAncestry(w, u0, anc) && i <= k < |anc|
    ensures anc[i] <= anc[k]
  {
    DivideMonotone(i as real, k as real, |w| as real);
    assert Owns(w, anc[i], Point(u0, |w|, i)) && Owns(w, anc[k], Point(u0, |w|, k));
    if anc[k] < anc[i] { BeforeMonotone(w, anc[k] + 1, anc[i]); }
  }

  /** `k` is n * (b - u0) rounded up. */
  predicate IsCeiling(k: real, n: real, b: real, u0: real) {
    n * (b - u0) <= k < n * (b - u0) + 1.0
  }

  /** The number of ancestors below `j` is n * (weight before j - u0), rounded up. */
  lemma BelowBound(w: Vec, u0: real, anc: seq<nat>, j: nat)
    requires Simplex(w) && StartOk(u0, |w|) && IsAncestry(w, u0, anc) && j <= |w|
    ensures IsCeiling(CountBelow(anc, j) as real, |w| as real, Before(w, j), u0)
  {
    var n, b := |w|, Before(w, j);
    var k := Switch(w, u0, anc, j, n);
    CountIsSwitch(anc, j, k);
    BeforeRange(w, j);
    if k > 0 {
      assert Owns(w, anc[k - 1], Point(u0, n, k - 1));
      OwnerBelow(w, anc[k - 1], Point(u0, n, k - 1), j);
    }
    if k < n {
      assert Owns(w, anc[k], Point(u0, n, k));
      OwnerBelow(w, anc[k], Point(u0, n, k), j);
    }
    CeilingFromPoints(u0, n, k, b);
  }

  lemma CeilingFromPoints(u0: real, n: nat, k: nat, b: real)
    requires n > 0 && StartOk(u0, n) && k <= n && 0.0 <= b <= 1.0
    requires k > 0 ==> Point(u0, n, k - 1) < b
    requires k < n ==> Point(u0, n, k) >= b
    ensures IsCeiling(k as real, n as real, b, u0)
  {
    var m, c, x := n as real, k as real, n as real * (b - u0);
    if k > 0 {
      var j := (k - 1) as real;
      ScaleBelow(u0, m, j, b, x);
      assert c == j + 1.0;
    } else {
      ScaleStart(u0, m, b, x);
    }
    if k < n {
      ScaleAbove(u0, m, c, b, x);
    } else {
      ScaleEnd(u0, m, b, x);
    }
  }

  lemma ScaleBelow(u0: real, n: real, k: real, b: real, x: real)
    requires n > 0.0 && u0 + k / n < b && x == n * (b - u0)
    ensures k < x
  {
    var q := k / n;
    var d := (b - u0) - q;
    ProductPositive(n, d);
    assert n * q == k;
    assert n * d == x - n * q;
  }

  lemma ScaleAbove(u0: real, n: real, k: real, b: real, x: real)
    requires n > 0.0 && u0 + k / n >= b && x == n * (b - u0)
    ensures k >= x
  {
    var q := k / n;
    var d := q - (b - u0);
    ProductNonnegative(n, d);
    assert n * q == k;
    assert n * d == n * q - x;
  }

  lemma ScaleStart(u0: real, n: real, b: real, x: real)
    requires n > 0.0 && u0 < 1.0 / n && b >= 0.0 && x == n * (b - u0)
    ensures 0.0 < x + 1.0
  {
    var q := 1.0 / n;
    var d := q + (b - u0);
    ProductPositive(n, d);
    assert n * q == 1.0;
    assert n * d == n * q + x;
  }

  lemma ScaleEnd(u0: real, n: real, b: real, x: real)
    requires n > 0.0 && u0 >= 0.0 && b <= 1.0 && x == n * (b - u0)
    ensures x <= n
  {
    var d := 1.0 - (b - u0);
    ProductNonnegative(n, d);
    assert n * d == n - x;
  }

  /** The index from which on no ancestor is below `j`, searched downwards from `hi`. */
  lemma {:induction false} Switch(w: Vec, u0: real, anc: seq<nat>, j: nat, hi: nat) returns (k: nat)
    requires Simplex(w) && StartOk(u0, |w|) && IsAncestry(w, u0, anc) && hi <= |anc|
    requires forall i :: hi <= i < |anc| ==> anc[i] >= j
    ensures k <= |anc| && forall i :: 0 <= i < |anc| ==> (anc[i] < j <==> i < k)
    decreases hi
  {
    if hi == 0 {
      k := 0;
    } else if anc[hi - 1] >= j {
      k := Switch(w, u0, anc, j, hi - 1);
    } else {
      k := hi;
      forall i | 0 <= i < hi ensures anc[i] < j { AncestryOrdered(w, u0, anc, i, hi - 1); }
    }
  }

  /** `k` is less than 1 away from n * x. */
  predicate IsFairShare(k: real, n: real, x: real) {
    n * x - 1.0 < k < n * x + 1.0
  }

  lemma CeilingDifference(k: real, k': real, n: real, b: real, x: real, u0: real)
    requires IsCeiling(k, n, b, u0) && IsCeiling(k', n, b + x, u0)
    ensures IsFairShare(k' - k, n, x)
  {
    assert n * (b + x - u0) == n * (b - u0) + n * x;
  }

  /** Every particle gets its fair share, give or take less than one copy. */
  lemma OffspringCount(w: Vec, u0: real, anc: seq<nat>, j: nat)
    requires Simplex(w) && StartOk(u0, |w|) && IsAncestry(w, u0, anc) && j < |w|
    ensures IsFairShare(Count(anc, j) as real, |w| as real, w[j])
  {
    BelowBound(w, u0, anc, j);
    BelowBound(w, u0, anc, j + 1);
    BeforeStep(w, j);
    CountSplit(anc, j);
    CeilingDifference(CountBelow(anc, j) as real, CountBelow(anc, j + 1) as real, |w| as real, Before(w, j), w[j], u0);
  }

  /** Sum of the offspring counts of the particles before `m`. */
  function OffspringBefore(anc: seq<nat>, m: nat): nat {
    if m == 0 then 0 else OffspringBefore(anc, m - 1) + Count(anc, m - 1)
  }

  lemma {:induction false} OffspringIsBelow(anc: seq<nat>, m: nat)
    ensures OffspringBefore(anc, m) == CountBelow(anc, m)
  {
    if m == 0 {
      CountIsSwitch(anc, 0, 0);
    } else {
      OffspringIsBelow(anc, m - 1);
      CountSplit(anc, m - 1);
    }
  }

  /** The offspring counts add up to the number of particles. */
  lemma OffspringTotal(w: Vec, u0: real, anc: seq<nat>)
    requires Simplex(w) && IsAncestry(w, u0, anc)
    ensures OffspringBefore(anc, |w|) == |w|
  {
    OffspringIsBelow(anc, |w|);
    assert forall i :: 0 <= i < |anc| ==> Owns(w, anc[i], Point(u0, |w|, i));
    CountIsSwitch(anc, |w|, |w|);
  }

  // ----- effective sample size -----

  function Uniform(n: nat): (w: Vec)
    requires n > 0
    ensures |w| == n
  {
    seq(n, _ => 1.0 / n as real)
  }

  function SquareSum(w: Vec): real {
    Dot(w, w)
  }

  lemma {:induction false} TotalIsDot(w: Vec)
    ensures Total(w) == Dot(Ones(|w|), w)
  {
    if w != [] {
      assert Ones(|w|)[..|w| - 1] == Ones(|w| - 1);
      TotalIsDot(w[..|w| - 1]);
    }
  }

  lemma {:induction false} SquaresAtMostTotal(w: Vec)
    requires forall j :: 0 <= j < |w| ==> 0.0 <= w[j] <= 1.0
    ensures SquareSum(w) <= Total(w)
  {
    if w != [] {
      var m := |w| - 1;
      SquaresAtMostTotal(w[..m]);
      ProductNonnegative(w[m], 1.0 - w[m]);
      assert w[m] * (1.0 - w[m]) == w[m] - w[m] * w[m];
    }
  }

  lemma {:induction false} SquareSumZero(w: Vec)
    ensures SquareSum(w) >= 0.0
    ensures SquareSum(w) == 0.0 <==> w == Zeros(|w|)
  {
    if w != [] {
      var m := |w| - 1;
      SquareSumZero(w[..m]);
      SquareSign(w[m], w[m] * w[m]);
      assert w == w[..m] + [w[m]] && Zeros(|w|) == Zeros(m) + [0.0];
    }
  }

  /** Sum of squares == 1/n + squared distance from the uniform weights. */
  lemma SquareSumFromUniform(w: Vec)
    requires Simplex(w)
    ensures var e := Axpy(w, 1.0 / |w| as real, Ones(|w|));
            SquareSum(w) == 1.0 / |w| as real + SquareSum(e)
  {
    var n, a := |w| as real, 1.0 / |w| as real;
    TotalIsDot(w);
    assert n * a == 1.0;
    CenteredDot(w, w, a, a, n, 1.0, 1.0, Dot(w, w));
  }

  function EffectiveSampleSize(w: Vec): real
    requires SquareSum(w) != 0.0
  {
    1.0 / SquareSum(w)
  }

  lemma ReciprocalRange(s: real, n: real)
    requires n > 0.0 && 1.0 / n <= s <= 1.0
    ensures s > 0.0 && 1.0 <= 1.0 / s <= n && (1.0 / s == n <==> s == 1.0 / n)
  {
    assert n * (1.0 / n) == 1.0 && 1.0 / n > 0.0;
    assert s * (1.0 / s) == 1.0;
    assert n * s >= 1.0;
    assert n * s * (1.0 / s) == n;
  }

  /** Between 1 and n, and n exactly for uniform weights. */
  lemma SampleSizeRange(w: Vec)
    requires Simplex(w)
    ensures SquareSum(w) > 0.0 && 1.0 <= EffectiveSampleSize(w) <= |w| as real
    ensures EffectiveSampleSize(w) == |w| as real <==> w == Uniform(|w|)
  {
    var n, e := |w| as real, Axpy(w, 1.0 / |w| as real, Ones(|w|));
    SquareSumFromUniform(w);
    SquareSumZero(e);
    forall j | 0 <= j < |w| ensures w[j] <= 1.0 {
      BeforeStep(w, j);
      BeforeRange(w, j);
      BeforeRange(w, j + 1);
    }
    SquaresAtMostTotal(w);
    ReciprocalRange(SquareSum(w), n);
    assert forall j :: 0 <= j < |w| ==> e[j] == w[j] - 1.0 / n;
    if e == Zeros(|w|) { assert forall j :: 0 <= j < |w| ==> e[j] == 0.0; }
    assert e == Zeros(|w|) <==> w == Uniform(|w|);
  }

  lemma {:induction false} UniformTotal(n: nat, m: nat)
    requires n > 0 && m <= n
    ensures Total(Uniform(n)[..m]) == m as real / n as real
  {
    if m > 0 {
      UniformTotal(n, m - 1);
      assert Uniform(n)[..m][..m - 1] == Uniform(n)[..m - 1];
      assert m as real / n as real == (m - 1) as real / n as real + 1.0 / n as real;
    }
  }

  lemma UniformIsSimplex(n: nat)
    requires n > 0
    ensures Simplex(Uniform(n))
  {
    UniformTotal(n, n);
    assert Uniform(n)[..n] == Uniform(n);
    assert n as real / n as real == 1.0;
  }

  function Identity(n: nat): seq<nat> {
    seq(n, i requires 0 <= i < n => i)
  }

  /** Resampling uniform weights copies every particle once, in order. */
  lemma UniformResamplingIsIdentity(n: nat, u0: real, anc: seq<nat>)
    requires n > 0 && StartOk(u0, n) && IsAncestry(Uniform(n), u0, anc)
    ensures anc == Identity(n)
  {
    hide Uniform, Owns, Point, Simplex, Total;
    UniformIsSimplex(n);
    forall i | 0 <= i < n ensures Owns(Uniform(n), i, Point(u0, n, i)) {
      UniformOwner(n, u0, i, n as real, i as real, 1.0 / n as real, i as real / n as real);
    }
    AncestryUnique(Uniform(n), u0, anc, Identity(n));
  }

  lemma UniformOwner(n: nat, u0: real, i: nat, c: real, x: real, step: real, before: real)
    requires i < n && StartOk(u0, n) && c == n as real && x == i as real && step == 1.0 / c && before == x / c
    ensures Owns(Uniform(n), i, Point(u0, n, i))
  {
    UniformTotal(n, i);
    UniformTotal(n, i + 1);
    NextQuotient(x, c, before, step);
    assert (i + 1) as real == x + 1.0;
  }

  lemma NextQuotient(x: real, c: real, before: real, step: real)
    requires c > 0.0 && before == x / c && step == 1.0 / c
    ensures (x + 1.0) / c == before + step
  {
  }

  /** `s` is more than 1 over `limit`. */
  predicate MoreThanOneOver(s: real, limit: real) {
    1.0 < limit * s
  }

  lemma DueExactly(w: Vec, limit: real)
    requires Dot(w, w) > 0.0
    ensures EffectiveSampleSize(w) < limit <==> MoreThanOneOver(Dot(w, w), limit)
  {
    ReciprocalBelow(EffectiveSampleSize(w), Dot(w, w), limit);
  }

  lemma ReciprocalBelow(r: real, s: real, limit: real)
    requires s > 0.0 && r == 1.0 / s
    ensures r < limit <==> MoreThanOneOver(s, limit)
  {
    RatioAtLeast(1.0, s, limit);
  }

  // ----- the filter object -----

  datatype Particle = Particle(state: Vec, weight: real)

  class BootstrapParticleFilter {
    const n: nat
    const essThreshold: real  // fraction of n
    var particles: seq<Particle>
    var weights: Vec

    ghost predicate Valid()
      reads this
    {
      |particles| == |weights| == n && Simplex(weights)
    }

    constructor (particles: seq<Particle>, essThreshold: real)
      requires particles != []
      ensures Valid() && this.particles == particles && weights == Uniform(|particles|)
      ensures this.n == |particles| && this.essThreshold == essThreshold
    {
      this.n, this.essThreshold, this.particles := |particles|, essThreshold, particles;
      weights := Uniform(|particles|);
      UniformIsSimplex(|particles|);
    }

    /** Copies of the owners of the sampling points, each with weight 1/n. */
    method SystematicResampling(u0: real) returns (drawn: seq<Particle>, ghost anc: seq<nat>)
      requires Valid() && StartOk(u0, n)
      modifies `weights
      ensures weights == Uniform(n) && IsAncestry(old(weights), u0, anc) && |drawn| == n
      ensures forall i :: 0 <= i < n ==> drawn[i] == Particle(particles[anc[i]].state, 1.0 / n as real)
    {
      var indices, _ := SystematicIndices(weights, u0);
      assert forall i :: 0 <= i < n ==> Owns(weights, indices[i], Point(u0, n, i));
      drawn := [];
      for i := 0 to n
        invariant |drawn| == i
        invariant forall k :: 0 <= k < i ==> drawn[k] == Particle(particles[indices[k]].state, 1.0 / n as real)
      {
        drawn := drawn + [Particle(particles[indices[i]].state, 1.0 / n as real)];
      }
      anc := indices;
      weights := Uniform(n);
    }

    /** Resamples exactly when the effective sample size is below the threshold. */
    method ResampleIfNeeded(u0: real) returns (done: bool)
      requires Valid() && StartOk(u0, n)
      modifies this
      ensures Valid()
      ensures SquareSum(old(weights)) > 0.0
      ensures done <==> EffectiveSampleSize(old(weights)) < essThreshold * n as real
      ensures done <==> MoreThanOneOver(Dot(old(weights), old(weights)), essThreshold * n as real)
      ensures !done ==> weights == old(weights) && particles == old(particles)
      ensures done ==> weights == Uniform(n) && exists anc: seq<nat> ::
        IsAncestry(old(weights), u0, anc) && |particles| == n &&
        forall i :: 0 <= i < n ==> anc[i] < n && particles[i] == Particle(old(particles)[anc[i]].state, 1.0 / n as real)
    {
      SampleSizeRange(weights);
      var ess := EffectiveSampleSize(weights);
      DueExactly(weights, essThreshold * n as real);
      done := ess < essThreshold * n as real;
      if done {
        ghost var anc;
        ghost var w0 := weights;
        particles, anc := SystematicResampling(u0);
        UniformIsSimplex(n);
        assert forall i :: 0 <= i < n ==> Owns(w0, anc[i], Point(u0, n, i));
      }
    }
  }

  /** After a resampling the next check is idle exactly when the threshold fraction is at most 1. */
  lemma ResampleOnce(n: nat, threshold: real)
    requires n > 0
    ensures SquareSum(Uniform(n)) > 0.0
    ensures EffectiveSampleSize(Uniform(n)) < threshold * n as real <==> threshold > 1.0
  {
    UniformIsSimplex(n);
    SampleSizeRange(Uniform(n));
    var r := n as real;
    assert r * (threshold - 1.0) > 0.0 <==> threshold > 1.0 by {
      if threshold > 1.0 {
        assert r * (threshold - 1.0) > 0.0;
      } else {
        assert r * (1.0 - threshold) >= 0.0;
      }
    }
    assert r * (threshold - 1.0) == threshold * r - r;
  }
}
