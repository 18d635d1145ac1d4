/** The distance labels of backend/arbitrage/bellman_ford_solver.py and what every
    relaxation keeps. `walk[v]` records the edges whose relaxation produced the label
    of `v`; the program does not store it. */
module Relaxation {
  import opened Walks

  /** The slack a relaxation must beat. */
  const EPSILON: real := 0.0000000001

  datatype Distance = Infinite | Finite(value: real)

  datatype Labels = Labels(dist: seq<Distance>, pred: seq<int>, walk: seq<seq<Edge>>)

  ghost predicate Sized(t: Labels, n: nat) {
    |t.dist| == |t.pred| == |t.walk| == n
  }

  predicate Relaxable(dist: seq<Distance>, e: Edge)
    requires e.src < |dist| && e.dst < |dist|
  {
    && dist[e.src].Finite?
    && (dist[e.dst].Finite? ==> dist[e.dst].value > dist[e.src].value + e.weight + EPSILON)
  }

  function Start(n: nat, s: nat): Labels
    requires s < n
  {
    Labels(seq(n, _ => Infinite)[s := Finite(0.0)], seq(n, _ => -1), seq(n, _ => []))
  }

  function Relax(t: Labels, e: Edge): (r: Labels)
    requires |t.dist| == |t.pred| == |t.walk| && e.src < |t.dist| && e.dst < |t.dist|
    ensures Sized(r, |t.dist|)
  {
    if Relaxable(t.dist, e) then
      Labels(t.dist[e.dst := Finite(t.dist[e.src].value + e.weight)],
             t.pred[e.dst := e.src],
             t.walk[e.dst := t.walk[e.src] + [e]])
    else t
  }

  /** One pass, stopped after the first `m` edges. */
  function Pass(t: Labels, g: seq<Edge>, m: nat): (r: Labels)
    requires m <= |g| && |t.dist| == |t.pred| == |t.walk| && Bounded(g, |t.dist|)
    ensures Sized(r, |t.dist|)
  {
    if m == 0 then t else Relax(Pass(t, g, m - 1), g[m - 1])
  }

  function Passes(t: Labels, g: seq<Edge>, k: nat): (r: Labels)
    requires |t.dist| == |t.pred| == |t.walk| && Bounded(g, |t.dist|)
    ensures Sized(r, |t.dist|)
  {
    if k == 0 then t else Pass(Passes(t, g, k - 1), g, |g|)
  }

  // ----- the invariant of one label -----

  /** The label of `v` is the weight of its recorded walk from `s`, and `pred` its last step. */
  ghost predicate Justified(t: Labels, g: seq<Edge>, s: nat, v: nat)
    requires |t.dist| == |t.pred| == |t.walk| && v < |t.dist|
  {
    var p := t.walk[v];
    if t.dist[v].Infinite? then p == [] && t.pred[v] == -1 && v != s
    else
      && Walk(g, s, p, v)
      && Weight(p) == t.dist[v].value
      && t.pred[v] == (if p == [] then -1 else p[|p| - 1].src)
      && Covered(t, s, p)
      && Gainful(s, p)
  }

  /** No vertex on the walk has a label above the walk's weight there. */
  ghost predicate Covered(t: Labels, s: nat, p: seq<Edge>) {
    forall i :: 0 <= i <= |p| ==> CoveredAt(t, s, p, i)
  }

  ghost predicate CoveredAt(t: Labels, s: nat, p: seq<Edge>, i: nat)
    requires i <= |p|
  {
    var x := VertexAt(s, p, i);
    x < |t.dist| && t.dist[x].Finite? && t.dist[x].value <= Weight(p[..i])
  }

  /** The walk gains more than the slack every time it comes back to a vertex. */
  ghost predicate Gainful(s: nat, p: seq<Edge>) {
    forall i, j :: 0 <= i < j <= |p| && VertexAt(s, p, i) == VertexAt(s, p, j) ==>
      Weight(p[..j]) < Weight(p[..i]) - EPSILON
  }

  ghost predicate Inv(t: Labels, g: seq<Edge>, s: nat) {
    && |t.dist| == |t.pred| == |t.walk|
    && s < |t.dist|
    && Bounded(g, |t.dist|)
    && forall v :: 0 <= v < |t.dist| ==> Justified(t, g, s, v)
  }

  lemma StartInv(g: seq<Edge>, n: nat, s: nat)
    requires s < n && Bounded(g, n)
    ensures Inv(Start(n, s), g, s)
  {
    var t := Start(n, s);
    forall v | 0 <= v < n ensures Justified(t, g, s, v) {
      assert t.walk[v] == [];
    }
  }

  lemma RelaxCovered(t: Labels, e: Edge, s: nat, p: seq<Edge>)
    requires |t.dist| == |t.pred| == |t.walk| && e.src < |t.dist| && e.dst < |t.dist|
    requires Relaxable(t.dist, e) && Covered(t, s, p)
    ensures Covered(Relax(t, e), s, p)
  {
    forall i | 0 <= i <= |p| ensures CoveredAt(Relax(t, e), s, p, i) {
      assert CoveredAt(t, s, p, i);
    }
  }

  lemma PrefixSame(s: nat, p: seq<Edge>, e: Edge, i: nat)
    requires i <= |p|
    ensures (p + [e])[..i] == p[..i] && VertexAt(s, p + [e], i) == VertexAt(s, p, i)
  {
  }

  /** The relaxed edge appended to a covered, gainful walk keeps it gainful. */
  lemma GainfulAppend(t: Labels, s: nat, p: seq<Edge>, e: Edge)
    requires e.dst < |t.dist|
    requires Gainful(s, p) && Covered(t, s, p)
    requires t.dist[e.dst].Finite? ==> Weight(p) + e.weight < t.dist[e.dst].value - EPSILON
    ensures Gainful(s, p + [e])
  {
    forall i, j | 0 <= i < j <= |p| + 1 && VertexAt(s, p + [e], i) == VertexAt(s, p + [e], j)
      ensures Weight((p + [e])[..j]) < Weight((p + [e])[..i]) - EPSILON
    {
      GainfulPair(t, s, p, e, p + [e], i, j);
    }
  }

  lemma GainfulPair(t: Labels, s: nat, p: seq<Edge>, e: Edge, q: seq<Edge>, i: nat, j: nat)
    requires e.dst < |t.dist| && q == p + [e] && i < j <= |q| && VertexAt(s, q, i) == VertexAt(s, q, j)
    requires Gainful(s, p) && Covered(t, s, p)
    requires t.dist[e.dst].Finite? ==> Weight(p) + e.weight < t.dist[e.dst].value - EPSILON
    ensures Weight(q[..j]) < Weight(q[..i]) - EPSILON
  {
    PrefixSame(s, p, e, i);
    if j <= |p| { PrefixSame(s, p, e, j); } else { GainfulLast(t, s, p, e, i); }
  }

  lemma GainfulLast(t: Labels, s: nat, p: seq<Edge>, e: Edge, i: nat)
    requires e.dst < |t.dist| && i <= |p| && Covered(t, s, p) && VertexAt(s, p, i) == e.dst
    requires t.dist[e.dst].Finite? ==> Weight(p) + e.weight < t.dist[e.dst].value - EPSILON
    ensures var q := p + [e]; Weight(q[..|q|]) < Weight(p[..i]) - EPSILON
  {
    var q := p + [e];
    assert q[..|q|] == q && q[..|p|] == p;
    assert CoveredAt(t, s, p, i);
  }

  lemma RelaxTarget(t: Labels, g: seq<Edge>, s: nat, e: Edge)
    requires Inv(t, g, s) && e in g && Relaxable(t.dist, e)
    ensures Justified(Relax(t, e), g, s, e.dst)
  {
    var r := Relax(t, e);
    var p := t.walk[e.src];
    var q := p + [e];
    assert Justified(t, g, s, e.src) && q[..|p|] == p;
    GainfulAppend(t, s, p, e);
    RelaxCovered(t, e, s, p);
    forall i | 0 <= i <= |q| ensures CoveredAt(r, s, q, i) {
      if i <= |p| {
        PrefixSame(s, p, e, i);
        assert CoveredAt(r, s, p, i);
      } else {
        assert q[..i] == q;
      }
    }
  }

  lemma RelaxInv(t: Labels, g: seq<Edge>, s: nat, e: Edge)
    requires Inv(t, g, s) && e in g
    ensures Inv(Relax(t, e), g, s)
  {
    if Relaxable(t.dist, e) {
      var r := Relax(t, e);
      forall v | 0 <= v < |r.dist| ensures Justified(r, g, s, v) {
        assert Justified(t, g, s, v);
        if v == e.dst {
          RelaxTarget(t, g, s, e);
        } else if t.dist[v].Finite? {
          RelaxCovered(t, e, s, t.walk[v]);
        }
      }
    }
  }

  lemma {:induction false} PassInv(t: Labels, g: seq<Edge>, s: nat, m: nat)
    requires Inv(t, g, s) && m <= |g|
    ensures Inv(Pass(t, g, m), g, s)
  {
    if m > 0 {
      PassInv(t, g, s, m - 1);
      RelaxInv(Pass(t, g, m - 1), g, s, g[m - 1]);
    }
  }

  lemma {:induction false} PassesInv(t: Labels, g: seq<Edge>, s: nat, k: nat)
    requires Inv(t, g, s)
    ensures Inv(Passes(t, g, k), g, s)
  {
    if k > 0 {
      PassesInv(t, g, s, k - 1);
      PassInv(Passes(t, g, k - 1), g, s, |g|);
    }
  }

  // ----- how long the recorded walks are -----

  /** An edge still relaxable leaves a vertex whose recorded walk has at least `k` edges. */
  ghost predicate Deep(t: Labels, g: seq<Edge>, lo: nat, hi: nat, k: nat)
    requires hi <= |g| && |t.dist| == |t.pred| == |t.walk| && Bounded(g, |t.dist|)
  {
    forall i :: lo <= i < hi && Relaxable(t.dist, g[i]) ==> |t.walk[g[i].src]| >= k
  }

  lemma {:induction false} PassDepth(t: Labels, g: seq<Edge>, m: nat, k: nat)
    requires m <= |g| && |t.dist| == |t.pred| == |t.walk| && Bounded(g, |t.dist|)
    requires Deep(t, g, 0, |g|, k)
    ensures Deep(Pass(t, g, m), g, 0, m, k + 1) && Deep(Pass(t, g, m), g, m, |g|, k)
  {
    if m > 0 {
      PassDepth(t, g, m - 1, k);
      var u := Pass(t, g, m - 1);
      var r := Relax(u, g[m - 1]);
      if Relaxable(u.dist, g[m - 1]) {
        assert |u.walk[g[m - 1].src]| >= k;
        forall i | 0 <= i < |g| && Relaxable(r.dist, g[i])
          ensures |r.walk[g[i].src]| >= (if i < m then k + 1 else k)
        {
          if g[i].src != g[m - 1].dst {
            assert Relaxable(u.dist, g[i]);
          }
        }
      }
    }
  }

  lemma {:induction false} PassesDepth(t: Labels, g: seq<Edge>, k: nat)
    requires |t.dist| == |t.pred| == |t.walk| && Bounded(g, |t.dist|)
    ensures Deep(Passes(t, g, k), g, 0, |g|, k)
  {
    if k > 0 {
      PassesDepth(t, g, k - 1);
      PassDepth(Passes(t, g, k - 1), g, |g|, k - 1);
    }
  }

  // ----- what the detection pass proves -----

  /** A gainful walk with at least as many edges as there are vertices contains a closed
      piece that weighs less than -EPSILON. */
  lemma LongGainfulWalk(g: seq<Edge>, n: nat, s: nat, q: seq<Edge>, b: nat) returns (p: seq<Edge>, v: nat)
    requires s < n && Bounded(g, n) && Walk(g, s, q, b) && Gainful(s, q) && |q| >= n
    ensures Walk(g, s, p, v) && ClosedBelow(g, v, -EPSILON)
  {
    var i, j := WalkRepeats(g, n, s, q, b);
    ClosedPiece(g, s, q, b, i, j);
    WalkSplit(g, s, q, b, i);
    p, v := q[..i], VertexAt(s, q, i);
    assert q[i..j] != [];
  }

  /** Soundness for every edge order and every weighting: an edge still relaxable after n - 1
      passes leads, from the start vertex, to a closed walk that weighs less than -EPSILON. */
  lemma StillRelaxableMeansNegativeCycle(g: seq<Edge>, n: nat, s: nat, e: Edge) returns (p: seq<Edge>, v: nat)
    requires s < n && Bounded(g, n) && e in g
    requires Relaxable(Passes(Start(n, s), g, n - 1).dist, e)
    ensures Walk(g, s, p, v) && ClosedBelow(g, v, -EPSILON)
  {
    var t := Passes(Start(n, s), g, n - 1);
    StartInv(g, n, s);
    PassesInv(Start(n, s), g, s, n - 1);
    PassesDepth(Start(n, s), g, n - 1);
    RelaxTarget(t, g, s, e);
    var q := t.walk[e.src] + [e];
    assert Relax(t, e).walk[e.dst] == q;
    p, v := LongGainfulWalk(g, n, s, q, e.dst);
  }

  ghost predicate Quiet(t: Labels, g: seq<Edge>)
    requires Bounded(g, |t.dist|)
  {
    forall e :: e in g ==> !Relaxable(t.dist, e)
  }

  /** With no edge relaxable, a walk from a labelled vertex raises the label by at most its
      weight plus the slack of each of its edges. */
  lemma {:induction false} QuietWalk(t: Labels, g: seq<Edge>, a: nat, p: seq<Edge>, b: nat)
    requires Bounded(g, |t.dist|) && Quiet(t, g)
    requires a < |t.dist| && t.dist[a].Finite? && Walk(g, a, p, b)
    ensures b < |t.dist| && t.dist[b].Finite?
    ensures t.dist[b].value <= t.dist[a].value + Weight(p) + |p| as real * EPSILON
  {
    if p != [] {
      var e := p[|p| - 1];
      QuietWalk(t, g, a, p[..|p| - 1], e.src);
      assert !Relaxable(t.dist, e);
    }
  }

  /** Completeness: a closed walk of k edges within reach that weighs less than -k * EPSILON
      leaves a relaxable edge. */
  lemma NegativeCycleIsDetected(t: Labels, g: seq<Edge>, s: nat, p: seq<Edge>, v: nat, c: seq<Edge>)
    requires Inv(t, g, s)
    requires Walk(g, s, p, v) && Walk(g, v, c, v)
    requires Weight(c) < -(|c| as real) * EPSILON
    ensures !Quiet(t, g)
  {
    if Quiet(t, g) {
      assert Justified(t, g, s, s) && CoveredAt(t, s, t.walk[s], 0);
      QuietWalk(t, g, s, p, v);
      QuietWalk(t, g, v, c, v);
    }
  }

  lemma NoNegativeCycleMeansQuiet(g: seq<Edge>, n: nat, s: nat)
    requires s < n && Bounded(g, n)
    requires !SomeClosedBelow(g, -EPSILON)
    ensures Quiet(Passes(Start(n, s), g, n - 1), g)
  {
    var t := Passes(Start(n, s), g, n - 1);
    forall e | e in g ensures !Relaxable(t.dist, e) {
      if Relaxable(t.dist, e) {
        var _, v := StillRelaxableMeansNegativeCycle(g, n, s, e);
      }
    }
  }

  /** Without negative closed walks the pass loop ends with no relaxable edge, and every label
      is the weight of a walk and at most (n - 1) * EPSILON above the weight of any walk. */
  lemma LabelsNearShortest(g: seq<Edge>, n: nat, s: nat, p: seq<Edge>, b: nat)
    requires s < n && Bounded(g, n) && Walk(g, s, p, b)
    requires !SomeClosedBelow(g, 0.0)
    ensures var t := Passes(Start(n, s), g, n - 1);
            && Quiet(t, g)
            && b < n && t.dist[b].Finite?
            && Walk(g, s, t.walk[b], b) && t.dist[b].value == Weight(t.walk[b])
            && t.dist[b].value <= Weight(p) + (n - 1) as real * EPSILON
  {
    var t := Passes(Start(n, s), g, n - 1);
    StartInv(g, n, s);
    PassesInv(Start(n, s), g, s, n - 1);
    if SomeClosedBelow(g, -EPSILON) {
      SomeClosedBelowRises(g, -EPSILON, 0.0);
    }
    NoNegativeCycleMeansQuiet(g, n, s);
    QuietLabel(t, g, n, s, p, b);
  }

  lemma QuietLabel(t: Labels, g: seq<Edge>, n: nat, s: nat, p: seq<Edge>, b: nat)
    requires Inv(t, g, s) && Quiet(t, g) && |t.dist| == n && Walk(g, s, p, b) && !SomeClosedBelow(g, 0.0)
    ensures b < n && t.dist[b].Finite?
    ensures Walk(g, s, t.walk[b], b) && t.dist[b].value == Weight(t.walk[b])
    ensures t.dist[b].value <= Weight(p) + (n - 1) as real * EPSILON
  {
    var q := Shorten(g, n, s, p, b);
    assert Justified(t, g, s, s) && CoveredAt(t, s, t.walk[s], 0);
    QuietWalk(t, g, s, q, b);
    assert Justified(t, g, s, b);
    assert |q| as real * EPSILON <= (n - 1) as real * EPSILON;
  }

  // ----- which vertices get a label -----

  lemma {:induction false} PassKeepsLabel(t: Labels, g: seq<Edge>, m: nat, v: nat)
    requires m <= |g| && |t.dist| == |t.pred| == |t.walk| && Bounded(g, |t.dist|)
    requires v < |t.dist| && t.dist[v].Finite?
    ensures Pass(t, g, m).dist[v].Finite?
  {
    if m > 0 { PassKeepsLabel(t, g, m - 1, v); }
  }

  lemma {:induction false} PassLabelsTarget(t: Labels, g: seq<Edge>, m: nat, i: nat)
    requires i < m <= |g| && |t.dist| == |t.pred| == |t.walk| && Bounded(g, |t.dist|)
    requires t.dist[g[i].src].Finite?
    ensures Pass(t, g, m).dist[g[i].dst].Finite?
  {
    if i < m - 1 {
      PassLabelsTarget(t, g, m - 1, i);
    } else {
      PassKeepsLabel(t, g, i, g[i].src);
    }
  }

  /** A vertex that `k` edges can reach is labelled after `k` passes. */
  lemma {:induction false} ReachedIsLabelled(g: seq<Edge>, n: nat, s: nat, p: seq<Edge>, b: nat, k: nat)
    requires s < n && Bounded(g, n) && Walk(g, s, p, b) && |p| <= k
    ensures b < n && Passes(Start(n, s), g, k).dist[b].Finite?
    decreases k
  {
    if p == [] {
      if k > 0 {
        ReachedIsLabelled(g, n, s, p, b, k - 1);
        PassKeepsLabel(Passes(Start(n, s), g, k - 1), g, |g|, b);
      }
    } else {
      var e := p[|p| - 1];
      ReachedIsLabelled(g, n, s, p[..|p| - 1], e.src, k - 1);
      var i :| 0 <= i < |g| && g[i] == e;
      PassLabelsTarget(Passes(Start(n, s), g, k - 1), g, |g|, i);
    }
  }

  /** After all passes the target of a relaxable edge has a label. */
  lemma FlaggedIsLabelled(g: seq<Edge>, n: nat, s: nat, e: Edge)
    requires s < n && Bounded(g, n) && e in g
    requires Relaxable(Passes(Start(n, s), g, n - 1).dist, e)
    ensures Passes(Start(n, s), g, n - 1).dist[e.dst].Finite?
  {
    var t := Passes(Start(n, s), g, n - 1);
    StartInv(g, n, s);
    PassesInv(Start(n, s), g, s, n - 1);
    assert Justified(t, g, s, e.src);
    var p := t.walk[e.src] + [e];
    assert p[..|p| - 1] == t.walk[e.src];
    var q := ShortWalk(g, n, s, p, e.dst);
    ReachedIsLabelled(g, n, s, q, e.dst, n - 1);
  }

  // ----- early exit -----

  lemma {:induction false} QuietPass(t: Labels, g: seq<Edge>, m: nat)
    requires m <= |g| && |t.dist| == |t.pred| == |t.walk| && Bounded(g, |t.dist|) && Quiet(t, g)
    ensures Pass(t, g, m) == t
  {
    if m > 0 { QuietPass(t, g, m - 1); }
  }

  /** A pass that relaxes nothing makes all later passes idle. */
  lemma {:induction false} QuietPasses(t: Labels, g: seq<Edge>, k: nat, more: nat)
    requires |t.dist| == |t.pred| == |t.walk| && Bounded(g, |t.dist|)
    requires Quiet(Passes(t, g, k), g)
    ensures Passes(t, g, k + more) == Passes(t, g, k)
  {
    if more > 0 {
      QuietPasses(t, g, k, more - 1);
      QuietPass(Passes(t, g, k), g, |g|);
    }
  }

  lemma QuietRest(t: Labels, g: seq<Edge>, k: nat, last: nat)
    requires |t.dist| == |t.pred| == |t.walk| && Bounded(g, |t.dist|) && k <= last
    requires Quiet(Passes(t, g, k), g)
    ensures Passes(t, g, last) == Passes(t, g, k)
  {
    QuietPasses(t, g, k, last - k);
  }
}
