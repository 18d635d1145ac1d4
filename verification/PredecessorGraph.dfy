/** The predecessor graph that relaxations leave behind: every cycle in it is a closed walk
    of the market that weighs less than -EPSILON, whenever it appears. */
module PredecessorGraph {
  import opened Walks
  import opened Relaxation

  ghost predicate PredOk(pred: seq<int>) {
    forall v :: 0 <= v < |pred| ==> -1 <= pred[v] < |pred|
  }

  /** The vertex `k` predecessor steps behind `v`, or -1 once a step meets -1. */
  function Back(pred: seq<int>, v: int, k: nat): (u: int)
    requires PredOk(pred) && -1 <= v < |pred|
    ensures -1 <= u < |pred|
    decreases k
  {
    if k == 0 || v == -1 then v else Back(pred, pred[v], k - 1)
  }

  /** Weight of the relaxation that last set `pred[v]`. */
  function Via(t: Labels, v: nat): real
    requires v < |t.walk|
  {
    var p := t.walk[v];
    if p == [] then 0.0 else p[|p| - 1].weight
  }

  /** Total weight of the `k` relaxations met on the way back from `v`. */
  function BackWeight(t: Labels, v: int, k: nat): real
    requires |t.pred| == |t.walk| && PredOk(t.pred) && -1 <= v < |t.pred|
    decreases k
  {
    if k == 0 || v == -1 then 0.0 else Via(t, v) + BackWeight(t, t.pred[v], k - 1)
  }

  lemma {:induction false} BackAdds(pred: seq<int>, v: int, i: nat, j: nat)
    requires PredOk(pred) && -1 <= v < |pred|
    ensures Back(pred, v, i + j) == Back(pred, Back(pred, v, i), j)
    decreases i
  {
    if i > 0 && v != -1 { BackAdds(pred, pred[v], i - 1, j); }
  }

  lemma {:induction false} BackWeightAdds(t: Labels, v: int, i: nat, j: nat)
    requires |t.pred| == |t.walk| && PredOk(t.pred) && -1 <= v < |t.pred|
    ensures BackWeight(t, v, i + j) == BackWeight(t, v, i) + BackWeight(t, Back(t.pred, v, i), j)
    decreases i
  {
    if i > 0 && v != -1 { BackWeightAdds(t, t.pred[v], i - 1, j); }
  }

  /** A predecessor is labelled, and its label is low enough to explain the successor's. */
  lemma PredDrop(t: Labels, g: seq<Edge>, s: nat, v: nat)
    requires Inv(t, g, s) && v < |t.pred| && t.pred[v] != -1
    ensures 0 <= t.pred[v] < |t.pred| && t.dist[v].Finite? && t.dist[t.pred[v]].Finite?
    ensures t.dist[v].value >= t.dist[t.pred[v]].value + Via(t, v)
    ensures var p := t.walk[v]; p != [] && p[|p| - 1] in g && p[|p| - 1].src == t.pred[v] && p[|p| - 1].dst == v
  {
    assert Justified(t, g, s, v);
    var p := t.walk[v];
    var m := |p| - 1;
    assert CoveredAt(t, s, p, m);
    WalkSplit(g, s, p, v, m);
    WalkSplit(g, s, p[..m], p[m].src, m);
    assert p[..m][..m] == p[..m];
    assert VertexAt(s, p[..m], m) == VertexAt(s, p, m);
    LastVertex(g, s, p[..m], p[m].src);
  }

  lemma LastVertex(g: seq<Edge>, a: nat, p: seq<Edge>, b: nat)
    requires Walk(g, a, p, b)
    ensures VertexAt(a, p, |p|) == b
  {
  }

  /** Every predecessor cycle weighs less than -EPSILON. */
  ghost predicate CyclesPay(t: Labels)
    requires |t.pred| == |t.walk| && PredOk(t.pred)
  {
    forall v, k :: 0 <= v < |t.pred| && k >= 1 && Back(t.pred, v, k) == v ==> BackWeight(t, v, k) < -EPSILON
  }

  // After relaxing e, ways back to e.dst: from another vertex they weigh at most the old
  // label difference; from e.dst itself, less than -EPSILON.
  lemma {:induction false} WayBack(t: Labels, g: seq<Edge>, s: nat, e: Edge, y: nat, k: nat)
    requires Inv(t, g, s) && e in g && Relaxable(t.dist, e) && y < |t.dist| && k >= 1
    requires PredOk(Relax(t, e).pred) && Back(Relax(t, e).pred, y, k) == e.dst
    ensures t.dist[e.dst].Finite?
    ensures y != e.dst ==> t.dist[y].Finite?
    ensures y != e.dst ==> BackWeight(Relax(t, e), y, k) <= t.dist[y].value - t.dist[e.dst].value
    ensures y == e.dst ==> BackWeight(Relax(t, e), y, k) < -EPSILON
    decreases k
  {
    var r := Relax(t, e);
    var z := r.pred[y];
    if y == e.dst {
      assert z == e.src;
    } else {
      assert z == t.pred[y] && z != -1;
      PredDrop(t, g, s, y);
    }
    if k > 1 { WayBack(t, g, s, e, z, k - 1); }
  }

  lemma {:induction false} SameBack(t: Labels, e: Edge, v: int, k: nat)
    requires |t.dist| == |t.pred| == |t.walk| && e.src < |t.dist| && e.dst < |t.dist| && Relaxable(t.dist, e)
    requires PredOk(t.pred) && PredOk(Relax(t, e).pred) && -1 <= v < |t.pred|
    requires forall i: nat :: i < k ==> Back(Relax(t, e).pred, v, i) != e.dst
    ensures Back(t.pred, v, k) == Back(Relax(t, e).pred, v, k)
    ensures BackWeight(t, v, k) == BackWeight(Relax(t, e), v, k)
    decreases k
  {
    var r := Relax(t, e);
    if k > 0 && v != -1 {
      assert Back(r.pred, v, 0) == v;
      forall i: nat | i < k - 1 ensures Back(r.pred, r.pred[v], i) != e.dst {
        assert Back(r.pred, v, i + 1) == Back(r.pred, r.pred[v], i);
      }
      SameBack(t, e, r.pred[v], k - 1);
    }
  }

  /** A relaxation may close a predecessor cycle, but only one that pays. */
  lemma RelaxCyclesPay(t: Labels, g: seq<Edge>, s: nat, e: Edge)
    requires Inv(t, g, s) && e in g && PredOk(t.pred) && CyclesPay(t)
    ensures PredOk(Relax(t, e).pred) && CyclesPay(Relax(t, e))
  {
    var r := Relax(t, e);
    if Relaxable(t.dist, e) {
      forall v, k | 0 <= v < |r.pred| && k >= 1 && Back(r.pred, v, k) == v
        ensures BackWeight(r, v, k) < -EPSILON
      {
        if i: nat :| i < k && Back(r.pred, v, i) == e.dst {
          // turn the cycle so that it starts at e.dst
          BackAdds(r.pred, v, i, k - i);
          BackWeightAdds(r, v, i, k - i);
          BackAdds(r.pred, e.dst, k - i, i);
          BackWeightAdds(r, e.dst, k - i, i);
          WayBack(t, g, s, e, e.dst, k);
        } else {
          SameBack(t, e, v, k);
        }
      }
    }
  }

  lemma {:induction false} PassCyclesPay(t: Labels, g: seq<Edge>, s: nat, m: nat)
    requires Inv(t, g, s) && PredOk(t.pred) && CyclesPay(t) && m <= |g|
    ensures PredOk(Pass(t, g, m).pred) && CyclesPay(Pass(t, g, m))
  {
    if m > 0 {
      PassCyclesPay(t, g, s, m - 1);
      PassInv(t, g, s, m - 1);
      RelaxCyclesPay(Pass(t, g, m - 1), g, s, g[m - 1]);
    }
  }

  /** At every point of every run: after any number of passes and any part of a further one. */
  lemma {:induction false} RunCyclesPay(g: seq<Edge>, n: nat, s: nat, k: nat, m: nat)
    requires s < n && Bounded(g, n) && m <= |g|
    ensures var t := Pass(Passes(Start(n, s), g, k), g, m);
            Inv(t, g, s) && PredOk(t.pred) && CyclesPay(t)
  {
    StartInv(g, n, s);
    PassesInv(Start(n, s), g, s, k);
    if k > 0 {
      RunCyclesPay(g, n, s, k - 1, |g|);
    }
    PassCyclesPay(Passes(Start(n, s), g, k), g, s, m);
    PassInv(Passes(Start(n, s), g, k), g, s, m);
  }

  lemma AllPasses(g: seq<Edge>, n: nat, s: nat, t: Labels)
    requires s < n && Bounded(g, n) && t == Passes(Start(n, s), g, n - 1)
    ensures Inv(t, g, s) && PredOk(t.pred) && CyclesPay(t) && Sized(t, n)
  {
    RunCyclesPay(g, n, s, n - 1, 0);
    assert Pass(t, g, 0) == t;
  }

  // ----- walking back n steps -----

  lemma {:induction false} BackStuck(pred: seq<int>, v: int, i: nat, j: nat)
    requires PredOk(pred) && -1 <= v < |pred| && i <= j && Back(pred, v, i) == -1
    ensures Back(pred, v, j) == -1
  {
    BackAdds(pred, v, i, j - i);
  }

  /** `n` steps back without meeting -1 end on a predecessor cycle. */
  lemma LandsOnCycle(pred: seq<int>, v: nat) returns (d: nat)
    requires PredOk(pred) && v < |pred| && Back(pred, v, |pred|) != -1
    ensures d >= 1 && Back(pred, Back(pred, v, |pred|), d) == Back(pred, v, |pred|)
  {
    var n := |pred|;
    forall k | 0 <= k <= n ensures Back(pred, v, k) >= 0 {
      if Back(pred, v, k) == -1 { BackStuck(pred, v, k, n); }
    }
    var i, j := Repeats(seq(n + 1, k requires 0 <= k <= n => Back(pred, v, k) as nat), n);
    d := j - i;
    BackAdds(pred, v, i, d);
    BackAdds(pred, v, i, n - i);
    var x := Back(pred, v, i);
    BackAdds(pred, x, d, n - i);
    BackAdds(pred, x, n - i, d);
  }

  /** From a vertex on a cycle no number of steps meets -1. */
  lemma {:induction false} NeverStuck(pred: seq<int>, c: nat, d: nat, k: nat)
    requires PredOk(pred) && c < |pred| && d >= 1 && Back(pred, c, d) == c
    ensures Back(pred, c, k) != -1
    decreases k
  {
    if k >= d {
      BackAdds(pred, c, d, k - d);
      NeverStuck(pred, c, d, k - d);
    } else if Back(pred, c, k) == -1 {
      BackStuck(pred, c, k, d);
    }
  }

  /** A cycle listed in predecessor order, each vertex once. */
  ghost predicate IsPredCycle(pred: seq<int>, c: seq<nat>) {
    && c != []
    && (forall i :: 0 <= i < |c| ==> c[i] < |pred|)
    && (forall i, j :: 0 <= i < j < |c| ==> c[i] != c[j])
    && (forall i :: 0 <= i < |c| - 1 ==> pred[c[i]] == c[i + 1])
    && pred[c[|c| - 1]] == c[0]
  }

  lemma {:induction false} CycleIsBack(pred: seq<int>, c: seq<nat>, i: nat)
    requires PredOk(pred) && IsPredCycle(pred, c) && i < |c|
    ensures Back(pred, c[0], i) == c[i]
    ensures Back(pred, c[0], i + 1) == if i + 1 < |c| then c[i + 1] else c[0]
  {
    if i > 0 { CycleIsBack(pred, c, i - 1); }
    BackAdds(pred, c[0], i, 1);
    assert Back(pred, c[i], 1) == pred[c[i]];
  }

  /** Sum of the relaxation weights over the listed vertices. */
  function ViaSum(t: Labels, c: seq<nat>): real
    requires forall i :: 0 <= i < |c| ==> c[i] < |t.walk|
  {
    if c == [] then 0.0 else ViaSum(t, c[..|c| - 1]) + Via(t, c[|c| - 1])
  }

  lemma {:induction false} ViaSumIsBackWeight(t: Labels, c: seq<nat>, i: nat)
    requires |t.pred| == |t.walk| && PredOk(t.pred) && IsPredCycle(t.pred, c) && i <= |c|
    ensures ViaSum(t, c[..i]) == BackWeight(t, c[0], i)
  {
    if i > 0 {
      ViaSumIsBackWeight(t, c, i - 1);
      CycleIsBack(t.pred, c, i - 1);
      BackWeightAdds(t, c[0], i - 1, 1);
      assert c[..i][..i - 1] == c[..i - 1];
      assert BackWeight(t, c[i - 1], 1) == Via(t, c[i - 1]) + BackWeight(t, t.pred[c[i - 1]], 0);
    }
  }

  /** The relaxed edges of a predecessor cycle, in list order. */
  lemma CyclePays(t: Labels, c: seq<nat>)
    requires |t.pred| == |t.walk| && PredOk(t.pred) && CyclesPay(t) && IsPredCycle(t.pred, c)
    ensures ViaSum(t, c) < -EPSILON
  {
    ViaSumIsBackWeight(t, c, |c|);
    assert c[..|c|] == c;
    CycleIsBack(t.pred, c, |c| - 1);
  }
}
