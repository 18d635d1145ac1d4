/** Directed multigraphs with real edge weights, and walks through them.
    A walk is a sequence of edges; it is built by appending its last edge. */
module Walks {

  datatype Edge = Edge(src: nat, dst: nat, weight: real)

  /** `p` is a walk of graph `g` from vertex `a` to vertex `b`. */
  ghost predicate Walk(g: seq<Edge>, a: nat, p: seq<Edge>, b: nat) {
    if p == [] then a == b
    else
      var e := p[|p| - 1];
      e in g && e.dst == b && Walk(g, a, p[..|p| - 1], e.src)
  }

  function Weight(p: seq<Edge>): real {
    if p == [] then 0.0 else Weight(p[..|p| - 1]) + p[|p| - 1].weight
  }

  /** The vertex reached after the first `i` edges. */
  function VertexAt(a: nat, p: seq<Edge>, i: nat): nat
    requires i <= |p|
  {
    if i == 0 then a else p[i - 1].dst
  }

  /** Every vertex of the graph is below `n`. */
  ghost predicate Bounded(g: seq<Edge>, n: nat) {
    forall e :: e in g ==> e.src < n && e.dst < n
  }

  /** Some closed walk through `v` weighs less than `bound`. */
  ghost predicate ClosedBelow(g: seq<Edge>, v: nat, bound: real) {
    exists p: seq<Edge> :: p != [] && Walk(g, v, p, v) && Weight(p) < bound
  }

  ghost predicate SomeClosedBelow(g: seq<Edge>, bound: real) {
    exists v :: ClosedBelow(g, v, bound)
  }

  lemma SomeClosedBelowRises(g: seq<Edge>, lo: real, hi: real)
    requires lo <= hi && SomeClosedBelow(g, lo)
    ensures SomeClosedBelow(g, hi)
  {
    var v :| ClosedBelow(g, v, lo);
    assert ClosedBelow(g, v, hi);
  }

  lemma {:induction false} WeightConcat(p: seq<Edge>, q: seq<Edge>)
    ensures Weight(p + q) == Weight(p) + Weight(q)
  {
    if q == [] {
      assert p + q == p;
    } else {
      assert (p + q)[..|p + q| - 1] == p + q[..|q| - 1];
      WeightConcat(p, q[..|q| - 1]);
    }
  }

  lemma {:induction false} WalkConcat(g: seq<Edge>, a: nat, p: seq<Edge>, b: nat, q: seq<Edge>, c: nat)
    requires Walk(g, a, p, b) && Walk(g, b, q, c)
    ensures Walk(g, a, p + q, c)
  {
    if q == [] {
      assert p + q == p;
    } else {
      assert (p + q)[..|p + q| - 1] == p + q[..|q| - 1];
      WalkConcat(g, a, p, b, q[..|q| - 1], q[|q| - 1].src);
    }
  }

  /** A walk cut after `i` edges: both parts are walks, and their weights add up. */
  lemma {:induction false} WalkSplit(g: seq<Edge>, a: nat, p: seq<Edge>, b: nat, i: nat)
    requires Walk(g, a, p, b) && i <= |p|
    ensures Walk(g, a, p[..i], VertexAt(a, p, i))
    ensures Walk(g, VertexAt(a, p, i), p[i..], b)
    ensures Weight(p) == Weight(p[..i]) + Weight(p[i..])
  {
    assert p == p[..i] + p[i..];
    WeightConcat(p[..i], p[i..]);
    if i == |p| {
      assert p[..i] == p && p[i..] == [];
      assert VertexAt(a, p, i) == b;
    } else {
      var m := |p| - 1;
      WalkSplit(g, a, p[..m], p[m].src, i);
      assert p[..m][..i] == p[..i];
      assert p[i..][..|p[i..]| - 1] == p[..m][i..];
      assert VertexAt(a, p[..m], i) == VertexAt(a, p, i);
    }
  }

  /** The piece of a walk between two visits of one vertex is a closed walk. */
  lemma ClosedPiece(g: seq<Edge>, a: nat, p: seq<Edge>, b: nat, i: nat, j: nat)
    requires Walk(g, a, p, b) && i < j <= |p|
    requires VertexAt(a, p, i) == VertexAt(a, p, j)
    ensures Walk(g, VertexAt(a, p, i), p[i..j], VertexAt(a, p, i))
    ensures Weight(p[i..j]) == Weight(p[..j]) - Weight(p[..i])
    ensures Walk(g, a, p[..i] + p[j..], b)
    ensures Weight(p[..i] + p[j..]) == Weight(p) - Weight(p[i..j])
  {
    WalkSplit(g, a, p, b, j);
    WalkSplit(g, a, p[..j], VertexAt(a, p, j), i);
    assert p[..j][..i] == p[..i] && p[..j][i..] == p[i..j];
    assert VertexAt(a, p[..j], i) == VertexAt(a, p, i);
    WalkConcat(g, a, p[..i], VertexAt(a, p, i), p[j..], b);
    WeightConcat(p[..i], p[j..]);
  }

  lemma {:induction false} WalkInBounds(g: seq<Edge>, n: nat, a: nat, p: seq<Edge>, b: nat, i: nat)
    requires Bounded(g, n) && a < n && Walk(g, a, p, b) && i <= |p|
    ensures VertexAt(a, p, i) < n
  {
    WalkSplit(g, a, p, b, i);
    if i > 0 {
      assert p[..i][i - 1] == p[i - 1];
    }
  }

  /** Pigeonhole: more values than there are numbers below `n` repeat one of them. */
  lemma {:induction false} Repeats(s: seq<nat>, n: nat) returns (i: nat, j: nat)
    requires |s| > n
    requires forall k :: 0 <= k < |s| ==> s[k] < n
    ensures i < j < |s| && s[i] == s[j]
    decreases n
  {
    if k :| 0 <= k < |s| - 1 && s[k] == s[|s| - 1] {
      return k, |s| - 1;
    }
    // the last value occurs once: rename n - 1 to it and drop it
    var last := s[|s| - 1];
    var t := seq(|s| - 1, k requires 0 <= k < |s| - 1 => if s[k] == n - 1 then last else s[k]);
    i, j := Repeats(t, n - 1);
  }

  lemma WalkRepeats(g: seq<Edge>, n: nat, a: nat, p: seq<Edge>, b: nat) returns (i: nat, j: nat)
    requires Bounded(g, n) && a < n && Walk(g, a, p, b) && |p| >= n
    ensures i < j <= |p| && VertexAt(a, p, i) == VertexAt(a, p, j)
  {
    forall k | 0 <= k <= |p| ensures VertexAt(a, p, k) < n {
      WalkInBounds(g, n, a, p, b, k);
    }
    i, j := Repeats(seq(|p| + 1, k requires 0 <= k <= |p| => VertexAt(a, p, k)), n);
  }

  /** Where a walk leads, one of fewer than `n` edges leads. */
  lemma {:induction false} ShortWalk(g: seq<Edge>, n: nat, a: nat, p: seq<Edge>, b: nat) returns (q: seq<Edge>)
    requires Bounded(g, n) && a < n && Walk(g, a, p, b)
    ensures Walk(g, a, q, b) && |q| < n
    decreases |p|
  {
    if |p| < n {
      return p;
    }
    var i, j := WalkRepeats(g, n, a, p, b);
    ClosedPiece(g, a, p, b, i, j);
    q := ShortWalk(g, n, a, p[..i] + p[j..], b);
  }

  /** Without negative closed walks a walk can be shortened to fewer than `n` edges at no cost. */
  lemma {:induction false} Shorten(g: seq<Edge>, n: nat, a: nat, p: seq<Edge>, b: nat) returns (q: seq<Edge>)
    requires Bounded(g, n) && a < n && Walk(g, a, p, b)
    requires !SomeClosedBelow(g, 0.0)
    ensures Walk(g, a, q, b) && |q| < n && Weight(q) <= Weight(p)
    decreases |p|
  {
    if |p| < n {
      return p;
    }
    var i, j := WalkRepeats(g, n, a, p, b);
    ClosedPiece(g, a, p, b, i, j);
    assert !ClosedBelow(g, VertexAt(a, p, i), 0.0);
    q := Shorten(g, n, a, p[..i] + p[j..], b);
  }
}
