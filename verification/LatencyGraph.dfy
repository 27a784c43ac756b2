/** The controller's latency map as a weighted graph: walks, simple routes, costs, and the
    erasure of loops from a walk. */
module LatencyGraph {
  import opened Sequences
  import opened FlowTables
  import Reals

  type Graph = map<Switch, map<Switch, real>>

  predicate Edge(g: Graph, a: Switch, b: Switch) {
    a in g && b in g[a]
  }

  predicate EdgeAt(g: Graph, p: seq<Switch>, i: nat)
    requires i + 1 < |p|
  {
    Edge(g, p[i], p[i + 1])
  }

  predicate IsWalk(g: Graph, p: seq<Switch>) {
    |p| > 0 && forall i :: 0 <= i < |p| - 1 ==> EdgeAt(g, p, i)
  }

  ghost predicate IsWalkBetween(g: Graph, src: Switch, dst: Switch, p: seq<Switch>) {
    IsWalk(g, p) && p[0] == src && p[|p| - 1] == dst
  }

  /** A simple path from `src` to `dst`. */
  ghost predicate IsRoute(g: Graph, src: Switch, dst: Switch, p: seq<Switch>) {
    IsWalkBetween(g, src, dst, p) && NoDup(p)
  }

  /** Links are known in both directions. */
  ghost predicate Symmetric(g: Graph) {
    forall a, b :: Edge(g, a, b) ==> Edge(g, b, a)
  }

  ghost predicate NonNegative(g: Graph) {
    forall a, b :: Edge(g, a, b) ==> g[a][b] >= 0.0
  }

  /** The code charges the hop from `a` to `b` with the latency recorded for `b` to `a`. */
  function LinkCost(g: Graph, a: Switch, b: Switch): real
    requires Edge(g, b, a)
  {
    g[b][a]
  }

  function Cost(g: Graph, p: seq<Switch>): real
    requires IsWalk(g, p) && Symmetric(g)
  {
    if |p| == 1 then 0.0
    else
      WalkSlices(g, p, |p| - 2);
      assert EdgeAt(g, p, |p| - 2);
      Cost(g, p[..|p| - 1]) + LinkCost(g, p[|p| - 2], p[|p| - 1])
  }

  /** The latencies recorded for the hops of a walk, each in the direction back. */
  ghost function Recorded(g: Graph, p: seq<Switch>): (r: seq<real>)
    requires IsWalk(g, p) && Symmetric(g)
    ensures |r| == |p| - 1
  {
    seq(|p| - 1, i requires 0 <= i < |p| - 1 => assert EdgeAt(g, p, i); g[p[i + 1]][p[i]])
  }

  /** A walk costs what is recorded for its hops. */
  lemma {:induction false} CostIsRecorded(g: Graph, p: seq<Switch>)
    requires IsWalk(g, p) && Symmetric(g)
    ensures Cost(g, p) == Reals.Sum(Recorded(g, p))
  {
    if |p| > 1 {
      var init := p[..|p| - 1];
      WalkSlices(g, p, |p| - 2);
      CostIsRecorded(g, init);
      assert Recorded(g, p)[..|p| - 2] == Recorded(g, init);
      assert EdgeAt(g, p, |p| - 2);
    }
  }

  /** One hop costs the latency recorded for the way back. */
  lemma OneHopCost(g: Graph, a: Switch, b: Switch)
    requires Symmetric(g) && Edge(g, a, b)
    ensures IsWalk(g, [a, b]) && Cost(g, [a, b]) == g[b][a]
  {
    assert EdgeAt(g, [a, b], 0);
    CostIsRecorded(g, [a, b]);
    assert Recorded(g, [a, b])[..0] == [];
  }

  /** The map with `d` more recorded for the way from `b` to `a`. */
  function Raised(g: Graph, a: Switch, b: Switch, d: real): Graph
    requires Edge(g, b, a)
  {
    g[b := g[b][a := g[b][a] + d]]
  }

  /** How often a walk hops from `a` to `b`. */
  function Hops(p: seq<Switch>, a: Switch, b: Switch): nat {
    if |p| <= 1 then 0
    else Hops(p[..|p| - 1], a, b) + if p[|p| - 2] == a && p[|p| - 1] == b then 1 else 0
  }

  lemma RaisedEdges(g: Graph, a: Switch, b: Switch, d: real, x: Switch, y: Switch)
    requires Edge(g, b, a)
    ensures Edge(Raised(g, a, b, d), x, y) <==> Edge(g, x, y)
    ensures Edge(g, x, y) ==> Raised(g, a, b, d)[x][y] == g[x][y] + if x == b && y == a then d else 0.0
  {
  }

  lemma RaisedWalk(g: Graph, a: Switch, b: Switch, d: real, p: seq<Switch>)
    requires Edge(g, b, a) && Symmetric(g) && IsWalk(g, p)
    ensures Symmetric(Raised(g, a, b, d)) && IsWalk(Raised(g, a, b, d), p)
  {
    var g' := Raised(g, a, b, d);
    forall x, y ensures Edge(g', x, y) <==> Edge(g, x, y) { RaisedEdges(g, a, b, d, x, y); }
    forall i | 0 <= i < |p| - 1 ensures EdgeAt(g', p, i) { assert EdgeAt(g, p, i); }
  }

  /** A slower link from `b` to `a` makes exactly the walks dearer that hop from `a` to `b`, once for
      each such hop. */
  lemma {:induction false} RaisedCost(g: Graph, a: Switch, b: Switch, d: real, p: seq<Switch>)
    requires Edge(g, b, a) && Symmetric(g) && IsWalk(g, p)
    ensures Symmetric(Raised(g, a, b, d)) && IsWalk(Raised(g, a, b, d), p)
    ensures Cost(Raised(g, a, b, d), p) == Cost(g, p) + d * (Hops(p, a, b) as real)
  {
    RaisedWalk(g, a, b, d, p);
    if |p| > 1 {
      var x, y := p[|p| - 2], p[|p| - 1];
      WalkSlices(g, p, |p| - 2);
      RaisedCost(g, a, b, d, p[..|p| - 1]);
      assert EdgeAt(g, p, |p| - 2);
      RaisedEdges(g, a, b, d, y, x);
      OneMoreHop(d, Hops(p[..|p| - 1], a, b));
    }
  }

  lemma OneMoreHop(d: real, n: nat)
    ensures d * ((n + 1) as real) == d * (n as real) + d
  {
    assert (n + 1) as real == n as real + 1.0;
  }

  lemma {:induction false} CostSplit(g: Graph, p: seq<Switch>, i: nat)
    requires IsWalk(g, p) && Symmetric(g) && i < |p|
    ensures IsWalk(g, p[..i + 1]) && IsWalk(g, p[i..])
    ensures Cost(g, p) == Cost(g, p[..i + 1]) + Cost(g, p[i..])
    decreases |p|
  {
    WalkSlices(g, p, i);
    if i == |p| - 1 {
      assert p[..i + 1] == p;
    } else {
      var init := p[..|p| - 1];
      WalkSlices(g, p, |p| - 2);
      CostSplit(g, init, i);
      assert init[..i + 1] == p[..i + 1];
      assert p[i..][..|p[i..]| - 1] == init[i..];
      assert EdgeAt(g, p, |p| - 2);
    }
  }

  lemma {:induction false} WalkSlices(g: Graph, p: seq<Switch>, i: nat)
    requires IsWalk(g, p) && i < |p|
    ensures IsWalk(g, p[..i + 1]) && IsWalk(g, p[i..])
  {
    forall k | 0 <= k < |p[i..]| - 1 ensures EdgeAt(g, p[i..], k) {
      assert EdgeAt(g, p, i + k);
    }
    var a := p[..i + 1];
    forall k | 0 <= k < |a| - 1 ensures EdgeAt(g, a, k) {
      assert EdgeAt(g, p, k);
    }
  }

  lemma {:induction false} CostNonNegative(g: Graph, p: seq<Switch>)
    requires IsWalk(g, p) && Symmetric(g) && NonNegative(g)
    ensures Cost(g, p) >= 0.0
  {
    if |p| > 1 {
      WalkSlices(g, p, |p| - 2);
      CostNonNegative(g, p[..|p| - 1]);
      assert EdgeAt(g, p, |p| - 2);
    }
  }

  /** Cutting the loop between two visits of the same switch leaves a cheaper walk. */
  lemma {:induction false} CutLoop(g: Graph, w: seq<Switch>, i: nat, j: nat) returns (v: seq<Switch>)
    requires IsWalk(g, w) && Symmetric(g) && i < j < |w| && w[i] == w[j]
    ensures IsWalkBetween(g, w[0], w[|w| - 1], v) && |v| < |w|
    ensures NonNegative(g) ==> Cost(g, v) <= Cost(g, w)
  {
    v := w[..i] + w[j..];
    CutLoopWalk(g, w, i, j);
    CostSplit(g, w, i);
    var tail := w[i..];
    CostSplit(g, tail, j - i);
    CostSplit(g, v, i);
    if NonNegative(g) { CostNonNegative(g, tail[..j - i + 1]); }
    assert tail[j - i..] == w[j..] == v[i..];
    assert v[..i + 1] == w[..i + 1];
  }

  lemma {:induction false} CutLoopWalk(g: Graph, w: seq<Switch>, i: nat, j: nat)
    requires IsWalk(g, w) && i < j < |w| && w[i] == w[j]
    ensures IsWalkBetween(g, w[0], w[|w| - 1], w[..i] + w[j..])
  {
    var v := w[..i] + w[j..];
    forall k | 0 <= k < |v| - 1 ensures EdgeAt(g, v, k) {
      assert EdgeAt(g, w, if k < i then k else k - i + j);
    }
  }

  /** Loop erasure: within every walk there is a simple route, and it costs no more when no
      latency is negative. */
  lemma {:induction false} EraseLoops(g: Graph, src: Switch, dst: Switch, w: seq<Switch>)
    requires IsWalkBetween(g, src, dst, w) && Symmetric(g)
    ensures exists r :: IsRoute(g, src, dst, r) && (NonNegative(g) ==> Cost(g, r) <= Cost(g, w))
    decreases |w|
  {
    if NoDup(w) {
      assert IsRoute(g, src, dst, w);
    } else {
      var i, j :| 0 <= i < j < |w| && w[i] == w[j];
      var v := CutLoop(g, w, i, j);
      EraseLoops(g, src, dst, v);
    }
  }
}
