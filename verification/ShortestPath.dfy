/** Path enumeration and ranking of the routing controller. */
module ShortestPath {
  import opened Sequences
  import opened Sets
  import opened FlowTables
  import opened LatencyGraph
  import Reals

  const MAX_PATHS: nat := 100

  // ----- the search frontier

  /** A simple walk from `src` that has not reached `dst` yet: what the search keeps on its stack. */
  ghost predicate Partial(g: Graph, src: Switch, dst: Switch, p: seq<Switch>) {
    IsWalk(g, p) && NoDup(p) && p[0] == src && dst !in p
  }

  /** The search never looks up a switch the latency map does not know. */
  ghost predicate Expandable(g: Graph, src: Switch, dst: Switch) {
    forall p :: Partial(g, src, dst, p) ==> p[|p| - 1] in g
  }

  /** No stack entry is a prefix of another one or of a path already found; everything on the
      stack is partial and everything found is a route, found once. */
  ghost predicate Sound(g: Graph, src: Switch, dst: Switch, paths: seq<seq<Switch>>, stack: seq<seq<Switch>>) {
    && (forall i :: 0 <= i < |stack| ==> Partial(g, src, dst, stack[i]))
    && (forall i, j :: 0 <= i < |stack| && 0 <= j < |stack| && i != j ==> !(stack[i] <= stack[j]))
    && (forall k :: 0 <= k < |paths| ==> IsRoute(g, src, dst, paths[k]))
    && (forall i, k :: 0 <= i < |stack| && 0 <= k < |paths| ==> !(stack[i] <= paths[k]))
    && NoDup(paths)
  }

  /** A route is accounted for if it was found or extends a stack entry. */
  ghost predicate Covered(paths: seq<seq<Switch>>, stack: seq<seq<Switch>>, q: seq<Switch>) {
    q in paths || exists i :: 0 <= i < |stack| && stack[i] <= q
  }

  /** `e` was popped and the neighbours in `todo` are still to be tried. */
  ghost predicate Expanding(g: Graph, src: Switch, dst: Switch, paths: seq<seq<Switch>>, stack: seq<seq<Switch>>,
                            e: seq<Switch>, todo: set<Switch>) {
    && Partial(g, src, dst, e) && (forall n :: n in todo ==> Edge(g, e[|e| - 1], n) && n !in e)
    && (forall i :: 0 <= i < |stack| ==> !(stack[i] <= e))
    && (forall i :: 0 <= i < |stack| && e <= stack[i] ==> |stack[i]| == |e| + 1 && stack[i][|e|] !in todo)
    && (forall k :: 0 <= k < |paths| && e <= paths[k] ==> paths[k] == e + [dst] && dst !in todo)
  }

  ghost predicate CoveredOrTodo(paths: seq<seq<Switch>>, stack: seq<seq<Switch>>, e: seq<Switch>, todo: set<Switch>,
                                q: seq<Switch>) {
    Covered(paths, stack, q) || (e < q && q[|e|] in todo)
  }

  ghost predicate AllCovered(g: Graph, src: Switch, dst: Switch, paths: seq<seq<Switch>>, stack: seq<seq<Switch>>) {
    forall q :: IsRoute(g, src, dst, q) ==> Covered(paths, stack, q)
  }

  ghost predicate AllCoveredOrTodo(g: Graph, src: Switch, dst: Switch, paths: seq<seq<Switch>>,
                                   stack: seq<seq<Switch>>, e: seq<Switch>, todo: set<Switch>) {
    forall q :: IsRoute(g, src, dst, q) ==> CoveredOrTodo(paths, stack, e, todo, q)
  }

  lemma {:induction false} FoundStep(g: Graph, src: Switch, dst: Switch, paths: seq<seq<Switch>>,
                                     stack: seq<seq<Switch>>, e: seq<Switch>, todo: set<Switch>)
    requires Sound(g, src, dst, paths, stack) && Expanding(g, src, dst, paths, stack, e, todo) && dst in todo
    ensures Sound(g, src, dst, paths + [e + [dst]], stack)
    ensures Expanding(g, src, dst, paths + [e + [dst]], stack, e, todo - {dst})
  {
    var f := e + [dst];
    forall i | 0 <= i < |f| - 1 ensures EdgeAt(g, f, i) {
      if i < |e| - 1 { assert EdgeAt(g, e, i); }
    }
    forall i | 0 <= i < |stack| ensures !(stack[i] <= f) {
      assert f[|e|] == dst;
    }
  }

  lemma {:induction false} PushStep(g: Graph, src: Switch, dst: Switch, paths: seq<seq<Switch>>,
                                    stack: seq<seq<Switch>>, e: seq<Switch>, todo: set<Switch>, n: Switch)
    requires Sound(g, src, dst, paths, stack) && Expanding(g, src, dst, paths, stack, e, todo) && n in todo && n != dst
    ensures Sound(g, src, dst, paths, stack + [e + [n]])
    ensures Expanding(g, src, dst, paths, stack + [e + [n]], e, todo - {n})
  {
    var f := e + [n];
    forall i | 0 <= i < |f| - 1 ensures EdgeAt(g, f, i) {
      if i < |e| - 1 { assert EdgeAt(g, e, i); }
    }
    forall i | 0 <= i < |stack| ensures !(stack[i] <= f) && !(f <= stack[i]) {
      assert f[|e|] == n;
    }
    forall k | 0 <= k < |paths| ensures !(f <= paths[k]) {
    }
  }

  lemma {:induction false} CoverStep(g: Graph, src: Switch, dst: Switch, paths: seq<seq<Switch>>,
                                     stack: seq<seq<Switch>>, e: seq<Switch>, todo: set<Switch>, n: Switch,
                                     q: seq<Switch>)
    requires CoveredOrTodo(paths, stack, e, todo, q) && IsRoute(g, src, dst, q)
    ensures n == dst ==> CoveredOrTodo(paths + [e + [dst]], stack, e, todo - {dst}, q)
    ensures n != dst ==> CoveredOrTodo(paths, stack + [e + [n]], e, todo - {n}, q)
  {
    if q in paths {
      assert q in paths + [e + [dst]];
    } else if i :| 0 <= i < |stack| && stack[i] <= q {
      assert (stack + [e + [n]])[i] <= q;
    } else if q[|e|] == n {
      if n == dst {
        assert q == e + [dst];
        assert (paths + [e + [dst]])[|paths|] == q;
      } else {
        assert (stack + [e + [n]])[|stack|] <= q;
      }
    }
  }

  // ----- termination

  /** Bound on the number of pops caused by an entry that leaves `r` switches unvisited. */
  ghost function Weight(r: nat): nat {
    if r == 0 then 1 else 1 + Times(r, Weight(r - 1))
  }

  ghost function Times(n: nat, w: nat): nat {
    if n == 0 then 0 else w + Times(n - 1, w)
  }

  ghost function Unvisited(v: set<Switch>, p: seq<Switch>): nat {
    |v - set x | x in p|
  }

  ghost function TotalWeight(v: set<Switch>, stack: seq<seq<Switch>>): nat {
    if stack == [] then 0
    else TotalWeight(v, stack[..|stack| - 1]) + Weight(Unvisited(v, stack[|stack| - 1]))
  }

  lemma {:induction false} UnvisitedStep(v: set<Switch>, e: seq<Switch>, n: Switch)
    requires n in v && n !in e
    ensures Unvisited(v, e) > 0 && Unvisited(v, e + [n]) == Unvisited(v, e) - 1
  {
    var s := v - set x | x in e;
    assert n in s;
    assert (v - set x | x in e + [n]) == s - {n};
  }

  lemma {:induction false} PopCovers(g: Graph, src: Switch, dst: Switch, paths: seq<seq<Switch>>,
                                     stack: seq<seq<Switch>>, q: seq<Switch>)
    requires stack != [] && Sound(g, src, dst, paths, stack) && Covered(paths, stack, q) && IsRoute(g, src, dst, q)
    ensures var e := stack[|stack| - 1];
      e[|e| - 1] in g ==>
      CoveredOrTodo(paths, stack[..|stack| - 1], e, g[e[|e| - 1]].Keys - (set x | x in e), q)
  {
    var e := stack[|stack| - 1];
    var base := stack[..|stack| - 1];
    if q !in paths {
      var i :| 0 <= i < |stack| && stack[i] <= q;
      if i < |base| {
        assert base[i] <= q;
      } else {
        assert e <= q && e != q;
        assert EdgeAt(g, q, |e| - 1);
      }
    }
  }

  lemma {:induction false} PopSound(g: Graph, src: Switch, dst: Switch, paths: seq<seq<Switch>>,
                                    stack: seq<seq<Switch>>)
    requires stack != [] && Sound(g, src, dst, paths, stack)
    ensures var base, e := stack[..|stack| - 1], stack[|stack| - 1];
      && |e| > 0 && Partial(g, src, dst, e) && Sound(g, src, dst, paths, base)
      && (e[|e| - 1] in g ==>
            Expanding(g, src, dst, paths, base, e, g[e[|e| - 1]].Keys - (set x | x in e)))
  {
  }

  ghost function Nodes(g: Graph): set<Switch> {
    g.Keys + set a, b | a in g && b in g[a] :: b
  }

  lemma {:induction false} FewNeighbours(g: Graph, e: seq<Switch>)
    requires |e| > 0 && e[|e| - 1] in g
    ensures var todo := g[e[|e| - 1]].Keys - set x | x in e;
      todo <= Nodes(g) && |todo| <= Unvisited(Nodes(g), e)
  {
    var todo := g[e[|e| - 1]].Keys - set x | x in e;
    assert forall b :: b in todo ==> Edge(g, e[|e| - 1], b);
    assert todo <= Nodes(g) - set x | x in e;
    SubsetSize(todo, Nodes(g) - set x | x in e);
  }

  /** Popping `e` turns its coverage into pending neighbours. */
  lemma {:induction false} PopCovered(g: Graph, src: Switch, dst: Switch, paths: seq<seq<Switch>>,
                                      stack: seq<seq<Switch>>)
    requires stack != [] && Sound(g, src, dst, paths, stack) && AllCovered(g, src, dst, paths, stack)
    ensures var base, e := stack[..|stack| - 1], stack[|stack| - 1];
      e[|e| - 1] in g ==>
        AllCoveredOrTodo(g, src, dst, paths, base, e, g[e[|e| - 1]].Keys - (set x | x in e))
  {
    var base, e := stack[..|stack| - 1], stack[|stack| - 1];
    if e[|e| - 1] in g {
      var todo := g[e[|e| - 1]].Keys - set x | x in e;
      forall q | IsRoute(g, src, dst, q) ensures CoveredOrTodo(paths, base, e, todo, q) {
        PopCovers(g, src, dst, paths, stack, q);
      }
    }
  }

  lemma {:induction false} SearchStart(g: Graph, src: Switch, dst: Switch)
    requires src != dst
    ensures Sound(g, src, dst, [], [[src]]) && AllCovered(g, src, dst, [], [[src]])
  {
    forall q | IsRoute(g, src, dst, q) ensures Covered([], [[src]], q) {
      assert [[src]][0] <= q;
    }
  }

  /** Handling one neighbour keeps every route accounted for. */
  lemma {:induction false} NeighbourStep(g: Graph, src: Switch, dst: Switch, paths: seq<seq<Switch>>,
                                         stack: seq<seq<Switch>>, e: seq<Switch>, todo: set<Switch>, n: Switch)
    requires n in todo && AllCoveredOrTodo(g, src, dst, paths, stack, e, todo)
    ensures n == dst ==> AllCoveredOrTodo(g, src, dst, paths + [e + [n]], stack, e, todo - {n})
    ensures n != dst ==> AllCoveredOrTodo(g, src, dst, paths, stack + [e + [n]], e, todo - {n})
  {
    forall q | IsRoute(g, src, dst, q)
      ensures n == dst ==> CoveredOrTodo(paths + [e + [n]], stack, e, todo - {n}, q)
      ensures n != dst ==> CoveredOrTodo(paths, stack + [e + [n]], e, todo - {n}, q)
    {
      CoverStep(g, src, dst, paths, stack, e, todo, n, q);
    }
  }

  /** The search's invariant while the neighbours in `todo` of the popped path `e` are pending. */
  ghost predicate Pending(g: Graph, src: Switch, dst: Switch, paths: seq<seq<Switch>>,
                          stack: seq<seq<Switch>>, e: seq<Switch>, todo: set<Switch>)
  {
    && Sound(g, src, dst, paths, stack) && Expanding(g, src, dst, paths, stack, e, todo)
    && AllCoveredOrTodo(g, src, dst, paths, stack, e, todo)
  }

  lemma PendingFound(g: Graph, src: Switch, dst: Switch, paths: seq<seq<Switch>>,
                     stack: seq<seq<Switch>>, e: seq<Switch>, todo: set<Switch>)
    requires Pending(g, src, dst, paths, stack, e, todo) && dst in todo
    ensures Pending(g, src, dst, paths + [e + [dst]], stack, e, todo - {dst})
  {
    NeighbourStep(g, src, dst, paths, stack, e, todo, dst);
    FoundStep(g, src, dst, paths, stack, e, todo);
  }

  lemma PendingPush(g: Graph, src: Switch, dst: Switch, paths: seq<seq<Switch>>,
                    stack: seq<seq<Switch>>, e: seq<Switch>, todo: set<Switch>, n: Switch)
    requires Pending(g, src, dst, paths, stack, e, todo) && n in todo && n != dst
    ensures Pending(g, src, dst, paths, stack + [e + [n]], e, todo - {n})
  {
    NeighbourStep(g, src, dst, paths, stack, e, todo, n);
    PushStep(g, src, dst, paths, stack, e, todo, n);
  }

  /** One neighbour `next` of the popped `path`: a route is complete, or a longer path is pushed. */
  method Extend(g: Graph, src: Switch, dst: Switch, found: seq<seq<Switch>>, rest: seq<seq<Switch>>,
                path: seq<Switch>, ghost todo: set<Switch>, next: Switch, ghost v: set<Switch>)
    returns (paths: seq<seq<Switch>>, stack: seq<seq<Switch>>)
    requires Pending(g, src, dst, found, rest, path, todo) && next in todo && todo <= v
    ensures Pending(g, src, dst, paths, stack, path, todo - {next})
    ensures Unvisited(v, path) > 0 && TotalWeight(v, stack) <= TotalWeight(v, rest) + Weight(Unvisited(v, path) - 1)
  {
    UnvisitedStep(v, path, next);
    if next == dst {
      PendingFound(g, src, dst, found, rest, path, todo);
      paths, stack := found + [path + [next]], rest;
    } else {
      PendingPush(g, src, dst, found, rest, path, todo, next);
      paths, stack := found, rest + [path + [next]];
    }
  }

  /** The body of the search loop: extend the popped `path` by every unvisited neighbour. */
  method Expand(g: Graph, src: Switch, dst: Switch, found: seq<seq<Switch>>, rest: seq<seq<Switch>>,
                path: seq<Switch>, neighbours: set<Switch>, ghost v: set<Switch>)
    returns (paths: seq<seq<Switch>>, stack: seq<seq<Switch>>)
    requires Pending(g, src, dst, found, rest, path, neighbours)
    requires neighbours <= v && |neighbours| <= Unvisited(v, path)
    ensures Sound(g, src, dst, paths, stack) && AllCovered(g, src, dst, paths, stack)
    ensures TotalWeight(v, stack) < TotalWeight(v, rest) + Weight(Unvisited(v, path))
  {
    paths, stack := found, rest;
    var todo := neighbours;
    ghost var w := if Unvisited(v, path) > 0 then Weight(Unvisited(v, path) - 1) else 0;
    TimesGrows(|neighbours|, Unvisited(v, path), w);
    while todo != {}
      invariant todo <= v
      invariant Pending(g, src, dst, paths, stack, path, todo)
      invariant TotalWeight(v, stack) + Times(|todo|, w) < TotalWeight(v, rest) + Weight(Unvisited(v, path))
      decreases |todo|
    {
      ghost var some := SomeElement(todo);
      var next :| next in todo;
      paths, stack := Extend(g, src, dst, paths, stack, path, todo, next, v);
      assert |todo - {next}| == |todo| - 1;
      todo := todo - {next};
    }
  }

  lemma {:induction false} TimesGrows(n: nat, r: nat, w: nat)
    requires n <= r
    ensures Times(n, w) <= Times(r, w)
  {
    if n < r { TimesGrows(n, r - 1, w); }
  }

  /** All routes from `src` to `dst`, by depth-first search with an explicit stack: exactly the
      simple paths, each once. */
  method GetPaths(g: Graph, src: Switch, dst: Switch) returns (paths: seq<seq<Switch>>)
    requires src != dst ==> Expandable(g, src, dst)
    ensures NoDup(paths)
    ensures forall p :: p in paths <==> IsRoute(g, src, dst, p)
  {
    if src == dst {
      forall p ensures IsRoute(g, src, dst, p) <==> p == [src] {}
      return [[src]];
    }
    paths := [];
    var stack := [[src]];
    SearchStart(g, src, dst);
    while stack != []
      invariant Sound(g, src, dst, paths, stack) && AllCovered(g, src, dst, paths, stack)
      decreases TotalWeight(Nodes(g), stack)
    {
      PopSound(g, src, dst, paths, stack);
      PopCovered(g, src, dst, paths, stack);
      var path := stack[|stack| - 1];
      stack := stack[..|stack| - 1];
      var node := path[|path| - 1];
      FewNeighbours(g, path);
      paths, stack := Expand(g, src, dst, paths, stack, path, g[node].Keys - (set x | x in path), Nodes(g));
    }
    forall q ensures q in paths <==> IsRoute(g, src, dst, q) {}
  }

  // ----- ranking

  method GetPathCost(g: Graph, path: seq<Switch>) returns (cost: real)
    requires IsWalk(g, path) && Symmetric(g)
    ensures cost == Cost(g, path) == Reals.Sum(Recorded(g, path))
  {
    CostIsRecorded(g, path);
    cost := 0.0;
    assert path[..1] == [path[0]];
    for i := 0 to |path| - 1
      invariant IsWalk(g, path[..i + 1]) && cost == Cost(g, path[..i + 1])
    {
      WalkSlices(g, path, i + 1);
      assert EdgeAt(g, path, i);
      assert path[..i + 2][..i + 1] == path[..i + 1];
      cost := cost + LinkCost(g, path[i], path[i + 1]);
    }
    assert path[..|path|] == path;
  }

  ghost predicate AllWalks(g: Graph, ps: seq<seq<Switch>>) {
    forall p :: p in ps ==> IsWalk(g, p)
  }

  ghost predicate Ranked(g: Graph, ps: seq<seq<Switch>>)
    requires Symmetric(g) && AllWalks(g, ps)
  {
    forall i, j :: 0 <= i < j < |ps| ==> Cost(g, ps[i]) <= Cost(g, ps[j])
  }

  /** Inserts behind every path that costs no more, so the ranking is stable. */
  function InsertByCost(g: Graph, ps: seq<seq<Switch>>, p: seq<Switch>): (r: seq<seq<Switch>>)
    requires Symmetric(g) && AllWalks(g, ps) && IsWalk(g, p)
    ensures multiset(r) == multiset(ps) + multiset{p}
  {
    if ps == [] then [p]
    else
      var init, last := ps[..|ps| - 1], ps[|ps| - 1];
      assert ps == init + [last];
      if Cost(g, last) <= Cost(g, p) then ps + [p] else InsertByCost(g, init, p) + [last]
  }

  lemma InsertHas(g: Graph, ps: seq<seq<Switch>>, p: seq<Switch>, q: seq<Switch>)
    requires Symmetric(g) && AllWalks(g, ps) && IsWalk(g, p)
    ensures q in InsertByCost(g, ps, p) <==> q in ps || q == p
  {
    assert q in InsertByCost(g, ps, p) <==> q in multiset(InsertByCost(g, ps, p));
    assert q in ps <==> q in multiset(ps);
  }

  ghost predicate NoDearer(g: Graph, ps: seq<seq<Switch>>, c: real)
    requires Symmetric(g) && AllWalks(g, ps)
  {
    forall i :: 0 <= i < |ps| ==> Cost(g, ps[i]) <= c
  }

  lemma RankedPush(g: Graph, ps: seq<seq<Switch>>, last: seq<Switch>)
    requires Symmetric(g) && AllWalks(g, ps) && IsWalk(g, last) && Ranked(g, ps) && NoDearer(g, ps, Cost(g, last))
    ensures AllWalks(g, ps + [last]) && Ranked(g, ps + [last])
  {
  }

  lemma InsertNoDearer(g: Graph, ps: seq<seq<Switch>>, p: seq<Switch>, c: real)
    requires Symmetric(g) && AllWalks(g, ps) && IsWalk(g, p) && NoDearer(g, ps, c) && Cost(g, p) <= c
    ensures AllWalks(g, InsertByCost(g, ps, p)) && NoDearer(g, InsertByCost(g, ps, p), c)
  {
    var r := InsertByCost(g, ps, p);
    forall q | q in r ensures IsWalk(g, q) && Cost(g, q) <= c { InsertHas(g, ps, p, q); }
  }

  lemma RankedParts(g: Graph, ps: seq<seq<Switch>>, c: real)
    requires Symmetric(g) && AllWalks(g, ps) && Ranked(g, ps) && ps != [] && Cost(g, ps[|ps| - 1]) <= c
    ensures NoDearer(g, ps, c)
    ensures AllWalks(g, ps[..|ps| - 1]) && Ranked(g, ps[..|ps| - 1])
  {
  }

  lemma {:induction false} InsertRanked(g: Graph, ps: seq<seq<Switch>>, p: seq<Switch>)
    requires Symmetric(g) && AllWalks(g, ps) && Ranked(g, ps) && IsWalk(g, p)
    ensures AllWalks(g, InsertByCost(g, ps, p)) && Ranked(g, InsertByCost(g, ps, p))
  {
    if ps != [] {
      var init, last := ps[..|ps| - 1], ps[|ps| - 1];
      if Cost(g, last) <= Cost(g, p) {
        RankedParts(g, ps, Cost(g, p));
        RankedPush(g, ps, p);
      } else {
        RankedParts(g, ps, Cost(g, last));
        InsertRanked(g, init, p);
        InsertNoDearer(g, init, p, Cost(g, last));
        RankedPush(g, InsertByCost(g, init, p), last);
      }
    }
  }

  /** `sorted(paths, key=cost)`. */
  function SortByCost(g: Graph, ps: seq<seq<Switch>>): (r: seq<seq<Switch>>)
    requires Symmetric(g) && AllWalks(g, ps)
    ensures multiset(r) == multiset(ps)
    ensures AllWalks(g, r) && Ranked(g, r)
  {
    if ps == [] then []
    else
      var init, last := ps[..|ps| - 1], ps[|ps| - 1];
      assert ps == init + [last];
      InsertRanked(g, SortByCost(g, init), last);
      InsertByCost(g, SortByCost(g, init), last)
  }

  lemma {:induction false} SameElements<T>(a: seq<T>, b: seq<T>, x: T)
    requires multiset(a) == multiset(b)
    ensures x in a <==> x in b
  {
    assert x in a <==> x in multiset(a);
  }

  lemma {:induction false} SymmetricExpandable(g: Graph, src: Switch, dst: Switch)
    requires Symmetric(g) && src in g
    ensures Expandable(g, src, dst)
  {
    forall p | Partial(g, src, dst, p) ensures p[|p| - 1] in g {
      if |p| > 1 { assert EdgeAt(g, p, |p| - 2); }
    }
  }

  /** The first of all routes in order of cost is no dearer than any walk. */
  lemma FirstIsBest(g: Graph, src: Switch, dst: Switch, sorted: seq<seq<Switch>>, w: seq<Switch>)
    requires Symmetric(g) && AllWalks(g, sorted) && Ranked(g, sorted) && IsWalkBetween(g, src, dst, w)
    requires forall p :: IsRoute(g, src, dst, p) ==> p in sorted
    ensures sorted != [] && (NonNegative(g) ==> Cost(g, sorted[0]) <= Cost(g, w))
  {
    EraseLoops(g, src, dst, w);
    var r :| IsRoute(g, src, dst, r) && (NonNegative(g) ==> Cost(g, r) <= Cost(g, w));
    var k :| 0 <= k < |sorted| && sorted[k] == r;
  }

  /** The cheapest routes first, at most MAX_PATHS of them, together with all routes. The first
      one is no dearer than any walk at all, simple or not. */
  method GetOptimalPaths(g: Graph, src: Switch, dst: Switch)
    returns (best: seq<seq<Switch>>, paths: seq<seq<Switch>>)
    requires Symmetric(g) && (src in g || src == dst)
    ensures NoDup(paths) && forall p :: p in paths <==> IsRoute(g, src, dst, p)
    ensures |best| == if |paths| < MAX_PATHS then |paths| else MAX_PATHS
    ensures (forall p :: p in best ==> p in paths) && AllWalks(g, paths) && AllWalks(g, best) && Ranked(g, best)
    ensures forall p, b :: p in paths && p !in best && b in best ==> Cost(g, b) <= Cost(g, p)
    ensures forall w :: IsWalkBetween(g, src, dst, w) ==>
              best != [] && (NonNegative(g) ==> Cost(g, best[0]) <= Cost(g, w))
  {
    if src != dst { SymmetricExpandable(g, src, dst); }
    paths := GetPaths(g, src, dst);
    var sorted := SortByCost(g, paths);
    assert |multiset(sorted)| == |multiset(paths)|;
    best := sorted[..if |paths| < MAX_PATHS then |paths| else MAX_PATHS];
    forall p ensures p in sorted <==> p in paths { SameElements(sorted, paths, p); }
    CutRanking(g, sorted, |best|);
    forall w | IsWalkBetween(g, src, dst, w)
      ensures best != [] && (NonNegative(g) ==> Cost(g, best[0]) <= Cost(g, w))
    {
      FirstIsBest(g, src, dst, sorted, w);
    }
  }

  lemma {:induction false} CutRanking(g: Graph, sorted: seq<seq<Switch>>, k: nat)
    requires Symmetric(g) && AllWalks(g, sorted) && Ranked(g, sorted) && k <= |sorted|
    ensures AllWalks(g, sorted[..k]) && Ranked(g, sorted[..k])
    ensures forall p, b :: p in sorted && p !in sorted[..k] && b in sorted[..k] ==> Cost(g, b) <= Cost(g, p)
  {
    assert sorted == sorted[..k] + sorted[k..];
    forall p, b | p in sorted[k..] && b in sorted[..k] ensures Cost(g, b) <= Cost(g, p) {
      var i :| 0 <= i < |sorted| - k && sorted[k..][i] == p;
      var j :| 0 <= j < k && sorted[..k][j] == b;
      assert sorted[k + i] == p && sorted[j] == b;
    }
  }

  lemma LeavesKnown(g: Graph, src: Switch, dst: Switch)
    requires exists w :: IsWalkBetween(g, src, dst, w)
    ensures src in g || src == dst
  {
    var w :| IsWalkBetween(g, src, dst, w);
    if |w| > 1 { assert EdgeAt(g, w, 0); }
  }

  /** The route a new flow is given; there is one exactly because some walk reaches `dst`. */
  method GetOptimalPath(g: Graph, src: Switch, dst: Switch)
    returns (best: seq<Switch>, paths: seq<seq<Switch>>)
    requires Symmetric(g) && exists w :: IsWalkBetween(g, src, dst, w)
    ensures NoDup(paths) && forall p :: p in paths <==> IsRoute(g, src, dst, p)
    ensures IsRoute(g, src, dst, best)
    ensures NonNegative(g) ==> forall w :: IsWalkBetween(g, src, dst, w) ==> Cost(g, best) <= Cost(g, w)
  {
    LeavesKnown(g, src, dst);
    var optimal;
    optimal, paths := GetOptimalPaths(g, src, dst);
    best := optimal[0];
  }
}
