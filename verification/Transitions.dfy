/** The learning module's state space: one path per flow, one flow rerouted at a time. */
module Transitions {
  import opened Sequences
  import opened Sets

  type Path = seq<int>

  /** The chosen path of every flow. */
  type State = map<int, Path>

  datatype Action = Change(flow: int, path: Path) | NoTrans

  datatype Transition = Transition(from: State, action: Action, to: State)

  ghost predicate Known(flows: seq<int>, paths: map<int, seq<Path>>) {
    NoDup(flows) && forall f | f in flows :: f in paths && NoDup(paths[f])
  }

  // ----- the states

  function Assign(f: int, v: Path, rest: seq<State>): seq<State> {
    if rest == [] then [] else [rest[0][f := v]] + Assign(f, v, rest[1..])
  }

  function Extend(f: int, vs: seq<Path>, rest: seq<State>): seq<State> {
    if vs == [] then [] else Assign(f, vs[0], rest) + Extend(f, vs[1..], rest)
  }

  /** `get_possible_states`: the Cartesian product, the last flow varying fastest. */
  function PossibleStates(flows: seq<int>, paths: map<int, seq<Path>>): seq<State>
    requires forall f | f in flows :: f in paths
  {
    if flows == [] then [map[]] else Extend(flows[0], paths[flows[0]], PossibleStates(flows[1..], paths))
  }

  function FlowSet(flows: seq<int>): set<int> {
    set f | f in flows
  }

  ghost predicate IsState(s: State, flows: seq<int>, paths: map<int, seq<Path>>) {
    && s.Keys == FlowSet(flows)
    && (forall f | f in flows :: f in paths && s[f] in paths[f])
  }

  ghost predicate Extends(s: State, f: int, v: Path, rest: seq<State>) {
    exists r | r in rest :: s == r[f := v]
  }

  ghost predicate Splits(s: State, f: int, vs: seq<Path>, rest: seq<State>) {
    exists v | v in vs :: Extends(s, f, v, rest)
  }

  lemma {:induction false} AssignExact(f: int, v: Path, rest: seq<State>, s: State)
    ensures s in Assign(f, v, rest) <==> Extends(s, f, v, rest)
  {
    if rest != [] {
      AssignExact(f, v, rest[1..], s);
      var a, tail := Assign(f, v, rest), Assign(f, v, rest[1..]);
      assert a == [rest[0][f := v]] + tail;
      assert s in a <==> s == rest[0][f := v] || s in tail;
      if Extends(s, f, v, rest[1..]) {
        var r :| r in rest[1..] && s == r[f := v];
        assert r in rest;
      }
      if s == rest[0][f := v] {
        assert rest[0] in rest;
      } else if Extends(s, f, v, rest) {
        var r :| r in rest && s == r[f := v];
        assert r in rest[1..];
      }
    }
  }

  lemma {:induction false} ExtendExact(f: int, vs: seq<Path>, rest: seq<State>, s: State)
    ensures s in Extend(f, vs, rest) <==> Splits(s, f, vs, rest)
  {
    if vs != [] {
      AssignExact(f, vs[0], rest, s);
      ExtendExact(f, vs[1..], rest, s);
      assert forall v :: v in vs <==> v == vs[0] || v in vs[1..];
    }
  }

  lemma StateSplits(flows: seq<int>, paths: map<int, seq<Path>>, s: State, rest: seq<State>)
    requires Known(flows, paths) && flows != [] && IsState(s, flows, paths)
    requires forall r: State :: r in rest <==> IsState(r, flows[1..], paths)
    ensures Splits(s, flows[0], paths[flows[0]], rest)
  {
    var f, tail := flows[0], flows[1..];
    var r := s - {f};
    assert FlowSet(tail) == FlowSet(flows) - {f};
    assert IsState(r, tail, paths);
    assert s == r[f := s[f]];
    assert Extends(s, f, s[f], rest);
  }

  lemma FlowSetSplit(flows: seq<int>)
    requires flows != []
    ensures FlowSet(flows) == FlowSet(flows[1..]) + {flows[0]}
  {
    assert forall f :: f in flows <==> f == flows[0] || f in flows[1..];
  }

  lemma SplitIsState(flows: seq<int>, paths: map<int, seq<Path>>, s: State, rest: seq<State>)
    requires Known(flows, paths) && flows != [] && Splits(s, flows[0], paths[flows[0]], rest)
    requires forall r: State :: r in rest <==> IsState(r, flows[1..], paths)
    ensures IsState(s, flows, paths)
  {
    var f := flows[0];
    var v :| v in paths[f] && Extends(s, f, v, rest);
    var r :| r in rest && s == r[f := v];
    assert IsState(r, flows[1..], paths);
    FlowSetSplit(flows);
  }

  /** The states are exactly the choices of one known path for every flow. */
  lemma {:induction false} StatesExact(flows: seq<int>, paths: map<int, seq<Path>>, s: State)
    requires Known(flows, paths)
    ensures s in PossibleStates(flows, paths) <==> IsState(s, flows, paths)
  {
    if flows == [] {
      assert FlowSet(flows) == {};
      assert s in [map[]] <==> s == map[];
    } else {
      var f, tail := flows[0], flows[1..];
      var rest := PossibleStates(tail, paths);
      ExtendExact(f, paths[f], rest, s);
      forall r: State ensures r in rest <==> IsState(r, tail, paths) { StatesExact(tail, paths, r); }
      if IsState(s, flows, paths) { StateSplits(flows, paths, s, rest); }
      if Splits(s, f, paths[f], rest) { SplitIsState(flows, paths, s, rest); }
    }
  }

  lemma {:induction false} AssignDistinct(f: int, v: Path, rest: seq<State>)
    requires NoDup(rest) && forall r | r in rest :: f !in r
    ensures NoDup(Assign(f, v, rest)) && |Assign(f, v, rest)| == |rest|
  {
    if rest != [] {
      AssignDistinct(f, v, rest[1..]);
      AssignExact(f, v, rest[1..], rest[0][f := v]);
      forall r | r in rest[1..] ensures rest[0][f := v] != r[f := v] {
        assert rest[0][f := v] - {f} == rest[0] && r[f := v] - {f} == r;
      }
    }
  }

  lemma {:induction false} ExtendDistinct(f: int, vs: seq<Path>, rest: seq<State>)
    requires NoDup(vs) && NoDup(rest) && forall r | r in rest :: f !in r
    ensures NoDup(Extend(f, vs, rest)) && |Extend(f, vs, rest)| == |vs| * |rest|
  {
    if vs != [] {
      AssignDistinct(f, vs[0], rest);
      ExtendDistinct(f, vs[1..], rest);
      var a, b := Assign(f, vs[0], rest), Extend(f, vs[1..], rest);
      forall s | s in a ensures s !in b {
        AssignExact(f, vs[0], rest, s);
        ExtendExact(f, vs[1..], rest, s);
        assert f in s && s[f] == vs[0];
      }
      NoDupConcat(a, b);
      assert |vs| * |rest| == |rest| + (|vs| - 1) * |rest|;
    }
  }

  lemma NoDupConcat<T>(a: seq<T>, b: seq<T>)
    requires NoDup(a) && NoDup(b) && forall x | x in a :: x !in b
    ensures NoDup(a + b)
  {
    var s := a + b;
    forall i, j | 0 <= i < j < |s| ensures s[i] != s[j] {
      if i < |a| <= j { assert a[i] in a && b[j - |a|] in b; }
    }
  }

  function Combinations(flows: seq<int>, paths: map<int, seq<Path>>): nat
    requires forall i :: 0 <= i < |flows| ==> flows[i] in paths
  {
    if flows == [] then 1 else |paths[flows[0]]| * Combinations(flows[1..], paths)
  }

  /** Every state is listed once. */
  lemma {:induction false} StatesDistinct(flows: seq<int>, paths: map<int, seq<Path>>)
    requires Known(flows, paths)
    ensures NoDup(PossibleStates(flows, paths))
    ensures |PossibleStates(flows, paths)| == Combinations(flows, paths)
  {
    if flows != [] {
      var f, tail := flows[0], flows[1..];
      StatesDistinct(tail, paths);
      forall r | r in PossibleStates(tail, paths) ensures f !in r { StatesExact(tail, paths, r); }
      ExtendDistinct(f, paths[f], PossibleStates(tail, paths));
    }
  }

  // ----- the actions

  /** The list without `x`. */
  function Others(list: seq<Path>, x: Path): seq<Path> {
    if list == [] then [] else (if list[0] == x then [] else [list[0]]) + Others(list[1..], x)
  }

  lemma {:induction false} OthersHas(list: seq<Path>, x: Path, y: Path)
    ensures y in Others(list, x) <==> y in list && y != x
  {
    if list != [] { OthersHas(list[1..], x, y); }
  }

  lemma {:induction false} OthersAbsent(list: seq<Path>, x: Path)
    requires x !in list
    ensures Others(list, x) == list
  {
    if list != [] { OthersAbsent(list[1..], x); }
  }

  lemma {:induction false} OthersRemoves(list: seq<Path>, x: Path, k: nat)
    requires NoDup(list) && k < |list| && list[k] == x
    ensures Others(list, x) == list[..k] + list[k + 1..]
  {
    if k == 0 {
      OthersAbsent(list[1..], x);
    } else {
      OthersRemoves(list[1..], x, k - 1);
    }
  }

  /** The loop removes from the list it walks: the element after a removed one is skipped, which is
      harmless when no path is listed twice. */
  method RemoveWhileIterating(list: seq<Path>, x: Path) returns (rest: seq<Path>)
    requires NoDup(list)
    ensures rest == Others(list, x)
  {
    rest := list;
    var cursor := 0;
    while cursor < |rest|
      invariant 0 <= cursor
      invariant if rest == list then x !in list[..if cursor <= |list| then cursor else |list|]
                else rest == Others(list, x) && x !in rest
      decreases |rest| - cursor
    {
      var path := rest[cursor];
      if path == x {
        var k := IndexOf(rest, path);
        IndexOfUnique(rest, cursor);
        OthersRemoves(list, x, k);
        OthersHas(list, x, x);
        rest := rest[..k] + rest[k + 1..];
      }
      cursor := cursor + 1;
    }
    if rest == list { OthersAbsent(list, x); }
  }

  function ChangesOf(f: int, others: seq<Path>): seq<Action> {
    if others == [] then [] else ChangesOf(f, others[..|others| - 1]) + [Change(f, others[|others| - 1])]
  }

  function FlowActions(s: State, flows: seq<int>, paths: map<int, seq<Path>>): seq<Action>
    requires forall f | f in flows :: f in paths && f in s
  {
    if flows == [] then []
    else
      var f := flows[|flows| - 1];
      FlowActions(s, flows[..|flows| - 1], paths) + ChangesOf(f, Others(paths[f], s[f]))
  }

  /** All actions in `s`, in the order in which they are built. */
  function ActionsOf(s: State, flows: seq<int>, paths: map<int, seq<Path>>): seq<Action>
    requires forall f | f in flows :: f in paths && f in s
  {
    FlowActions(s, flows, paths) + [NoTrans]
  }

  function Pair(s: State, actions: seq<Action>): (r: seq<(State, Action)>)
    ensures |r| == |actions| && forall i :: 0 <= i < |r| ==> r[i] == (s, actions[i])
  {
    if actions == [] then [] else [(s, actions[0])] + Pair(s, actions[1..])
  }

  ghost predicate Covers(s: State, flows: seq<int>, paths: map<int, seq<Path>>) {
    forall f | f in flows :: f in paths && f in s
  }

  ghost function AllActions(states: seq<State>, flows: seq<int>, paths: map<int, seq<Path>>): seq<(State, Action)>
    requires forall s | s in states :: Covers(s, flows, paths)
  {
    if states == [] then []
    else
      var n := |states| - 1;
      assert Covers(states[n], flows, paths);
      AllActions(states[..n], flows, paths) + Pair(states[n], ActionsOf(states[n], flows, paths))
  }

  /** The moves of one flow. */
  method AddChanges(before: seq<Action>, f: int, others: seq<Path>) returns (actions: seq<Action>)
    ensures actions == before + ChangesOf(f, others)
  {
    actions := before;
    var j := 0;
    while j < |others|
      invariant 0 <= j <= |others|
      invariant actions == before + ChangesOf(f, others[..j])
    {
      assert others[..j + 1][..j] == others[..j];
      actions := actions + [Change(f, others[j])];
      j := j + 1;
    }
    assert others[..j] == others;
  }

  lemma AllActionsNext(states: seq<State>, i: nat, flows: seq<int>, paths: map<int, seq<Path>>)
    requires i < |states| && forall s | s in states :: Covers(s, flows, paths)
    ensures Covers(states[i], flows, paths)
    ensures AllActions(states[..i + 1], flows, paths)
         == AllActions(states[..i], flows, paths) + Pair(states[i], ActionsOf(states[i], flows, paths))
  {
    assert states[..i + 1][..i] == states[..i];
  }

  method StateActions(s: State, flows: seq<int>, paths: map<int, seq<Path>>) returns (actions: seq<Action>)
    requires Known(flows, paths) && Covers(s, flows, paths)
    ensures actions == ActionsOf(s, flows, paths)
  {
    actions := [];
    var i := 0;
    while i < |flows|
      invariant 0 <= i <= |flows|
      invariant actions == FlowActions(s, flows[..i], paths)
    {
      var f := flows[i];
      var others := RemoveWhileIterating(paths[f], s[f]);
      actions := AddChanges(actions, f, others);
      assert flows[..i + 1][..i] == flows[..i];
      i := i + 1;
    }
    assert flows[..i] == flows;
    actions := actions + [NoTrans];
  }

  /** `get_actions_for_states`. */
  method GetActionsForStates(states: seq<State>, flows: seq<int>, paths: map<int, seq<Path>>)
    returns (actions: seq<(State, Action)>)
    requires Known(flows, paths) && forall s | s in states :: Covers(s, flows, paths)
    ensures actions == AllActions(states, flows, paths)
  {
    actions := [];
    var i := 0;
    while i < |states|
      invariant 0 <= i <= |states|
      invariant forall s | s in states[..i] :: Covers(s, flows, paths)
      invariant actions == AllActions(states[..i], flows, paths)
    {
      AllActionsNext(states, i, flows, paths);
      var own := StateActions(states[i], flows, paths);
      actions := actions + Pair(states[i], own);
      i := i + 1;
    }
    assert states[..i] == states;
  }

  /** An action of `s`: keep everything, or move one flow to another of its paths. */
  ghost predicate Allowed(s: State, a: Action, flows: seq<int>, paths: map<int, seq<Path>>) {
    a.NoTrans? || (a.flow in flows && a.flow in paths && a.flow in s && a.path in paths[a.flow] && a.path != s[a.flow])
  }

  lemma {:induction false} ChangesOfHas(f: int, others: seq<Path>, a: Action)
    ensures a in ChangesOf(f, others) <==> a.Change? && a.flow == f && a.path in others
  {
    if others != [] { ChangesOfHas(f, others[..|others| - 1], a); }
  }

  lemma {:induction false} FlowActionsHas(s: State, flows: seq<int>, paths: map<int, seq<Path>>, a: Action)
    requires Covers(s, flows, paths)
    ensures a in FlowActions(s, flows, paths) <==> a.Change? && Allowed(s, a, flows, paths)
  {
    if flows != [] {
      var n := |flows| - 1;
      var f := flows[n];
      FlowActionsHas(s, flows[..n], paths, a);
      ChangesOfHas(f, Others(paths[f], s[f]), a);
      if a.Change? { OthersHas(paths[f], s[f], a.path); }
      forall g ensures g in flows <==> g in flows[..n] || g == f {}
    }
  }

  lemma ActionsOfHas(s: State, flows: seq<int>, paths: map<int, seq<Path>>, a: Action)
    requires Covers(s, flows, paths)
    ensures a in ActionsOf(s, flows, paths) <==> Allowed(s, a, flows, paths)
  {
    FlowActionsHas(s, flows, paths, a);
  }

  /** The generated list holds exactly the allowed actions of every state. */
  lemma {:induction false} ActionsExact(states: seq<State>, flows: seq<int>, paths: map<int, seq<Path>>, s: State,
                                        a: Action)
    requires forall s | s in states :: Covers(s, flows, paths)
    ensures (s, a) in AllActions(states, flows, paths) <==> s in states && Allowed(s, a, flows, paths)
  {
    if states != [] {
      var n := |states| - 1;
      var last := states[n];
      assert Covers(last, flows, paths);
      ActionsExact(states[..n], flows, paths, s, a);
      ActionsOfHas(last, flows, paths, a);
      assert s in states <==> s in states[..n] || s == last;
    }
  }

  // ----- the transitions

  function Applied(s: State, a: Action): State {
    if a.Change? then s[a.flow := a.path] else s
  }

  /** `get_state_transitions`. */
  method GetStateTransitions(actions: seq<(State, Action)>) returns (ts: seq<Transition>)
    ensures |ts| == |actions|
    ensures forall i :: 0 <= i < |ts| ==>
              ts[i] == Transition(actions[i].0, actions[i].1, Applied(actions[i].0, actions[i].1))
  {
    ts := [];
    var i := 0;
    while i < |actions|
      invariant 0 <= i <= |actions| == |actions| && |ts| == i
      invariant forall j :: 0 <= j < i ==>
                  ts[j] == Transition(actions[j].0, actions[j].1, Applied(actions[j].0, actions[j].1))
    {
      var next := actions[i].0;
      if actions[i].1.Change? { next := next[actions[i].1.flow := actions[i].1.path]; }
      ts := ts + [Transition(actions[i].0, actions[i].1, next)];
      i := i + 1;
    }
  }

  ghost predicate Lists(ts: seq<Transition>, s: State, a: Action) {
    exists i :: 0 <= i < |ts| && ts[i].from == s && ts[i].action == a
  }

  /** `get_next_state`: the last transition that fits, or the empty dictionary. */
  method GetNextState(ts: seq<Transition>, s: State, a: Action) returns (next: State)
    requires forall i :: 0 <= i < |ts| ==> ts[i].to == Applied(ts[i].from, ts[i].action)
    ensures next == if a.NoTrans? || Lists(ts, s, a) then Applied(s, a) else map[]
  {
    if a.NoTrans? { return s; }
    next := map[];
    var i := 0;
    while i < |ts|
      invariant 0 <= i <= |ts|
      invariant next == if Lists(ts[..i], s, a) then Applied(s, a) else map[]
    {
      if ts[i].from == s && ts[i].action == a {
        next := ts[i].to;
        assert ts[..i + 1][i] == ts[i];
      }
      assert Lists(ts[..i + 1], s, a) <==> Lists(ts[..i], s, a) || (ts[i].from == s && ts[i].action == a) by {
        assert ts[..i + 1] == ts[..i] + [ts[i]];
        assert Lists(ts[..i], s, a) ==> Lists(ts[..i + 1], s, a) by {
          if Lists(ts[..i], s, a) {
            var k :| 0 <= k < i && ts[..i][k].from == s && ts[..i][k].action == a;
            assert ts[..i + 1][k] == ts[..i][k];
          }
        }
      }
      i := i + 1;
    }
    assert ts[..i] == ts;
  }

  // ----- distances

  /** Flows on which the states disagree. */
  ghost function Differ(s: State, t: State, flows: seq<int>): set<int>
    requires forall f | f in flows :: f in s && f in t
  {
    set f | f in flows && s[f] != t[f]
  }

  /** The system never leaves the product, and an action changes at most the flow it names. */
  lemma Closed(s: State, a: Action, flows: seq<int>, paths: map<int, seq<Path>>)
    requires IsState(s, flows, paths) && Allowed(s, a, flows, paths)
    ensures IsState(Applied(s, a), flows, paths)
    ensures Differ(s, Applied(s, a), flows) == if a.Change? then {a.flow} else {}
  {
  }

  ghost predicate Run(s: State, actions: seq<Action>, flows: seq<int>, paths: map<int, seq<Path>>) {
    actions == [] || (Allowed(s, actions[0], flows, paths) && Run(Applied(s, actions[0]), actions[1..], flows, paths))
  }

  function EndOf(s: State, actions: seq<Action>): State
    decreases |actions|
  {
    if actions == [] then s else EndOf(Applied(s, actions[0]), actions[1..])
  }

  lemma {:induction false} RunStays(s: State, actions: seq<Action>, flows: seq<int>, paths: map<int, seq<Path>>)
    requires IsState(s, flows, paths) && Run(s, actions, flows, paths)
    ensures IsState(EndOf(s, actions), flows, paths)
  {
    if actions != [] {
      Closed(s, actions[0], flows, paths);
      RunStays(Applied(s, actions[0]), actions[1..], flows, paths);
    }
  }

  lemma StatesEqual(s: State, t: State, flows: seq<int>, paths: map<int, seq<Path>>)
    requires IsState(s, flows, paths) && IsState(t, flows, paths) && Differ(s, t, flows) == {}
    ensures s == t
  {
    var d := Differ(s, t, flows);
    forall f | f in s ensures s[f] == t[f] {
      assert s[f] == t[f] || f in d;
    }
  }

  /** Any state reaches any other, with one action for every flow they differ in. */
  lemma {:induction false} Reaches(s: State, t: State, flows: seq<int>, paths: map<int, seq<Path>>)
    returns (actions: seq<Action>)
    requires IsState(s, flows, paths) && IsState(t, flows, paths)
    ensures Run(s, actions, flows, paths) && EndOf(s, actions) == t && |actions| == |Differ(s, t, flows)|
    decreases |Differ(s, t, flows)|
  {
    var d := Differ(s, t, flows);
    if d == {} {
      StatesEqual(s, t, flows, paths);
      actions := [];
    } else {
      var f := SomeElement(d);
      var a := Change(f, t[f]);
      Closed(s, a, flows, paths);
      assert Differ(Applied(s, a), t, flows) == d - {f};
      var rest := Reaches(Applied(s, a), t, flows, paths);
      actions := [a] + rest;
      assert actions[1..] == rest;
    }
  }

  /** No run is shorter. */
  lemma {:induction false} NoShorterRun(s: State, actions: seq<Action>, flows: seq<int>, paths: map<int, seq<Path>>)
    requires IsState(s, flows, paths) && Run(s, actions, flows, paths)
    ensures forall f | f in flows :: f in s && f in EndOf(s, actions)
    ensures |Differ(s, EndOf(s, actions), flows)| <= |actions|
  {
    RunStays(s, actions, flows, paths);
    var t := EndOf(s, actions);
    if actions == [] {
      assert Differ(s, t, flows) == {};
    } else {
      var next := Applied(s, actions[0]);
      Closed(s, actions[0], flows, paths);
      NoShorterRun(next, actions[1..], flows, paths);
      var d, d' := Differ(s, t, flows), Differ(next, t, flows);
      var step := Differ(s, next, flows);
      assert d <= d' + step;
      UnionBound(d, d', step);
    }
  }

  lemma UnionBound(a: set<int>, b: set<int>, c: set<int>)
    requires a <= b + c
    ensures |a| <= |b| + |c|
  {
    SubsetSize(a, b + c);
    assert |b + c| + |b * c| == |b| + |c|;
  }

  /** The state space, its actions and its transitions, as built for one set of flows: the transitions
      list exactly the allowed actions of the states, so every action of a run has its next state. */
  method BuildSpace(flows: seq<int>, paths: map<int, seq<Path>>)
    returns (states: seq<State>, actions: seq<(State, Action)>, ts: seq<Transition>)
    requires Known(flows, paths)
    ensures states == PossibleStates(flows, paths)
    ensures forall i :: 0 <= i < |ts| ==> ts[i].to == Applied(ts[i].from, ts[i].action)
    ensures forall s, a :: (s, a) in actions <==> IsState(s, flows, paths) && Allowed(s, a, flows, paths)
    ensures forall s, a :: Lists(ts, s, a) <==> (s, a) in actions
  {
    states := PossibleStates(flows, paths);
    forall s: State ensures s in states <==> IsState(s, flows, paths) { StatesExact(flows, paths, s); }
    forall s | s in states ensures Covers(s, flows, paths) { assert IsState(s, flows, paths); }
    actions := GetActionsForStates(states, flows, paths);
    forall s, a ensures (s, a) in actions <==> IsState(s, flows, paths) && Allowed(s, a, flows, paths) {
      ActionsExact(states, flows, paths, s, a);
    }
    ts := GetStateTransitions(actions);
    forall s, a ensures Lists(ts, s, a) <==> (s, a) in actions {}
  }
}
