/** The learning module's value table: lookups, bounds and contraction of its updates. */
module QTable {
  import opened Reals
  import opened Transitions

  /** `NegInf` marks an action that was never tried. */
  datatype Value = NegInf | Fin(v: real)

  datatype Slot = Slot(action: Action, visits: nat, value: Value, rewards: seq<real>)

  /** A dictionary from actions, in insertion order. */
  type Row = seq<Slot>

  type Table = map<State, Row>

  const MAX_PAST_REWARDS: nat := 5
  const SOFTMAX_INIT: real := -140.0

  ghost predicate SlotFor(row: Row, i: nat, a: Action) {
    i < |row| && row[i].action == a
  }

  ghost predicate Has(row: Row, a: Action) {
    exists i: nat :: SlotFor(row, i, a)
  }

  ghost predicate Distinct(row: Row) {
    forall i, j :: 0 <= i < j < |row| ==> row[i].action != row[j].action
  }

  /** Position of an action, or the length of the row. */
  function Find(row: Row, a: Action): (i: nat)
    ensures i <= |row| && (i < |row| ==> row[i].action == a)
    ensures forall j :: 0 <= j < i ==> row[j].action != a
    ensures Has(row, a) ==> i < |row|
  {
    if row == [] || row[0].action == a then 0 else
      assert forall j: nat :: SlotFor(row, j, a) ==> j > 0 && SlotFor(row[1..], j - 1, a);
      1 + Find(row[1..], a)
  }

  /** Python's assignment to a dictionary key. */
  function Put(row: Row, s: Slot): Row {
    var i := Find(row, s.action);
    if i < |row| then row[i := s] else row + [s]
  }

  lemma PutHas(row: Row, s: Slot, a: Action)
    requires Distinct(row)
    ensures Distinct(Put(row, s))
    ensures Has(Put(row, s), a) <==> Has(row, a) || a == s.action
  {
    var i, r := Find(row, s.action), Put(row, s);
    assert SlotFor(r, i, s.action);
    forall j: nat | SlotFor(row, j, a) ensures SlotFor(r, j, a) {}
    forall j: nat | SlotFor(r, j, a) ensures SlotFor(row, j, a) || a == s.action {}
  }

  ghost predicate Entry(q: Table, s: State, a: Action) {
    s in q && Has(q[s], a)
  }

  ghost predicate InitialTable(q: Table, init: Value) {
    forall s | s in q :: Distinct(q[s]) && q[s] != [] && Initial(q[s], init)
  }

  ghost predicate Initial(row: Row, init: Value) {
    forall i :: 0 <= i < |row| ==> row[i] == Slot(row[i].action, 0, init, [])
  }

  /** The table with one more entry. */
  function WithEntry(q: Table, s: State, slot: Slot): Table {
    q[s := Put(if s in q then q[s] else [], slot)]
  }

  lemma WithEntryInitial(q: Table, s: State, a: Action, init: Value)
    requires InitialTable(q, init)
    ensures InitialTable(WithEntry(q, s, Slot(a, 0, init, [])), init)
  {
    PutHas(if s in q then q[s] else [], Slot(a, 0, init, []), a);
  }

  lemma WithEntryHas(q: Table, s: State, slot: Slot, t: State, b: Action)
    requires s in q ==> Distinct(q[s])
    ensures Entry(WithEntry(q, s, slot), t, b) <==> Entry(q, t, b) || (t == s && b == slot.action)
  {
    var row := if s in q then q[s] else [];
    PutHas(row, slot, b);
    assert s !in q ==> !Has(row, b);
  }

  /** `create_new_q_table`: one entry for every generated action, and no other. */
  method CreateNewQTable(actions: seq<(State, Action)>, init: Value) returns (q: Table)
    ensures forall s, a :: Entry(q, s, a) <==> (s, a) in actions
    ensures InitialTable(q, init)
  {
    q := map[];
    var i := 0;
    while i < |actions|
      invariant 0 <= i <= |actions|
      invariant forall s, a :: Entry(q, s, a) <==> (s, a) in actions[..i]
      invariant InitialTable(q, init)
    {
      var (s, a) := actions[i];
      var slot := Slot(a, 0, init, []);
      forall t, b ensures Entry(WithEntry(q, s, slot), t, b) <==> (t, b) in actions[..i + 1] {
        WithEntryHas(q, s, slot, t, b);
        assert actions[..i + 1] == actions[..i] + [actions[i]];
      }
      WithEntryInitial(q, s, a, init);
      q := WithEntry(q, s, slot);
      i := i + 1;
    }
    assert actions[..i] == actions;
  }

  // ----- the best action

  predicate AtMost(x: Value, y: Value) {
    x.NegInf? || (y.Fin? && x.v <= y.v)
  }

  function MaxValue(row: Row): (m: Value)
    requires row != []
    ensures forall i :: 0 <= i < |row| ==> AtMost(row[i].value, m)
    ensures exists i :: 0 <= i < |row| && row[i].value == m
  {
    if |row| == 1 then row[0].value
    else
      var m := MaxValue(row[..|row| - 1]);
      if AtMost(row[|row| - 1].value, m) then m else row[|row| - 1].value
  }

  /** `key_max_action_value`: the first action of greatest value. */
  method KeyMaxActionValue(row: Row) returns (k: nat)
    requires row != []
    ensures k < |row| && row[k].value == MaxValue(row)
    ensures forall j :: 0 <= j < k ==> row[j].value != row[k].value
  {
    k := 0;
    var i := 1;
    while i < |row|
      invariant 1 <= i <= |row| && k < i
      invariant forall j :: 0 <= j < i ==> AtMost(row[j].value, row[k].value)
      invariant forall j :: 0 <= j < k ==> row[j].value != row[k].value
    {
      if !AtMost(row[i].value, row[k].value) { k := i; }
      i := i + 1;
    }
    var m := MaxValue(row);
    assert AtMost(row[k].value, m) && AtMost(m, row[k].value);
  }

  // ----- one learning step

  /** Action `action` was taken in `state`, led to `next` and was rewarded. */
  datatype Update = Update(state: State, action: Action, next: State, reward: real)

  /** All the lookups of the update succeed. */
  ghost predicate Ready(q: Table, u: Update) {
    Entry(q, u.state, u.action) && u.next in q && q[u.next] != []
  }

  /** An untried action counts as zero. */
  function Worth(x: Value): real {
    if x.Fin? then x.v else 0.0
  }

  function Blend(was: real, target: real, alpha: real): real {
    was + alpha * (target - was)
  }

  function Target(reward: real, gamma: real, best: real): real {
    reward + gamma * best
  }

  /** How much of a distance survives a learning step. */
  function Shrunk(d: real, alpha: real, gamma: real): real {
    d * (1.0 - alpha * (1.0 - gamma))
  }

  function SlotOf(q: Table, u: Update): nat
    requires u.state in q
  {
    Find(q[u.state], u.action)
  }

  /** The value of the updated action so far. */
  ghost function Was(q: Table, u: Update): real
    requires Ready(q, u)
  {
    Worth(q[u.state][SlotOf(q, u)].value)
  }

  /** The value of the best action of the next state. */
  ghost function Best(q: Table, u: Update): real
    requires Ready(q, u)
  {
    Worth(MaxValue(q[u.next]))
  }

  ghost function Learnt(q: Table, u: Update, alpha: real, gamma: real): real
    requires Ready(q, u)
  {
    Blend(Was(q, u), Target(u.reward, gamma, Best(q, u)), alpha)
  }

  /** The updated entry gets the value `v` and one more visit. */
  function WithValue(q: Table, u: Update, v: real): Table
    requires u.state in q && SlotOf(q, u) < |q[u.state]|
  {
    var row, k := q[u.state], SlotOf(q, u);
    q[u.state := row[k := row[k].(value := Fin(v), visits := row[k].visits + 1)]]
  }

  ghost function Updated(q: Table, u: Update, alpha: real, gamma: real): Table
    requires Ready(q, u)
  {
    WithValue(q, u, Learnt(q, u, alpha, gamma))
  }

  /** `update_q_ql`. */
  method UpdateQl(q: Table, u: Update, alpha: real, gamma: real) returns (r: Table)
    requires Ready(q, u)
    ensures r == Updated(q, u, alpha, gamma)
  {
    var best := KeyMaxActionValue(q[u.next]);
    var row, k := q[u.state], Find(q[u.state], u.action);
    var qAction := if row[k].value.NegInf? then 0.0 else row[k].value.v;
    var qNext := if q[u.next][best].value.NegInf? then 0.0 else q[u.next][best].value.v;
    var value := Blend(qAction, Target(u.reward, gamma, qNext), alpha);
    assert qAction == Was(q, u) && qNext == Best(q, u);
    r := q[u.state := row[k := row[k].(value := Fin(value), visits := row[k].visits + 1)]];
  }

  /** Same entries, whatever their contents. */
  ghost predicate SameRow(row: Row, row': Row) {
    |row| == |row'| && forall i :: 0 <= i < |row| ==> row[i].action == row'[i].action
  }

  ghost predicate SameShape(q: Table, p: Table) {
    q.Keys == p.Keys && forall s | s in q :: SameRow(q[s], p[s])
  }

  lemma {:induction false} FindSame(row: Row, row': Row, a: Action)
    requires SameRow(row, row')
    ensures Find(row, a) == Find(row', a)
    ensures Has(row, a) <==> Has(row', a)
  {
    forall k: nat ensures SlotFor(row, k, a) <==> SlotFor(row', k, a) {}
  }

  lemma ReadySame(q: Table, p: Table, u: Update)
    requires SameShape(q, p) && Ready(q, u)
    ensures Ready(p, u) && SlotOf(p, u) == SlotOf(q, u)
  {
    FindSame(q[u.state], p[u.state], u.action);
  }

  lemma WithValueShape(q: Table, p: Table, u: Update, v: real)
    requires SameShape(q, p) && u.state in p && SlotOf(p, u) < |p[u.state]|
    ensures SameShape(q, WithValue(p, u, v))
  {
    var p' := WithValue(p, u, v);
    forall s | s in q ensures SameRow(q[s], p'[s]) { assert SameRow(q[s], p[s]); }
  }

  // ----- what a step learns

  ghost function SlotAt(q: Table, s: State, a: Action): Slot
    requires Entry(q, s, a)
  {
    q[s][Find(q[s], a)]
  }

  lemma WithValueSlots(q: Table, u: Update, v: real, s: State, a: Action)
    requires Entry(q, u.state, u.action)
    ensures var r, slot := WithValue(q, u, v), SlotAt(q, u.state, u.action);
      && (Entry(r, s, a) <==> Entry(q, s, a))
      && (Entry(q, s, a) ==>
            SlotAt(r, s, a) == if s == u.state && a == u.action then slot.(value := Fin(v), visits := slot.visits + 1)
                               else SlotAt(q, s, a))
  {
    var row, k := q[u.state], SlotOf(q, u);
    if s == u.state { FindSame(row, row[k := row[k].(value := Fin(v), visits := row[k].visits + 1)], a); }
  }

  /** A step gives one entry a finite value and one more visit, and leaves all other entries alone. */
  lemma UpdatedEntries(q: Table, u: Update, alpha: real, gamma: real, s: State, a: Action)
    requires Ready(q, u)
    ensures var r := Updated(q, u, alpha, gamma);
      && (Entry(r, s, a) <==> Entry(q, s, a))
      && (Entry(q, s, a) ==>
            if s == u.state && a == u.action then
              && SlotAt(r, s, a).value == Fin(Learnt(q, u, alpha, gamma))
              && SlotAt(r, s, a).visits == SlotAt(q, s, a).visits + 1
            else SlotAt(r, s, a) == SlotAt(q, s, a))
  {
    WithValueSlots(q, u, Learnt(q, u, alpha, gamma), s, a);
  }

  lemma FirstBlend(reward: real, gamma: real, alpha: real)
    ensures Blend(0.0, Target(reward, gamma, 0.0), alpha) == alpha * reward
  {
  }

  ghost predicate Untried(row: Row) {
    forall i :: 0 <= i < |row| ==> row[i].value.NegInf?
  }

  /** Where nothing has been tried, neither here nor in the next state, only the reward counts. */
  lemma FirstValue(q: Table, u: Update, alpha: real, gamma: real)
    requires Ready(q, u) && Untried(q[u.state]) && Untried(q[u.next])
    ensures var r := Updated(q, u, alpha, gamma);
      Entry(r, u.state, u.action) && SlotAt(r, u.state, u.action).value == Fin(alpha * u.reward)
  {
    UpdatedEntries(q, u, alpha, gamma, u.state, u.action);
    FirstBlend(u.reward, gamma, alpha);
  }

  lemma RaisedBlend(was: real, reward: real, d: real, gamma: real, best: real, alpha: real)
    ensures Blend(was, Target(reward + d, gamma, best), alpha)
         == Blend(was, Target(reward, gamma, best), alpha) + alpha * d
  {
  }

  /** A reward that is higher by `d` makes the new value higher by `alpha * d`. */
  lemma RewardCounts(q: Table, u: Update, d: real, alpha: real, gamma: real)
    requires Ready(q, u) && Ready(q, u.(reward := u.reward + d))
    ensures var r, r' := Updated(q, u, alpha, gamma), Updated(q, u.(reward := u.reward + d), alpha, gamma);
      && Entry(r, u.state, u.action) && Entry(r', u.state, u.action)
      && var x, y := SlotAt(r, u.state, u.action).value, SlotAt(r', u.state, u.action).value;
      && x.Fin? && y.Fin? && y.v == x.v + alpha * d
  {
    UpdatedEntries(q, u, alpha, gamma, u.state, u.action);
    UpdatedEntries(q, u.(reward := u.reward + d), alpha, gamma, u.state, u.action);
    RaisedBlend(Was(q, u), u.reward, d, gamma, Best(q, u), alpha);
  }

  lemma RestingBlend(was: real, reward: real, gamma: real, best: real, alpha: real)
    ensures Blend(was, Target(reward, gamma, best), alpha) == was <==> alpha == 0.0 || reward == was - gamma * best
  {
    ZeroProduct(alpha, Target(reward, gamma, best) - was);
  }

  /** The value stays as it was exactly when nothing is learned or the reward is the old value minus the
      discounted best next value. */
  lemma UnchangedExactly(q: Table, u: Update, alpha: real, gamma: real)
    requires Ready(q, u)
    ensures var r := Updated(q, u, alpha, gamma);
      && Entry(r, u.state, u.action)
      && (SlotAt(r, u.state, u.action).value == Fin(Was(q, u)) <==>
            alpha == 0.0 || u.reward == Was(q, u) - gamma * Best(q, u))
  {
    UpdatedEntries(q, u, alpha, gamma, u.state, u.action);
    RestingBlend(Was(q, u), u.reward, gamma, Best(q, u), alpha);
  }

  lemma NearerBlend(was: real, limit: real, gamma: real, alpha: real)
    ensures Blend(was, Target(limit * (1.0 - gamma), gamma, was), alpha) - limit == Shrunk(was - limit, alpha, gamma)
  {
  }

  /** Where the best next value is the old value itself, the distance from the discounted sum of rewards
      shrinks by exactly the factor `1 - alpha * (1 - gamma)`. */
  lemma NearerToLimit(q: Table, u: Update, alpha: real, gamma: real, limit: real)
    requires Ready(q, u) && Best(q, u) == Was(q, u) && u.reward == limit * (1.0 - gamma)
    ensures var r := Updated(q, u, alpha, gamma);
      && Entry(r, u.state, u.action) && SlotAt(r, u.state, u.action).value.Fin?
      && SlotAt(r, u.state, u.action).value.v - limit == (Was(q, u) - limit) * (1.0 - alpha * (1.0 - gamma))
  {
    UpdatedEntries(q, u, alpha, gamma, u.state, u.action);
    NearerBlend(Was(q, u), limit, gamma, alpha);
  }

  // ----- values stay in range

  ghost predicate ValueIn(x: Value, bound: real) {
    x.Fin? ==> -bound <= x.v <= 0.0
  }

  ghost predicate RowIn(row: Row, bound: real) {
    forall i :: 0 <= i < |row| ==> ValueIn(row[i].value, bound)
  }

  ghost predicate InRange(q: Table, bound: real) {
    forall s | s in q :: RowIn(q[s], bound)
  }

  /** The smallest range that a learning step cannot leave. */
  function Bound(worst: real, gamma: real): real
    requires gamma < 1.0
  {
    var limit := worst / (1.0 - gamma);
    if limit > 140.0 then limit else 140.0
  }

  lemma BoundFits(worst: real, gamma: real)
    requires worst >= 0.0 && 0.0 <= gamma < 1.0
    ensures Bound(worst, gamma) >= 140.0 && worst <= Bound(worst, gamma) * (1.0 - gamma)
  {
    var limit := worst / (1.0 - gamma);
    Scale(limit, Bound(worst, gamma), 1.0 - gamma);
  }

  lemma BlendInRange(was: real, target: real, alpha: real, lo: real, hi: real)
    requires 0.0 <= alpha <= 1.0 && lo <= was <= hi && lo <= target <= hi
    ensures lo <= Blend(was, target, alpha) <= hi
  {
    NonNegative(alpha, target - lo);
    NonNegative(1.0 - alpha, was - lo);
    NonNegative(alpha, hi - target);
    NonNegative(1.0 - alpha, hi - was);
  }

  lemma WorthInRange(x: Value, bound: real)
    requires ValueIn(x, bound) && bound >= 0.0
    ensures -bound <= Worth(x) <= 0.0
  {
  }

  lemma ArgumentsInRange(q: Table, u: Update, bound: real)
    requires Ready(q, u) && InRange(q, bound) && bound >= 0.0
    ensures -bound <= Was(q, u) <= 0.0 && -bound <= Best(q, u) <= 0.0
  {
    assert RowIn(q[u.next], bound) && RowIn(q[u.state], bound);
    WorthInRange(MaxValue(q[u.next]), bound);
    WorthInRange(q[u.state][SlotOf(q, u)].value, bound);
  }

  lemma LearntInRange(q: Table, u: Update, alpha: real, gamma: real, worst: real, bound: real)
    requires Ready(q, u) && InRange(q, bound) && bound >= 0.0
    requires 0.0 <= alpha <= 1.0 && 0.0 <= gamma < 1.0 && -worst <= u.reward <= 0.0 && worst <= bound * (1.0 - gamma)
    ensures -bound <= Learnt(q, u, alpha, gamma) <= 0.0
  {
    ArgumentsInRange(q, u, bound);
    StepInRange(Was(q, u), Best(q, u), u.reward, alpha, gamma, worst, bound);
  }

  lemma StepInRange(was: real, best: real, reward: real, alpha: real, gamma: real, worst: real, bound: real)
    requires -bound <= was <= 0.0 && -bound <= best <= 0.0
    requires 0.0 <= alpha <= 1.0 && 0.0 <= gamma < 1.0 && -worst <= reward <= 0.0 && worst <= bound * (1.0 - gamma)
    ensures -bound <= Blend(was, Target(reward, gamma, best), alpha) <= 0.0
  {
    BlendInRange(was, Target(reward, gamma, best), alpha, -bound, 0.0);
  }

  lemma UpdateInRange(q: Table, u: Update, alpha: real, gamma: real, worst: real, bound: real)
    requires Ready(q, u) && InRange(q, bound) && bound >= 0.0
    requires 0.0 <= alpha <= 1.0 && 0.0 <= gamma < 1.0 && -worst <= u.reward <= 0.0 && worst <= bound * (1.0 - gamma)
    ensures InRange(Updated(q, u, alpha, gamma), bound)
  {
    LearntInRange(q, u, alpha, gamma, worst, bound);
  }

  ghost function Run(q: Table, us: seq<Update>, alpha: real, gamma: real): Table
    requires IsRun(q, us)
    ensures SameShape(q, Run(q, us, alpha, gamma))
  {
    if us == [] then q
    else
      var before := Run(q, us[..|us| - 1], alpha, gamma);
      ReadySame(q, before, us[|us| - 1]);
      WithValueShape(q, before, us[|us| - 1], Learnt(before, us[|us| - 1], alpha, gamma));
      Updated(before, us[|us| - 1], alpha, gamma)
  }

  /** Every update names entries of the table. */
  ghost predicate IsRun(q: Table, us: seq<Update>) {
    us == [] || (IsRun(q, us[..|us| - 1]) && Ready(q, us[|us| - 1]))
  }

  /** How often a run updates the entry. */
  function Named(us: seq<Update>, s: State, a: Action): nat {
    if us == [] then 0
    else
      var u := us[|us| - 1];
      Named(us[..|us| - 1], s, a) + if u.state == s && u.action == a then 1 else 0
  }

  /** Over every run an entry's visits count its updates, and an entry without updates stays as it was. */
  lemma {:induction false} VisitsCounted(q: Table, us: seq<Update>, alpha: real, gamma: real, s: State, a: Action)
    requires IsRun(q, us) && Entry(q, s, a)
    ensures var r := Run(q, us, alpha, gamma);
      && Entry(r, s, a) && SlotAt(r, s, a).visits == SlotAt(q, s, a).visits + Named(us, s, a)
      && (Named(us, s, a) == 0 ==> SlotAt(r, s, a) == SlotAt(q, s, a))
  {
    if us != [] {
      var rest, u := us[..|us| - 1], us[|us| - 1];
      VisitsCounted(q, rest, alpha, gamma, s, a);
      var before := Run(q, rest, alpha, gamma);
      ReadySame(q, before, u);
      UpdatedEntries(before, u, alpha, gamma, s, a);
    }
  }

  /** A value a new table starts with. */
  ghost predicate Starts(x: Value) {
    x.NegInf? || x == Fin(SOFTMAX_INIT)
  }

  ghost predicate NewTable(q: Table) {
    forall s | s in q :: forall i :: 0 <= i < |q[s]| ==> Starts(q[s][i].value)
  }

  lemma NewInRange(q: Table, bound: real)
    requires NewTable(q) && bound >= 140.0
    ensures InRange(q, bound)
  {
    forall s | s in q ensures RowIn(q[s], bound) {
      forall i | 0 <= i < |q[s]| ensures ValueIn(q[s][i].value, bound) { assert Starts(q[s][i].value); }
    }
  }

  ghost predicate RewardsIn(us: seq<Update>, worst: real) {
    forall i :: 0 <= i < |us| ==> -worst <= us[i].reward <= 0.0
  }

  lemma {:induction false} RunInRange(q: Table, us: seq<Update>, alpha: real, gamma: real, worst: real, bound: real)
    requires IsRun(q, us) && InRange(q, bound) && bound >= 0.0 && worst <= bound * (1.0 - gamma)
    requires 0.0 <= alpha <= 1.0 && 0.0 <= gamma < 1.0 && RewardsIn(us, worst)
    ensures InRange(Run(q, us, alpha, gamma), bound)
  {
    if us != [] {
      var rest, u := us[..|us| - 1], us[|us| - 1];
      RunInRange(q, rest, alpha, gamma, worst, bound);
      ReadySame(q, Run(q, rest, alpha, gamma), u);
      UpdateInRange(Run(q, rest, alpha, gamma), u, alpha, gamma, worst, bound);
    }
  }

  /** With rewards between `-worst` and 0, over every run on a new table, each value that is not
      infinite stays between 0 and the worse of the initial value -140 and the discounted sum of
      worst rewards. */
  lemma ValuesBounded(q: Table, us: seq<Update>, alpha: real, gamma: real, worst: real)
    requires NewTable(q) && IsRun(q, us) && RewardsIn(us, worst)
    requires 0.0 <= alpha <= 1.0 && 0.0 <= gamma < 1.0 && worst >= 0.0
    ensures InRange(Run(q, us, alpha, gamma), Bound(worst, gamma))
  {
    BoundFits(worst, gamma);
    NewInRange(q, Bound(worst, gamma));
    RunInRange(q, us, alpha, gamma, worst, Bound(worst, gamma));
  }

  // ----- updates are nonexpansive

  ghost predicate ValuesClose(x: Value, y: Value, d: real) {
    x.Fin? && y.Fin? && -d <= x.v - y.v <= d
  }

  ghost predicate RowsClose(row: Row, row': Row, d: real) {
    SameRow(row, row') && forall i :: 0 <= i < |row| ==> ValuesClose(row[i].value, row'[i].value, d)
  }

  /** All values finite, and nowhere further apart than `d`. */
  ghost predicate Close(q: Table, p: Table, d: real) {
    q.Keys == p.Keys && forall s | s in q :: RowsClose(q[s], p[s], d)
  }

  lemma MaxClose(row: Row, row': Row, d: real)
    requires row != [] && RowsClose(row, row', d)
    ensures ValuesClose(MaxValue(row), MaxValue(row'), d)
  {
    var m, m' := MaxValue(row), MaxValue(row');
    var i :| 0 <= i < |row| && row[i].value == m;
    var j :| 0 <= j < |row'| && row'[j].value == m';
    assert ValuesClose(row[i].value, row'[i].value, d) && ValuesClose(row[j].value, row'[j].value, d);
    assert AtMost(row'[i].value, m') && AtMost(row[j].value, m);
  }

  lemma BlendDifference(a: real, b: real, x: real, y: real, r: real, alpha: real, gamma: real)
    ensures Blend(a, Target(r, gamma, x), alpha) - Blend(b, Target(r, gamma, y), alpha)
         == (a - b) * (1.0 - alpha) + (x - y) * (alpha * gamma)
  {
  }

  lemma ShrunkParts(d: real, alpha: real, gamma: real)
    ensures Shrunk(d, alpha, gamma) == d * (1.0 - alpha) + d * (alpha * gamma)
  {
  }

  lemma SumClose(e: real, f: real, d: real, c: real, g: real)
    requires c >= 0.0 && g >= 0.0 && -d <= e <= d && -d <= f <= d
    ensures -(d * c + d * g) <= e * c + f * g <= d * c + d * g
  {
    Scale(e, d, c);
    Scale(-d, e, c);
    Scale(f, d, g);
    Scale(-d, f, g);
  }

  lemma BlendClose(a: real, b: real, x: real, y: real, r: real, alpha: real, gamma: real, d: real)
    requires 0.0 <= alpha <= 1.0 && 0.0 <= gamma && -d <= a - b <= d && -d <= x - y <= d
    ensures var z := Blend(a, Target(r, gamma, x), alpha) - Blend(b, Target(r, gamma, y), alpha);
            -Shrunk(d, alpha, gamma) <= z <= Shrunk(d, alpha, gamma)
  {
    var c, g := 1.0 - alpha, alpha * gamma;
    NonNegative(alpha, gamma);
    BlendDifference(a, b, x, y, r, alpha, gamma);
    ShrunkParts(d, alpha, gamma);
    SumClose(a - b, x - y, d, c, g);
  }

  lemma Shrinks(d: real, alpha: real, gamma: real)
    requires d >= 0.0 && 0.0 <= alpha && gamma < 1.0
    ensures Shrunk(d, alpha, gamma) <= d
  {
    var c := 1.0 - gamma;
    NonNegative(alpha, c);
    var t := alpha * c;
    Scale(1.0 - t, 1.0, d);
  }

  lemma WithValueClose(q: Table, p: Table, u: Update, v: real, w: real, d: real)
    requires Close(q, p, d) && Ready(q, u) && Ready(p, u) && -d <= v - w <= d
    ensures Close(WithValue(q, u, v), WithValue(p, u, w), d)
  {
    assert RowsClose(q[u.state], p[u.state], d);
    FindSame(q[u.state], p[u.state], u.action);
    var q', p' := WithValue(q, u, v), WithValue(p, u, w);
    forall s | s in q' ensures RowsClose(q'[s], p'[s], d) {
      assert RowsClose(q[s], p[s], d);
    }
  }

  lemma ArgumentsClose(q: Table, p: Table, u: Update, d: real)
    requires Close(q, p, d) && Ready(q, u) && Ready(p, u)
    ensures -d <= Was(q, u) - Was(p, u) <= d && -d <= Best(q, u) - Best(p, u) <= d
  {
    assert RowsClose(q[u.state], p[u.state], d) && RowsClose(q[u.next], p[u.next], d);
    FindSame(q[u.state], p[u.state], u.action);
    MaxClose(q[u.next], p[u.next], d);
    assert ValuesClose(q[u.state][SlotOf(q, u)].value, p[u.state][SlotOf(p, u)].value, d);
  }

  lemma LearntCloser(q: Table, p: Table, u: Update, alpha: real, gamma: real, d: real)
    requires Close(q, p, d) && Ready(q, u) && Ready(p, u)
    requires 0.0 <= alpha <= 1.0 && 0.0 <= gamma < 1.0
    ensures ValuesClose(Fin(Learnt(q, u, alpha, gamma)), Fin(Learnt(p, u, alpha, gamma)), Shrunk(d, alpha, gamma))
  {
    ArgumentsClose(q, p, u, d);
    BlendClose(Was(q, u), Was(p, u), Best(q, u), Best(p, u), u.reward, alpha, gamma, d);
  }

  /** The same learning step applied to two tables does not move them apart anywhere, and brings the
      updated entry closer by the factor `1 - alpha * (1 - gamma)`. */
  lemma UpdateNonexpansive(q: Table, p: Table, u: Update, alpha: real, gamma: real, d: real)
    requires Close(q, p, d) && d >= 0.0 && Ready(q, u) && Ready(p, u)
    requires 0.0 <= alpha <= 1.0 && 0.0 <= gamma < 1.0
    ensures Close(Updated(q, u, alpha, gamma), Updated(p, u, alpha, gamma), d)
    ensures ValuesClose(Fin(Learnt(q, u, alpha, gamma)), Fin(Learnt(p, u, alpha, gamma)), Shrunk(d, alpha, gamma))
  {
    LearntCloser(q, p, u, alpha, gamma, d);
    Shrinks(d, alpha, gamma);
    WithValueClose(q, p, u, Learnt(q, u, alpha, gamma), Learnt(p, u, alpha, gamma), d);
  }

  // ----- learning along a run

  /** An action that was taken, and its reward. */
  datatype Taken = Taken(action: Action, reward: real)

  function StateAfter(s: State, steps: seq<Taken>): State {
    if steps == [] then s else Applied(StateAfter(s, steps[..|steps| - 1]), steps[|steps| - 1].action)
  }

  ghost predicate CanTake(s: State, steps: seq<Taken>, flows: seq<int>, paths: map<int, seq<Path>>) {
    steps == [] ||
    (CanTake(s, steps[..|steps| - 1], flows, paths) &&
     Allowed(StateAfter(s, steps[..|steps| - 1]), steps[|steps| - 1].action, flows, paths))
  }

  function UpdatesAlong(s: State, steps: seq<Taken>): seq<Update> {
    if steps == [] then []
    else
      var before, step := steps[..|steps| - 1], steps[|steps| - 1];
      UpdatesAlong(s, before) + [Update(StateAfter(s, before), step.action, StateAfter(s, steps), step.reward)]
  }

  /** The table holds the allowed actions of the states, and no state is without an entry. */
  ghost predicate TableOf(q: Table, flows: seq<int>, paths: map<int, seq<Path>>) {
    && (forall s, a :: Entry(q, s, a) <==> IsState(s, flows, paths) && Allowed(s, a, flows, paths))
    && (forall s | s in q :: q[s] != [])
  }

  lemma UpdateReady(q: Table, s: State, step: Taken, flows: seq<int>, paths: map<int, seq<Path>>)
    requires TableOf(q, flows, paths) && IsState(s, flows, paths) && Allowed(s, step.action, flows, paths)
    ensures IsState(Applied(s, step.action), flows, paths)
    ensures Ready(q, Update(s, step.action, Applied(s, step.action), step.reward))
  {
    Closed(s, step.action, flows, paths);
    assert Entry(q, s, step.action);
    assert Allowed(Applied(s, step.action), NoTrans, flows, paths);
    assert Entry(q, Applied(s, step.action), NoTrans);
  }

  /** Every lookup of a learning run succeeds: it stays among the states, and each update finds its
      entries. */
  lemma {:induction false} LookupsSucceed(q: Table, s: State, steps: seq<Taken>, flows: seq<int>,
                                          paths: map<int, seq<Path>>)
    requires TableOf(q, flows, paths) && IsState(s, flows, paths) && CanTake(s, steps, flows, paths)
    ensures IsState(StateAfter(s, steps), flows, paths)
    ensures IsRun(q, UpdatesAlong(s, steps))
  {
    if steps != [] {
      var before := steps[..|steps| - 1];
      LookupsSucceed(q, s, before, flows, paths);
      UpdateReady(q, StateAfter(s, before), steps[|steps| - 1], flows, paths);
      var us := UpdatesAlong(s, steps);
      assert us[..|us| - 1] == UpdatesAlong(s, before);
    }
  }

  /** Action space and table are built together; the table is one of that space. */
  method BuildTable(flows: seq<int>, paths: map<int, seq<Path>>, init: Value) returns (q: Table, ts: seq<Transition>)
    requires Known(flows, paths)
    ensures TableOf(q, flows, paths)
    ensures forall s | s in q :: Initial(q[s], init)
    ensures forall s, a :: Lists(ts, s, a) <==> IsState(s, flows, paths) && Allowed(s, a, flows, paths)
  {
    var states, actions;
    states, actions, ts := BuildSpace(flows, paths);
    q := CreateNewQTable(actions, init);
  }

  // ----- the weighted bandit

  /** Exponential recency weights, as the comment above `update_q_bandit` gives them (with first value 0). */
  function Recency(rewards: seq<real>, alpha: real): real {
    if rewards == [] then 0.0 else Blend(Recency(rewards[..|rewards| - 1], alpha), rewards[|rewards| - 1], alpha)
  }

  /** The past rewards, discounted once more. */
  function Faded(rewards: seq<real>, alpha: real): real {
    (1.0 - alpha) * Recency(rewards, alpha)
  }

  /** What a term with weight factor `w` adds to a sum. */
  function Term(w: real, r: real, alpha: real): real {
    alpha * w * r
  }

  /** A sum that has gathered `d`, weighted by `w`. */
  function Weighted(w: real, d: real, alpha: real): real {
    w * ((1.0 - alpha) * d)
  }

  lemma NextTerm(w: real, w': real, d: real, d': real, r: real, alpha: real)
    requires w == (1.0 - alpha) * w' && d' == Blend(d, r, alpha)
    ensures Weighted(w, d, alpha) + Term(w, r, alpha) == Weighted(w', d', alpha)
  {
    var c := 1.0 - alpha;
    assert d' == c * d + alpha * r;
    assert w' * (c * (c * d + alpha * r)) == (c * w') * (c * d) + alpha * (c * w') * r;
  }

  /** One term of the code's weighted sum: the weights of all earlier rewards shrink by one factor. */
  lemma WeightedStep(rewards: seq<real>, alpha: real, i: nat)
    requires i < |rewards|
    ensures var c, n := 1.0 - alpha, |rewards|;
            Weighted(Pow(c, n - i), Recency(rewards[..i], alpha), alpha) + Term(Pow(c, n - i), rewards[i], alpha)
            == Weighted(Pow(c, n - i - 1), Recency(rewards[..i + 1], alpha), alpha)
  {
    assert rewards[..i + 1][..i] == rewards[..i];
    var c, n := 1.0 - alpha, |rewards|;
    NextTerm(Pow(c, n - i), Pow(c, n - i - 1), Recency(rewards[..i], alpha), Recency(rewards[..i + 1], alpha),
             rewards[i], alpha);
  }

  /** The sum over the past rewards in `update_q_bandit`. */
  method WeightedSum(rewards: seq<real>, alpha: real) returns (q: real)
    ensures q == Faded(rewards, alpha)
  {
    q := 0.0;
    var n, i := |rewards|, 0;
    while i < n
      invariant 0 <= i <= n
      invariant q == Weighted(Pow(1.0 - alpha, n - i), Recency(rewards[..i], alpha), alpha)
    {
      WeightedStep(rewards, alpha, i);
      q := q + Term(Pow(1.0 - alpha, n - i), rewards[i], alpha);
      i := i + 1;
    }
    assert rewards[..i] == rewards;
  }

  /** The value the code computes after reward `r` with the past `rewards`. */
  function BanditValue(rewards: seq<real>, r: real, alpha: real): real {
    Blend(Faded(rewards, alpha), r, alpha)
  }

  lemma DoubleDiscount(d: real, r: real, alpha: real)
    ensures Blend(d, r, alpha) - Blend((1.0 - alpha) * d, r, alpha) == ((1.0 - alpha) * alpha) * d
  {
  }

  lemma ZeroProduct(x: real, y: real)
    ensures x * y == 0.0 <==> x == 0.0 || y == 0.0
  {
  }

  /** The code discounts the past once more than the comment above it says: the two agree exactly when
      the learning rate is 0 or 1 or the past counts nothing. */
  lemma BanditIsRecency(rewards: seq<real>, r: real, alpha: real)
    ensures BanditValue(rewards, r, alpha) == Recency(rewards + [r], alpha)
        <==> alpha == 0.0 || alpha == 1.0 || Recency(rewards, alpha) == 0.0
  {
    var all, d := rewards + [r], Recency(rewards, alpha);
    assert all[..|all| - 1] == rewards;
    DoubleDiscount(d, r, alpha);
    ZeroProduct((1.0 - alpha) * alpha, d);
    ZeroProduct(1.0 - alpha, alpha);
  }

  ghost predicate PastIn(rewards: seq<real>, worst: real) {
    forall i :: 0 <= i < |rewards| ==> -worst <= rewards[i] <= 0.0
  }

  lemma {:induction false} RecencyInRange(rewards: seq<real>, alpha: real, worst: real)
    requires 0.0 <= alpha <= 1.0 && worst >= 0.0 && PastIn(rewards, worst)
    ensures -worst <= Recency(rewards, alpha) <= 0.0
  {
    if rewards != [] {
      var n := |rewards| - 1;
      RecencyInRange(rewards[..n], alpha, worst);
      BlendInRange(Recency(rewards[..n], alpha), rewards[n], alpha, -worst, 0.0);
    }
  }

  lemma Fade(c: real, d: real, worst: real)
    requires 0.0 <= c <= 1.0 && -worst <= d <= 0.0
    ensures -worst <= c * d <= 0.0
  {
    BlendInRange(0.0, d, c, -worst, 0.0);
    assert Blend(0.0, d, c) == c * d;
  }

  /** The weighted bandit's value is again in the range of the rewards. */
  lemma BanditInRange(rewards: seq<real>, r: real, alpha: real, worst: real)
    requires 0.0 <= alpha <= 1.0 && PastIn(rewards, worst) && -worst <= r <= 0.0
    ensures -worst <= BanditValue(rewards, r, alpha) <= 0.0
  {
    RecencyInRange(rewards, alpha, worst);
    Fade(1.0 - alpha, Recency(rewards, alpha), worst);
    BlendInRange(Faded(rewards, alpha), r, alpha, -worst, 0.0);
  }

  function Remember(rewards: seq<real>, r: real): seq<real> {
    if |rewards| + 1 > MAX_PAST_REWARDS then rewards[1..] + [r] else rewards + [r]
  }

  function Rewarded(slot: Slot, r: real, alpha: real): Slot {
    slot.(value := Fin(BanditValue(slot.rewards, r, alpha)),
          visits := slot.visits + 1,
          rewards := Remember(slot.rewards, r))
  }

  /** `update_q_bandit` in its weighted mode. */
  method UpdateBandit(q: Table, s: State, a: Action, alpha: real, reward: real) returns (r: Table)
    requires Entry(q, s, a)
    ensures r == q[s := q[s][Find(q[s], a) := Rewarded(q[s][Find(q[s], a)], reward, alpha)]]
  {
    var row, k := q[s], Find(q[s], a);
    var qn := WeightedSum(row[k].rewards, alpha);
    var value := Blend(qn, reward, alpha);
    var past := row[k].rewards + [reward];
    if |past| > MAX_PAST_REWARDS { past := past[1..]; }
    assert past == Remember(row[k].rewards, reward);
    r := q[s := row[k := row[k].(value := Fin(value), visits := row[k].visits + 1, rewards := past)]];
  }

  /** Values and remembered rewards of a bandit's table. */
  ghost predicate BanditSlot(slot: Slot, worst: real) {
    ValueIn(slot.value, worst) && PastIn(slot.rewards, worst) && |slot.rewards| <= MAX_PAST_REWARDS
  }

  lemma RewardedOk(slot: Slot, r: real, alpha: real, worst: real)
    requires BanditSlot(slot, worst) && 0.0 <= alpha <= 1.0 && -worst <= r <= 0.0
    ensures BanditSlot(Rewarded(slot, r, alpha), worst)
  {
    BanditInRange(slot.rewards, r, alpha, worst);
  }

  ghost function Bandit(slot: Slot, rewards: seq<real>, alpha: real): Slot {
    if rewards == [] then slot
    else Rewarded(Bandit(slot, rewards[..|rewards| - 1], alpha), rewards[|rewards| - 1], alpha)
  }

  /** Over any run of rewards an untried action's value stays in their range, and at most five of them
      are remembered. */
  lemma {:induction false} BanditRunInRange(a: Action, rewards: seq<real>, alpha: real, worst: real)
    requires 0.0 <= alpha <= 1.0 && PastIn(rewards, worst)
    ensures BanditSlot(Bandit(Slot(a, 0, NegInf, []), rewards, alpha), worst)
  {
    if rewards != [] {
      var n := |rewards| - 1;
      BanditRunInRange(a, rewards[..n], alpha, worst);
      RewardedOk(Bandit(Slot(a, 0, NegInf, []), rewards[..n], alpha), rewards[n], alpha, worst);
    }
  }

  /** The last rewards, as many as are remembered. */
  function Latest(rewards: seq<real>): seq<real> {
    if |rewards| <= MAX_PAST_REWARDS then rewards else rewards[|rewards| - MAX_PAST_REWARDS..]
  }

  lemma LatestNext(rewards: seq<real>, r: real)
    ensures Remember(Latest(rewards), r) == Latest(rewards + [r])
  {
  }

  /** Over any run of rewards exactly the latest five are remembered, in their order, and all are counted. */
  lemma {:induction false} BanditRemembersLatest(a: Action, rewards: seq<real>, alpha: real)
    ensures var slot := Bandit(Slot(a, 0, NegInf, []), rewards, alpha);
            slot.rewards == Latest(rewards) && slot.visits == |rewards| && slot.action == a
  {
    if rewards != [] {
      var n := |rewards| - 1;
      BanditRemembersLatest(a, rewards[..n], alpha);
      LatestNext(rewards[..n], rewards[n]);
      assert rewards[..n] + [rewards[n]] == rewards;
    }
  }
}
