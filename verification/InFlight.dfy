/** A packet that is already under way while its flow is being migrated: hops of the packet
    and messages of the plan interleave in any order. */
module InFlight {
  import opened Sequences
  import opened FlowTables
  import opened MigrationPlan

  datatype Status = Travelling | Delivered(port: Port) | Missed

  /** `q` messages have taken effect and the packet has visited `trail`, the last switch being
      where it is now. */
  datatype Flight = Flight(q: nat, trail: seq<Switch>, status: Status) {
    function At(): Switch
      requires |trail| > 0
    {
      trail[|trail| - 1]
    }
  }

  /** The packet enters at the ingress at any moment of the migration. */
  ghost predicate Init(g: Migration, s: Flight)
    requires g.Valid()
  {
    s.q <= |g.Plan()| && s.trail == [g.prev[0]] && s.status == Travelling
  }

  /** One message takes effect. */
  ghost predicate WriteStep(g: Migration, s: Flight, s': Flight)
    requires g.Valid()
  {
    s.q < |g.Plan()| && s' == s.(q := s.q + 1)
  }

  /** The switch holding the packet looks it up: table miss, next switch, or host port. */
  ghost predicate HopStep(g: Migration, t: Table, s: Flight, s': Flight)
    requires g.Valid() && s.q <= |g.Plan()| && |s.trail| > 0
  {
    var tab, at := g.TableAt(t, s.q), s.At();
    && s.status == Travelling
    && (if (at, g.m) !in tab then
          s' == s.(status := Missed)
        else if (at, tab[(at, g.m)]) in g.net.peer then
          s' == s.(trail := s.trail + [g.net.peer[(at, tab[(at, g.m)])]])
        else
          s' == s.(status := Delivered(tab[(at, g.m)])))
  }

  ghost predicate Run(g: Migration, t: Table, r: seq<Flight>)
    requires g.Valid()
  {
    && |r| > 0 && Init(g, r[0])
    && forall i :: 0 <= i < |r| - 1 ==>
         r[i].q <= |g.Plan()| && |r[i].trail| > 0 &&
         (WriteStep(g, r[i], r[i + 1]) || HopStep(g, t, r[i], r[i + 1]))
  }

  /** Either still on the old path, or past the switchover and on the new one. */
  datatype Phase = Old(j: nat) | New(j: nat, x: nat, y: nat)

  ghost predicate InPhase(g: Migration, s: Flight, ph: Phase)
    requires g.Valid()
  {
    && s.q <= |g.Plan()|
    && match ph
       case Old(j) =>
         && j < |g.prev| && s.trail == g.prev[..j + 1]
         && (s.status.Missed? ==> g.prev[j] in g.Gone(s.q))
         && (s.status.Delivered? ==> j == |g.prev| - 1 && s.status.port == g.hostPort)
       case New(j, x, y) =>
         && j < |g.prev| && x <= y < |g.next| && g.prev[j] == g.next[x] && g.Threshold(s.q) <= y
         && s.trail == g.prev[..j] + g.next[x..y + 1]
         && !s.status.Missed?
         && (s.status.Delivered? ==> y == |g.next| - 1 && s.status.port == g.hostPort)
  }

  lemma ThresholdFalls(g: Migration, q: nat)
    requires g.Valid() && q < |g.Plan()|
    ensures g.Threshold(q + 1) <= g.Threshold(q)
  {
    var a, w := |g.Adds(|g.next|)|, |g.Written()|;
    if a < q && q + 1 < w { g.ModsFall(q - a - 1, q - a); }
  }

  lemma GoneGrows(g: Migration, q: nat)
    requires g.Valid() && q < |g.Plan()|
    ensures forall s :: s in g.Gone(q) ==> s in g.Gone(q + 1)
  {
    var w := |g.Written()|;
    if w <= q {
      assert g.Gone(q + 1) == g.Gone(q) + [g.dels[q - w]];
    }
  }

  lemma {:induction false} WriteKeepsPhase(g: Migration, s: Flight, s': Flight, ph: Phase)
    requires g.Valid() && InPhase(g, s, ph) && WriteStep(g, s, s')
    ensures InPhase(g, s', ph)
  {
    ThresholdFalls(g, s.q);
    GoneGrows(g, s.q);
  }

  lemma {:induction false} NewEntry(g: Migration, t: Table, q: nat, y: nat)
    requires g.Valid() && g.net.HoldsPath(t, g.m, g.prev, g.hostPort)
    requires q <= |g.Plan()| && g.Threshold(q) <= y < |g.next|
    ensures (g.next[y], g.m) in g.TableAt(t, q)
    ensures y + 1 < |g.next| ==> g.net.Hop(g.TableAt(t, q), g.m, g.next[y], g.next[y + 1])
    ensures y + 1 == |g.next| ==> g.TableAt(t, q)[(g.next[y], g.m)] == g.hostPort
  {
    g.NextFollowed(t, q, y);
    if y + 1 < |g.next| { assert g.net.LinkAt(g.next, y); }
  }

  /** The last switch is on the new path from every threshold on. */
  lemma NotLast(g: Migration, q: nat, j: nat)
    requires g.Valid() && q <= |g.Plan()| && j < |g.prev| && g.prev[j] !in g.next[g.Threshold(q)..]
    ensures j + 1 < |g.prev|
  {
    assert g.next[g.Threshold(q)..][|g.next| - 1 - g.Threshold(q)] == g.prev[|g.prev| - 1];
  }

  lemma {:induction false} OldEntry(g: Migration, t: Table, q: nat, j: nat)
    requires g.Valid() && g.net.HoldsPath(t, g.m, g.prev, g.hostPort)
    requires q <= |g.Plan()| && j < |g.prev| && g.prev[j] !in g.next[g.Threshold(q)..]
    ensures j + 1 < |g.prev|
    ensures g.prev[j] !in g.Gone(q) ==> g.net.Hop(g.TableAt(t, q), g.m, g.prev[j], g.prev[j + 1])
    ensures g.prev[j] in g.Gone(q) ==> (g.prev[j], g.m) !in g.TableAt(t, q)
  {
    NotLast(g, q, j);
    if g.prev[j] in g.Gone(q) {
      g.TableClosedForm(t, q, g.prev[j], g.m);
    } else {
      g.PrevFollowed(t, q, j);
      assert g.net.LinkAt(g.prev, j);
    }
  }

  lemma StretchStarts(a: seq<Switch>, b: seq<Switch>, j: nat, x: nat)
    requires j < |a| && x < |b| && a[j] == b[x]
    ensures a[..j + 1] == a[..j] + b[x..x + 1]
  {
  }

  /** A packet on a switch that has been switched over counts as being on the new path. */
  lemma CrossOver(g: Migration, s: Flight, j: nat) returns (x: nat)
    requires g.Valid() && InPhase(g, s, Old(j)) && s.status == Travelling
    requires g.prev[j] in g.next[g.Threshold(s.q)..]
    ensures InPhase(g, s, New(j, x, x))
  {
    x := IndexOf(g.next, g.prev[j]);
    g.SuffixSwitch(g.Threshold(s.q), g.prev[j]);
    StretchStarts(g.prev, g.next, j, x);
  }

  /** On the old path, a hop follows the old entry, crosses over, or misses a deleted entry. */
  lemma {:induction false} HopFromOld(g: Migration, t: Table, s: Flight, s': Flight, j: nat) returns (ph: Phase)
    requires g.Valid() && g.net.HoldsPath(t, g.m, g.prev, g.hostPort)
    requires InPhase(g, s, Old(j)) && HopStep(g, t, s, s')
    ensures InPhase(g, s', ph)
  {
    if g.prev[j] in g.next[g.Threshold(s.q)..] {
      var x := CrossOver(g, s, j);
      ph := HopFromNew(g, t, s, s', j, x, x);
    } else {
      OldEntry(g, t, s.q, j);
      ph := if g.prev[j] in g.Gone(s.q) then Old(j) else Old(j + 1);
    }
  }

  /** What a hop does on the new path: one switch further, or out at the host port. */
  lemma NewHop(g: Migration, t: Table, s: Flight, s': Flight, y: nat)
    requires g.Valid() && g.net.HoldsPath(t, g.m, g.prev, g.hostPort) && s.q <= |g.Plan()| && |s.trail| > 0
    requires g.Threshold(s.q) <= y < |g.next| && s.At() == g.next[y] && HopStep(g, t, s, s')
    ensures s' == if y + 1 < |g.next| then s.(trail := s.trail + [g.next[y + 1]])
                  else s.(status := Delivered(g.hostPort))
  {
    NewEntry(g, t, s.q, y);
    assert g.next[|g.next| - 1] == g.prev[|g.prev| - 1];
  }

  /** One more switch of a stretch of the new path. */
  lemma StretchOn(a: seq<Switch>, b: seq<Switch>, x: nat, y: nat)
    requires x <= y && y + 1 < |b|
    ensures a + b[x..y + 1] + [b[y + 1]] == a + b[x..y + 2]
  {
  }

  /** Past the switchover, a hop stays on the new path. */
  lemma HopFromNew(g: Migration, t: Table, s: Flight, s': Flight, j: nat, x: nat, y: nat)
    returns (ph: Phase)
    requires g.Valid() && g.net.HoldsPath(t, g.m, g.prev, g.hostPort)
    requires InPhase(g, s, New(j, x, y)) && HopStep(g, t, s, s')
    ensures InPhase(g, s', ph) && ph.New?
  {
    assert s.At() == g.next[y];
    NewHop(g, t, s, s', y);
    if y + 1 < |g.next| {
      StretchOn(g.prev[..j], g.next, x, y);
      ph := New(j, x, y + 1);
    } else {
      ph := New(j, x, y);
    }
  }

  lemma HopPhase(g: Migration, t: Table, s: Flight, s': Flight, before: Phase) returns (ph: Phase)
    requires g.Valid() && g.net.HoldsPath(t, g.m, g.prev, g.hostPort)
    requires InPhase(g, s, before) && HopStep(g, t, s, s')
    ensures InPhase(g, s', ph)
  {
    match before
    case Old(j) => ph := HopFromOld(g, t, s, s', j);
    case New(j, x, y) => ph := HopFromNew(g, t, s, s', j, x, y);
  }

  /** The state before the last one of a run, and the step between them. */
  lemma LastStep(g: Migration, t: Table, r: seq<Flight>, i: nat)
    requires g.Valid() && Run(g, t, r) && 0 < i < |r|
    ensures r[i - 1].q <= |g.Plan()| && |r[i - 1].trail| > 0
    ensures WriteStep(g, r[i - 1], r[i]) || HopStep(g, t, r[i - 1], r[i])
  {
    assert WriteStep(g, r[i - 1], r[i - 1 + 1]) || HopStep(g, t, r[i - 1], r[i - 1 + 1]);
  }

  lemma {:induction false} RunPhase(g: Migration, t: Table, r: seq<Flight>, i: nat) returns (ph: Phase)
    requires g.Valid() && g.net.HoldsPath(t, g.m, g.prev, g.hostPort) && Run(g, t, r) && i < |r|
    ensures InPhase(g, r[i], ph)
  {
    if i == 0 {
      ph := Old(0);
    } else {
      var before := RunPhase(g, t, r, i - 1);
      LastStep(g, t, r, i);
      if WriteStep(g, r[i - 1], r[i]) {
        WriteKeepsPhase(g, r[i - 1], r[i], before);
        ph := before;
      } else {
        ph := HopPhase(g, t, r[i - 1], r[i], before);
      }
    }
  }

  /** Every step is a message, a hop, or the packet's last lookup. */
  lemma {:induction false} RunLength(g: Migration, t: Table, r: seq<Flight>, i: nat)
    requires g.Valid() && Run(g, t, r) && i < |r|
    ensures |r[i].trail| > 0
    ensures i == r[i].q - r[0].q + |r[i].trail| - 1 + if r[i].status == Travelling then 0 else 1
  {
    if i > 0 {
      RunLength(g, t, r, i - 1);
      LastStep(g, t, r, i);
    }
  }

  /** The trail is a stretch of the old path and then a stretch of the new one. */
  ghost predicate Spliced(g: Migration, w: seq<Switch>) {
    exists j, x, y :: 0 <= j <= |g.prev| && 0 <= x <= y <= |g.next| && w == g.prev[..j] + g.next[x..y]
  }

  lemma PhaseTrail(g: Migration, s: Flight, ph: Phase)
    requires g.Valid() && InPhase(g, s, ph)
    ensures Spliced(g, s.trail) && 0 < |s.trail| < |g.prev| + |g.next|
  {
    match ph
    case Old(j) => assert s.trail == g.prev[..j + 1] + g.next[0..0];
    case New(j, x, y) => assert s.trail == g.prev[..j] + g.next[x..y + 1];
  }

  lemma PhaseMissed(g: Migration, s: Flight, ph: Phase)
    requires g.Valid() && InPhase(g, s, ph) && s.status.Missed?
    ensures |s.trail| > 0 && s.At() in g.Gone(s.q) && s.At() !in g.next
  {
    g.GoneSpec(s.q, g.prev[ph.j]);
  }

  lemma PhaseDelivered(g: Migration, s: Flight, ph: Phase)
    requires g.Valid() && InPhase(g, s, ph) && s.status.Delivered?
    ensures |s.trail| > 0 && s.At() == g.prev[|g.prev| - 1] && s.status.port == g.hostPort
  {
  }

  /** Main theorem. Whatever the interleaving, the packet follows a stretch of the old path and
      then a stretch of the new one, so it makes fewer than |prev| + |next| hops; it is lost only
      on a switch whose entry has been deleted, and otherwise can only leave at the host port of
      the egress. */
  lemma {:induction false} NoInterleavingLoops(g: Migration, t: Table, r: seq<Flight>, i: nat)
    requires g.Valid() && g.net.HoldsPath(t, g.m, g.prev, g.hostPort) && Run(g, t, r) && i < |r|
    ensures 0 < |r[i].trail| < |g.prev| + |g.next| && r[i].q <= |g.Plan()| && Spliced(g, r[i].trail)
    ensures r[i].status.Missed? ==> r[i].At() in g.Gone(r[i].q) && r[i].At() !in g.next
    ensures r[i].status.Delivered? ==> r[i].At() == g.prev[|g.prev| - 1] && r[i].status.port == g.hostPort
    ensures i <= |g.Plan()| + |g.prev| + |g.next|
  {
    var ph := RunPhase(g, t, r, i);
    RunLength(g, t, r, i);
    PhaseTrail(g, r[i], ph);
    if r[i].status.Missed? { PhaseMissed(g, r[i], ph); }
    if r[i].status.Delivered? { PhaseDelivered(g, r[i], ph); }
  }

  // ----- which packets are lost

  /** A packet on a switch of the new path, with all writes out, is past the switchover. */
  lemma StartsNew(g: Migration, s: Flight)
    requires g.Valid() && Init(g, s) && s.q >= |g.Written()|
    ensures InPhase(g, s, New(0, 0, 0))
  {
    assert s.trail == g.prev[..0] + g.next[0..1];
  }

  lemma {:induction false} StaysNew(g: Migration, t: Table, r: seq<Flight>, i: nat) returns (ph: Phase)
    requires g.Valid() && g.net.HoldsPath(t, g.m, g.prev, g.hostPort) && Run(g, t, r) && i < |r|
    requires r[0].q >= |g.Written()|
    ensures InPhase(g, r[i], ph) && ph.New?
  {
    if i == 0 {
      StartsNew(g, r[0]);
      ph := New(0, 0, 0);
    } else {
      ph := StaysNew(g, t, r, i - 1);
      LastStep(g, t, r, i);
      if WriteStep(g, r[i - 1], r[i]) {
        WriteKeepsPhase(g, r[i - 1], r[i], ph);
      } else {
        ph := HopFromNew(g, t, r[i - 1], r[i], ph.j, ph.x, ph.y);
      }
    }
  }

  /** A packet that enters after the last write, before or during the deletions, is never lost. */
  lemma EnteredLateNeverLost(g: Migration, t: Table, r: seq<Flight>, i: nat)
    requires g.Valid() && g.net.HoldsPath(t, g.m, g.prev, g.hostPort) && Run(g, t, r) && i < |r|
    requires r[0].q >= |g.Written()|
    ensures !r[i].status.Missed?
  {
    var ph := StaysNew(g, t, r, i);
  }

  lemma RunExtends(g: Migration, t: Table, r: seq<Flight>, s: Flight)
    requires g.Valid() && Run(g, t, r)
    requires var last := r[|r| - 1];
      last.q <= |g.Plan()| && |last.trail| > 0 && (WriteStep(g, last, s) || HopStep(g, t, last, s))
    ensures Run(g, t, r + [s])
  {
    var r' := r + [s];
    forall i | 0 <= i < |r'| - 1
      ensures r'[i].q <= |g.Plan()| && |r'[i].trail| > 0 &&
              (WriteStep(g, r'[i], r'[i + 1]) || HopStep(g, t, r'[i], r'[i + 1]))
    {
      if i < |r| - 1 {
        assert WriteStep(g, r[i], r[i + 1]) || HopStep(g, t, r[i], r[i + 1]);
      }
    }
  }

  /** Before the first message a packet can hop along the old path. */
  lemma {:induction false} HopsAlong(g: Migration, t: Table, j: nat) returns (r: seq<Flight>)
    requires g.Valid() && g.net.HoldsPath(t, g.m, g.prev, g.hostPort) && j < |g.prev|
    ensures Run(g, t, r) && r[|r| - 1] == Flight(0, g.prev[..j + 1], Travelling)
  {
    if j == 0 {
      r := [Flight(0, [g.prev[0]], Travelling)];
    } else {
      var before := HopsAlong(g, t, j - 1);
      assert g.net.Forwards(t, g.m, g.prev, g.hostPort, j - 1) && g.net.LinkAt(g.prev, j - 1);
      var s := Flight(0, g.prev[..j + 1], Travelling);
      assert s.trail == g.prev[..j] + [g.prev[j]];
      assert HopStep(g, t, before[|before| - 1], s);
      RunExtends(g, t, before, s);
      r := before + [s];
    }
  }

  /** All messages can take effect while it stays where it is. */
  lemma {:induction false} WaitsFor(g: Migration, t: Table, j: nat, q: nat) returns (r: seq<Flight>)
    requires g.Valid() && g.net.HoldsPath(t, g.m, g.prev, g.hostPort) && j < |g.prev| && q <= |g.Plan()|
    ensures Run(g, t, r) && r[|r| - 1] == Flight(q, g.prev[..j + 1], Travelling)
  {
    if q == 0 {
      r := HopsAlong(g, t, j);
    } else {
      var before := WaitsFor(g, t, j, q - 1);
      var s := Flight(q, g.prev[..j + 1], Travelling);
      RunExtends(g, t, before, s);
      r := before + [s];
    }
  }

  lemma EntryGone(g: Migration, t: Table, s: Switch)
    requires g.Valid() && s in g.dels
    ensures (s, g.m) !in g.TableAt(t, |g.Plan()|)
  {
    assert g.Gone(|g.Plan()|) == g.dels;
    g.TableClosedForm(t, |g.Plan()|, s, g.m);
  }

  /** A packet that has hopped to an abandoned switch and waits there for the whole plan is lost. */
  lemma WaitingIsLost(g: Migration, t: Table, j: nat) returns (r: seq<Flight>)
    requires g.Valid() && g.net.HoldsPath(t, g.m, g.prev, g.hostPort) && j < |g.prev| && g.prev[j] in g.dels
    ensures Run(g, t, r) && r[|r| - 1] == Flight(|g.Plan()|, g.prev[..j + 1], Missed)
  {
    var before := WaitsFor(g, t, j, |g.Plan()|);
    EntryGone(g, t, g.prev[j]);
    var lost := Flight(|g.Plan()|, g.prev[..j + 1], Missed);
    assert HopStep(g, t, before[|before| - 1], lost);
    RunExtends(g, t, before, lost);
    r := before + [lost];
  }

  /** A migration can lose a packet exactly when it abandons a switch. */
  lemma LossExactly(g: Migration, t: Table)
    requires g.Valid() && g.net.HoldsPath(t, g.m, g.prev, g.hostPort)
    ensures (exists r: seq<Flight> :: Run(g, t, r) && r[|r| - 1].status.Missed?) <==> g.dels != []
  {
    if g.dels != [] {
      var r := WaitingIsLost(g, t, IndexOf(g.prev, g.dels[0]));
    } else {
      forall r: seq<Flight> | Run(g, t, r) ensures !r[|r| - 1].status.Missed? {
        NoInterleavingLoops(g, t, r, |r| - 1);
      }
    }
  }
}
