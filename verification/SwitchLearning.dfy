/** What the learning switch learns, over whole runs: which frames are flooded, which go to one port,
    and which no longer reach the controller. */
module SwitchLearning {
  import opened TreeNetwork
  import opened LearningSwitch

  /** The step answers a packet-in of switch `s` for a frame from `d`. */
  ghost predicate Hears(st: State, step: Step, s: Switch, d: Mac) {
    step.Answer? && step.i in st.copies && st.copies[step.i].s == s && st.copies[step.i].f.src == d
  }

  /** Some packet-in of switch `s` for a frame from `d` has been answered. */
  ghost predicate Heard(r: seq<State>, steps: seq<Step>, s: Switch, d: Mac) {
    exists k :: 0 <= k < |steps| && k < |r| && Hears(r[k], steps[k], s, d)
  }

  // ----- parts of runs

  lemma {:induction false} RunPrefix(net: Network, r: seq<State>, steps: seq<Step>, k: nat)
    requires Run(net, r, steps) && k <= |steps|
    ensures Run(net, r[..k + 1], steps[..k]) && End(r[..k + 1]) == r[k]
    decreases |steps|
  {
    if k == |steps| {
      assert r[..k + 1] == r && steps[..k] == steps;
    } else {
      var r', steps' := r[..|steps|], steps[..|steps| - 1];
      RunPrefix(net, r', steps', k);
      assert r'[..k + 1] == r[..k + 1] && steps'[..k] == steps[..k];
    }
  }

  lemma RunStep(net: Network, r: seq<State>, steps: seq<Step>, k: nat)
    requires Run(net, r, steps) && k < |steps|
    ensures Next(net, r[k], steps[k], r[k + 1])
  {
    RunPrefix(net, r, steps, k + 1);
    var r', steps' := r[..k + 2], steps[..k + 1];
    assert r'[|r'| - 2] == r[k] && r'[|r'| - 1] == r[k + 1] && steps'[|steps'| - 1] == steps[k];
  }

  lemma InvAt(net: Network, r: seq<State>, steps: seq<Step>, k: nat)
    requires net.Valid() && Run(net, r, steps) && k <= |steps|
    ensures Inv(net, r[k])
  {
    RunPrefix(net, r, steps, k);
    RunKeepsInv(net, r[..k + 1], steps[..k]);
  }

  /** Hearing once is enough for the rest of the run. */
  lemma HeardLater(r: seq<State>, steps: seq<Step>, k: nat, m: nat, s: Switch, d: Mac)
    requires k <= m <= |steps| && |r| == |steps| + 1 && Heard(r[..k + 1], steps[..k], s, d)
    ensures Heard(r[..m + 1], steps[..m], s, d)
  {
    var j :| 0 <= j < k && Hears(r[..k + 1][j], steps[..k][j], s, d);
    assert Hears(r[..m + 1][j], steps[..m][j], s, d);
  }

  lemma HeardNext(r: seq<State>, steps: seq<Step>, s: Switch, d: Mac)
    requires |r| == |steps| + 1 && steps != []
    ensures var n := |steps| - 1;
            Heard(r, steps, s, d) <==> Heard(r[..n + 1], steps[..n], s, d) || Hears(r[n], steps[n], s, d)
  {
    var n := |steps| - 1;
    var r', steps' := r[..n + 1], steps[..n];
    if Heard(r', steps', s, d) {
      var k :| 0 <= k < n && Hears(r'[k], steps'[k], s, d);
      assert Hears(r[k], steps[k], s, d);
    }
    if Heard(r, steps, s, d) {
      var k :| 0 <= k <= n && Hears(r[k], steps[k], s, d);
      assert k < n ==> Hears(r'[k], steps'[k], s, d);
    }
  }

  // ----- what is learned

  lemma StepLearns(net: Network, st: State, step: Step, st': State, s: Switch, d: Mac)
    requires Next(net, st, step, st')
    ensures (s, d) in st'.know.macs <==> (s, d) in st.know.macs || Hears(st, step, s, d)
  {
  }

  /** The controller knows the way from a switch to a host exactly when it has answered a packet-in of
      that switch for a frame from that host. */
  lemma {:induction false} KnownExactly(net: Network, r: seq<State>, steps: seq<Step>, s: Switch, d: Mac)
    requires Run(net, r, steps)
    ensures (s, d) in End(r).know.macs <==> Heard(r, steps, s, d)
    decreases |steps|
  {
    if steps != [] {
      var n := |steps| - 1;
      KnownExactly(net, r[..n + 1], steps[..n], s, d);
      HeardNext(r, steps, s, d);
      StepLearns(net, r[n], steps[n], r[n + 1], s, d);
    }
  }

  // ----- where frames for a known host go

  /** From `st` to `st'` copy `c` has left through `out` and through no other port; if that is the port
      it came in on, it has not left at all. */
  ghost predicate LeftOnlyBy(net: Network, st: State, st': State, c: Copy, out: Place) {
    && (forall j :: j in st'.copies && j !in st.copies ==>
          j == st.next && out in net.peer && st'.copies[j] == Copy(c.f, net.peer[out].s, net.peer[out].p, false))
    && (forall j :: j in st'.delivered && j !in st.delivered ==>
          j == st.next && out !in net.peer && st'.delivered[j] == Delivery(c.f, out))
    && (st.next in st'.copies || st.next in st'.delivered <==> out.p != c.inPort)
  }

  lemma EmitOne(net: Network, st: State, i: int, know: Knowledge, p: Port)
    requires i in st.copies && st.next !in st.copies && st.next !in st.delivered
    ensures LeftOnlyBy(net, st, Emit(net, st, i, know, [p]), st.copies[i], Place(st.copies[i].s, p))
  {
    var st', c := Emit(net, st, i, know, [p]), st.copies[i];
    if p != c.inPort {
      assert Leaves(c, [p], st.next, st.next) && OutPlace(c, [p], st.next, st.next) == Place(c.s, p);
    }
  }

  lemma NumbersFresh(net: Network, st: State)
    requires net.Valid() && Inv(net, st)
    ensures st.next !in st.copies && st.next !in st.delivered
  {
  }

  lemma MatchUnicast(net: Network, st: State, i: int, st': State)
    requires net.Valid() && Inv(net, st) && Next(net, st, Match(i), st')
    ensures var c := st.copies[i];
      && net.IsSwitch(c.s) && c.f.dst in net.hosts && net.IsSwitch(net.hosts[c.f.dst].s)
      && LeftOnlyBy(net, st, st', c, Place(c.s, net.Toward(c.s, net.hosts[c.f.dst])))
  {
    var c := st.copies[i];
    NumbersFresh(net, st);
    EmitOne(net, st, i, st.know, st.know.flows[(c.s, c.inPort, c.f.dst)]);
  }

  /** The answer to a packet-in for a known host is one port. */
  lemma AnswerEmits(net: Network, st: State, i: int, st': State)
    requires Next(net, st, Answer(i), st') && st.next !in st.copies && st.next !in st.delivered
    requires var c := st.copies[i]; (c.s, c.f.dst) in st'.know.macs
    ensures var c := st.copies[i]; LeftOnlyBy(net, st, st', c, Place(c.s, st'.know.macs[(c.s, c.f.dst)]))
  {
    var c := st.copies[i];
    var know := st.know.AfterPacketIn(c.s, c.inPort, c.f.src, c.f.dst);
    assert know.Decide(c.s, c.f.dst) == Out(know.macs[(c.s, c.f.dst)]);
    EmitOne(net, st, i, know, know.macs[(c.s, c.f.dst)]);
  }

  lemma AnswerUnicast(net: Network, st: State, i: int, st': State)
    requires net.Valid() && Inv(net, st) && Next(net, st, Answer(i), st')
    requires var c := st.copies[i]; (c.s, c.f.dst) in st'.know.macs
    ensures var c := st.copies[i];
      && net.IsSwitch(c.s) && c.f.dst in net.hosts && net.IsSwitch(net.hosts[c.f.dst].s)
      && LeftOnlyBy(net, st, st', c, Place(c.s, net.Toward(c.s, net.hosts[c.f.dst])))
  {
    var c := st.copies[i];
    assert CopyOk(net, st, c);
    LearnedPointsHome(net, st, c);
    NumbersFresh(net, st);
    AnswerEmits(net, st, i, st');
  }

  /** A frame for a host that the switch has heard from leaves by the port towards that host only, in
      whatever order packet-ins are answered and whether or not the controller is asked. */
  lemma HeardThenUnicast(net: Network, r: seq<State>, steps: seq<Step>, k: nat)
    requires net.Valid() && Run(net, r, steps) && k < |steps| && (steps[k].Match? || steps[k].Answer?)
    requires steps[k].i in r[k].copies
    requires var c := r[k].copies[steps[k].i]; Heard(r[..k + 1], steps[..k], c.s, c.f.dst)
    ensures var c := r[k].copies[steps[k].i];
      && net.IsSwitch(c.s) && c.f.dst in net.hosts && net.IsSwitch(net.hosts[c.f.dst].s)
      && LeftOnlyBy(net, r[k], r[k + 1], c, Place(c.s, net.Toward(c.s, net.hosts[c.f.dst])))
  {
    var c := r[k].copies[steps[k].i];
    InvAt(net, r, steps, k);
    RunPrefix(net, r, steps, k);
    KnownExactly(net, r[..k + 1], steps[..k], c.s, c.f.dst);
    RunStep(net, r, steps, k);
    StepLearns(net, r[k], steps[k], r[k + 1], c.s, c.f.dst);
    if steps[k].Match? {
      MatchUnicast(net, r[k], steps[k].i, r[k + 1]);
    } else {
      AnswerUnicast(net, r[k], steps[k].i, r[k + 1]);
    }
  }

  /** Frame `f` has been only on the way from its sender to `at`, and delivered nowhere else. */
  ghost predicate OnTheWay(net: Network, st: State, f: Frame, o: Switch, at: Place)
    requires net.Valid() && net.IsSwitch(o) && net.IsSwitch(at.s)
  {
    f in st.sent && forall j, x :: PartOnTheWay(net, st, f, o, at, j, x)
  }

  /** So are its copy and delivery number `j`, and switch `x` if it has processed it. */
  ghost predicate PartOnTheWay(net: Network, st: State, f: Frame, o: Switch, at: Place, j: int, x: Switch)
    requires net.Valid() && net.IsSwitch(o) && net.IsSwitch(at.s)
  {
    && (j in st.copies && st.copies[j].f == f ==> net.OnPath(o, st.copies[j].s, at.s))
    && (j in st.delivered && st.delivered[j].f == f ==> st.delivered[j].at == at)
    && ((f, x) in st.seen ==> net.OnPath(o, x, at.s))
  }

  lemma SentIsOnTheWay(net: Network, st: State, f: Frame, st': State, at: Place)
    requires net.Valid() && Inv(net, st) && Next(net, st, Send(f), st') && net.IsSwitch(at.s)
    ensures net.IsSwitch(net.hosts[f.src].s) && OnTheWay(net, st', f, net.hosts[f.src].s, at)
  {
    assert net.HostOk(f.src);
    net.OnPathStart(net.hosts[f.src].s, at.s);
    forall j | j in st.copies ensures st.copies[j].f != f { assert CopyOk(net, st, st.copies[j]); }
    forall j | j in st.delivered ensures st.delivered[j].f != f { assert DeliveryOk(net, st, st.delivered[j]); }
  }

  /** The switch that holds copy `c` has processed it, and everything else is as it was. */
  ghost predicate Processed(st: State, st': State, c: Copy) {
    && st'.sent == st.sent && st'.seen == st.seen + {(c.f, c.s)}
    && (forall j :: j in st.copies && j in st'.copies ==> st'.copies[j] == st.copies[j])
    && (forall j :: j in st.delivered && j in st'.delivered ==> st'.delivered[j] == st.delivered[j])
  }

  lemma StepProcesses(net: Network, st: State, step: Step, st': State)
    requires net.Valid() && Inv(net, st) && Next(net, st, step, st') && (step.Match? || step.Answer?)
    ensures step.i in st.copies && Processed(st, st', st.copies[step.i])
  {
    var c := st.copies[step.i];
    if step.Match? {
      EmitFrame(net, st, step.i, st.know, [st.know.flows[(c.s, c.inPort, c.f.dst)]]);
    } else {
      var know := st.know.AfterPacketIn(c.s, c.inPort, c.f.src, c.f.dst);
      EmitFrame(net, st, step.i, know, PortsOf(net, c.s, know.Decide(c.s, c.f.dst)));
    }
  }

  /** One hop along the way. */
  lemma HopOnTheWay(net: Network, st: State, st': State, c: Copy, o: Switch, at: Place)
    requires net.Valid() && net.IsSwitch(o) && net.IsSwitch(at.s) && OnTheWay(net, st, c.f, o, at)
    requires net.IsSwitch(c.s) && net.OnPath(o, c.s, at.s)
    requires at !in net.peer && LeftOnlyBy(net, st, st', c, Place(c.s, net.Toward(c.s, at)))
    requires Processed(st, st', c)
    ensures OnTheWay(net, st', c.f, o, at)
  {
    if c.s == at.s {
      assert Place(c.s, net.Toward(c.s, at)) == at;
    } else {
      net.OnPathAhead(o, c.s, at.s);
      net.HopNearer(c.s, at.s);
    }
    forall j, x ensures PartOnTheWay(net, st', c.f, o, at, j, x) { assert PartOnTheWay(net, st, c.f, o, at, j, x); }
  }

  lemma EmitFrame(net: Network, st: State, i: int, know: Knowledge, outs: seq<Port>)
    requires net.Valid() && Inv(net, st) && i in st.copies
    ensures var st' := Emit(net, st, i, know, outs);
      && (forall j :: j in st.copies && j in st'.copies ==> st'.copies[j] == st.copies[j])
      && (forall j :: j in st.delivered && j in st'.delivered ==> st'.delivered[j] == st.delivered[j])
      && (forall j :: j in st'.copies && j !in st.copies ==> st'.copies[j].f == st.copies[i].f)
      && (forall j :: j in st'.delivered && j !in st.delivered ==> st'.delivered[j].f == st.copies[i].f)
  {
  }

  /** Nothing has been added for frame `f`, and nothing of it has moved. */
  ghost predicate Rests(st: State, st': State, f: Frame) {
    && st.sent <= st'.sent
    && (forall j :: j in st'.copies && st'.copies[j].f == f ==>
          j in st.copies && st.copies[j].f == f && st.copies[j].s == st'.copies[j].s)
    && (forall j :: j in st'.delivered && st'.delivered[j].f == f ==>
          j in st.delivered && st.delivered[j] == st'.delivered[j])
    && (forall x :: (f, x) in st'.seen ==> (f, x) in st.seen)
  }

  lemma RestsOnTheWay(net: Network, st: State, st': State, f: Frame, o: Switch, at: Place)
    requires net.Valid() && net.IsSwitch(o) && net.IsSwitch(at.s) && OnTheWay(net, st, f, o, at) && Rests(st, st', f)
    ensures OnTheWay(net, st', f, o, at)
  {
    forall j, x ensures PartOnTheWay(net, st', f, o, at, j, x) { assert PartOnTheWay(net, st, f, o, at, j, x); }
  }

  lemma EmitRests(net: Network, st: State, i: int, know: Knowledge, outs: seq<Port>, f: Frame)
    requires net.Valid() && Inv(net, st) && i in st.copies && st.copies[i].f != f
    ensures Rests(st, Emit(net, st, i, know, outs), f)
  {
    EmitFrame(net, st, i, know, outs);
  }

  /** The step is not a switch's processing of frame `f`. */
  lemma OtherStep(net: Network, st: State, step: Step, st': State, f: Frame)
    requires net.Valid() && Inv(net, st) && Next(net, st, step, st') && f in st.sent
    requires step.Match? || step.Answer? ==> st.copies[step.i].f != f
    ensures Rests(st, st', f)
  {
    match step
    case Send(g) =>
    case Miss(i) =>
    case Match(i) =>
      EmitRests(net, st, i, st.know, [st.know.flows[(st.copies[i].s, st.copies[i].inPort, st.copies[i].f.dst)]], f);
    case Answer(i) =>
      var c := st.copies[i];
      var know := st.know.AfterPacketIn(c.s, c.inPort, c.f.src, c.f.dst);
      EmitRests(net, st, i, know, PortsOf(net, c.s, know.Decide(c.s, c.f.dst)), f);
  }

  /** Sender and destination of the frame are hosts of the network. */
  ghost predicate Addressed(net: Network, f: Frame) {
    && f.src in net.hosts && net.IsSwitch(net.hosts[f.src].s)
    && f.dst in net.hosts && net.IsSwitch(net.hosts[f.dst].s)
  }

  /** Every switch on the way from `f`'s sender to its destination had heard from the destination. */
  ghost predicate WayHeard(net: Network, r: seq<State>, steps: seq<Step>, f: Frame)
    requires net.Valid() && Addressed(net, f)
  {
    forall x :: net.OnPath(net.hosts[f.src].s, x, net.hosts[f.dst].s) ==> Heard(r, steps, x, f.dst)
  }

  lemma WayHeardLater(net: Network, r: seq<State>, steps: seq<Step>, k: nat, m: nat, f: Frame)
    requires net.Valid() && Addressed(net, f)
    requires k <= m <= |steps| && |r| == |steps| + 1 && WayHeard(net, r[..k + 1], steps[..k], f)
    ensures WayHeard(net, r[..m + 1], steps[..m], f)
  {
    forall x | net.OnPath(net.hosts[f.src].s, x, net.hosts[f.dst].s) ensures Heard(r[..m + 1], steps[..m], x, f.dst) {
      HeardLater(r, steps, k, m, x, f.dst);
    }
  }

  /** A switch on the way processes the frame. */
  lemma WayHop(net: Network, r: seq<State>, steps: seq<Step>, m: nat, f: Frame)
    requires net.Valid() && Run(net, r, steps) && m < |steps| && Addressed(net, f)
    requires (steps[m].Match? || steps[m].Answer?) && steps[m].i in r[m].copies && r[m].copies[steps[m].i].f == f
    requires WayHeard(net, r[..m + 1], steps[..m], f)
    requires OnTheWay(net, r[m], f, net.hosts[f.src].s, net.hosts[f.dst])
    ensures OnTheWay(net, r[m + 1], f, net.hosts[f.src].s, net.hosts[f.dst])
  {
    var c, o, at := r[m].copies[steps[m].i], net.hosts[f.src].s, net.hosts[f.dst];
    assert PartOnTheWay(net, r[m], f, o, at, steps[m].i, c.s);
    assert net.HostOk(f.dst);
    HeardThenUnicast(net, r, steps, m);
    InvAt(net, r, steps, m);
    RunStep(net, r, steps, m);
    StepProcesses(net, r[m], steps[m], r[m + 1]);
    HopOnTheWay(net, r[m], r[m + 1], c, o, at);
  }

  lemma WayStep(net: Network, r: seq<State>, steps: seq<Step>, m: nat, f: Frame)
    requires net.Valid() && Run(net, r, steps) && m < |steps| && Addressed(net, f)
    requires WayHeard(net, r[..m + 1], steps[..m], f)
    requires OnTheWay(net, r[m], f, net.hosts[f.src].s, net.hosts[f.dst])
    ensures OnTheWay(net, r[m + 1], f, net.hosts[f.src].s, net.hosts[f.dst])
  {
    InvAt(net, r, steps, m);
    RunStep(net, r, steps, m);
    if (steps[m].Match? || steps[m].Answer?) && r[m].copies[steps[m].i].f == f {
      WayHop(net, r, steps, m, f);
    } else {
      OtherStep(net, r[m], steps[m], r[m + 1], f);
      RestsOnTheWay(net, r[m], r[m + 1], f, net.hosts[f.src].s, net.hosts[f.dst]);
    }
  }

  /** Frame `f` is sent by step `k`, when every switch on its way has heard from its destination. */
  ghost predicate SentWhenHeard(net: Network, r: seq<State>, steps: seq<Step>, k: nat, f: Frame)
    requires net.Valid() && |r| == |steps| + 1
  {
    k < |steps| && steps[k] == Send(f) && Addressed(net, f) && WayHeard(net, r[..k + 1], steps[..k], f)
  }

  /** The frame has been only on the way to its destination, and delivered nowhere else. */
  ghost predicate Unicast(net: Network, st: State, f: Frame)
    requires net.Valid()
  {
    Addressed(net, f) && OnTheWay(net, st, f, net.hosts[f.src].s, net.hosts[f.dst])
  }

  lemma WayStarts(net: Network, r: seq<State>, steps: seq<Step>, k: nat, f: Frame)
    requires net.Valid() && Run(net, r, steps) && k < |steps| && steps[k] == Send(f) && Addressed(net, f)
    ensures Unicast(net, r[k + 1], f)
  {
    InvAt(net, r, steps, k);
    RunStep(net, r, steps, k);
    SentIsOnTheWay(net, r[k], f, r[k + 1], net.hosts[f.dst]);
  }

  lemma WayGoesOn(net: Network, r: seq<State>, steps: seq<Step>, k: nat, m: nat, f: Frame)
    requires net.Valid() && Run(net, r, steps) && SentWhenHeard(net, r, steps, k, f) && k < m < |steps|
    requires Unicast(net, r[m], f)
    ensures Unicast(net, r[m + 1], f)
  {
    WayHeardLater(net, r, steps, k, m, f);
    WayStep(net, r, steps, m, f);
  }

  /** If the frame is on its way before step `m`, it is so after it. */
  ghost predicate Stays(net: Network, r: seq<State>, m: nat, f: Frame)
    requires net.Valid() && m + 1 < |r|
  {
    Unicast(net, r[m], f) ==> Unicast(net, r[m + 1], f)
  }

  lemma WayStays(net: Network, r: seq<State>, steps: seq<Step>, k: nat, m: nat, f: Frame)
    requires net.Valid() && Run(net, r, steps) && SentWhenHeard(net, r, steps, k, f) && k < m < |steps|
    ensures Stays(net, r, m, f)
  {
    if Unicast(net, r[m], f) { WayGoesOn(net, r, steps, k, m, f); }
  }

  lemma {:induction false} StaysTo(net: Network, r: seq<State>, k: nat, m: nat, f: Frame)
    requires net.Valid() && k < m < |r| && Unicast(net, r[k + 1], f)
    requires forall n :: k < n < m ==> Stays(net, r, n, f)
    ensures Unicast(net, r[m], f)
    decreases m
  {
    if k + 1 < m {
      StaysTo(net, r, k, m - 1, f);
      assert Stays(net, r, m - 1, f);
    }
  }

  /** Once every switch on the way has heard from a host, a frame sent to that host stays on the way,
      and is delivered to it and nowhere else. */
  lemma UnicastOnly(net: Network, r: seq<State>, steps: seq<Step>, k: nat, m: nat, f: Frame)
    requires net.Valid() && Run(net, r, steps) && SentWhenHeard(net, r, steps, k, f) && k < m <= |steps|
    ensures Unicast(net, r[m], f)
  {
    WayStarts(net, r, steps, k, f);
    forall n | k < n < m ensures Stays(net, r, n, f) { WayStays(net, r, steps, k, n, f); }
    StaysTo(net, r, k, m, f);
  }

  // ----- which frames no longer reach the controller

  /** Step `k` answers a packet-in of switch `s` for a frame to `d` on port `p`, and the switch has heard
      from `d` by then; the frame itself counts, since its source is learned first. */
  ghost predicate Installs(r: seq<State>, steps: seq<Step>, k: nat, s: Switch, p: Port, d: Mac)
    requires k < |steps| && k < |r|
  {
    && steps[k].Answer? && steps[k].i in r[k].copies
    && (var c := r[k].copies[steps[k].i]; c.s == s && c.inPort == p && c.f.dst == d)
    && Heard(r[..k + 1], steps[..k + 1], s, d)
  }

  ghost predicate Installed(r: seq<State>, steps: seq<Step>, s: Switch, p: Port, d: Mac) {
    exists k :: 0 <= k < |steps| && k < |r| && Installs(r, steps, k, s, p, d)
  }

  lemma InstalledNext(r: seq<State>, steps: seq<Step>, s: Switch, p: Port, d: Mac)
    requires |r| == |steps| + 1 && steps != []
    ensures var n := |steps| - 1;
            Installed(r, steps, s, p, d) <==>
              Installed(r[..n + 1], steps[..n], s, p, d) || Installs(r, steps, n, s, p, d)
  {
    var n := |steps| - 1;
    var r', steps' := r[..n + 1], steps[..n];
    forall k | 0 <= k < n ensures Installs(r, steps, k, s, p, d) == Installs(r', steps', k, s, p, d) {
      assert r'[..k + 1] == r[..k + 1] && steps'[..k + 1] == steps[..k + 1];
    }
    if Installed(r', steps', s, p, d) {
      var k :| 0 <= k < n && Installs(r', steps', k, s, p, d);
      assert Installs(r, steps, k, s, p, d);
    }
    if Installed(r, steps, s, p, d) {
      var k :| 0 <= k <= n && Installs(r, steps, k, s, p, d);
      assert k < n ==> Installs(r', steps', k, s, p, d);
    }
  }

  lemma StepInstalls(net: Network, st: State, step: Step, st': State, s: Switch, p: Port, d: Mac)
    requires Next(net, st, step, st')
    ensures (s, p, d) in st'.know.flows <==>
              ((s, p, d) in st.know.flows
               || (step.Answer? && (s, d) in st'.know.macs
                   && var c := st.copies[step.i]; c.s == s && c.inPort == p && c.f.dst == d))
  {
  }

  /** A switch holds an entry exactly when such a packet-in was answered after it had heard from the
      destination. */
  lemma {:induction false} InstalledExactly(net: Network, r: seq<State>, steps: seq<Step>, s: Switch, p: Port, d: Mac)
    requires Run(net, r, steps)
    ensures (s, p, d) in End(r).know.flows <==> Installed(r, steps, s, p, d)
    decreases |steps|
  {
    if steps != [] {
      var n := |steps| - 1;
      InstalledExactly(net, r[..n + 1], steps[..n], s, p, d);
      InstalledNext(r, steps, s, p, d);
      StepInstalls(net, r[n], steps[n], r[n + 1], s, p, d);
      KnownExactly(net, r, steps, s, d);
      assert steps[..n + 1] == steps;
      HeardShort(r, steps, s, d);
    }
  }

  /** The last state of a run plays no part in what has been heard. */
  lemma HeardShort(r: seq<State>, steps: seq<Step>, s: Switch, d: Mac)
    requires |r| == |steps| + 1
    ensures Heard(r[..|steps|], steps, s, d) <==> Heard(r, steps, s, d)
  {
    var r' := r[..|steps|];
    if Heard(r, steps, s, d) {
      var k :| 0 <= k < |steps| && Hears(r[k], steps[k], s, d);
      assert Hears(r'[k], steps[k], s, d);
    }
    if Heard(r', steps, s, d) {
      var k :| 0 <= k < |steps| && Hears(r'[k], steps[k], s, d);
      assert Hears(r[k], steps[k], s, d);
    }
  }

  ghost predicate CanMatch(net: Network, st: State, j: int) {
    exists st' :: Next(net, st, Match(j), st')
  }

  ghost predicate CanMiss(net: Network, st: State, j: int) {
    exists st' :: Next(net, st, Miss(j), st')
  }

  /** A copy that arrives is forwarded without the controller exactly when a packet-in for the same
      switch, port and destination was answered after the switch had heard from that destination;
      otherwise it goes to the controller. */
  lemma AskedOnce(net: Network, r: seq<State>, steps: seq<Step>, j: int)
    requires Run(net, r, steps) && j in End(r).copies && !End(r).copies[j].waiting
    ensures var c := End(r).copies[j];
      && (CanMatch(net, End(r), j) <==> Installed(r, steps, c.s, c.inPort, c.f.dst))
      && (CanMiss(net, End(r), j) <==> !Installed(r, steps, c.s, c.inPort, c.f.dst))
  {
    var st, c := End(r), End(r).copies[j];
    InstalledExactly(net, r, steps, c.s, c.inPort, c.f.dst);
    if (c.s, c.inPort, c.f.dst) in st.know.flows {
      assert Next(net, st, Match(j), Emit(net, st, j, st.know, [st.know.flows[(c.s, c.inPort, c.f.dst)]]));
    } else {
      assert Next(net, st, Miss(j), st.(copies := st.copies[j := c.(waiting := true)]));
    }
  }
}
