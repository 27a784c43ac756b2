/** The routing controller: which path every flow is on, and the FlowMods it has sent. */
module RemoteController {
  import opened Sequences
  import opened Sets
  import opened FlowTables
  import opened FlowIds
  import opened InstallPath
  import opened LatencyGraph
  import opened MigrationPlan
  import opened ShortestPath

  /** Where a host is attached. */
  datatype Attachment = Attachment(sw: Switch, port: Port)

  datatype Bias = ShortestFirst | RandomChoice

  /** `Config.qMode`: routing by shortest paths alone, or one of the learning modes. */
  datatype QMode = ShortestPathMode | LearningMode

  const MAX_POSSIBLE_PATHS: nat := 50

  function MatchOf(id: string): Match
    requires SEPARATOR in id
  {
    var (src, dst) := BuildIpAddresses(id);
    Ipv4(src, dst)
  }

  /** `functions.filter_paths`: the sorted list is dropped, so this keeps the first paths found. */
  function FilterPaths(paths: seq<seq<Switch>>, bound: nat): seq<seq<Switch>> {
    if |paths| <= bound then paths else paths[..bound]
  }

  /** A path a flow may be on or be moved to. */
  ghost predicate Candidate(net: Net, p: seq<Switch>, first: Switch, last: Switch) {
    |p| > 0 && NoDup(p) && net.PathLinked(p) && p[0] == first && p[|p| - 1] == last
  }

  /** The links the controller has discovered are known from both ends. */
  ghost predicate Discovered(net: Net) {
    net.Faithful() && forall a, b :: net.Linked(a, b) ==> net.Linked(b, a)
  }

  /** Everything the controller keeps about its flows, and the tables its messages have built. */
  datatype FlowState = FlowState(chosen: map<string, seq<Switch>>, paths: map<string, seq<seq<Switch>>>,
                                 sent: seq<FlowMod>, tables: Table, egress: map<string, Port>) {
    /** The tables hold exactly the chosen path of flow `id`, and every path it may be moved to
        joins the same two switches. */
    ghost predicate FlowOk(net: Net, id: string) {
      && id in chosen && id in egress && id in paths
      && SEPARATOR in id && id == BuildId(MatchOf(id).src, MatchOf(id).dst)
      && var path := chosen[id];
      && |path| > 0 && Candidate(net, path, path[0], path[|path| - 1])
      && (forall p :: p in paths[id] ==> Candidate(net, p, path[0], path[|path| - 1]))
      && net.IsHostPort(path[|path| - 1], egress[id])
      && net.HoldsPath(tables, MatchOf(id), path, egress[id])
    }

    /** What every reachable controller satisfies: the messages explain the tables, every flow is
        exactly on its chosen path, and no other IPv4 entry exists. */
    ghost predicate Valid(net: Net) {
      && Discovered(net)
      && tables == ApplyAll(map[], sent)
      && (forall id :: id in chosen ==> FlowOk(net, id))
      && (forall s, src, dst :: (s, Ipv4(src, dst)) in tables ==> BuildId(src, dst) in chosen)
    }

    /** The state after `mods` have been sent and flow `id` has been recorded on `path`. */
    ghost function Updated(id: string, path: seq<Switch>, ps: seq<seq<Switch>>, hostPort: Port,
                           mods: seq<FlowMod>): FlowState {
      FlowState(chosen[id := path], paths[id := ps], sent + mods, ApplyAll(tables, mods), egress[id := hostPort])
    }

    /** Messages that leave the entries of all other matches alone keep every other flow exactly
        on its path. */
    lemma {:induction false} OthersOk(net: Net, m: Match, t': Table, f: string)
      requires Valid(net) && f in chosen && MatchOf(f) != m
      requires forall s, f :: f != m ==> SameEntry(tables, t', s, f)
      ensures this.(tables := t').FlowOk(net, f)
    {
      assert FlowOk(net, f);
      PathKept(net, tables, t', MatchOf(f), chosen[f], egress[f]);
    }

    /** Putting one flow on `path` keeps the controller valid, if the messages leave exactly that
        path for the flow's match and do not touch the others. */
    lemma {:induction false} UpdateOk(net: Net, id: string, path: seq<Switch>, ps: seq<seq<Switch>>,
                                      hostPort: Port, mods: seq<FlowMod>)
      requires Valid(net)
      requires SEPARATOR in id && id == BuildId(MatchOf(id).src, MatchOf(id).dst)
      requires |path| > 0 && Candidate(net, path, path[0], path[|path| - 1])
      requires forall p :: p in ps ==> Candidate(net, p, path[0], path[|path| - 1])
      requires net.IsHostPort(path[|path| - 1], hostPort)
      requires net.HoldsPath(ApplyAll(tables, mods), MatchOf(id), path, hostPort)
      requires forall s, f :: f != MatchOf(id) ==> SameEntry(tables, ApplyAll(tables, mods), s, f)
      ensures Updated(id, path, ps, hostPort, mods).Valid(net)
    {
      var st := Updated(id, path, ps, hostPort, mods);
      ApplyAllConcat(map[], sent, mods);
      forall f | f in st.chosen ensures st.FlowOk(net, f) {
        if f != id {
          assert FlowOk(net, f);
          OthersOk(net, MatchOf(id), st.tables, f);
        }
      }
      forall s, src, dst | (s, Ipv4(src, dst)) in st.tables ensures BuildId(src, dst) in st.chosen {
        if Ipv4(src, dst) != MatchOf(id) { assert SameEntry(tables, st.tables, s, Ipv4(src, dst)); }
      }
    }
  }

  ghost predicate SameEntry(t: Table, t': Table, s: Switch, f: Match) {
    ((s, f) in t <==> (s, f) in t') && ((s, f) in t ==> t[(s, f)] == t'[(s, f)])
  }

  /** Tables with the same entries for `m` hold the same path for it. */
  lemma PathKept(net: Net, t: Table, t': Table, m: Match, path: seq<Switch>, hostPort: Port)
    requires net.PathLinked(path) && net.HoldsPath(t, m, path, hostPort) && forall s :: SameEntry(t, t', s, m)
    ensures net.HoldsPath(t', m, path, hostPort)
  {
    forall s ensures (s, m) in t' <==> s in path { assert SameEntry(t, t', s, m); }
    forall i | 0 <= i < |path| ensures net.Forwards(t', m, path, hostPort, i) {
      assert net.Forwards(t, m, path, hostPort, i) && SameEntry(t, t', path[i], m);
    }
  }

  /** A new flow on tables that hold nothing for it. */
  lemma {:induction false} InstalledOk(net: Net, st: FlowState, src: string, dst: string, path: seq<Switch>,
                                       ps: seq<seq<Switch>>, hostPort: Port)
    requires st.Valid(net) && SEPARATOR !in src && SEPARATOR !in dst && BuildId(src, dst) !in st.chosen
    requires |path| > 0 && Candidate(net, path, path[0], path[|path| - 1])
    requires forall p :: p in ps ==> Candidate(net, p, path[0], path[|path| - 1])
    requires net.IsHostPort(path[|path| - 1], hostPort)
    ensures st.Updated(BuildId(src, dst), path, ps, hostPort,
                       InstallMods(net, Ipv4(src, dst), path, hostPort, |path|)).Valid(net)
  {
    var m := Ipv4(src, dst);
    var mods := InstallMods(net, m, path, hostPort, |path|);
    IdRoundTrip(src, dst);
    assert forall s :: (s, m) !in st.tables;
    InstallHolds(net, st.tables, m, path, hostPort);
    forall s, f | f != m ensures SameEntry(st.tables, ApplyAll(st.tables, mods), s, f) {
      AfterInstall(net, st.tables, m, path, hostPort, |path|, s, f);
    }
    st.UpdateOk(net, BuildId(src, dst), path, ps, hostPort, mods);
  }

  /** A migration between candidate paths of flow `id` is well formed. */
  lemma {:induction false} MigrationOk(net: Net, st: FlowState, g: Migration, id: string)
    requires st.Valid(net) && id in st.chosen && st.FlowOk(net, id) && g.next in st.paths[id]
    requires g.net == net && g.m == MatchOf(id) && g.prev == st.chosen[id] && g.hostPort == st.egress[id]
    requires NoDup(g.dels) && forall s :: s in g.dels <==> s in g.prev && s !in g.next
    ensures g.Valid() && net.HoldsPath(st.tables, g.m, g.prev, g.hostPort)
  {
  }

  lemma OthersSame(g: Migration, t: Table, s: Switch, f: Match)
    requires g.Valid() && f != g.m
    ensures SameEntry(t, ApplyAll(t, g.Plan()), s, f)
  {
    assert g.Plan()[..|g.Plan()|] == g.Plan();
    g.OtherMatchesUntouched(t, |g.Plan()|, s, f);
  }

  /** After the whole plan the flow is exactly on its new path, and nothing else has changed. */
  lemma {:induction false} ReroutedOk(net: Net, st: FlowState, g: Migration, id: string)
    requires st.Valid(net) && id in st.chosen && st.FlowOk(net, id) && g.next in st.paths[id] && g.Valid()
    requires g.net == net && g.m == MatchOf(id) && g.prev == st.chosen[id] && g.hostPort == st.egress[id]
    ensures st.Updated(id, g.next, st.paths[id], g.hostPort, g.Plan()).Valid(net)
  {
    var t' := ApplyAll(st.tables, g.Plan());
    g.PlanInstallsNext(st.tables);
    forall s, f | f != g.m ensures SameEntry(st.tables, t', s, f) { OthersSame(g, st.tables, s, f); }
    st.UpdateOk(net, id, g.next, st.paths[id], g.hostPort, g.Plan());
  }

  class ControllerMain {
    const net: Net
    var chosenPathPerFlow: map<string, seq<Switch>>
    var pathsPerFlows: map<string, seq<seq<Switch>>>
    var sent: seq<FlowMod>
    ghost var tables: Table
    ghost var egress: map<string, Port>

    ghost function State(): FlowState
      reads this
    {
      FlowState(chosenPathPerFlow, pathsPerFlows, sent, tables, egress)
    }

    ghost predicate Valid()
      reads this
    {
      State().Valid(net)
    }

    constructor (net: Net)
      requires Discovered(net)
      ensures Valid() && this.net == net && chosenPathPerFlow == map[] && sent == []
    {
      this.net := net;
      chosenPathPerFlow, pathsPerFlows, sent := map[], map[], [];
      tables, egress := map[], map[];
    }

    /** `datapath.send_msg`. */
    method SendMsg(m: FlowMod)
      modifies this`sent, this`tables
      ensures sent == old(sent) + [m] && tables == Apply(old(tables), m)
    {
      sent := sent + [m];
      tables := Apply(tables, m);
    }

    /** One table entry per switch of the chosen path. */
    method Install(path: seq<Switch>, firstPort: Port, lastPort: Port, m: Match)
      requires |path| > 0 && NoDup(path) && net.PathLinked(path) && BackLinked(net, path)
      modifies this`sent, this`tables
      ensures sent == old(sent) + InstallMods(net, m, path, lastPort, |path|)
      ensures tables == ApplyAll(old(tables), InstallMods(net, m, path, lastPort, |path|))
    {
      var ports := AddPortsToPath(net, path, firstPort, lastPort);
      ghost var t0 := tables;
      for k := 0 to |path|
        invariant sent == old(sent) + InstallMods(net, m, path, lastPort, k)
        invariant tables == ApplyAll(t0, InstallMods(net, m, path, lastPort, k))
      {
        var node := path[k];
        assert node in ports && ports[node].1 == net.EntryFor(path, lastPort, k) by {
          assert PortsAt(net, path, firstPort, lastPort, ports, k);
        }
        InstallNext(net, t0, m, path, lastPort, k);
        if node in ports {
          SendMsg(Add(node, m, ports[node].1));
        }
      }
    }

    lemma CandidateBackLinked(p: seq<Switch>)
      requires Discovered(net) && net.PathLinked(p)
      ensures BackLinked(net, p)
    {
      forall i | 0 <= i < |p| - 1 ensures net.Linked(p[i + 1], p[i]) { assert net.LinkAt(p, i); }
    }

    /** The latency map covers exactly the discovered links. */
    ghost predicate Covers(latency: Graph) {
      forall a, b :: Edge(latency, a, b) <==> net.Linked(a, b)
    }

    lemma {:induction false} RouteIsCandidate(latency: Graph, src: Switch, dst: Switch, p: seq<Switch>)
      requires Covers(latency) && IsRoute(latency, src, dst, p)
      ensures Candidate(net, p, src, dst)
    {
      forall i | 0 <= i < |p| - 1 ensures net.LinkAt(p, i) { assert EdgeAt(latency, p, i); }
    }

    lemma {:induction false} AllCandidates(latency: Graph, src: Switch, dst: Switch, ps: seq<seq<Switch>>)
      requires Covers(latency) && forall p :: p in ps ==> IsRoute(latency, src, dst, p)
      ensures forall p :: p in ps ==> Candidate(net, p, src, dst)
    {
      forall p | p in ps ensures Candidate(net, p, src, dst) { RouteIsCandidate(latency, src, dst, p); }
    }

    /** Two latency maps of the discovered links have the same walks. */
    lemma {:induction false} SameWalks(latency: Graph, latencySpf: Graph, src: Switch, dst: Switch, w: seq<Switch>)
      requires Covers(latency) && Covers(latencySpf) && IsWalkBetween(latency, src, dst, w)
      ensures IsWalkBetween(latencySpf, src, dst, w)
    {
      forall i | 0 <= i < |w| - 1 ensures EdgeAt(latencySpf, w, i) { assert EdgeAt(latency, w, i); }
    }

    /** No walk on `latency` between the two switches costs less. */
    ghost predicate Cheapest(latency: Graph, src: Switch, dst: Switch, path: seq<Switch>) {
      Symmetric(latency) && IsWalk(latency, path) &&
      forall w :: IsWalkBetween(latency, src, dst, w) ==> Cost(latency, path) <= Cost(latency, w)
    }

    /** What `RoutingIp` chooses between. In the shortest-path mode routes are ranked on the latencies
        recorded once, `latencySpf`, and the list is not cut. */
    method ChoosePath(latency: Graph, latencySpf: Graph, src: Switch, dst: Switch, mode: QMode, bias: Bias, pick: nat)
      returns (path: seq<Switch>, paths: seq<seq<Switch>>)
      requires Symmetric(latency) && exists w :: IsWalkBetween(latency, src, dst, w)
      requires mode == ShortestPathMode ==> Symmetric(latencySpf) && exists w :: IsWalkBetween(latencySpf, src, dst, w)
      ensures NoDup(paths)
      ensures mode == ShortestPathMode ==>
                && path in paths && (forall p :: p in paths <==> IsRoute(latencySpf, src, dst, p))
                && (NonNegative(latencySpf) ==> Cheapest(latencySpf, src, dst, path))
      ensures mode == LearningMode ==>
                && IsRoute(latency, src, dst, path) && (forall p :: p in paths ==> IsRoute(latency, src, dst, p))
                && |paths| <= MAX_POSSIBLE_PATHS
                && (|paths| < MAX_POSSIBLE_PATHS ==> forall p :: IsRoute(latency, src, dst, p) ==> p in paths)
                && (bias == RandomChoice ==> path in paths)
                && (bias == ShortestFirst && NonNegative(latency) ==> Cheapest(latency, src, dst, path))
    {
      var optimal, all := GetOptimalPath(latency, src, dst);
      paths := FilterPaths(all, MAX_POSSIBLE_PATHS);
      assert forall p :: p in paths ==> p in all;
      assert optimal in all && |paths| > 0;
      if mode == ShortestPathMode {
        optimal, paths := GetOptimalPath(latencySpf, src, dst);
      }
      path := if bias == ShortestFirst || mode == ShortestPathMode then optimal else paths[pick % |paths|];
    }

    /** Sends the entries of a new flow and records its paths. */
    method RecordFlow(id: string, m: Match, path: seq<Switch>, paths: seq<seq<Switch>>, firstPort: Port, lastPort: Port)
      requires |path| > 0 && NoDup(path) && net.PathLinked(path) && BackLinked(net, path)
      modifies this
      ensures State() == old(State()).Updated(id, path, paths, lastPort, InstallMods(net, m, path, lastPort, |path|))
    {
      pathsPerFlows := pathsPerFlows[id := paths];
      Install(path, firstPort, lastPort, m);
      chosenPathPerFlow := chosenPathPerFlow[id := path];
      egress := egress[id := lastPort];
    }

    /** Installs the chosen path of a new flow. */
    method InstallFlow(src: string, dst: string, path: seq<Switch>, paths: seq<seq<Switch>>, firstPort: Port,
                       lastPort: Port)
      requires Valid()
      requires SEPARATOR !in src && SEPARATOR !in dst && BuildId(src, dst) !in chosenPathPerFlow
      requires |path| > 0 && Candidate(net, path, path[0], path[|path| - 1])
      requires forall p :: p in paths ==> Candidate(net, p, path[0], path[|path| - 1])
      requires net.IsHostPort(path[|path| - 1], lastPort)
      modifies this
      ensures Valid()
      ensures State() == old(State()).Updated(BuildId(src, dst), path, paths, lastPort,
                                             InstallMods(net, Ipv4(src, dst), path, lastPort, |path|))
    {
      CandidateBackLinked(path);
      InstalledOk(net, State(), src, dst, path, paths, lastPort);
      RecordFlow(BuildId(src, dst), Ipv4(src, dst), path, paths, firstPort, lastPort);
    }

    /** First packet of a flow: enumerate and rank the routes, choose one, install it. */
    method RoutingIp(latency: Graph, latencySpf: Graph, h1: Attachment, h2: Attachment, src: string, dst: string,
                     mode: QMode, bias: Bias, pick: nat)
      requires Valid() && Covers(latency) && (mode == ShortestPathMode ==> Covers(latencySpf))
      requires SEPARATOR !in src && SEPARATOR !in dst && BuildId(src, dst) !in chosenPathPerFlow
      requires exists w :: IsWalkBetween(latency, h1.sw, h2.sw, w)
      requires net.IsHostPort(h2.sw, h2.port)
      modifies this
      ensures Valid()
      ensures var id := BuildId(src, dst);
        && id in chosenPathPerFlow && id in pathsPerFlows && net.PathLinked(chosenPathPerFlow[id])
        && RightlyRouted(latency, latencySpf, h1.sw, h2.sw, mode, bias, chosenPathPerFlow[id], pathsPerFlows[id])
        && State() == old(State()).Updated(id, chosenPathPerFlow[id], pathsPerFlows[id], h2.port,
             InstallMods(net, Ipv4(src, dst), chosenPathPerFlow[id], h2.port, |chosenPathPerFlow[id]|))
    {
      ghost var w :| IsWalkBetween(latency, h1.sw, h2.sw, w);
      if mode == ShortestPathMode { SameWalks(latency, latencySpf, h1.sw, h2.sw, w); }
      var path, paths := ChoosePath(latency, latencySpf, h1.sw, h2.sw, mode, bias, pick);
      ghost var ranked := if mode == ShortestPathMode then latencySpf else latency;
      AllCandidates(ranked, h1.sw, h2.sw, paths);
      RouteIsCandidate(ranked, h1.sw, h2.sw, path);
      InstallFlow(src, dst, path, paths, h1.port, h2.port);
    }

    /** The path of a new flow and the paths it may be moved to. */
    ghost predicate RightlyRouted(latency: Graph, latencySpf: Graph, src: Switch, dst: Switch, mode: QMode, bias: Bias,
                                  path: seq<Switch>, paths: seq<seq<Switch>>) {
      var ranked := if mode == ShortestPathMode then latencySpf else latency;
      && IsRoute(ranked, src, dst, path) && (forall p :: p in paths ==> IsRoute(ranked, src, dst, p))
      && (mode == ShortestPathMode || bias == RandomChoice ==> path in paths)
      && (mode == ShortestPathMode || bias == ShortestFirst ==>
            NonNegative(ranked) ==> Cheapest(ranked, src, dst, path))
    }

    /** What the walk along the new path adds to the two lists at `switch`, the `i`-th on it. */
    method DiffHop(prev: seq<Switch>, newPath: seq<Switch>, deleteList: seq<Switch>, addList: seq<Switch>,
                   modList: seq<Switch>, i: nat, ghost g: Migration)
      returns (adds: seq<Switch>, mods: seq<Switch>)
      requires g.Valid() && g.prev == prev && g.next == newPath && g.dels == deleteList && i < |newPath|
      requires addList == g.Adds(i) && modList == if i == 0 then [] else g.ModsFound(i - 1)
      ensures adds == g.Adds(i + 1) && mods == g.ModsFound(i)
    {
      adds, mods := addList, modList;
      var switch := newPath[i];
      g.DiffStep(i);
      if switch in prev {
        var indexPrev := IndexOf(prev, switch);
        if i > 0 {
          if prev[indexPrev - 1] != newPath[i - 1] {
            if newPath[i - 1] !in addList && newPath[i - 1] !in deleteList && prev[indexPrev] !in deleteList {
              mods := mods + [newPath[i - 1]];
            }
          }
        }
      } else {
        adds := adds + [switch];
        var indexPrev := IndexOf(newPath, switch);
        mods := mods + [newPath[indexPrev - 1]];
      }
    }

    /** The switches to add and to modify, by walking the new path once. */
    method DiffPaths(prev: seq<Switch>, newPath: seq<Switch>, deleteList: seq<Switch>, ghost g: Migration)
      returns (addList: seq<Switch>, modList: seq<Switch>)
      requires g.Valid() && g.prev == prev && g.next == newPath && g.dels == deleteList
      ensures addList == g.Adds(|newPath|) && modList == g.ModsFound(|newPath| - 1)
    {
      addList, modList := [], [];
      var i := 0;
      while i < |newPath|
        invariant i <= |newPath| && addList == g.Adds(i)
        invariant modList == if i == 0 then [] else g.ModsFound(i - 1)
      {
        addList, modList := DiffHop(prev, newPath, deleteList, addList, modList, i, g);
        i := i + 1;
      }
    }

    /** The predecessor of an abandoned switch, if it stays, is already in the list. */
    lemma {:induction false} PredecessorModified(g: Migration, s: Switch)
      requires g.Valid() && s in g.dels
      ensures IndexOf(g.prev, s) > 0
      ensures g.prev[IndexOf(g.prev, s) - 1] !in g.dels ==> g.prev[IndexOf(g.prev, s) - 1] in g.Mods(|g.next| - 1)
    {
      var a := IndexOf(g.prev, s);
      var z := g.prev[a - 1];
      if z !in g.dels {
        var k := IndexOf(g.next, z);
        assert z in g.prev;
        assert a - 1 != |g.prev| - 1;
        g.UnmodifiedSame(k, a - 1);
        g.ModsHas(z);
      }
    }

    /** Found once more, listed switches disappear with the duplicates. */
    lemma {:induction false} OrderedMods(modList: seq<Switch>, extra: seq<Switch>, g: Migration)
      requires g.Valid() && modList == g.ModsFound(|g.next| - 1) && forall x :: x in extra ==> x in modList
      ensures Reverse(FromKeys(modList + extra)) == g.Mods(|g.next| - 1)
    {
      g.ModsReversed(|g.next| - 1);
      g.ModsNoDup();
      ReverseNoDup(modList);
      FromKeysAbsorbs(modList, extra);
    }

    lemma FoundAlready(g: Migration, z: Switch)
      requires g.Valid()
      ensures z in g.Mods(|g.next| - 1) <==> z in g.ModsFound(|g.next| - 1)
    {
      g.ModsReversed(|g.next| - 1);
      ReverseHas(g.ModsFound(|g.next| - 1), z);
    }

    /** Predecessors of abandoned switches, duplicates removed, reversed: the list is the one the
        first pass found. */
    method OrderMods(prev: seq<Switch>, modList: seq<Switch>, deleteList: seq<Switch>, ghost g: Migration)
      returns (ordered: seq<Switch>)
      requires g.Valid() && g.prev == prev && g.dels == deleteList && modList == g.ModsFound(|g.next| - 1)
      ensures ordered == g.Mods(|g.next| - 1)
    {
      ordered := modList;
      ghost var extra: seq<Switch> := [];
      for j := 0 to |deleteList|
        invariant ordered == modList + extra
        invariant forall x :: x in extra ==> x in modList
      {
        PredecessorModified(g, deleteList[j]);
        var before := prev[IndexOf(prev, deleteList[j]) - 1];
        FoundAlready(g, before);
        if before !in deleteList {
          ordered := ordered + [before];
          extra := extra + [before];
        }
      }
      OrderedMods(modList, extra, g);
      ordered := Reverse(FromKeys(ordered));
    }

    /** `list(set(prev).difference(newPath))`, in any order. */
    method Difference(prev: seq<Switch>, newPath: seq<Switch>) returns (dels: seq<Switch>)
      ensures NoDup(dels) && forall s :: s in dels <==> s in prev && s !in newPath
    {
      dels := [];
      var rest := set s | s in prev && s !in newPath;
      while rest != {}
        invariant NoDup(dels) && forall s :: s in dels ==> s !in rest
        invariant forall s :: s in dels || s in rest <==> s in prev && s !in newPath
        decreases rest
      {
        ghost var some := SomeElement(rest);
        var s :| s in rest;
        dels := dels + [s];
        rest := rest - {s};
      }
    }

    /** Sends the next hop of `switch` along the new path. */
    method SendNextHop(switch: Switch, newPath: seq<Switch>, m: Match, ghost g: Migration)
      requires g.net == net && g.next == newPath && g.m == m && net.PathLinked(newPath)
      requires switch in newPath && IndexOf(newPath, switch) + 1 < |newPath|
      modifies this`sent, this`tables
      ensures sent == old(sent) + [Add(switch, m, g.NextPort(switch))]
      ensures tables == Apply(old(tables), Add(switch, m, g.NextPort(switch)))
    {
      var nextIndex := IndexOf(newPath, switch) + 1;
      if nextIndex < |newPath| {
        assert net.LinkAt(newPath, nextIndex - 1);
        SendMsg(Add(switch, m, net.dataMap[switch][newPath[nextIndex]]));
      }
    }

    /** Sends the next hop of every switch in `ws` along the new path. */
    method SendWrites(ws: seq<Switch>, newPath: seq<Switch>, m: Match, ghost g: Migration)
      requires g.net == net && g.next == newPath && g.m == m && net.PathLinked(newPath) && g.Forwarders(ws)
      modifies this`sent, this`tables
      ensures sent == old(sent) + g.Writes(ws) && tables == ApplyAll(old(tables), g.Writes(ws))
    {
      ghost var t0 := tables;
      assert ws[..0] == [];
      for k := 0 to |ws|
        invariant g.Forwarders(ws[..k])
        invariant sent == old(sent) + g.Writes(ws[..k]) && tables == ApplyAll(t0, g.Writes(ws[..k]))
      {
        assert ws[..k + 1] == ws[..k] + [ws[k]];
        g.WritesNext(t0, ws[..k], ws[k]);
        SendNextHop(ws[k], newPath, m, g);
      }
      assert ws[..|ws|] == ws;
    }

    method SendDeletes(ds: seq<Switch>, m: Match, ghost g: Migration)
      requires g.m == m
      modifies this`sent, this`tables
      ensures sent == old(sent) + g.Deletes(ds) && tables == ApplyAll(old(tables), g.Deletes(ds))
    {
      ghost var t0 := tables;
      assert ds[..0] == [];
      for k := 0 to |ds|
        invariant sent == old(sent) + g.Deletes(ds[..k]) && tables == ApplyAll(t0, g.Deletes(ds[..k]))
      {
        g.DeletesPrefix(ds, k);
        SendMsg(Delete(ds[k], m));
      }
      assert ds[..|ds|] == ds;
    }

    /** Between any two messages of a rerouting the tables deliver the packets of the flow. */
    ghost predicate Safe(g: Migration, before: seq<FlowMod>, after: seq<FlowMod>, q: nat)
      requires g.Valid() && |before| <= q <= |after| && |after| == |before| + |g.Plan()|
    {
      g.Delivers(ApplyAll(map[], after[..q]), q - |before|)
    }

    /** What the whole message history has built after the first messages of a plan. */
    lemma TablesAfter(g: Migration, before: seq<FlowMod>, q: nat)
      requires g.Valid() && |before| <= q <= |before| + |g.Plan()|
      ensures ApplyAll(map[], (before + g.Plan())[..q]) == g.TableAt(ApplyAll(map[], before), q - |before|)
    {
      var sent := g.Plan()[..q - |before|];
      assert (before + g.Plan())[..q] == before + sent;
      ApplyAllConcat(map[], before, sent);
    }

    lemma {:induction false} EveryMessageSafe(g: Migration, before: seq<FlowMod>, q: nat)
      requires g.Valid() && g.net.HoldsPath(ApplyAll(map[], before), g.m, g.prev, g.hostPort)
      requires |before| <= q <= |before| + |g.Plan()|
      ensures Safe(g, before, before + g.Plan(), q)
    {
      TablesAfter(g, before, q);
      g.EveryStateDelivers(ApplyAll(map[], before), q - |before|);
    }

    /** The two halves of `Reroute`: compute the lists, then send adds, modifications, deletions. */
    method SendPlan(prev: seq<Switch>, newPath: seq<Switch>, deleteList: seq<Switch>, m: Match, ghost g: Migration)
      requires g.Valid() && g.net == net && g.prev == prev && g.next == newPath && g.m == m && g.dels == deleteList
      modifies this`sent, this`tables
      ensures sent == old(sent) + g.Plan() && tables == ApplyAll(old(tables), g.Plan())
    {
      var addList, modList := DiffPaths(prev, newPath, deleteList, g);
      var ordered := OrderMods(prev, modList, deleteList, g);
      g.PlanPortions(tables, sent);
      Send(addList, ordered, deleteList, newPath, m, g);
    }

    method Send(addList: seq<Switch>, modList: seq<Switch>, deleteList: seq<Switch>, newPath: seq<Switch>, m: Match,
                ghost g: Migration)
      requires g.net == net && g.next == newPath && g.m == m && net.PathLinked(newPath)
      requires g.Forwarders(addList) && g.Forwarders(modList)
      modifies this`sent, this`tables
      ensures sent == old(sent) + g.Writes(addList) + g.Writes(modList) + g.Deletes(deleteList)
      ensures tables ==
              ApplyAll(ApplyAll(ApplyAll(old(tables), g.Writes(addList)), g.Writes(modList)), g.Deletes(deleteList))
    {
      SendWrites(addList, newPath, m, g);
      SendWrites(modList, newPath, m, g);
      SendDeletes(deleteList, m, g);
    }

    /** Records the new path, then sends the plan. */
    method Migrate(id: string, prev: seq<Switch>, newPath: seq<Switch>, deleteList: seq<Switch>, ghost g: Migration)
      requires g.Valid() && g.net == net && g.prev == prev && g.next == newPath && g.dels == deleteList
      requires SEPARATOR in id && g.m == MatchOf(id) && id in pathsPerFlows && id in egress && egress[id] == g.hostPort
      modifies this
      ensures State() == old(State()).Updated(id, newPath, old(pathsPerFlows)[id], g.hostPort, g.Plan())
    {
      chosenPathPerFlow := chosenPathPerFlow[id := newPath];
      SendPlan(prev, newPath, deleteList, MatchOf(id), g);
      assert egress == egress[id := g.hostPort] && pathsPerFlows == pathsPerFlows[id := pathsPerFlows[id]];
    }

    /** Every message of a rerouting that starts from a valid state is safe. */
    lemma {:induction false} PlanSafe(g: Migration, before: seq<FlowMod>)
      requires g.Valid() && g.net.HoldsPath(ApplyAll(map[], before), g.m, g.prev, g.hostPort)
      ensures forall q :: |before| <= q <= |before| + |g.Plan()| ==> Safe(g, before, before + g.Plan(), q)
    {
      forall q | |before| <= q <= |before| + |g.Plan()| ensures Safe(g, before, before + g.Plan(), q) {
        EveryMessageSafe(g, before, q);
      }
    }

    /** Moves a live flow to another of its candidate paths. After every single message, packets
        of the flow still get from the ingress to the host port without visiting a switch twice. */
    method Reroute(id: string, newPath: seq<Switch>) returns (ghost g: Migration)
      requires Valid() && id in chosenPathPerFlow && id in pathsPerFlows && newPath in pathsPerFlows[id]
      modifies this
      ensures Valid()
      ensures g.Valid() && g.net == net && g.prev == old(chosenPathPerFlow)[id] && g.next == newPath
              && SEPARATOR in id && g.m == MatchOf(id) && id in old(egress) && g.hostPort == old(egress)[id]
      ensures State() == old(State()).Updated(id, newPath, old(pathsPerFlows)[id], g.hostPort, g.Plan())
      ensures forall q :: |old(sent)| <= q <= |old(sent)| + |g.Plan()| ==> Safe(g, old(sent), old(sent) + g.Plan(), q)
    {
      ghost var st := State();
      assert st.FlowOk(net, id);
      var prev := chosenPathPerFlow[id];
      var deleteList := Difference(prev, newPath);
      g := Migration(net, MatchOf(id), prev, newPath, egress[id], deleteList);
      MigrationOk(net, st, g, id);
      ReroutedOk(net, st, g, id);
      PlanSafe(g, sent);
      Migrate(id, prev, newPath, deleteList, g);
    }
  }
}
