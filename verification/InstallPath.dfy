/** Turning a chosen path into one entry per switch. */
module InstallPath {
  import opened Sequences
  import opened FlowTables

  /** The messages of an installation, in path order. */
  function InstallMods(net: Net, m: Match, path: seq<Switch>, hostPort: Port, k: nat): (r: seq<FlowMod>)
    requires net.PathLinked(path) && k <= |path|
    ensures |r| == k
  {
    if k == 0 then []
    else InstallMods(net, m, path, hostPort, k - 1) + [Add(path[k - 1], m, net.EntryFor(path, hostPort, k - 1))]
  }

  lemma {:induction false} InstallNext(net: Net, t: Table, m: Match, path: seq<Switch>, hostPort: Port, k: nat)
    requires net.PathLinked(path) && k < |path|
    ensures var ms, add := InstallMods(net, m, path, hostPort, k), Add(path[k], m, net.EntryFor(path, hostPort, k));
      && InstallMods(net, m, path, hostPort, k + 1) == ms + [add]
      && ApplyAll(t, InstallMods(net, m, path, hostPort, k + 1)) == Apply(ApplyAll(t, ms), add)
  {
    var ms := InstallMods(net, m, path, hostPort, k + 1);
    assert ms[..k] == InstallMods(net, m, path, hostPort, k);
  }

  /** Every link of the path is recorded in the direction back to the source as well. */
  predicate BackLinked(net: Net, path: seq<Switch>) {
    forall i :: 0 <= i < |path| - 1 ==> net.Linked(path[i + 1], path[i])
  }

  /** Port on which traffic along the path enters switch `path[i]`. */
  function IngressPort(net: Net, path: seq<Switch>, firstPort: Port, i: nat): Port
    requires BackLinked(net, path) && i < |path|
  {
    if i == 0 then firstPort
    else assert net.Linked(path[i - 1 + 1], path[i - 1]); net.dataMap[path[i]][path[i - 1]]
  }

  ghost predicate PortsAt(net: Net, path: seq<Switch>, firstPort: Port, lastPort: Port,
                          p: map<Switch, (Port, Port)>, i: nat)
    requires net.PathLinked(path) && BackLinked(net, path) && i < |path|
  {
    path[i] in p && p[path[i]] == (IngressPort(net, path, firstPort, i), net.EntryFor(path, lastPort, i))
  }

  lemma {:induction false} PortsAtKept(net: Net, path: seq<Switch>, firstPort: Port, lastPort: Port,
                                       p: map<Switch, (Port, Port)>, k: nat, p': map<Switch, (Port, Port)>)
    requires NoDup(path) && net.PathLinked(path) && BackLinked(net, path) && k < |path|
    requires forall i :: 0 <= i < k ==> PortsAt(net, path, firstPort, lastPort, p, i)
    requires p' == p[path[k] := (IngressPort(net, path, firstPort, k), net.EntryFor(path, lastPort, k))]
    ensures forall i :: 0 <= i <= k ==> PortsAt(net, path, firstPort, lastPort, p', i)
  {
    forall i | 0 <= i <= k ensures PortsAt(net, path, firstPort, lastPort, p', i) {
      if i < k { assert PortsAt(net, path, firstPort, lastPort, p, i); }
    }
  }

  /** Behind the two ports of switch `path[i]` are its neighbours on the path, or the two hosts. */
  ghost predicate LeadsAlong(net: Net, path: seq<Switch>, firstPort: Port, lastPort: Port,
                             p: map<Switch, (Port, Port)>, i: nat)
    requires i < |path|
  {
    && path[i] in p
    && var (ingress, egress) := p[path[i]];
    && (if i == 0 then ingress == firstPort
        else (path[i], ingress) in net.peer && net.peer[(path[i], ingress)] == path[i - 1])
    && (if i + 1 == |path| then egress == lastPort
        else (path[i], egress) in net.peer && net.peer[(path[i], egress)] == path[i + 1])
  }

  lemma PortsLeadAlong(net: Net, path: seq<Switch>, firstPort: Port, lastPort: Port,
                       p: map<Switch, (Port, Port)>, i: nat)
    requires net.Faithful() && net.PathLinked(path) && BackLinked(net, path) && i < |path|
    requires PortsAt(net, path, firstPort, lastPort, p, i)
    ensures LeadsAlong(net, path, firstPort, lastPort, p, i)
  {
    if i + 1 < |path| { assert net.LinkAt(path, i); }
    if i > 0 { assert net.Linked(path[i - 1 + 1], path[i - 1]); }
  }

  /** For every switch of the path, its ingress and egress port. */
  method AddPortsToPath(net: Net, path: seq<Switch>, firstPort: Port, lastPort: Port)
    returns (p: map<Switch, (Port, Port)>)
    requires |path| > 0 && NoDup(path) && net.PathLinked(path) && BackLinked(net, path)
    ensures forall i :: 0 <= i < |path| ==> PortsAt(net, path, firstPort, lastPort, p, i)
    ensures forall s :: s in p <==> s in path
    ensures net.Faithful() ==> forall i :: 0 <= i < |path| ==> LeadsAlong(net, path, firstPort, lastPort, p, i)
  {
    p := map[];
    var inPort := firstPort;
    for k := 0 to |path| - 1
      invariant forall i :: 0 <= i < k ==> PortsAt(net, path, firstPort, lastPort, p, i)
      invariant forall s :: s in p <==> s in path[..k]
      invariant inPort == IngressPort(net, path, firstPort, k)
    {
      assert net.LinkAt(path, k) && net.Linked(path[k + 1], path[k]);
      var outPort := net.dataMap[path[k]][path[k + 1]];
      PortsAtKept(net, path, firstPort, lastPort, p, k, p[path[k] := (inPort, outPort)]);
      p := p[path[k] := (inPort, outPort)];
      assert path[..k + 1] == path[..k] + [path[k]];
      inPort := net.dataMap[path[k + 1]][path[k]];
    }
    assert path == path[..|path| - 1] + [path[|path| - 1]];
    PortsAtKept(net, path, firstPort, lastPort, p, |path| - 1, p[path[|path| - 1] := (inPort, lastPort)]);
    p := p[path[|path| - 1] := (inPort, lastPort)];
    if net.Faithful() {
      forall i | 0 <= i < |path| ensures LeadsAlong(net, path, firstPort, lastPort, p, i) {
        PortsLeadAlong(net, path, firstPort, lastPort, p, i);
      }
    }
  }

  /** Entry (`s`, `f`) of `t'` is that of `t`, or the one installed on the first `k` switches. */
  ghost predicate EntryAfter(net: Net, t: Table, t': Table, m: Match, path: seq<Switch>, hostPort: Port, k: nat,
                             s: Switch, f: Match)
    requires net.PathLinked(path) && k <= |path|
  {
    && ((s, f) in t' <==> (s, f) in t || (f == m && s in path[..k]))
    && ((s, f) in t' && !(f == m && s in path[..k]) ==> t'[(s, f)] == t[(s, f)])
    && (f == m && s in path[..k] ==> t'[(s, f)] == net.EntryFor(path, hostPort, IndexOf(path, s)))
  }

  lemma EntryAfterAdd(net: Net, t: Table, t': Table, m: Match, path: seq<Switch>, hostPort: Port, k: nat,
                      s: Switch, f: Match)
    requires net.PathLinked(path) && NoDup(path) && k < |path|
    requires EntryAfter(net, t, t', m, path, hostPort, k, s, f)
    ensures var add := Add(path[k], m, net.EntryFor(path, hostPort, k));
            EntryAfter(net, t, Apply(t', add), m, path, hostPort, k + 1, s, f)
  {
    assert path[..k + 1] == path[..k] + [path[k]];
    IndexOfUnique(path, k);
  }

  lemma {:induction false} AfterInstall(net: Net, t: Table, m: Match, path: seq<Switch>, hostPort: Port, k: nat,
                                        s: Switch, f: Match)
    requires net.PathLinked(path) && NoDup(path) && k <= |path|
    ensures EntryAfter(net, t, ApplyAll(t, InstallMods(net, m, path, hostPort, k)), m, path, hostPort, k, s, f)
  {
    if k > 0 {
      AfterInstall(net, t, m, path, hostPort, k - 1, s, f);
      InstallNext(net, t, m, path, hostPort, k - 1);
      EntryAfterAdd(net, t, ApplyAll(t, InstallMods(net, m, path, hostPort, k - 1)), m, path, hostPort, k - 1, s, f);
    }
  }

  /** Installing on tables without entries for `m` leaves exactly the path, and nothing else
      changes. */
  lemma {:induction false} InstallHolds(net: Net, t: Table, m: Match, path: seq<Switch>, hostPort: Port)
    requires net.PathLinked(path) && NoDup(path)
    requires forall s :: (s, m) !in t
    ensures net.HoldsPath(ApplyAll(t, InstallMods(net, m, path, hostPort, |path|)), m, path, hostPort)
  {
    var t' := ApplyAll(t, InstallMods(net, m, path, hostPort, |path|));
    assert path[..|path|] == path;
    forall s ensures (s, m) in t' <==> s in path { AfterInstall(net, t, m, path, hostPort, |path|, s, m); }
    forall i | 0 <= i < |path| ensures net.Forwards(t', m, path, hostPort, i) {
      AfterInstall(net, t, m, path, hostPort, |path|, path[i], m);
      IndexOfUnique(path, i);
    }
  }
}
