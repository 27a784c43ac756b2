/** Switches, links and OpenFlow tables: what a FlowMod does to the tables and how a packet
    follows them. */
module FlowTables {
  type Switch = int
  type Port = int

  /** The exact matches the routing controller installs. */
  datatype Match = Ipv4(src: string, dst: string) | Arp(src: string, dst: string)

  type Table = map<(Switch, Match), Port>

  datatype FlowMod =
    | Add(sw: Switch, pattern: Match, port: Port)
    | Modify(sw: Switch, pattern: Match, port: Port)
    | Delete(sw: Switch, pattern: Match)

  /** OpenFlow 1.3, section 6.4: ADD overwrites an entry with identical match and priority,
      MODIFY changes only entries that exist, DELETE removes whatever matches. */
  function Apply(t: Table, m: FlowMod): Table {
    match m
    case Add(s, f, p) => t[(s, f) := p]
    case Modify(s, f, p) => if (s, f) in t then t[(s, f) := p] else t
    case Delete(s, f) => t - {(s, f)}
  }

  function ApplyAll(t: Table, ms: seq<FlowMod>): Table {
    if ms == [] then t else Apply(ApplyAll(t, ms[..|ms| - 1]), ms[|ms| - 1])
  }

  lemma {:induction false} ApplyAllConcat(t: Table, a: seq<FlowMod>, b: seq<FlowMod>)
    ensures ApplyAll(t, a + b) == ApplyAll(ApplyAll(t, a), b)
    decreases |b|
  {
    if b == [] {
      assert a + b == a;
    } else {
      var init := b[..|b| - 1];
      assert (a + b)[..|a + b| - 1] == a + init;
      ApplyAllConcat(t, a, init);
    }
  }

  /** `dataMap[a][b]` is the controller's record of the port of `a` that faces `b`;
      `peer` is the wiring itself. */
  datatype Net = Net(dataMap: map<Switch, map<Switch, Port>>, peer: map<(Switch, Port), Switch>) {
    predicate Linked(a: Switch, b: Switch) {
      a in dataMap && b in dataMap[a]
    }

    /** The record agrees with the wiring. */
    ghost predicate Faithful() {
      forall a, b :: Linked(a, b) ==> (a, dataMap[a][b]) in peer && peer[(a, dataMap[a][b])] == b
    }

    /** A port that leaves the switch network: a host is attached there. */
    predicate IsHostPort(s: Switch, p: Port) {
      (s, p) !in peer
    }

    predicate LinkAt(p: seq<Switch>, i: nat)
      requires i + 1 < |p|
    {
      Linked(p[i], p[i + 1])
    }

    predicate PathLinked(p: seq<Switch>) {
      forall i :: 0 <= i < |p| - 1 ==> LinkAt(p, i)
    }

    /** What switch `p[i]` must hold for traffic to follow `p` and leave at `hostPort`. */
    function EntryFor(p: seq<Switch>, hostPort: Port, i: nat): Port
      requires PathLinked(p) && i < |p|
    {
      if i + 1 < |p| then assert LinkAt(p, i); dataMap[p[i]][p[i + 1]] else hostPort
    }

    /** Switch `p[i]` forwards match `m` along `p`. */
    ghost predicate Forwards(t: Table, m: Match, p: seq<Switch>, hostPort: Port, i: nat)
      requires PathLinked(p) && i < |p|
    {
      (p[i], m) in t && t[(p[i], m)] == EntryFor(p, hostPort, i)
    }

    /** The table holds exactly the hops of `p` for match `m`, and nothing else for `m`. */
    ghost predicate HoldsPath(t: Table, m: Match, p: seq<Switch>, hostPort: Port)
      requires PathLinked(p)
    {
      && (forall s :: (s, m) in t <==> s in p)
      && (forall i :: 0 <= i < |p| ==> Forwards(t, m, p, hostPort, i))
    }

    /** Switch `a` sends match `m` on to switch `b`. */
    ghost predicate Hop(t: Table, m: Match, a: Switch, b: Switch) {
      (a, m) in t && (a, t[(a, m)]) in peer && peer[(a, t[(a, m)])] == b
    }

    /** A packet with match `m` that enters at `w[0]` is forwarded along `w` and leaves
        the network through `port` of the last switch. */
    ghost predicate IsTrail(t: Table, m: Match, w: seq<Switch>, port: Port) {
      && |w| > 0
      && (forall i :: 0 <= i < |w| - 1 ==> Hop(t, m, w[i], w[i + 1]))
      && (w[|w| - 1], m) in t && t[(w[|w| - 1], m)] == port
      && IsHostPort(w[|w| - 1], port)
    }

    /** Forwarding is deterministic: the trail from a switch is unique. */
    lemma {:induction false} TrailUnique(t: Table, m: Match, v: seq<Switch>, p: Port, w: seq<Switch>, q: Port)
      requires IsTrail(t, m, v, p) && IsTrail(t, m, w, q) && v[0] == w[0]
      ensures v == w && p == q
    {
      var k := if |v| <= |w| then |v| - 1 else |w| - 1;
      assert k < |v| - 1 ==> Hop(t, m, v[k], v[k + 1]);
      assert k < |w| - 1 ==> Hop(t, m, w[k], w[k + 1]);
      TrailPrefix(t, m, v, p, w, q, k);
      assert v[k] == v[..k + 1][k] && w[k] == w[..k + 1][k];
    }

    lemma {:induction false} TrailPrefix(t: Table, m: Match, v: seq<Switch>, p: Port, w: seq<Switch>, q: Port, k: nat)
      requires IsTrail(t, m, v, p) && IsTrail(t, m, w, q) && v[0] == w[0]
      requires k < |v| && k < |w|
      ensures v[..k + 1] == w[..k + 1]
    {
      if k > 0 {
        TrailPrefix(t, m, v, p, w, q, k - 1);
        assert Hop(t, m, v[k - 1], v[k]) && Hop(t, m, w[k - 1], w[k]);
        assert v[k - 1] == v[..k][k - 1] == w[..k][k - 1] == w[k - 1];
        assert v[..k + 1] == v[..k] + [v[k]] && w[..k + 1] == w[..k] + [w[k]];
      }
    }
  }
}
