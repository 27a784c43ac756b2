/** Service slicing: flow tables that cache the decisions of a controller, on four switches. */
module Slicing {
  import opened Options
  import opened Sets

  const ETH_TYPE_IP: nat := 0x0800
  const ETH_TYPE_IPV6: nat := 0x86DD
  const ETH_TYPE_LLDP: nat := 0x88CC
  const UDP: nat := 0x11
  const TCP: nat := 0x06
  const ICMP: nat := 0x01
  const SLICE_PORT: nat := 9999

  /** `proto` and `udpDst` are meaningful for IP packets and for UDP segments. */
  datatype Packet = Packet(src: nat, dst: nat, ethType: nat, proto: nat, udpDst: nat)

  predicate IsIp(p: Packet) { p.ethType == ETH_TYPE_IP || p.ethType == ETH_TYPE_IPV6 }

  predicate IsUdp(p: Packet) { IsIp(p) && p.proto == UDP }

  predicate IsTcp(p: Packet) { IsIp(p) && p.proto == TCP }

  predicate IsIcmp(p: Packet) { p.ethType == ETH_TYPE_IP && p.proto == ICMP }

  predicate Lldp(p: Packet) { p.ethType == ETH_TYPE_LLDP }

  /** An absent field matches everything. */
  datatype Match = Match(
    inPort: Option<nat>,
    dst: Option<nat>,
    src: Option<nat>,
    ethType: Option<nat>,
    proto: Option<nat>,
    udpDst: Option<nat>
  )

  predicate Field(f: Option<nat>, x: nat) { f.None? || f.value == x }

  predicate Matches(m: Match, inPort: nat, p: Packet) {
    && Field(m.inPort, inPort) && Field(m.dst, p.dst) && Field(m.src, p.src) && Field(m.ethType, p.ethType)
    && (m.proto.Some? ==> IsIp(p) && m.proto.value == p.proto)
    && (m.udpDst.Some? ==> IsUdp(p) && m.udpDst.value == p.udpDst)
  }

  datatype Output = Port(port: nat) | Flood | ToController

  datatype Key = Key(priority: nat, on: Match)

  type Table = map<Key, Output>

  const ANY: Match := Match(None, None, None, None, None, None)

  /** Where the two edge switches find their hosts. */
  function HostPort(dpid: nat, mac: nat): Option<nat> {
    if (dpid == 1 && mac == 1) || (dpid == 4 && mac == 3) then Some(3)
    else if (dpid == 1 && mac == 2) || (dpid == 4 && mac == 4) then Some(4)
    else None
  }

  predicate EndSwitch(dpid: nat) { dpid == 1 || dpid == 4 }

  // ----- the controller

  /** Where the slices promise a packet to be sent: to its host if that is attached here, else UDP
      towards port 9999 on slice 1 and all other UDP, TCP and ICMP on slice 2; core switches flood. */
  ghost function Decide(dpid: nat, p: Packet): Option<Output> {
    if Lldp(p) then None
    else if !EndSwitch(dpid) then Some(Flood)
    else if HostPort(dpid, p.dst).Some? then Some(Port(HostPort(dpid, p.dst).value))
    else if IsUdp(p) && p.udpDst == SLICE_PORT then Some(Port(1))
    else if IsUdp(p) || IsTcp(p) || IsIcmp(p) then Some(Port(2))
    else None
  }

  /** The key of the entry installed with a packet that is sent: by ingress port in the core, by
      destination for an attached host, else by the fields that identify the flow in its slice. */
  ghost function RuleKey(dpid: nat, inPort: nat, p: Packet): Key {
    if !EndSwitch(dpid) then Key(1, ANY.(inPort := Some(inPort)))
    else if HostPort(dpid, p.dst).Some? then Key(1, ANY.(dst := Some(p.dst)))
    else
      var video := IsUdp(p) && p.udpDst == SLICE_PORT;
      Key(if video then 2 else 1,
          Match(Some(inPort), Some(p.dst), if video then None else Some(p.src), Some(ETH_TYPE_IP), Some(p.proto),
                if IsUdp(p) then Some(p.udpDst) else None))
  }

  /** The controller sends the packet, and the entry it installs with it matches the packet. At the
      edge, the entries for the slices match IPv4 only. */
  ghost predicate Cacheable(dpid: nat, p: Packet) {
    Decide(dpid, p).Some? && (!EndSwitch(dpid) || HostPort(dpid, p.dst).Some? || p.ethType == ETH_TYPE_IP)
  }

  /** Every entry a packet can match outputs it where the controller would. */
  ghost predicate EntryAgrees(dpid: nat, k: Key, out: Output) {
    if k.priority == 0 then k.on == ANY && out == ToController
    else
      && out != ToController
      && forall inPort, p | !Lldp(p) && Matches(k.on, inPort, p) :: Decide(dpid, p) == Some(out) && Cacheable(dpid, p)
  }

  ghost predicate Agrees(dpid: nat, t: Table) {
    forall k | k in t :: EntryAgrees(dpid, k, t[k])
  }

  lemma AddKeeps(dpid: nat, t: Table, k: Key, out: Output)
    requires Agrees(dpid, t) && EntryAgrees(dpid, k, out)
    ensures Agrees(dpid, t[k := out])
  {
  }

  class TrafficSlicing {
    /** The flow table of every switch that has connected. */
    var tables: map<nat, Table>

    ghost predicate Valid()
      reads this
    {
      forall d | d in tables :: Agrees(d, tables[d]) && Key(0, ANY) in tables[d]
    }

    constructor ()
      ensures Valid() && tables == map[]
    {
      tables := map[];
    }

    /** A switch connects, with an empty table. */
    method SwitchFeatures(dpid: nat)
      requires Valid()
      modifies this
      ensures Valid() && tables == old(tables)[dpid := map[Key(0, ANY) := ToController]]
    {
      tables := tables[dpid := map[]];
      AddFlow(dpid, 0, ANY, ToController);
    }

    /** An entry with the same match and priority is replaced (section 6.4 of the OpenFlow 1.3
        specification). */
    method AddFlow(dpid: nat, priority: nat, m: Match, out: Output)
      requires dpid in tables
      modifies this
      ensures tables == old(tables)[dpid := old(tables)[dpid][Key(priority, m) := out]]
      ensures old(Valid()) && EntryAgrees(dpid, Key(priority, m), out) ==> Valid()
    {
      if Agrees(dpid, tables[dpid]) && EntryAgrees(dpid, Key(priority, m), out) {
        AddKeeps(dpid, tables[dpid], Key(priority, m), out);
      }
      tables := tables[dpid := tables[dpid][Key(priority, m) := out]];
    }

    /** The packet-in handler: `sent` is the action of the packet-out, if any. */
    method PacketIn(dpid: nat, inPort: nat, p: Packet) returns (sent: Option<Output>)
      requires Valid() && dpid in tables
      modifies this
      ensures Valid()
      ensures sent == Decide(dpid, p)
      ensures tables == if sent.None? then old(tables)
                        else old(tables)[dpid := old(tables)[dpid][RuleKey(dpid, inPort, p) := sent.value]]
      ensures Cacheable(dpid, p) ==> Cached(tables[dpid], inPort, p)
    {
      sent := None;
      if p.ethType == ETH_TYPE_LLDP { return; }
      var m, priority, out;
      if EndSwitch(dpid) {
        priority := 1;
        if HostPort(dpid, p.dst).Some? {
          out := Port(HostPort(dpid, p.dst).value);
          m := ANY.(dst := Some(p.dst));
        } else if IsUdp(p) && p.udpDst == SLICE_PORT {
          out, priority := Port(1), 2;
          m := Match(Some(inPort), Some(p.dst), None, Some(ETH_TYPE_IP), Some(UDP), Some(SLICE_PORT));
        } else if IsUdp(p) && p.udpDst != SLICE_PORT {
          out := Port(2);
          m := Match(Some(inPort), Some(p.dst), Some(p.src), Some(ETH_TYPE_IP), Some(UDP), Some(p.udpDst));
        } else if IsTcp(p) {
          out := Port(2);
          m := Match(Some(inPort), Some(p.dst), Some(p.src), Some(ETH_TYPE_IP), Some(TCP), None);
        } else if IsIcmp(p) {
          out := Port(2);
          m := Match(Some(inPort), Some(p.dst), Some(p.src), Some(ETH_TYPE_IP), Some(ICMP), None);
        } else {
          return;
        }
      } else {
        out, priority := Flood, 1;
        m := ANY.(inPort := Some(inPort));
      }
      assert EntryAgrees(dpid, Key(priority, m), out);
      assert Cacheable(dpid, p) ==> Matches(m, inPort, p);
      AddFlow(dpid, priority, m, out);
      sent := Some(out);
    }
  }

  /** The packet is answered from the table. */
  ghost predicate Cached(t: Table, inPort: nat, p: Packet) {
    exists k :: k in t && k.priority > 0 && Matches(k.on, inPort, p)
  }

  /** `k` is an entry of highest priority among those that match. */
  ghost predicate Best(t: Table, inPort: nat, p: Packet, k: Key) {
    && k in t && Matches(k.on, inPort, p)
    && forall j | j in t && Matches(j.on, inPort, p) :: j.priority <= k.priority
  }

  /** What becomes of a packet at a switch: the entry's output, or the controller's decision. */
  ghost function Treatment(dpid: nat, out: Output, p: Packet): Option<Output> {
    if out == ToController then Decide(dpid, p) else Some(out)
  }

  // ----- the tables as caches

  /** The highest-priority entry treats every packet but LLDP as the controller would. */
  lemma TableAgrees(dpid: nat, t: Table, inPort: nat, p: Packet, k: Key)
    requires Agrees(dpid, t) && Best(t, inPort, p, k) && !Lldp(p)
    ensures Treatment(dpid, t[k], p) == Decide(dpid, p)
  {
    assert EntryAgrees(dpid, k, t[k]);
  }

  /** LLDP is the exception, since the controller ignores it: the table agrees with the controller
      exactly on the packets that are not LLDP or not answered by an installed entry. */
  lemma AgreesExactly(dpid: nat, t: Table, inPort: nat, p: Packet, k: Key)
    requires Agrees(dpid, t) && Best(t, inPort, p, k)
    ensures Treatment(dpid, t[k], p) == Decide(dpid, p) <==> !Lldp(p) || !Cached(t, inPort, p)
  {
    assert EntryAgrees(dpid, k, t[k]);
  }

  /** A core switch floods LLDP once it has flooded anything from that port. */
  lemma LldpIsFlooded(inPort: nat, p: Packet)
    requires Lldp(p)
    ensures var t := map[Key(0, ANY) := ToController, Key(1, ANY.(inPort := Some(inPort))) := Flood];
            var k := Key(1, ANY.(inPort := Some(inPort)));
            Agrees(2, t) && Best(t, inPort, p, k) && Treatment(2, t[k], p) != Decide(2, p)
  {
    var k := Key(1, ANY.(inPort := Some(inPort)));
    assert EntryAgrees(2, k, Flood);
  }

  /** An edge switch forwards LLDP addressed to one of its hosts once it has forwarded anything there. */
  lemma LldpIsForwarded(dpid: nat, inPort: nat, p: Packet)
    requires Lldp(p) && EndSwitch(dpid) && HostPort(dpid, p.dst).Some?
    ensures var k, out := Key(1, ANY.(dst := Some(p.dst))), Port(HostPort(dpid, p.dst).value);
            var t := map[Key(0, ANY) := ToController, k := out];
            Agrees(dpid, t) && Best(t, inPort, p, k) && Treatment(dpid, t[k], p) != Decide(dpid, p)
  {
    assert EntryAgrees(dpid, Key(1, ANY.(dst := Some(p.dst))), Port(HostPort(dpid, p.dst).value));
  }

  /** Only cacheable packets are answered from the table. */
  lemma CachedIsCacheable(dpid: nat, t: Table, inPort: nat, p: Packet)
    requires Agrees(dpid, t) && !Lldp(p) && Cached(t, inPort, p)
    ensures Cacheable(dpid, p)
  {
    var k :| k in t && k.priority > 0 && Matches(k.on, inPort, p);
    assert EntryAgrees(dpid, k, t[k]);
  }

  // ----- the four switches

  /** Where a packet is: arriving at a switch, delivered to a host, or dropped. */
  datatype Place = At(dpid: nat, inPort: nat) | AtHost(mac: nat) | Dropped

  /** The far end of a cable. Ports are numbered in the order of the links: 1 and 2 lead to the other
      switches, 3 and 4 to the hosts. */
  function Cable(dpid: nat, port: nat): Place {
    match (dpid, port)
    case (1, 1) => At(2, 1)
    case (1, 2) => At(3, 1)
    case (1, 3) => AtHost(1)
    case (1, 4) => AtHost(2)
    case (2, 1) => At(1, 1)
    case (2, 2) => At(4, 1)
    case (3, 1) => At(1, 2)
    case (3, 2) => At(4, 2)
    case (4, 1) => At(2, 2)
    case (4, 2) => At(3, 2)
    case (4, 3) => AtHost(3)
    case (4, 4) => AtHost(4)
    case _ => Dropped
  }

  predicate SwitchPort(dpid: nat, port: nat) {
    ((dpid == 1 || dpid == 4) && 1 <= port <= 4) || ((dpid == 2 || dpid == 3) && 1 <= port <= 2)
  }

  predicate PlaceOk(x: Place) {
    x.At? ==> SwitchPort(x.dpid, x.inPort)
  }

  /** Where copies of the packet may go; a switch does not send a packet back out of its ingress port. */
  ghost predicate MayMove(x: Place, out: Option<Output>, y: Place)
    requires x.At?
  {
    match out
    case Some(Port(q)) => y == if q == x.inPort then Dropped else Cable(x.dpid, q)
    case Some(Flood) => exists q :: SwitchPort(x.dpid, q) && q != x.inPort && y == Cable(x.dpid, q)
    case _ => y == Dropped
  }

  /** Among finitely many keys one has the highest priority. */
  lemma {:induction false} HighestPriority(keys: set<Key>) returns (k: Key)
    requires keys != {}
    ensures k in keys && forall j | j in keys :: j.priority <= k.priority
  {
    var x := SomeElement(keys);
    var rest := keys - {x};
    forall j | j in keys ensures j == x || j in rest {}
    if rest == {} {
      k := x;
    } else {
      var y := HighestPriority(rest);
      k := if x.priority <= y.priority then y else x;
    }
  }

  lemma BestExists(t: Table, inPort: nat, p: Packet) returns (k: Key)
    requires Key(0, ANY) in t
    ensures Best(t, inPort, p, k)
  {
    var keys := set j | j in t && Matches(j.on, inPort, p);
    assert Key(0, ANY) in keys;
    k := HighestPriority(keys);
  }

  /** Progress: a packet at a switch that has its table-miss entry can always move. */
  lemma CanMove(x: Place, t: Table, p: Packet) returns (k: Key, y: Place)
    requires x.At? && PlaceOk(x) && Key(0, ANY) in t
    ensures Best(t, x.inPort, p, k) && MayMove(x, Treatment(x.dpid, t[k], p), y)
  {
    k := BestExists(t, x.inPort, p);
    var other := if x.inPort == 1 then 2 else 1;
    assert SwitchPort(x.dpid, other) && other != x.inPort;
    match Treatment(x.dpid, t[k], p)
    case Some(Port(q)) => y := if q == x.inPort then Dropped else Cable(x.dpid, q);
    case Some(Flood) => y := Cable(x.dpid, other);
    case _ => y := Dropped;
  }

  /** The promised next place. */
  ghost function Next(x: Place, p: Packet): Place {
    if !x.At? then x
    else
      match Decide(x.dpid, p)
      case Some(Port(q)) => if q == x.inPort then Dropped else Cable(x.dpid, q)
      case Some(Flood) => Cable(x.dpid, if x.inPort == 1 then 2 else 1)
      case _ => Dropped
  }

  /** A packet at a switch moves there, whatever tables the handler has built up so far and whether
      or not the controller is asked. */
  lemma MovesAsPromised(x: Place, y: Place, t: Table, p: Packet, k: Key)
    requires x.At? && PlaceOk(x) && !Lldp(p)
    requires Agrees(x.dpid, t) && Best(t, x.inPort, p, k) && MayMove(x, Treatment(x.dpid, t[k], p), y)
    ensures y == Next(x, p) && PlaceOk(y)
  {
    TableAgrees(x.dpid, t, x.inPort, p, k);
  }

  /** The packet's places, one hop after the other, every hop through tables that may have changed
      meanwhile. */
  ghost predicate Journey(p: Packet, places: seq<Place>, tables: seq<Table>, keys: seq<Key>) {
    && |places| > 0 && PlaceOk(places[0]) && |tables| == |keys| == |places| - 1
    && forall i :: 0 <= i < |keys| ==> HopAt(p, places, tables, keys, i)
  }

  ghost predicate HopAt(p: Packet, places: seq<Place>, tables: seq<Table>, keys: seq<Key>, i: nat)
    requires i < |keys| == |tables| == |places| - 1
  {
    var x, t := places[i], tables[i];
    && x.At? && Agrees(x.dpid, t) && Best(t, x.inPort, p, keys[i])
    && MayMove(x, Treatment(x.dpid, t[keys[i]], p), places[i + 1])
  }

  ghost function Steps(x: Place, p: Packet, n: nat): Place {
    if n == 0 then x else Next(Steps(x, p, n - 1), p)
  }

  lemma {:induction false} JourneyAsPromised(p: Packet, places: seq<Place>, tables: seq<Table>, keys: seq<Key>, i: nat)
    requires Journey(p, places, tables, keys) && !Lldp(p) && i < |places|
    ensures places[i] == Steps(places[0], p, i) && PlaceOk(places[i])
  {
    if i > 0 {
      JourneyAsPromised(p, places, tables, keys, i - 1);
      assert HopAt(p, places, tables, keys, i - 1);
      MovesAsPromised(places[i - 1], places[i], tables[i - 1], p, keys[i - 1]);
    }
  }

  /** From anywhere in the network a packet has left the switches after at most five hops. */
  lemma Settles(x: Place, p: Packet)
    requires PlaceOk(x)
    ensures !Steps(x, p, 5).At?
  {
    var x1 := Next(x, p);
    var x2 := Next(x1, p);
    var x3 := Next(x2, p);
    var x4 := Next(x3, p);
    assert Steps(x, p, 1) == x1;
    assert Steps(x, p, 2) == x2;
    assert Steps(x, p, 3) == x3;
    assert Steps(x, p, 4) == x4;
  }

  lemma StillAtSwitch(p: Packet, places: seq<Place>, tables: seq<Table>, keys: seq<Key>, i: nat)
    requires Journey(p, places, tables, keys)
    ensures i < |keys| ==> places[i].At?
  {
    if i < |keys| { assert HopAt(p, places, tables, keys, i); }
  }

  /** No packet loops: a journey makes at most five hops. */
  lemma NoLoops(p: Packet, places: seq<Place>, tables: seq<Table>, keys: seq<Key>)
    requires Journey(p, places, tables, keys) && !Lldp(p)
    ensures |keys| <= 5
  {
    StillAtSwitch(p, places, tables, keys, 5);
    Settles(places[0], p);
    if |places| > 5 { JourneyAsPromised(p, places, tables, keys, 5); }
  }

  predicate FromHost(x: Place) {
    x.At? && EndSwitch(x.dpid) && (x.inPort == 3 || x.inPort == 4)
  }

  predicate VideoSlice(p: Packet) { IsUdp(p) && p.udpDst == SLICE_PORT }

  predicate OtherSlice(p: Packet) { (IsUdp(p) && p.udpDst != SLICE_PORT) || IsTcp(p) || IsIcmp(p) }

  ghost predicate Avoids(x: Place, dpid: nat) { x.At? ==> x.dpid != dpid }

  /** Slice isolation, through any tables the handler can build and at any moment: what a host sends
      to UDP port 9999 never crosses switch 3; its other UDP, TCP and ICMP never cross switch 2. */
  lemma SlicesIsolated(p: Packet, places: seq<Place>, tables: seq<Table>, keys: seq<Key>)
    requires Journey(p, places, tables, keys) && FromHost(places[0])
    ensures forall i :: 0 <= i < |places| && VideoSlice(p) ==> Avoids(places[i], 3)
    ensures forall i :: 0 <= i < |places| && OtherSlice(p) ==> Avoids(places[i], 2)
  {
    if VideoSlice(p) || OtherSlice(p) {
      NoLoops(p, places, tables, keys);
      forall i | 0 <= i < |places|
        ensures VideoSlice(p) ==> Avoids(places[i], 3)
        ensures OtherSlice(p) ==> Avoids(places[i], 2)
      {
        JourneyAsPromised(p, places, tables, keys, i);
      }
    }
  }

  predicate Across(x: Place, mac: nat) {
    FromHost(x) && ((x.dpid == 1 && (mac == 3 || mac == 4)) || (x.dpid == 4 && (mac == 1 || mac == 2)))
  }

  lemma StepsAcross(x: Place, p: Packet)
    requires Across(x, p.dst) && (VideoSlice(p) || OtherSlice(p))
    ensures Steps(x, p, 1).At? && Steps(x, p, 1).dpid == (if VideoSlice(p) then 2 else 3)
    ensures Steps(x, p, 2).At? && Steps(x, p, 2).dpid == 5 - x.dpid
    ensures Steps(x, p, 3) == AtHost(p.dst)
  {
    assert Steps(x, p, 1) == Next(x, p);
    assert Steps(x, p, 2) == Next(Next(x, p), p);
    assert Steps(x, p, 3) == Next(Next(Next(x, p), p), p);
  }

  /** A sliced packet between the two sides can only be delivered to its host, in three hops, and a
      journey that has left the switches has delivered it; by `CanMove` every journey can go on until
      then. */
  lemma DeliveredAcross(p: Packet, places: seq<Place>, tables: seq<Table>, keys: seq<Key>)
    requires Journey(p, places, tables, keys) && Across(places[0], p.dst) && (VideoSlice(p) || OtherSlice(p))
    ensures |keys| <= 3
    ensures !places[|places| - 1].At? <==> |keys| == 3
    ensures |keys| == 3 ==> places[3] == AtHost(p.dst)
    ensures forall i, mac :: 0 <= i < |places| && places[i] == AtHost(mac) ==> i == 3 && mac == p.dst
  {
    StepsAcross(places[0], p);
    forall i | 0 <= i < |places| ensures places[i] == Steps(places[0], p, i) {
      JourneyAsPromised(p, places, tables, keys, i);
    }
    assert Steps(places[0], p, 0) == places[0];
    StillAtSwitch(p, places, tables, keys, 3);
  }

  /** A journey that is still at a switch can be prolonged by the switch's present table. */
  lemma JourneyGoesOn(p: Packet, places: seq<Place>, tables: seq<Table>, keys: seq<Key>, t: Table)
    returns (k: Key, y: Place)
    requires Journey(p, places, tables, keys) && !Lldp(p)
    requires var x := places[|places| - 1]; x.At? && Agrees(x.dpid, t) && Key(0, ANY) in t
    ensures Journey(p, places + [y], tables + [t], keys + [k])
  {
    var n := |keys|;
    JourneyAsPromised(p, places, tables, keys, n);
    k, y := CanMove(places[n], t, p);
    var ps, ts, ks := places + [y], tables + [t], keys + [k];
    forall i | 0 <= i < |ks| ensures HopAt(p, ps, ts, ks, i) {
      if i < n { assert HopAt(p, places, tables, keys, i); }
    }
  }
}
