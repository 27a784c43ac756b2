/** The MAC-learning controller, and the network it runs: frames, packet-ins, flow entries. */
module LearningSwitch {
  import opened Sets
  import opened TreeNetwork

  datatype Output = Flood | Out(port: Port)

  /** What the controller has learned and installed. `macs` is the nested `mac_to_port` table,
      `flows` the entries (switch, ingress port, destination) -> egress port. */
  datatype Knowledge = Knowledge(macs: map<(Switch, Mac), Port>, flows: map<(Switch, Port, Mac), Port>) {
    /** The controller's answer to a packet-in. */
    function Decide(dpid: Switch, dst: Mac): Output {
      if (dpid, dst) in macs then Out(macs[(dpid, dst)]) else Flood
    }

    /** The source is learned before the destination is looked up. */
    function Learn(dpid: Switch, src: Mac, inPort: Port): Knowledge {
      this.(macs := macs[(dpid, src) := inPort])
    }

    /** Knowledge after a packet-in: the source learned, and an entry if the destination is known. */
    function AfterPacketIn(dpid: Switch, inPort: Port, src: Mac, dst: Mac): Knowledge {
      var k := Learn(dpid, src, inPort);
      if (dpid, dst) in k.macs then k.(flows := k.flows[(dpid, inPort, dst) := k.macs[(dpid, dst)]]) else k
    }
  }

  class SimpleSwitch13 {
    var macToPort: map<(Switch, Mac), Port>
    var flows: map<(Switch, Port, Mac), Port>

    ghost function State(): Knowledge
      reads this
    {
      Knowledge(macToPort, flows)
    }

    constructor ()
      ensures macToPort == map[] && flows == map[]
    {
      macToPort, flows := map[], map[];
    }

    /** `add_flow`: match on ingress port and destination. */
    method AddFlow(dpid: Switch, dst: Mac, inPort: Port, outPort: Port)
      modifies this`flows
      ensures flows == old(flows)[(dpid, inPort, dst) := outPort]
    {
      flows := flows[(dpid, inPort, dst) := outPort];
    }

    /** `_packet_in_handler`; the result is the action of the packet-out. */
    method PacketIn(dpid: Switch, inPort: Port, src: Mac, dst: Mac) returns (out: Output)
      modifies this
      ensures State() == old(State()).AfterPacketIn(dpid, inPort, src, dst)
      ensures out == State().Decide(dpid, dst)
    {
      macToPort := macToPort[(dpid, src) := inPort];
      if (dpid, dst) in macToPort {
        var outPort := macToPort[(dpid, dst)];
        AddFlow(dpid, dst, inPort, outPort);
        out := Out(outPort);
      } else {
        out := Flood;
      }
    }
  }

  // ----- the network

  datatype Frame = Frame(id: nat, src: Mac, dst: Mac)

  /** A copy of a frame that has arrived at switch `s` through `inPort`. `waiting` copies found no
      entry and have been sent up to the controller. */
  datatype Copy = Copy(f: Frame, s: Switch, inPort: Port, waiting: bool)

  /** A copy that has left the network through a port without a switch behind it. */
  datatype Delivery = Delivery(f: Frame, at: Place)

  /** `copies` and `delivered` are indexed by distinct numbers, so that identical copies would
      count separately. `seen` records which switches have processed which frame. */
  datatype State = State(know: Knowledge, copies: map<int, Copy>, delivered: map<int, Delivery>, next: int,
                         sent: set<Frame>, seen: set<(Frame, Switch)>)

  datatype Step = Send(f: Frame) | Match(i: int) | Miss(i: int) | Answer(i: int)

  /** Does the copy numbered `k` leave through its port at all? A switch never sends a frame back
      out of the port it came in on. */
  predicate Leaves(c: Copy, outs: seq<Port>, next: int, k: int) {
    next <= k < next + |outs| && outs[k - next] != c.inPort
  }

  function OutPlace(c: Copy, outs: seq<Port>, next: int, k: int): Place
    requires Leaves(c, outs, next, k)
  {
    Place(c.s, outs[k - next])
  }

  /** Copies that reach a neighbouring switch, numbered from `next` on. */
  function NewCopies(net: Network, c: Copy, outs: seq<Port>, next: int): map<int, Copy> {
    map k | next <= k < next + |outs| && Leaves(c, outs, next, k) && OutPlace(c, outs, next, k) in net.peer ::
      var b := net.peer[OutPlace(c, outs, next, k)]; Copy(c.f, b.s, b.p, false)
  }

  /** Copies that leave the switch network. */
  function NewDeliveries(net: Network, c: Copy, outs: seq<Port>, next: int): map<int, Delivery> {
    map k | next <= k < next + |outs| && Leaves(c, outs, next, k) && OutPlace(c, outs, next, k) !in net.peer ::
      Delivery(c.f, OutPlace(c, outs, next, k))
  }

  /** Copy `i` is sent out of the ports `outs` of its switch. */
  function Emit(net: Network, st: State, i: int, know: Knowledge, outs: seq<Port>): State
    requires i in st.copies
  {
    var c := st.copies[i];
    State(know, (st.copies - {i}) + NewCopies(net, c, outs, st.next),
          st.delivered + NewDeliveries(net, c, outs, st.next), st.next + |outs|, st.sent, st.seen + {(c.f, c.s)})
  }

  /** The ports an action stands for. */
  function PortsOf(net: Network, s: Switch, out: Output): seq<Port>
    requires s in net.ports
  {
    match out
    case Flood => net.ports[s]
    case Out(p) => [p]
  }

  ghost predicate Init(st: State) {
    st == State(Knowledge(map[], map[]), map[], map[], 0, {}, {})
  }

  /** A host sends a new frame, a switch forwards by an entry, a switch asks the controller, or
      the controller answers any copy that waits for it, in any order. */
  ghost predicate Next(net: Network, st: State, step: Step, st': State) {
    match step
    case Send(f) =>
      && f !in st.sent && f.src in net.hosts
      && st' == st.(copies := st.copies[st.next := Copy(f, net.hosts[f.src].s, net.hosts[f.src].p, false)],
                    next := st.next + 1, sent := st.sent + {f})
    case Match(i) =>
      && i in st.copies && !st.copies[i].waiting
      && var c := st.copies[i];
      && (c.s, c.inPort, c.f.dst) in st.know.flows
      && st' == Emit(net, st, i, st.know, [st.know.flows[(c.s, c.inPort, c.f.dst)]])
    case Miss(i) =>
      && i in st.copies && !st.copies[i].waiting
      && var c := st.copies[i];
      && (c.s, c.inPort, c.f.dst) !in st.know.flows
      && st' == st.(copies := st.copies[i := c.(waiting := true)])
    case Answer(i) =>
      && i in st.copies && st.copies[i].waiting && st.copies[i].s in net.ports
      && var c := st.copies[i];
      && var know := st.know.AfterPacketIn(c.s, c.inPort, c.f.src, c.f.dst);
      && st' == Emit(net, st, i, know, PortsOf(net, c.s, know.Decide(c.s, c.f.dst)))
  }

  // ----- the invariant

  /** Everything learned or installed points towards the host that owns the address. */
  ghost predicate PointsHome(net: Network, k: Knowledge)
    requires net.Valid()
  {
    && (forall s, m :: (s, m) in k.macs ==>
          net.IsSwitch(s) && m in net.hosts && net.HostOk(m) && k.macs[(s, m)] == net.Toward(s, net.hosts[m]))
    && (forall s, p, m :: (s, p, m) in k.flows ==>
          net.IsSwitch(s) && m in net.hosts && net.HostOk(m) && k.flows[(s, p, m)] == net.Toward(s, net.hosts[m]))
  }

  /** A frame was sent by a host under its own address. */
  ghost predicate FrameOk(net: Network, f: Frame) {
    f.src in net.hosts && net.HostOk(f.src)
  }

  /** A copy came in on the port that points back to its sender. */
  ghost predicate CopyOk(net: Network, st: State, c: Copy)
    requires net.Valid()
  {
    && c.f in st.sent && FrameOk(net, c.f) && net.IsSwitch(c.s)
    && c.inPort == net.Toward(c.s, net.hosts[c.f.src])
  }

  /** Copy `c` has not passed switch `x` of its own frame's tree. */
  ghost predicate Behind(net: Network, c: Copy, x: Switch)
    requires net.Valid()
  {
    FrameOk(net, c.f) && net.IsSwitch(x) && net.OnPath(net.hosts[c.f.src].s, c.s, x)
  }

  ghost predicate EachOk(net: Network, st: State)
    requires net.Valid()
  {
    forall i :: i in st.copies ==> i < st.next && CopyOk(net, st, st.copies[i])
  }

  /** No copy of a frame has another copy of it ahead. */
  ghost predicate Apart(net: Network, st: State)
    requires net.Valid()
  {
    forall i, j :: i in st.copies && j in st.copies && i != j && st.copies[i].f == st.copies[j].f ==>
      !Behind(net, st.copies[i], st.copies[j].s)
  }

  /** Nor a switch that has processed the frame. */
  ghost predicate Ahead(net: Network, st: State)
    requires net.Valid()
  {
    forall i, x :: i in st.copies && (st.copies[i].f, x) in st.seen ==> !Behind(net, st.copies[i], x)
  }

  ghost predicate CopiesOk(net: Network, st: State)
    requires net.Valid()
  {
    && (forall f :: f in st.sent ==> FrameOk(net, f))
    && EachOk(net, st) && Apart(net, st) && Ahead(net, st)
    && (forall f, x :: (f, x) in st.seen ==> f in st.sent && net.IsSwitch(x))
  }

  /** Nothing is delivered back to the sender, and only by switches that have seen the frame. */
  ghost predicate DeliveryOk(net: Network, st: State, d: Delivery) {
    && d.f in st.sent && d.f.src in net.hosts && d.at != net.hosts[d.f.src] && (d.f, d.at.s) in st.seen
  }

  ghost predicate DeliveriesOk(net: Network, st: State) {
    && (forall i :: i in st.delivered ==> i < st.next && DeliveryOk(net, st, st.delivered[i]))
    && (forall i, j :: i in st.delivered && j in st.delivered && i != j ==> st.delivered[i] != st.delivered[j])
  }

  /** Host `d` should get frame `f`: it is addressed, or the address belongs to no host at all. */
  ghost predicate Wanted(net: Network, f: Frame, d: Mac) {
    d in net.hosts && net.HostOk(d) && d != f.src && (f.dst == d || f.dst !in net.hosts)
  }

  ghost predicate HasDelivery(st: State, f: Frame, at: Place) {
    exists i :: i in st.delivered && st.delivered[i] == Delivery(f, at)
  }

  ghost predicate OnItsWay(net: Network, st: State, f: Frame, x: Switch)
    requires net.Valid()
  {
    exists i :: i in st.copies && st.copies[i].f == f && Behind(net, st.copies[i], x)
  }

  ghost predicate NothingLost(net: Network, st: State)
    requires net.Valid()
  {
    forall f, d :: f in st.sent && Wanted(net, f, d) ==> Served(net, st, f, net.hosts[d])
  }

  ghost predicate Inv(net: Network, st: State)
    requires net.Valid()
  {
    PointsHome(net, st.know) && CopiesOk(net, st) && DeliveriesOk(net, st) && NothingLost(net, st)
  }

  // ----- what a switch sends out

  /** Ports on which copy `c` may be sent: duplicate-free ports of the switch that include the
      way to every host that should get the frame. */
  ghost predicate OutsOk(net: Network, c: Copy, outs: seq<Port>)
    requires net.Valid() && net.IsSwitch(c.s)
  {
    && (forall i, j :: 0 <= i < j < |outs| ==> outs[i] != outs[j])
    && (forall d :: Wanted(net, c.f, d) ==> net.Toward(c.s, net.hosts[d]) in outs)
  }

  lemma TowardIsPort(net: Network, s: Switch, m: Mac)
    requires net.Valid() && net.IsSwitch(s) && m in net.hosts
    ensures net.HostOk(m) && net.Toward(s, net.hosts[m]) in net.ports[s]
  {
    assert net.HostOk(m);
    if s != net.hosts[m].s { net.HopNearer(s, net.hosts[m].s); }
  }

  lemma AnswerOuts(net: Network, c: Copy, know: Knowledge)
    requires net.Valid() && net.IsSwitch(c.s) && PointsHome(net, know)
    ensures OutsOk(net, c, PortsOf(net, c.s, know.Decide(c.s, c.f.dst)))
  {
    assert net.SwitchOk(c.s);
    forall d | Wanted(net, c.f, d) ensures net.Toward(c.s, net.hosts[d]) in net.ports[c.s] {
      TowardIsPort(net, c.s, d);
    }
  }

  /** A copy sent over a wire that does not lead back came one wire further from the sender. */
  lemma NewCopyOk(net: Network, st: State, c: Copy, q: Port)
    requires net.Valid() && CopyOk(net, st, c) && q != c.inPort && Place(c.s, q) in net.peer
    ensures var b, o := net.peer[Place(c.s, q)], net.hosts[c.f.src].s;
      && net.IsSwitch(b.s) && b.s != o && net.Next(b.s, o) == c.s && net.HopPort(b.s, o) == b.p
      && net.Dist(b.s, o) == net.Dist(c.s, o) + 1
      && CopyOk(net, st, Copy(c.f, b.s, b.p, false))
  {
    net.Orientation(Place(c.s, q), net.hosts[c.f.src].s);
  }

  /** Two different wires lead to switches neither of which is behind the other. */
  lemma SiblingsApart(net: Network, st: State, c: Copy, q1: Port, q2: Port)
    requires net.Valid() && CopyOk(net, st, c) && q1 != q2 && q1 != c.inPort && q2 != c.inPort
    requires Place(c.s, q1) in net.peer && Place(c.s, q2) in net.peer
    ensures var b1, b2 := net.peer[Place(c.s, q1)], net.peer[Place(c.s, q2)];
      !Behind(net, Copy(c.f, b1.s, b1.p, false), b2.s)
  {
    var a1, a2, o := Place(c.s, q1), Place(c.s, q2), net.hosts[c.f.src].s;
    NewCopyOk(net, st, c, q1);
    NewCopyOk(net, st, c, q2);
    assert net.WireOk(a1) && net.WireOk(a2);
    var b1, b2 := net.peer[a1], net.peer[a2];
    assert b1.s != b2.s;
    if net.OnPath(o, b1.s, b2.s) { net.OnPathNearer(o, b1.s, b2.s); }
  }

  /** Copies that keep apart from `c` keep apart from what `c` becomes. */
  lemma ChildApart(net: Network, st: State, c: Copy, q: Port, d: Copy)
    requires net.Valid() && CopyOk(net, st, c) && CopyOk(net, st, d) && d.f == c.f
    requires q != c.inPort && Place(c.s, q) in net.peer
    requires !Behind(net, c, d.s) && !Behind(net, d, c.s)
    ensures var b := net.peer[Place(c.s, q)];
      !Behind(net, Copy(c.f, b.s, b.p, false), d.s) && !Behind(net, d, b.s)
  {
    var b, o := net.peer[Place(c.s, q)], net.hosts[c.f.src].s;
    NewCopyOk(net, st, c, q);
    assert net.OnPath(o, c.s, b.s);
    if net.OnPath(o, b.s, d.s) { net.OnPathTrans(o, c.s, b.s, d.s); }
  }

  /** What `c` becomes is ahead of every switch that `c` was ahead of, and of `c`'s own switch. */
  lemma ChildAhead(net: Network, st: State, c: Copy, q: Port, x: Switch)
    requires net.Valid() && CopyOk(net, st, c) && q != c.inPort && Place(c.s, q) in net.peer && net.IsSwitch(x)
    requires !Behind(net, c, x) || x == c.s
    ensures var b := net.peer[Place(c.s, q)]; !Behind(net, Copy(c.f, b.s, b.p, false), x)
  {
    var b, o := net.peer[Place(c.s, q)], net.hosts[c.f.src].s;
    NewCopyOk(net, st, c, q);
    assert net.OnPath(o, c.s, b.s);
    if net.OnPath(o, b.s, x) {
      net.OnPathNearer(o, b.s, x);
      net.OnPathTrans(o, c.s, b.s, x);
    }
  }

  // ----- every step keeps the invariant

  lemma EmittedApart(net: Network, st: State, i: int, know: Knowledge, outs: seq<Port>, j: int, k: int)
    requires net.Valid() && CopiesOk(net, st) && i in st.copies && OutsOk(net, st.copies[i], outs)
    requires var st' := Emit(net, st, i, know, outs);
      j in st'.copies && k in st'.copies && j != k && st'.copies[j].f == st'.copies[k].f
    ensures var st' := Emit(net, st, i, know, outs); !Behind(net, st'.copies[j], st'.copies[k].s)
  {
    var c := st.copies[i];
    assert CopyOk(net, st, c);
    if j >= st.next && k >= st.next {
      SiblingsApart(net, st, c, outs[j - st.next], outs[k - st.next]);
    } else if j >= st.next {
      ChildApart(net, st, c, outs[j - st.next], st.copies[k]);
    } else if k >= st.next {
      ChildApart(net, st, c, outs[k - st.next], st.copies[j]);
    }
  }

  lemma EmittedAhead(net: Network, st: State, i: int, know: Knowledge, outs: seq<Port>, j: int, x: Switch)
    requires net.Valid() && CopiesOk(net, st) && i in st.copies && OutsOk(net, st.copies[i], outs)
    requires var st' := Emit(net, st, i, know, outs); j in st'.copies && (st'.copies[j].f, x) in st'.seen
    ensures var st' := Emit(net, st, i, know, outs); !Behind(net, st'.copies[j], x)
  {
    var c := st.copies[i];
    assert CopyOk(net, st, c);
    if j >= st.next { ChildAhead(net, st, c, outs[j - st.next], x); }
  }

  lemma EmittedOk(net: Network, st: State, i: int, know: Knowledge, outs: seq<Port>, k: int)
    requires net.Valid() && CopiesOk(net, st) && i in st.copies
    requires k in Emit(net, st, i, know, outs).copies
    ensures var st' := Emit(net, st, i, know, outs); k < st'.next && CopyOk(net, st', st'.copies[k])
  {
    if k < st.next {
      assert CopyOk(net, st, st.copies[k]);
    } else {
      NewCopyOk(net, st, st.copies[i], outs[k - st.next]);
    }
  }

  lemma EmitKeepsEach(net: Network, st: State, i: int, know: Knowledge, outs: seq<Port>)
    requires net.Valid() && CopiesOk(net, st) && i in st.copies
    ensures EachOk(net, Emit(net, st, i, know, outs))
  {
    var st' := Emit(net, st, i, know, outs);
    forall k | k in st'.copies ensures k < st'.next && CopyOk(net, st', st'.copies[k]) {
      EmittedOk(net, st, i, know, outs, k);
    }
  }

  lemma EmitKeepsApart(net: Network, st: State, i: int, know: Knowledge, outs: seq<Port>)
    requires net.Valid() && CopiesOk(net, st) && i in st.copies && OutsOk(net, st.copies[i], outs)
    ensures Apart(net, Emit(net, st, i, know, outs))
  {
    var st' := Emit(net, st, i, know, outs);
    forall j, k | j in st'.copies && k in st'.copies && j != k && st'.copies[j].f == st'.copies[k].f
      ensures !Behind(net, st'.copies[j], st'.copies[k].s)
    {
      EmittedApart(net, st, i, know, outs, j, k);
    }
  }

  lemma EmitKeepsAhead(net: Network, st: State, i: int, know: Knowledge, outs: seq<Port>)
    requires net.Valid() && CopiesOk(net, st) && i in st.copies && OutsOk(net, st.copies[i], outs)
    ensures Ahead(net, Emit(net, st, i, know, outs))
  {
    var st' := Emit(net, st, i, know, outs);
    forall j, x | j in st'.copies && (st'.copies[j].f, x) in st'.seen ensures !Behind(net, st'.copies[j], x) {
      EmittedAhead(net, st, i, know, outs, j, x);
    }
  }

  lemma EmitCopiesOk(net: Network, st: State, i: int, know: Knowledge, outs: seq<Port>)
    requires net.Valid() && CopiesOk(net, st) && i in st.copies && OutsOk(net, st.copies[i], outs)
    ensures CopiesOk(net, Emit(net, st, i, know, outs))
  {
    assert CopyOk(net, st, st.copies[i]);
    EmitKeepsEach(net, st, i, know, outs);
    EmitKeepsApart(net, st, i, know, outs);
    EmitKeepsAhead(net, st, i, know, outs);
  }

  /** Nothing leaves by the port that leads back to the sender. */
  lemma EmittedDelivery(net: Network, st: State, c: Copy, outs: seq<Port>, k: int)
    requires net.Valid() && CopyOk(net, st, c) && Leaves(c, outs, st.next, k)
    ensures OutPlace(c, outs, st.next, k) != net.hosts[c.f.src]
  {
  }

  lemma EmitDeliveryOk(net: Network, st: State, i: int, know: Knowledge, outs: seq<Port>, k: int)
    requires net.Valid() && CopiesOk(net, st) && DeliveriesOk(net, st) && i in st.copies
    requires k in Emit(net, st, i, know, outs).delivered
    ensures var st' := Emit(net, st, i, know, outs); k < st'.next && DeliveryOk(net, st', st'.delivered[k])
  {
    if k in NewDeliveries(net, st.copies[i], outs, st.next) {
      assert CopyOk(net, st, st.copies[i]);
      EmittedDelivery(net, st, st.copies[i], outs, k);
    } else {
      assert DeliveryOk(net, st, st.delivered[k]);
    }
  }

  lemma EmitDeliveriesApart(net: Network, st: State, i: int, know: Knowledge, outs: seq<Port>, j: int, k: int)
    requires DeliveriesOk(net, st) && i in st.copies && (st.copies[i].f, st.copies[i].s) !in st.seen
    requires (forall a, b :: 0 <= a < b < |outs| ==> outs[a] != outs[b]) && j < k
    requires var st' := Emit(net, st, i, know, outs); j in st'.delivered && k in st'.delivered
    ensures var st' := Emit(net, st, i, know, outs); st'.delivered[j] != st'.delivered[k]
  {
    var c := st.copies[i];
    var out := NewDeliveries(net, c, outs, st.next);
    if j in out {
      assert k in out;
      assert outs[j - st.next] != outs[k - st.next];
    } else {
      assert DeliveryOk(net, st, st.delivered[j]);
      if k in out { assert out[k].f == c.f && out[k].at.s == c.s; }
    }
  }

  lemma EmitDeliveriesOk(net: Network, st: State, i: int, know: Knowledge, outs: seq<Port>)
    requires net.Valid() && CopiesOk(net, st) && DeliveriesOk(net, st) && i in st.copies
    requires OutsOk(net, st.copies[i], outs)
    ensures DeliveriesOk(net, Emit(net, st, i, know, outs))
  {
    var st' := Emit(net, st, i, know, outs);
    NotSeenYet(net, st, i);
    forall k | k in st'.delivered ensures k < st'.next && DeliveryOk(net, st', st'.delivered[k]) {
      EmitDeliveryOk(net, st, i, know, outs, k);
    }
    forall j, k | j in st'.delivered && k in st'.delivered && j != k ensures st'.delivered[j] != st'.delivered[k] {
      EmitDeliveriesApart(net, st, i, know, outs, if j < k then j else k, if j < k then k else j);
    }
  }

  /** The way to a wanted host is not the way back to the sender. */
  lemma NotBack(net: Network, st: State, c: Copy, d: Mac)
    requires net.Valid() && CopyOk(net, st, c) && Wanted(net, c.f, d) && Behind(net, c, net.hosts[d].s)
    ensures net.Toward(c.s, net.hosts[d]) != c.inPort
  {
    var at, o := net.hosts[d], net.hosts[c.f.src];
    assert net.HostOk(d) && net.HostOk(c.f.src);
    if c.s != o.s { net.HopNearer(c.s, o.s); }
    if c.s != at.s {
      net.OnPathAhead(o.s, c.s, at.s);
      net.HopNearer(c.s, at.s);
    }
  }

  /** A copy sent out of a port without a wire leaves the network there. */
  lemma LeavesNetwork(net: Network, st: State, i: int, know: Knowledge, outs: seq<Port>, k: nat)
    requires i in st.copies && k < |outs| && outs[k] != st.copies[i].inPort
    requires Place(st.copies[i].s, outs[k]) !in net.peer
    ensures HasDelivery(Emit(net, st, i, know, outs), st.copies[i].f, Place(st.copies[i].s, outs[k]))
  {
    var st', n := Emit(net, st, i, know, outs), st.next + k;
    assert OutPlace(st.copies[i], outs, st.next, n) !in net.peer;
    assert st'.delivered[n] == Delivery(st.copies[i].f, Place(st.copies[i].s, outs[k]));
  }

  /** The host is further on, and a copy is sent towards it. */
  lemma ServedAhead(net: Network, st: State, i: int, know: Knowledge, outs: seq<Port>, d: Mac, k: nat)
    requires net.Valid() && CopiesOk(net, st) && i in st.copies && CopyOk(net, st, st.copies[i])
    requires Wanted(net, st.copies[i].f, d) && Behind(net, st.copies[i], net.hosts[d].s)
    requires st.copies[i].s != net.hosts[d].s
    requires k < |outs| && outs[k] == net.HopPort(st.copies[i].s, net.hosts[d].s) && outs[k] != st.copies[i].inPort
    ensures OnItsWay(net, Emit(net, st, i, know, outs), st.copies[i].f, net.hosts[d].s)
  {
    var c, st' := st.copies[i], Emit(net, st, i, know, outs);
    var x := net.hosts[d].s;
    net.OnPathAhead(net.hosts[c.f.src].s, c.s, x);
    net.HopNearer(c.s, x);
    assert Behind(net, st'.copies[st.next + k], x);
  }

  /** A wanted host is served by the copy on its way: at once, or by the copy sent ahead. */
  lemma EmitServes(net: Network, st: State, i: int, know: Knowledge, outs: seq<Port>, d: Mac)
    requires net.Valid() && CopiesOk(net, st) && i in st.copies && OutsOk(net, st.copies[i], outs)
    requires Wanted(net, st.copies[i].f, d) && Behind(net, st.copies[i], net.hosts[d].s)
    ensures Served(net, Emit(net, st, i, know, outs), st.copies[i].f, net.hosts[d])
  {
    var c := st.copies[i];
    assert CopyOk(net, st, c);
    NotBack(net, st, c, d);
    var k :| 0 <= k < |outs| && outs[k] == net.Toward(c.s, net.hosts[d]);
    if c.s == net.hosts[d].s {
      assert net.HostOk(d);
      LeavesNetwork(net, st, i, know, outs, k);
    } else {
      ServedAhead(net, st, i, know, outs, d, k);
    }
  }

  ghost predicate Served(net: Network, st: State, f: Frame, at: Place)
    requires net.Valid()
  {
    HasDelivery(st, f, at) || OnItsWay(net, st, f, at.s)
  }

  /** Whoever was served by something other than copy `i` still is. */
  lemma OthersStillServe(net: Network, st: State, i: int, know: Knowledge, outs: seq<Port>, f: Frame, at: Place, j: int)
    requires net.Valid() && i in st.copies && j < st.next
    requires (j in st.delivered && st.delivered[j] == Delivery(f, at))
             || (j in st.copies && j != i && st.copies[j].f == f && Behind(net, st.copies[j], at.s))
    ensures Served(net, Emit(net, st, i, know, outs), f, at)
  {
    var st' := Emit(net, st, i, know, outs);
    if j in st.delivered && st.delivered[j] == Delivery(f, at) {
      assert st'.delivered[j] == Delivery(f, at);
    } else {
      assert st'.copies[j] == st.copies[j];
    }
  }

  lemma EmitKeepsServed(net: Network, st: State, i: int, know: Knowledge, outs: seq<Port>, f: Frame, d: Mac)
    requires net.Valid() && CopiesOk(net, st) && DeliveriesOk(net, st) && i in st.copies
    requires OutsOk(net, st.copies[i], outs) && Wanted(net, f, d) && Served(net, st, f, net.hosts[d])
    ensures Served(net, Emit(net, st, i, know, outs), f, net.hosts[d])
  {
    if HasDelivery(st, f, net.hosts[d]) {
      var j :| j in st.delivered && st.delivered[j] == Delivery(f, net.hosts[d]);
      OthersStillServe(net, st, i, know, outs, f, net.hosts[d], j);
    } else {
      var j :| j in st.copies && st.copies[j].f == f && Behind(net, st.copies[j], net.hosts[d].s);
      if j == i {
        EmitServes(net, st, i, know, outs, d);
      } else {
        OthersStillServe(net, st, i, know, outs, f, net.hosts[d], j);
      }
    }
  }

  lemma EmitNothingLost(net: Network, st: State, i: int, know: Knowledge, outs: seq<Port>)
    requires net.Valid() && CopiesOk(net, st) && DeliveriesOk(net, st) && NothingLost(net, st) && i in st.copies
    requires OutsOk(net, st.copies[i], outs)
    ensures NothingLost(net, Emit(net, st, i, know, outs))
  {
    var st' := Emit(net, st, i, know, outs);
    forall f, d | f in st'.sent && Wanted(net, f, d) ensures Served(net, st', f, net.hosts[d]) {
      EmitKeepsServed(net, st, i, know, outs, f, d);
    }
  }

  lemma EmitKeepsInv(net: Network, st: State, i: int, know: Knowledge, outs: seq<Port>)
    requires net.Valid() && Inv(net, st) && i in st.copies && PointsHome(net, know)
    requires OutsOk(net, st.copies[i], outs)
    ensures Inv(net, Emit(net, st, i, know, outs))
  {
    EmitCopiesOk(net, st, i, know, outs);
    EmitDeliveriesOk(net, st, i, know, outs);
    EmitNothingLost(net, st, i, know, outs);
  }

  lemma SendCopiesOk(net: Network, st: State, f: Frame, st': State)
    requires net.Valid() && CopiesOk(net, st) && Next(net, st, Send(f), st')
    ensures CopiesOk(net, st')
  {
    assert net.HostOk(f.src);
    assert CopyOk(net, st', st'.copies[st.next]);
    forall i | i in st'.copies ensures i < st'.next && CopyOk(net, st', st'.copies[i]) {
      if i != st.next { assert CopyOk(net, st, st.copies[i]); }
    }
  }

  lemma SendDeliveriesOk(net: Network, st: State, f: Frame, st': State)
    requires DeliveriesOk(net, st) && Next(net, st, Send(f), st')
    ensures DeliveriesOk(net, st')
  {
    forall i | i in st'.delivered ensures i < st'.next && DeliveryOk(net, st', st'.delivered[i]) {
      assert DeliveryOk(net, st, st.delivered[i]);
    }
  }

  /** The new frame is on its way to every host. */
  lemma SendServes(net: Network, st: State, f: Frame, st': State, d: Mac)
    requires net.Valid() && Next(net, st, Send(f), st') && Wanted(net, f, d)
    ensures Served(net, st', f, net.hosts[d])
  {
    assert net.HostOk(f.src) && net.HostOk(d);
    net.OnPathStart(net.hosts[f.src].s, net.hosts[d].s);
    assert Behind(net, st'.copies[st.next], net.hosts[d].s);
  }

  /** What serves a host before the step still does, if its copy is only changed in whether it waits. */
  lemma StillServed(net: Network, st: State, st': State, g: Frame, at: Place)
    requires net.Valid() && Served(net, st, g, at)
    requires forall j :: j in st.delivered ==> j in st'.delivered && st'.delivered[j] == st.delivered[j]
    requires forall j :: j in st.copies ==>
               j in st'.copies && st'.copies[j] == st.copies[j].(waiting := st'.copies[j].waiting)
    ensures Served(net, st', g, at)
  {
    if HasDelivery(st, g, at) {
      assert HasDelivery(st', g, at);
    } else {
      var j :| j in st.copies && st.copies[j].f == g && Behind(net, st.copies[j], at.s);
      assert Behind(net, st'.copies[j], at.s);
    }
  }

  lemma SendKeepsInv(net: Network, st: State, f: Frame, st': State)
    requires net.Valid() && Inv(net, st) && Next(net, st, Send(f), st')
    ensures Inv(net, st')
  {
    SendCopiesOk(net, st, f, st');
    SendDeliveriesOk(net, st, f, st');
    assert st.next !in st.copies;
    forall g, d | g in st'.sent && Wanted(net, g, d) ensures Served(net, st', g, net.hosts[d]) {
      if g == f { SendServes(net, st, f, st', d); } else { StillServed(net, st, st', g, net.hosts[d]); }
    }
  }

  lemma MissKeepsInv(net: Network, st: State, i: int, st': State)
    requires net.Valid() && Inv(net, st) && Next(net, st, Miss(i), st')
    ensures Inv(net, st')
  {
    MissCopiesOk(net, st, i, st');
    forall j | j in st'.delivered ensures DeliveryOk(net, st', st'.delivered[j]) {
      assert DeliveryOk(net, st, st.delivered[j]);
    }
    forall f, d | f in st'.sent && Wanted(net, f, d) ensures Served(net, st', f, net.hosts[d]) {
      StillServed(net, st, st', f, net.hosts[d]);
    }
  }

  lemma MissCopiesOk(net: Network, st: State, i: int, st': State)
    requires net.Valid() && CopiesOk(net, st) && Next(net, st, Miss(i), st')
    ensures CopiesOk(net, st')
  {
    forall j | j in st'.copies ensures j < st'.next && CopyOk(net, st', st'.copies[j]) {
      assert CopyOk(net, st, st.copies[j]);
    }
    forall j, x | j in st.copies ensures Behind(net, st'.copies[j], x) == Behind(net, st.copies[j], x) {
    }
  }

  lemma LearnedPointsHome(net: Network, st: State, c: Copy)
    requires net.Valid() && PointsHome(net, st.know) && CopyOk(net, st, c)
    ensures PointsHome(net, st.know.AfterPacketIn(c.s, c.inPort, c.f.src, c.f.dst))
  {
  }

  lemma MatchKeepsInv(net: Network, st: State, i: int, st': State)
    requires net.Valid() && Inv(net, st) && Next(net, st, Match(i), st')
    ensures Inv(net, st')
  {
    var c := st.copies[i];
    assert CopyOk(net, st, c);
    EmitKeepsInv(net, st, i, st.know, [st.know.flows[(c.s, c.inPort, c.f.dst)]]);
  }

  lemma AnswerKeepsInv(net: Network, st: State, i: int, st': State)
    requires net.Valid() && Inv(net, st) && Next(net, st, Answer(i), st')
    ensures Inv(net, st')
  {
    var c := st.copies[i];
    var know := st.know.AfterPacketIn(c.s, c.inPort, c.f.src, c.f.dst);
    assert CopyOk(net, st, c);
    LearnedPointsHome(net, st, c);
    AnswerOuts(net, c, know);
    EmitKeepsInv(net, st, i, know, PortsOf(net, c.s, know.Decide(c.s, c.f.dst)));
  }

  lemma StepKeepsInv(net: Network, st: State, step: Step, st': State)
    requires net.Valid() && Inv(net, st) && Next(net, st, step, st')
    ensures Inv(net, st')
  {
    match step
    case Send(f) => SendKeepsInv(net, st, f, st');
    case Miss(i) => MissKeepsInv(net, st, i, st');
    case Match(i) => MatchKeepsInv(net, st, i, st');
    case Answer(i) => AnswerKeepsInv(net, st, i, st');
  }

  // ----- runs

  /** A run of the network from its start to `End(r)`, with any interleaving of hosts, switches
      and controller. Every prefix of a run is a run. */
  ghost predicate Run(net: Network, r: seq<State>, steps: seq<Step>)
    decreases |steps|
  {
    && |r| == |steps| + 1
    && if steps == [] then Init(r[0])
       else Run(net, r[..|steps|], steps[..|steps| - 1]) && Next(net, r[|r| - 2], steps[|steps| - 1], r[|r| - 1])
  }

  ghost function End(r: seq<State>): State
    requires r != []
  {
    r[|r| - 1]
  }

  lemma {:induction false} RunKeepsInv(net: Network, r: seq<State>, steps: seq<Step>)
    requires net.Valid() && Run(net, r, steps)
    ensures Inv(net, End(r))
    decreases |steps|
  {
    if steps != [] {
      RunKeepsInv(net, r[..|steps|], steps[..|steps| - 1]);
      StepKeepsInv(net, r[|r| - 2], steps[|steps| - 1], r[|r| - 1]);
    }
  }

  /** In every run, whatever the order of the packet-ins: all learned ports and installed entries
      point towards the owner of the address, and no host gets two copies of a frame. */
  lemma NeverMisdirectedNeverTwice(net: Network, r: seq<State>, steps: seq<Step>)
    requires net.Valid() && Run(net, r, steps)
    ensures PointsHome(net, End(r).know)
    ensures forall j, k :: j in End(r).delivered && k in End(r).delivered && End(r).delivered[j] == End(r).delivered[k]
              ==> j == k
  {
    RunKeepsInv(net, r, steps);
  }

  /** Once a frame has no copies left in the network, the host it is addressed to has got it; if
      no host has that address, every host but the sender has. With `NeverMisdirectedNeverTwice`:
      exactly once. */
  lemma DeliveredWhenQuiet(net: Network, r: seq<State>, steps: seq<Step>, f: Frame, d: Mac)
    requires net.Valid() && Run(net, r, steps)
    requires f in End(r).sent && Wanted(net, f, d) && forall j :: j in End(r).copies ==> End(r).copies[j].f != f
    ensures HasDelivery(End(r), f, net.hosts[d])
  {
    RunKeepsInv(net, r, steps);
    assert Served(net, End(r), f, net.hosts[d]);
  }

  /** Number of times any switch has processed any frame. */
  ghost function Processed(steps: seq<Step>): nat {
    if steps == [] then 0
    else Processed(steps[..|steps| - 1]) + if steps[|steps| - 1].Match? || steps[|steps| - 1].Answer? then 1 else 0
  }

  /** Processing a frame is always the first time that switch does it. */
  lemma FirstTime(net: Network, st: State, step: Step, st': State)
    requires net.Valid() && CopiesOk(net, st) && Next(net, st, step, st')
    ensures |st'.seen| == |st.seen| + if step.Match? || step.Answer? then 1 else 0
  {
    if step.Match? || step.Answer? { NotSeenYet(net, st, step.i); }
  }

  lemma NotSeenYet(net: Network, st: State, i: int)
    requires net.Valid() && CopiesOk(net, st) && i in st.copies
    ensures (st.copies[i].f, st.copies[i].s) !in st.seen
  {
    var c := st.copies[i];
    assert CopyOk(net, st, c);
    assert net.OnPath(net.hosts[c.f.src].s, c.s, c.s);
  }

  lemma {:induction false} ProcessedIsSeen(net: Network, r: seq<State>, steps: seq<Step>)
    requires net.Valid() && Run(net, r, steps)
    ensures |End(r).seen| == Processed(steps)
    decreases |steps|
  {
    if steps != [] {
      ProcessedIsSeen(net, r[..|steps|], steps[..|steps| - 1]);
      RunKeepsInv(net, r[..|steps|], steps[..|steps| - 1]);
      FirstTime(net, r[|r| - 2], steps[|steps| - 1], r[|r| - 1]);
    }
  }

  function Pairs(fs: set<Frame>, ss: set<Switch>): set<(Frame, Switch)> {
    set f, s | f in fs && s in ss :: (f, s)
  }

  lemma {:induction false} PairsWith(f: Frame, ss: set<Switch>)
    ensures |Pairs({f}, ss)| == |ss|
  {
    if ss == {} {
      assert Pairs({f}, ss) == {};
    } else {
      var s := SomeElement(ss);
      PairsWith(f, ss - {s});
      assert Pairs({f}, ss) == Pairs({f}, ss - {s}) + {(f, s)};
    }
  }

  lemma {:induction false} PairsSize(fs: set<Frame>, ss: set<Switch>)
    ensures |Pairs(fs, ss)| == |fs| * |ss|
  {
    if fs == {} {
      assert Pairs(fs, ss) == {};
    } else {
      var f := SomeElement(fs);
      var rest := fs - {f};
      PairsSize(rest, ss);
      PairsWith(f, ss);
      PairsUnion(rest, f, ss);
      assert rest + {f} == fs && |fs| == |rest| + 1;
      assert |fs| * |ss| == |rest| * |ss| + |ss|;
    }
  }

  lemma PairsUnion(rest: set<Frame>, f: Frame, ss: set<Switch>)
    requires f !in rest
    ensures |Pairs(rest + {f}, ss)| == |Pairs(rest, ss)| + |Pairs({f}, ss)|
  {
    assert Pairs(rest + {f}, ss) == Pairs(rest, ss) + Pairs({f}, ss);
    assert Pairs(rest, ss) !! Pairs({f}, ss);
  }

  /** No frame circulates: every switch processes every frame at most once, so a run in which
      finitely many frames are sent forwards only finitely often. */
  lemma NoFrameCirculates(net: Network, r: seq<State>, steps: seq<Step>)
    requires net.Valid() && Run(net, r, steps)
    ensures Processed(steps) <= |End(r).sent| * |net.ports.Keys|
  {
    RunKeepsInv(net, r, steps);
    ProcessedIsSeen(net, r, steps);
    var all := Pairs(End(r).sent, net.ports.Keys);
    PairsSize(End(r).sent, net.ports.Keys);
    forall f, s | (f, s) in End(r).seen ensures (f, s) in all {
      assert f in End(r).sent && s in net.ports.Keys;
    }
    assert forall x :: x in End(r).seen ==> x == (x.0, x.1);
    SubsetSize(End(r).seen, all);
  }
}
