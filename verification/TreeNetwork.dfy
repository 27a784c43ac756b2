/** Tree-shaped switch networks with hosts: directions, distances and paths. */
module TreeNetwork {
  type Switch = int
  type Port = int
  type Mac = string

  /** Where something is attached: a switch and one of its ports. */
  datatype Place = Place(s: Switch, p: Port)

  /** `peer` is the wiring between switches. The tree is given by its root and, for every other
      switch, the port `up` towards its parent. */
  datatype Network = Network(ports: map<Switch, seq<Port>>, peer: map<Place, Place>, hosts: map<Mac, Place>,
                             root: Switch, up: map<Switch, Port>, depth: map<Switch, nat>) {
    predicate IsSwitch(s: Switch) {
      s in ports && s in depth
    }

    predicate HasParent(s: Switch) {
      s in up && Place(s, up[s]) in peer && IsSwitch(peer[Place(s, up[s])].s)
    }

    function Parent(s: Switch): Switch
      requires HasParent(s)
    {
      peer[Place(s, up[s])].s
    }

    /** Every switch but the root has a parent that is one level nearer to the root. */
    ghost predicate SwitchOk(s: Switch) {
      && IsSwitch(s)
      && (forall i, j :: 0 <= i < j < |ports[s]| ==> ports[s][i] != ports[s][j])
      && (s == root <==> s !in up)
      && (s != root ==> HasParent(s) && depth[s] == depth[Parent(s)] + 1)
    }

    /** Wires are symmetric and join a switch with its parent. */
    ghost predicate WireOk(a: Place) {
      a in peer ==>
        var b := peer[a];
        && IsSwitch(a.s) && IsSwitch(b.s) && a.p in ports[a.s] && b in peer && peer[b] == a
        && (IsUplink(a) || IsUplink(b))
    }

    predicate IsUplink(a: Place) {
      a.s in up && up[a.s] == a.p
    }

    ghost predicate HostOk(m: Mac) {
      m in hosts ==> IsSwitch(hosts[m].s) && hosts[m].p in ports[hosts[m].s] && hosts[m] !in peer
    }

    ghost predicate Valid() {
      && IsSwitch(root)
      && (forall s {:trigger SwitchOk(s)} :: s in ports ==> SwitchOk(s))
      && (forall a {:trigger WireOk(a)} :: WireOk(a))
      && (forall m {:trigger HostOk(m)} :: HostOk(m))
      && (forall m, n :: m in hosts && n in hosts && m != n ==> hosts[m] != hosts[n])
    }

    /** `a` is `s` or an ancestor of `s`. */
    ghost predicate Anc(a: Switch, s: Switch)
      requires Valid() && IsSwitch(s)
      decreases depth[s]
    {
      s == a || (s != root && (assert SwitchOk(s); Anc(a, Parent(s))))
    }

    /** The port of ancestor `s` below which `o` hangs. */
    ghost function DownPort(s: Switch, o: Switch): Port
      requires Valid() && IsSwitch(s) && IsSwitch(o) && s != o && Anc(s, o)
      decreases depth[o]
    {
      assert SwitchOk(o);
      if Parent(o) == s then peer[Place(o, up[o])].p
      else DownPort(s, Parent(o))
    }

    /** The port of `s` on the way to another switch. */
    ghost function HopPort(s: Switch, o: Switch): Port
      requires Valid() && IsSwitch(s) && IsSwitch(o) && s != o
    {
      if Anc(s, o) then DownPort(s, o)
      else (RootIsAncestor(o); assert SwitchOk(s); up[s])
    }

    /** The port of `s` on the way to `at`, which may be on `s` itself. */
    ghost function Toward(s: Switch, at: Place): Port
      requires Valid() && IsSwitch(s) && IsSwitch(at.s)
    {
      if s == at.s then at.p else HopPort(s, at.s)
    }

    lemma {:induction false} RootIsAncestor(s: Switch)
      requires Valid() && IsSwitch(s)
      ensures Anc(root, s)
      decreases depth[s]
    {
      if s != root {
        assert SwitchOk(s);
        RootIsAncestor(Parent(s));
      }
    }

    lemma {:induction false} AncIsHigher(a: Switch, s: Switch)
      requires Valid() && IsSwitch(s) && Anc(a, s)
      ensures IsSwitch(a) && depth[a] <= depth[s] && (a != s ==> depth[a] < depth[s])
      decreases depth[s]
    {
      if s != a {
        assert SwitchOk(s);
        AncIsHigher(a, Parent(s));
      }
    }

    /** The wire below an ancestor leads one level down, still towards `o`. */
    lemma {:induction false} DownPortWire(s: Switch, o: Switch)
      requires Valid() && IsSwitch(s) && IsSwitch(o) && s != o && Anc(s, o)
      ensures var a := Place(s, DownPort(s, o));
        && a in peer && IsSwitch(peer[a].s) && IsUplink(peer[a]) && peer[a].s != root
        && HasParent(peer[a].s) && Parent(peer[a].s) == s && Anc(peer[a].s, o)
      decreases depth[o]
    {
      assert SwitchOk(o);
      if Parent(o) == s {
        assert WireOk(Place(o, up[o]));
      } else {
        DownPortWire(s, Parent(o));
      }
    }

    /** Seen from its parent, everything below a child is reached through the wire to that child. */
    lemma {:induction false} DownThrough(c: Switch, o: Switch)
      requires Valid() && IsSwitch(c) && IsSwitch(o) && c != root && Anc(c, o) && HasParent(c)
      ensures Parent(c) != o && Anc(Parent(c), o) && DownPort(Parent(c), o) == peer[Place(c, up[c])].p
      decreases depth[o]
    {
      assert SwitchOk(c) && SwitchOk(o);
      AncIsHigher(c, o);
      if o != c {
        DownThrough(c, Parent(o));
      }
    }

    /** Number of wires between two switches. */
    ghost function Dist(s: Switch, o: Switch): nat
      requires Valid() && IsSwitch(s) && IsSwitch(o)
      decreases depth[s]
    {
      if Anc(s, o) then (AncIsHigher(s, o); depth[o] - depth[s])
      else (RootIsAncestor(o); assert SwitchOk(s); 1 + Dist(Parent(s), o))
    }

    /** A hop towards `o` uses a wire and comes one wire nearer. */
    lemma {:induction false} HopNearer(s: Switch, o: Switch)
      requires Valid() && IsSwitch(s) && IsSwitch(o) && s != o
      ensures var a := Place(s, HopPort(s, o));
        a in peer && IsSwitch(peer[a].s) && a.p in ports[s] && Dist(peer[a].s, o) == Dist(s, o) - 1
    {
      var a := Place(s, HopPort(s, o));
      assert WireOk(a);
      if Anc(s, o) {
        DownPortWire(s, o);
        AncIsHigher(s, o);
        assert SwitchOk(peer[a].s);
      } else {
        RootIsAncestor(o);
        assert SwitchOk(s);
      }
    }

    /** The neighbour behind the wire towards `o`. */
    ghost function Next(s: Switch, o: Switch): (n: Switch)
      requires Valid() && IsSwitch(s) && IsSwitch(o) && s != o
      ensures IsSwitch(n) && Dist(n, o) == Dist(s, o) - 1
    {
      HopNearer(s, o);
      peer[Place(s, HopPort(s, o))].s
    }

    /** Every wire points towards `o` at exactly one of its ends: crossing a wire that does not
        lead towards `o` moves one wire away from it, and the way back is that wire. */
    lemma {:induction false} Orientation(a: Place, o: Switch)
      requires Valid() && a in peer && IsSwitch(o)
      requires IsSwitch(a.s) && (a.s == o || a.p != HopPort(a.s, o))
      ensures var b := peer[a];
        IsSwitch(b.s) && b.s != o && HopPort(b.s, o) == b.p && Next(b.s, o) == a.s && Dist(b.s, o) == Dist(a.s, o) + 1
    {
      var b := peer[a];
      assert WireOk(a) && WireOk(b) && SwitchOk(a.s) && SwitchOk(b.s);
      if IsUplink(a) {
        RootIsAncestor(o);
        DownThrough(a.s, o);
      } else {
        if Anc(b.s, o) { DownThrough(b.s, o); AncIsHigher(b.s, o); }
      }
      HopNearer(b.s, o);
    }

    /** Switch `y` lies on the path from `o` to `x`. */
    ghost predicate OnPath(o: Switch, y: Switch, x: Switch)
      requires Valid() && IsSwitch(o) && IsSwitch(x)
      decreases Dist(x, o)
    {
      x == y || (x != o && OnPath(o, y, Next(x, o)))
    }

    lemma {:induction false} OnPathStart(o: Switch, x: Switch)
      requires Valid() && IsSwitch(o) && IsSwitch(x)
      ensures OnPath(o, o, x)
      decreases Dist(x, o)
    {
      if x != o { OnPathStart(o, Next(x, o)); }
    }

    lemma {:induction false} OnPathNearer(o: Switch, y: Switch, x: Switch)
      requires Valid() && IsSwitch(o) && IsSwitch(x) && OnPath(o, y, x)
      ensures IsSwitch(y) && Dist(y, o) <= Dist(x, o) && (y != x ==> Dist(y, o) < Dist(x, o))
      decreases Dist(x, o)
    {
      if x != y { OnPathNearer(o, y, Next(x, o)); }
    }

    lemma {:induction false} OnPathTrans(o: Switch, y: Switch, z: Switch, x: Switch)
      requires Valid() && IsSwitch(o) && IsSwitch(x) && OnPath(o, z, x) && IsSwitch(z) && OnPath(o, y, z)
      ensures OnPath(o, y, x)
      decreases Dist(x, o)
    {
      if x != z { OnPathTrans(o, y, z, Next(x, o)); }
    }

    /** Two neighbours are reached from a third switch through the same port. */
    lemma NeighboursSamePort(s: Switch, a: Place)
      requires Valid() && IsSwitch(s) && a in peer && IsSwitch(a.s) && IsSwitch(peer[a].s)
      requires s != a.s && s != peer[a].s
      ensures HopPort(s, a.s) == HopPort(s, peer[a].s)
    {
      var b := peer[a];
      assert WireOk(a) && WireOk(b) && SwitchOk(a.s) && SwitchOk(b.s);
    }

    /** From a switch on the path to `x`, the next hop towards `x` stays on that path and does
        not go back towards `o`. */
    lemma {:induction false} OnPathAhead(o: Switch, s: Switch, x: Switch)
      requires Valid() && IsSwitch(o) && IsSwitch(x) && IsSwitch(s) && OnPath(o, s, x) && s != x
      ensures Dist(Next(s, x), o) == Dist(s, o) + 1 && OnPath(o, Next(s, x), x)
      ensures s != o ==> HopPort(s, x) != HopPort(s, o)
      decreases Dist(x, o)
    {
      OnPathNearer(o, s, x);
      HopNearer(x, o);
      var a := Place(x, HopPort(x, o));
      var b := peer[a];
      assert WireOk(a) && WireOk(b);
      if b.s == s {
        Orientation(a, x);
        if s != o { HopNearer(s, o); }
      } else {
        OnPathAhead(o, s, b.s);
        NeighboursSamePort(s, a);
      }
    }
  }
}
