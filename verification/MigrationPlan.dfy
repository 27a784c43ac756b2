/** The sequence of FlowMods that moves a live flow from one path to another, and what the
    switch tables hold after every single one of them. */
module MigrationPlan {
  import opened Sequences
  import opened FlowTables

  /** One rerouting: match `m` goes from path `prev` to path `next`, leaves its last switch at
      `hostPort`, and `dels` is the order in which the abandoned switches are cleaned up. */
  datatype Migration = Migration(net: Net, m: Match, prev: seq<Switch>, next: seq<Switch>, hostPort: Port,
                                 dels: seq<Switch>) {
    /** Both paths are simple, wired, and join the same two switches. */
    ghost predicate Valid() {
      && net.Faithful()
      && |prev| > 0 && |next| > 0
      && NoDup(prev) && NoDup(next)
      && net.PathLinked(prev) && net.PathLinked(next)
      && prev[0] == next[0] && prev[|prev| - 1] == next[|next| - 1]
      && net.IsHostPort(prev[|prev| - 1], hostPort)
      && NoDup(dels) && (forall s :: s in dels <==> s in prev && s !in next)
    }

    /** The switches of `next[..k]` that are not on the prev path, in path order. */
    function Adds(k: nat): seq<Switch>
      requires k <= |next|
    {
      if k == 0 then [] else Adds(k - 1) + if next[k - 1] in prev then [] else [next[k - 1]]
    }

    /** Does switch `next[k]` go into the modification list when its successor is examined? */
    predicate MustModify(k: nat)
      requires k + 1 < |next|
    {
      if next[k + 1] in prev then
        var a := IndexOf(prev, next[k + 1]);
        next[k] in prev && (a == 0 || prev[a - 1] != next[k])
      else
        true
    }

    /** The switches to modify among `next[..k]`, in the order in which the code finds them. */
    function ModsFound(k: nat): seq<Switch>
      requires k < |next|
    {
      if k == 0 then [] else ModsFound(k - 1) + if MustModify(k - 1) then [next[k - 1]] else []
    }

    /** The switches to modify among `next[..k]`, last one first. */
    function Mods(k: nat): seq<Switch>
      requires k < |next|
    {
      if k == 0 then [] else (if MustModify(k - 1) then [next[k - 1]] else []) + Mods(k - 1)
    }

    /** Port of `s` towards its successor on the new path. */
    function NextPort(s: Switch): Port
      requires net.PathLinked(next) && s in next && IndexOf(next, s) + 1 < |next|
    {
      net.EntryFor(next, hostPort, IndexOf(next, s))
    }

    /** Switches that have a successor on the new path. */
    ghost predicate Forwarders(ws: seq<Switch>) {
      forall s :: s in ws ==> s in next && IndexOf(next, s) + 1 < |next|
    }

    function Writes(ws: seq<Switch>): (r: seq<FlowMod>)
      requires net.PathLinked(next) && Forwarders(ws)
      ensures |r| == |ws|
    {
      if ws == [] then [] else Writes(ws[..|ws| - 1]) + [Add(ws[|ws| - 1], m, NextPort(ws[|ws| - 1]))]
    }

    lemma {:induction false} WritesConcat(a: seq<Switch>, b: seq<Switch>)
      requires net.PathLinked(next) && Forwarders(a) && Forwarders(b)
      ensures Writes(a + b) == Writes(a) + Writes(b)
    {
      if b == [] {
        assert a + b == a;
      } else {
        var init := b[..|b| - 1];
        assert b == init + [b[|b| - 1]];
        assert (a + b)[..|a + b| - 1] == a + init;
        WritesConcat(a, init);
      }
    }

    lemma {:induction false} WritesPrefix(ws: seq<Switch>, k: nat)
      requires net.PathLinked(next) && Forwarders(ws) && k <= |ws|
      ensures Forwarders(ws[..k]) && Writes(ws)[..k] == Writes(ws[..k])
      ensures k < |ws| ==> Writes(ws)[k] == Add(ws[k], m, NextPort(ws[k]))
    {
      assert ws == ws[..k] + ws[k..];
      WritesConcat(ws[..k], ws[k..]);
      if k < |ws| {
        assert ws[k..] == [ws[k]] + ws[k + 1..];
        WritesConcat([ws[k]], ws[k + 1..]);
        assert Writes([ws[k]])[0] == Add(ws[k], m, NextPort(ws[k]));
      }
    }

    /** One more write at the end of a list of writes. */
    lemma {:induction false} WritesNext(t: Table, ws: seq<Switch>, s: Switch)
      requires net.PathLinked(next) && Forwarders(ws) && s in next && IndexOf(next, s) + 1 < |next|
      ensures Writes(ws + [s]) == Writes(ws) + [Add(s, m, NextPort(s))]
      ensures ApplyAll(t, Writes(ws + [s])) == Apply(ApplyAll(t, Writes(ws)), Add(s, m, NextPort(s)))
    {
      assert (ws + [s])[..|ws|] == ws;
    }

    function Deletes(ds: seq<Switch>): (r: seq<FlowMod>)
      ensures |r| == |ds|
    {
      if ds == [] then [] else Deletes(ds[..|ds| - 1]) + [Delete(ds[|ds| - 1], m)]
    }

    function Written(): seq<Switch>
      requires |next| > 0
    {
      Adds(|next|) + Mods(|next| - 1)
    }

    lemma {:induction false} DeletesPrefix(ds: seq<Switch>, k: nat)
      requires k <= |ds|
      ensures Deletes(ds)[..k] == Deletes(ds[..k])
      ensures k < |ds| ==> Deletes(ds[..k + 1]) == Deletes(ds[..k]) + [Delete(ds[k], m)]
      decreases |ds| - k
    {
      if k < |ds| {
        assert ds[..k + 1][..k] == ds[..k];
        DeletesPrefix(ds, k + 1);
      } else {
        assert ds[..k] == ds;
      }
    }

    /** Adds first, then modifications from the far end of the new path, then deletions. */
    ghost function Plan(): (r: seq<FlowMod>)
      requires Valid()
      ensures |r| == |Written()| + |dels|
    {
      WrittenForward();
      Writes(Written()) + Deletes(dels)
    }

    /** Tables after the first `q` messages, starting from `t`. */
    ghost function TableAt(t: Table, q: nat): Table
      requires Valid() && q <= |Plan()|
    {
      ApplyAll(t, Plan()[..q])
    }

    /** From this index of the new path on, every switch forwards along the new path once
        `q` messages have taken effect. */
    ghost function Threshold(q: nat): (k: nat)
      requires Valid() && q <= |Plan()|
      ensures k < |next|
    {
      if |Written()| <= q then 0
      else if q <= |Adds(|next|)| then |next| - 1
      else
        var s := Mods(|next| - 1)[q - |Adds(|next|)| - 1];
        ModsHas(s);
        IndexOf(next, s)
    }

    /** The abandoned switches whose entry is gone after `q` messages. */
    ghost function Gone(q: nat): seq<Switch>
      requires Valid() && q <= |Plan()|
    {
      if q <= |Written()| then [] else dels[..q - |Written()|]
    }

    // ----- the lists

    lemma {:induction false} AddsSpec(k: nat)
      requires k <= |next|
      ensures forall s :: s in Adds(k) <==> s in next[..k] && s !in prev
    {
      if k > 0 {
        AddsSpec(k - 1);
        assert next[..k] == next[..k - 1] + [next[k - 1]];
      }
    }

    lemma {:induction false} ModsSpec(k: nat)
      requires k < |next| && NoDup(next)
      ensures forall s :: s in Mods(k) ==> s in next && IndexOf(next, s) < k && MustModify(IndexOf(next, s))
      ensures forall j {:trigger MustModify(j)} :: 0 <= j < k && MustModify(j) ==> next[j] in Mods(k)
      ensures forall p, q :: 0 <= p < q < |Mods(k)| ==> IndexOf(next, Mods(k)[q]) < IndexOf(next, Mods(k)[p])
    {
      if k > 0 {
        ModsSpec(k - 1);
        IndexOfUnique(next, k - 1);
      }
    }

    lemma {:induction false} ModsReversed(k: nat)
      requires k < |next|
      ensures Reverse(ModsFound(k)) == Mods(k)
    {
      if k > 0 {
        ModsReversed(k - 1);
        if MustModify(k - 1) {
          ReversePush(ModsFound(k - 1), next[k - 1]);
        } else {
          assert ModsFound(k) == ModsFound(k - 1);
        }
      }
    }

    lemma AddForward(s: Switch)
      requires Valid() && s in Adds(|next|)
      ensures s in next && IndexOf(next, s) + 1 < |next|
    {
      AddsHas(s);
      assert s != next[|next| - 1];
    }

    lemma {:induction false} WrittenForward()
      requires Valid()
      ensures Forwarders(Written()) && Forwarders(Adds(|next|)) && Forwarders(Mods(|next| - 1))
    {
      forall s | s in Adds(|next|) ensures s in next && IndexOf(next, s) + 1 < |next| { AddForward(s); }
      forall s | s in Mods(|next| - 1) ensures s in next && IndexOf(next, s) + 1 < |next| { ModsHas(s); }
    }

    lemma {:induction false} AddsHas(s: Switch)
      ensures s in Adds(|next|) <==> s in next && s !in prev
    {
      AddsSpec(|next|);
      assert next[..|next|] == next;
    }

    lemma {:induction false} ModsHas(s: Switch)
      requires |next| > 0 && NoDup(next)
      ensures s in Mods(|next| - 1) <==>
                s in next && IndexOf(next, s) + 1 < |next| && MustModify(IndexOf(next, s))
    {
      ModsSpec(|next| - 1);
    }

    /** The modification list runs backwards along the new path, so its prefixes are the
        switches from some index on. */
    lemma ModsPrefix(r: nat, s: Switch)
      requires |next| > 0 && NoDup(next) && 0 < r <= |Mods(|next| - 1)| && s in Mods(|next| - 1)
      ensures var z := Mods(|next| - 1)[r - 1];
        z in next && s in next && (s in Mods(|next| - 1)[..r] <==> IndexOf(next, z) <= IndexOf(next, s))
    {
      var mods := Mods(|next| - 1);
      ModsHas(mods[r - 1]);
      ModsHas(s);
      ModsNoDup();
      var j :| 0 <= j < |mods| && mods[j] == s;
      ModsFall(j, r - 1);
    }

    lemma ModsNoDup()
      requires |next| > 0 && NoDup(next)
      ensures NoDup(Mods(|next| - 1))
    {
      ModsSpec(|next| - 1);
    }

    lemma ModsDescend(p: nat, q: nat)
      requires |next| > 0 && NoDup(next) && p < q < |Mods(|next| - 1)|
      requires Mods(|next| - 1)[p] in next && Mods(|next| - 1)[q] in next
      ensures IndexOf(next, Mods(|next| - 1)[q]) < IndexOf(next, Mods(|next| - 1)[p])
    {
      ModsSpec(|next| - 1);
    }

    lemma ModsFall(p: nat, q: nat)
      requires |next| > 0 && NoDup(next) && p < |Mods(|next| - 1)| && q < |Mods(|next| - 1)|
      ensures Mods(|next| - 1)[p] in next && Mods(|next| - 1)[q] in next
      ensures p <= q <==> IndexOf(next, Mods(|next| - 1)[q]) <= IndexOf(next, Mods(|next| - 1)[p])
    {
      ModsHas(Mods(|next| - 1)[p]);
      ModsHas(Mods(|next| - 1)[q]);
      if p < q { ModsDescend(p, q); } else if q < p { ModsDescend(q, p); }
    }

    /** A shared switch that is not modified has the same successor on both paths. */
    lemma UnmodifiedSame(k: nat, a: nat)
      requires Valid() && k + 1 < |next| && a < |prev| && prev[a] == next[k]
      ensures !MustModify(k) ==> a + 1 < |prev| && prev[a + 1] == next[k + 1]
    {
      if !MustModify(k) {
        var b := IndexOf(prev, next[k + 1]);
        assert prev[b - 1] == prev[a];
        assert a == b - 1;
      }
    }

    /** What the loop over the new path does when it reaches index `i`. */
    lemma {:induction false} DiffStep(i: nat)
      requires Valid() && i < |next|
      ensures next[i] !in prev ==> i > 0 && IndexOf(next, next[i]) == i && MustModify(i - 1)
      ensures i > 0 && next[i] in prev ==>
                var a := IndexOf(prev, next[i]);
                a > 0 && (MustModify(i - 1) <==> prev[a - 1] != next[i - 1] && next[i - 1] !in Adds(i)
                                                 && next[i - 1] !in dels && prev[a] !in dels)
    {
      IndexOfUnique(next, i);
      AddsSpec(i);
      if i > 0 {
        assert next[..i][i - 1] == next[i - 1];
        assert next[i - 1] in next[..i];
        if next[i] in prev {
          var a := IndexOf(prev, next[i]);
          assert a != 0;
          assert next[i - 1] !in dels && prev[a] !in dels;
        }
      }
    }

    // ----- table contents

    /** Entry (`s`, `f`) of `t'` is that of `t`, or the one written by `ws`. */
    ghost predicate EntryAfter(t: Table, t': Table, ws: seq<Switch>, s: Switch, f: Match)
      requires net.PathLinked(next) && Forwarders(ws)
    {
      && ((s, f) in t' <==> (s, f) in t || (f == m && s in ws))
      && ((s, f) in t' ==> t'[(s, f)] == if f == m && s in ws then NextPort(s) else t[(s, f)])
    }

    lemma EntryAfterWrite(t: Table, t': Table, ws: seq<Switch>, z: Switch, s: Switch, f: Match)
      requires net.PathLinked(next) && Forwarders(ws) && Forwarders(ws + [z]) && EntryAfter(t, t', ws, s, f)
      ensures z in next && IndexOf(next, z) + 1 < |next|
      ensures EntryAfter(t, Apply(t', Add(z, m, NextPort(z))), ws + [z], s, f)
    {
      assert (ws + [z])[|ws|] == z;
    }

    lemma {:induction false} AfterWrites(t: Table, ws: seq<Switch>, s: Switch, f: Match)
      requires net.PathLinked(next) && Forwarders(ws)
      ensures EntryAfter(t, ApplyAll(t, Writes(ws)), ws, s, f)
    {
      if ws != [] {
        var init, z := ws[..|ws| - 1], ws[|ws| - 1];
        assert ws == init + [z];
        AfterWrites(t, init, s, f);
        EntryAfterWrite(t, ApplyAll(t, Writes(init)), init, z, s, f);
        WritesNext(t, init, z);
      }
    }

    lemma {:induction false} AfterDeletes(t: Table, ds: seq<Switch>, s: Switch, f: Match)
      ensures (s, f) in ApplyAll(t, Deletes(ds)) <==> (s, f) in t && !(f == m && s in ds)
      ensures (s, f) in ApplyAll(t, Deletes(ds)) ==> ApplyAll(t, Deletes(ds))[(s, f)] == t[(s, f)]
    {
      if ds != [] {
        var init := ds[..|ds| - 1];
        assert ds == init + [ds[|ds| - 1]];
        AfterDeletes(t, init, s, f);
      }
    }

    ghost function WrittenBy(q: nat): seq<Switch>
      requires Valid() && q <= |Plan()|
    {
      if q <= |Written()| then Written()[..q] else Written()
    }

    lemma {:induction false} WrittenByParts(q: nat)
      requires Valid() && q <= |Plan()|
      ensures var adds, mods := Adds(|next|), Mods(|next| - 1);
        WrittenBy(q) == if q <= |adds| then adds[..q]
                        else if q < |Written()| then adds + mods[..q - |adds|]
                        else adds + mods
    {
    }

    /** What has been sent after `q` messages. */
    lemma {:induction false} PlanPrefix(q: nat)
      requires Valid() && q <= |Plan()|
      ensures Forwarders(WrittenBy(q)) && Plan()[..q] == Writes(WrittenBy(q)) + Deletes(Gone(q))
    {
      WrittenForward();
      var w := |Written()|;
      if q <= w {
        WritesPrefix(Written(), q);
      } else {
        DeletesPrefix(dels, q - w);
        assert Plan()[..q] == Writes(Written()) + Deletes(dels)[..q - w];
      }
    }

    /** Closed form of the tables after `q` messages. */
    lemma {:induction false} TableClosedForm(t: Table, q: nat, s: Switch, f: Match)
      requires Valid() && q <= |Plan()|
      ensures s in WrittenBy(q) ==> s in next && IndexOf(next, s) + 1 < |next|
      ensures (s, f) in TableAt(t, q) <==>
                if f == m then s !in Gone(q) && ((s, m) in t || s in WrittenBy(q)) else (s, f) in t
      ensures (s, f) in TableAt(t, q) ==>
                TableAt(t, q)[(s, f)] == if f == m && s in WrittenBy(q) then NextPort(s) else t[(s, f)]
    {
      var w, g := WrittenBy(q), Gone(q);
      PlanPrefix(q);
      ApplyAllConcat(t, Writes(w), Deletes(g));
      AfterWrites(t, w, s, f);
      AfterDeletes(ApplyAll(t, Writes(w)), g, s, f);
    }

    // ----- what every intermediate state satisfies

    /** `k` splits the new path: from `next[k]` on, the tables forward along the new path, and
        every other switch of the old path still forwards along the old one unless it is gone. */
    ghost predicate Stage(t: Table, k: nat, gone: seq<Switch>)
      requires Valid()
    {
      && k < |next|
      && (forall i :: k <= i < |next| ==> net.Forwards(t, m, next, hostPort, i))
      && (forall a {:trigger net.Forwards(t, m, prev, hostPort, a)} ::
            0 <= a < |prev| && prev[a] !in next[k..] && prev[a] !in gone ==> net.Forwards(t, m, prev, hostPort, a))
      && (forall s :: s in gone ==> s in prev && s !in next && k == 0 && (s, m) !in t)
    }

    lemma {:induction false} SuffixSwitch(k: nat, s: Switch)
      requires NoDup(next) && k <= |next| && s in next
      ensures s in next[k..] <==> k <= IndexOf(next, s)
    {
      var i := IndexOf(next, s);
      if k <= i { assert next[k..][i - k] == s; }
      if s in next[k..] {
        var j :| 0 <= j < |next[k..]| && next[k..][j] == s;
        IndexOfUnique(next, k + j);
      }
    }

    /** Which switches of the new path have been written after `q` messages: the new ones
        once all additions are out, the shared ones that must change from the threshold on. */
    lemma {:induction false} WrittenByHas(q: nat, s: Switch)
      requires Valid() && q <= |Plan()| && s in next
      ensures s in prev ==>
                (s in WrittenBy(q) <==> s in Mods(|next| - 1) && Threshold(q) <= IndexOf(next, s))
      ensures s !in prev && Threshold(q) <= IndexOf(next, s) < |next| - 1 ==> s in WrittenBy(q)
    {
      var adds, mods := Adds(|next|), Mods(|next| - 1);
      AddsHas(s);
      ModsHas(s);
      WrittenByParts(q);
      if q <= |adds| {
      } else if q < |Written()| && s in mods {
        ModsPrefix(q - |adds|, s);
      } else if q < |Written()| {
      }
    }

    /** From the threshold on the new path is followed: by a written entry, or by an old one that
        is right on the new path as well. */
    lemma {:induction false} NextFollowed(t: Table, q: nat, i: nat)
      requires Valid() && net.HoldsPath(t, m, prev, hostPort) && q <= |Plan()| && Threshold(q) <= i < |next|
      ensures net.Forwards(TableAt(t, q), m, next, hostPort, i)
    {
      IndexOfUnique(next, i);
      TableClosedForm(t, q, next[i], m);
      GoneSpec(q, next[i]);
      if i == |next| - 1 {
        assert net.Forwards(t, m, prev, hostPort, |prev| - 1);
      } else {
        WrittenByHas(q, next[i]);
        ModsHas(next[i]);
        if next[i] !in WrittenBy(q) {
          UnmodifiedSame(i, IndexOf(prev, next[i]));
          assert net.Forwards(t, m, prev, hostPort, IndexOf(prev, next[i]));
        }
      }
    }

    /** Elsewhere the old path is followed as long as its entries are there. */
    lemma {:induction false} PrevFollowed(t: Table, q: nat, a: nat)
      requires Valid() && net.HoldsPath(t, m, prev, hostPort) && q <= |Plan()| && a < |prev|
      requires prev[a] !in next[Threshold(q)..] && prev[a] !in Gone(q)
      ensures net.Forwards(TableAt(t, q), m, prev, hostPort, a)
    {
      assert net.Forwards(t, m, prev, hostPort, a);
      TableClosedForm(t, q, prev[a], m);
      if prev[a] in next {
        WrittenByHas(q, prev[a]);
        SuffixSwitch(Threshold(q), prev[a]);
      }
    }

    lemma {:induction false} GoneSpec(q: nat, s: Switch)
      requires Valid() && q <= |Plan()|
      ensures s in Gone(q) ==> s in prev && s !in next && Threshold(q) == 0
    {
      if s in Gone(q) { assert s in dels; }
    }

    /** The update invariant, after any number `q` of messages. */
    lemma {:induction false} StageHolds(t: Table, q: nat)
      requires Valid() && net.HoldsPath(t, m, prev, hostPort) && q <= |Plan()|
      ensures Stage(TableAt(t, q), Threshold(q), Gone(q))
    {
      var k, t' := Threshold(q), TableAt(t, q);
      forall s | s in Gone(q) ensures s in prev && s !in next && k == 0 && (s, m) !in t' {
        GoneSpec(q, s);
        TableClosedForm(t, q, s, m);
      }
      forall i | k <= i < |next| ensures net.Forwards(t', m, next, hostPort, i) { NextFollowed(t, q, i); }
      forall a | 0 <= a < |prev| && prev[a] !in next[k..] && prev[a] !in Gone(q)
        ensures net.Forwards(t', m, prev, hostPort, a)
      {
        PrevFollowed(t, q, a);
      }
    }

    /** First switch of the old path (at or after `a`) from which the new path is followed. */
    ghost function Switchover(k: nat, a: nat): (j: nat)
      requires Valid() && k < |next| && a < |prev|
      ensures a <= j < |prev| && prev[j] in next[k..]
      ensures forall b :: a <= b < j ==> prev[b] !in next[k..]
      decreases |prev| - a
    {
      assert next[k..][|next| - 1 - k] == prev[|prev| - 1];
      if prev[a] in next[k..] then a else Switchover(k, a + 1)
    }

    /** Where a packet that enters at the ingress goes after `q` messages: a prefix of the old
        path, then a suffix of the new one. */
    ghost function TrailAt(q: nat): seq<Switch>
      requires Valid() && q <= |Plan()|
    {
      var j := Switchover(Threshold(q), 0);
      prev[..j] + next[IndexOf(next, prev[j])..]
    }

    lemma {:induction false} TrailSimple(q: nat)
      requires Valid() && q <= |Plan()|
      ensures NoDup(TrailAt(q))
    {
      var k, w := Threshold(q), TrailAt(q);
      var j := Switchover(k, 0);
      var x := IndexOf(next, prev[j]);
      forall a, b | 0 <= a < b < |w| ensures w[a] != w[b] {
        if a < j <= b { assert next[k..][b - j + x - k] == w[b]; }
      }
    }

    /** Consecutive switches of the trail forward to each other. */
    lemma {:induction false} TrailHop(t: Table, q: nat, i: nat)
      requires Valid() && net.HoldsPath(t, m, prev, hostPort) && q <= |Plan()| && i + 1 < |TrailAt(q)|
      ensures net.Hop(TableAt(t, q), m, TrailAt(q)[i], TrailAt(q)[i + 1])
    {
      StageHolds(t, q);
      var j := Switchover(Threshold(q), 0);
      if i < j {
        assert net.Forwards(TableAt(t, q), m, prev, hostPort, i) && net.LinkAt(prev, i);
      } else {
        var y := i - j + IndexOf(next, prev[j]);
        assert net.Forwards(TableAt(t, q), m, next, hostPort, y) && net.LinkAt(next, y);
      }
    }

    lemma {:induction false} TrailEnds(t: Table, q: nat)
      requires Valid() && net.HoldsPath(t, m, prev, hostPort) && q <= |Plan()|
      ensures var w, last := TrailAt(q), prev[|prev| - 1];
        && |w| > 0 && w[0] == prev[0] && w[|w| - 1] == last
        && (last, m) in TableAt(t, q) && TableAt(t, q)[(last, m)] == hostPort
    {
      StageHolds(t, q);
      assert net.Forwards(TableAt(t, q), m, next, hostPort, |next| - 1);
    }

    /** On tables `t'` a packet that enters at the ingress leaves at the host port of the egress and
        visits no switch twice, along the trail for `q` messages. */
    ghost predicate Delivers(t': Table, q: nat)
      requires Valid() && q <= |Plan()|
    {
      var w := TrailAt(q);
      net.IsTrail(t', m, w, hostPort) && NoDup(w) && w[0] == prev[0] && w[|w| - 1] == prev[|prev| - 1]
    }

    /** Main theorem. Every single message of the plan leaves the packets of the flow delivered. */
    lemma {:induction false} EveryStateDelivers(t: Table, q: nat)
      requires Valid() && net.HoldsPath(t, m, prev, hostPort) && q <= |Plan()|
      ensures Delivers(TableAt(t, q), q)
    {
      TrailEnds(t, q);
      TrailSimple(q);
      var w := TrailAt(q);
      forall i | 0 <= i < |w| - 1 ensures net.Hop(TableAt(t, q), m, w[i], w[i + 1]) { TrailHop(t, q, i); }
    }

    /** The plan in the three portions in which the code sends it. */
    lemma {:induction false} PlanPortions(t: Table, before: seq<FlowMod>)
      requires Valid()
      ensures Forwarders(Adds(|next|)) && Forwarders(Mods(|next| - 1))
      ensures var a, b, d := Writes(Adds(|next|)), Writes(Mods(|next| - 1)), Deletes(dels);
        before + Plan() == before + a + b + d && ApplyAll(t, Plan()) == ApplyAll(ApplyAll(ApplyAll(t, a), b), d)
    {
      WrittenForward();
      var a, b, d := Writes(Adds(|next|)), Writes(Mods(|next| - 1)), Deletes(dels);
      WritesConcat(Adds(|next|), Mods(|next| - 1));
      ApplyAllConcat(t, a, b);
      ApplyAllConcat(t, a + b, d);
      Associate(before, a, b, d);
    }

    static lemma {:induction false} Associate(w: seq<FlowMod>, a: seq<FlowMod>, b: seq<FlowMod>, d: seq<FlowMod>)
      ensures w + a + b + d == w + (a + b + d)
    {
    }

    /** When all messages have taken effect the tables hold exactly the new path for `m`. */
    lemma {:induction false} PlanInstallsNext(t: Table)
      requires Valid() && net.HoldsPath(t, m, prev, hostPort)
      ensures net.HoldsPath(ApplyAll(t, Plan()), m, next, hostPort)
    {
      var q := |Plan()|;
      assert Plan()[..q] == Plan();
      StageHolds(t, q);
      assert Gone(q) == dels;
      var t' := TableAt(t, q);
      forall s ensures (s, m) in t' <==> s in next {
        TableClosedForm(t, q, s, m);
        if s in next {
          assert net.Forwards(t', m, next, hostPort, IndexOf(next, s));
        }
      }
      assert forall i :: 0 <= i < |next| ==> net.Forwards(t', m, next, hostPort, i);
    }

    /** No message touches the entries of another match. */
    lemma {:induction false} OtherMatchesUntouched(t: Table, q: nat, s: Switch, f: Match)
      requires Valid() && q <= |Plan()| && f != m
      ensures (s, f) in TableAt(t, q) <==> (s, f) in t
      ensures (s, f) in t ==> TableAt(t, q)[(s, f)] == t[(s, f)]
    {
      TableClosedForm(t, q, s, f);
    }

    function AsModify(msg: FlowMod): FlowMod {
      match msg
      case Add(s, f, p) => Modify(s, f, p)
      case _ => msg
    }

    /** The same plan with the modifications sent as MODIFY instead of ADD. */
    ghost function ModifyPlan(): (r: seq<FlowMod>)
      requires Valid()
      ensures |r| == |Plan()|
    {
      var a, w := |Adds(|next|)|, |Written()|;
      seq(|Plan()|, i requires 0 <= i < |Plan()| =>
        if a <= i < w then AsModify(Plan()[i]) else Plan()[i])
    }

    lemma {:induction false} ModifiedHasEntry(t: Table, q: nat)
      requires Valid() && net.HoldsPath(t, m, prev, hostPort) && |Adds(|next|)| <= q < |Written()|
      ensures (Written()[q], m) in TableAt(t, q)
    {
      var s := Written()[q];
      assert s == Mods(|next| - 1)[q - |Adds(|next|)|];
      assert s !in Gone(q);
      TableClosedForm(t, q, s, m);
      WrittenByParts(q);
      AddsHas(s);
      ModsHas(s);
    }

    /** Either command does the same to the switch it reaches. */
    lemma ModifyStep(t: Table, q: nat)
      requires Valid() && net.HoldsPath(t, m, prev, hostPort) && q < |Plan()|
      ensures Apply(TableAt(t, q), ModifyPlan()[q]) == Apply(TableAt(t, q), Plan()[q])
    {
      if |Adds(|next|)| <= q < |Written()| {
        ModifiedHasEntry(t, q);
        WrittenForward();
        WritesPrefix(Written(), q);
        assert Plan()[q] == Writes(Written())[q];
      }
    }

    lemma LastMessage(t: Table, mods: seq<FlowMod>, q: nat)
      requires q < |mods|
      ensures ApplyAll(t, mods[..q + 1]) == Apply(ApplyAll(t, mods[..q]), mods[q])
    {
      assert mods[..q + 1][..q] == mods[..q];
    }

    /** Every modified switch already holds an entry, so it does not matter which of the two
        commands reaches it. */
    lemma {:induction false} ModifyCoincides(t: Table, q: nat)
      requires Valid() && net.HoldsPath(t, m, prev, hostPort) && q <= |Plan()|
      ensures ApplyAll(t, ModifyPlan()[..q]) == TableAt(t, q)
    {
      if q > 0 {
        ModifyCoincides(t, q - 1);
        LastMessage(t, ModifyPlan(), q - 1);
        LastMessage(t, Plan(), q - 1);
        ModifyStep(t, q - 1);
      }
    }
  }
}
