/** How the congestion client's window moves: by how much an action changes it, when slow start ends,
    and what is recorded of the windows that have been closed. */
module SlowStart {
  import opened Options
  import opened Reals
  import opened Congestion

  // ----- the size of a step

  /** The size that the action asks for: 5% more or less per step away from action 5. */
  function Wanted(cwnd: real, action: int): real {
    cwnd + cwnd * ((action - 5) as real) / 20.0
  }

  predicate WholePart(r: real, x: real) {
    r == r.Floor as real && r <= x < r + 1.0
  }

  /** The window becomes the whole part of the wanted size, but changes by at least one packet, and at
      least one packet remains. */
  lemma StepSize(cwnd: real, action: int)
    requires cwnd >= 1.0
    ensures action == 5 ==> UpdateCwnd(cwnd, action) == cwnd
    ensures action > 5 ==> WholePart(UpdateCwnd(cwnd, action), MaxReal(cwnd + 1.0, Wanted(cwnd, action)))
    ensures action < 5 ==>
              var x := MinReal(cwnd - 1.0, Wanted(cwnd, action));
              if x >= 1.0 then WholePart(UpdateCwnd(cwnd, action), x) else UpdateCwnd(cwnd, action) == 1.0
  {
    var b := 0.25 * ((action - 5) as real) / 5.0;
    assert b * cwnd == cwnd * ((action - 5) as real) / 20.0;
  }

  // ----- closed windows

  /** Window `i` is not the first, and has been closed with packets missing. */
  ghost predicate LostAt(c: Client, i: nat) {
    0 < i < |c.windows| && c.windows[i].done && c.windows[i].receivedAcks < c.windows[i].sentPackets
  }

  ghost predicate NoLoss(c: Client) {
    forall i: nat :: !LostAt(c, i)
  }

  /** What is recorded of a closed window other than the first fits its packets and samples. */
  ghost predicate StatsAt(c: Client, i: nat) {
    0 < i < |c.windows| && c.windows[i].done ==>
      var w := c.windows[i];
      && w.sentPackets > 0 && w.rtts != []
      && w.meanRtt * (|w.rtts| as real) == Sum(w.rtts)
      && w.throughput * w.meanRtt == (w.receivedAcks as real) * PAYLOAD_SIZE
      && w.throughput <= c.maxThroughput
      && w.lossRate * (w.sentPackets as real) == (w.sentPackets - w.receivedAcks) as real
  }

  /** It is credited no more. */
  ghost predicate FrozenAt(c: Client, i: nat) {
    0 < i < |c.windows| && c.windows[i].done ==> i + 2 < |c.windows|
  }

  /** Slow start lasts exactly as long as no closed window other than the first has lost a packet. */
  ghost predicate Ledger(c: Client) {
    && (forall i: nat :: StatsAt(c, i))
    && (forall i: nat :: FrozenAt(c, i))
    && (c.slowStart <==> NoLoss(c))
  }

  /** The last window records the congestion window. */
  ghost predicate Recorded(c: Client) {
    |c.windows| > 0 && c.windows[|c.windows| - 1].cwnd == c.cwnd
  }

  /** Closed windows are the same, and so is the question whether slow start lasts. */
  lemma SameLedger(c: Client, d: Client)
    requires Ledger(c) && |d.windows| == |c.windows| && d.slowStart == c.slowStart && d.maxThroughput == c.maxThroughput
    requires forall i :: 0 <= i < |c.windows| ==> d.windows[i].done == c.windows[i].done
    requires forall i :: 0 < i < |c.windows| && c.windows[i].done ==> d.windows[i] == c.windows[i]
    ensures Ledger(d)
  {
    forall i: nat ensures StatsAt(d, i) && FrozenAt(d, i) { assert StatsAt(c, i) && FrozenAt(c, i); }
    forall i: nat ensures LostAt(d, i) <==> LostAt(c, i) {}
  }

  lemma SendLedger(c: Client)
    requires Ledger(c) && Recorded(c)
    ensures Ledger(Send(c)) && Recorded(Send(c))
  {
    assert FrozenAt(c, |c.windows| - 1);
    SameLedger(c, Send(c));
  }

  lemma AccountLedger(c: Client, seqNr: int, rtt: real)
    requires Ledger(c) && Recorded(c)
    ensures Ledger(Account(c, seqNr, rtt)) && Recorded(Account(c, seqNr, rtt))
  {
    assert FrozenAt(c, |c.windows| - 1);
    SameLedger(c, Account(c, seqNr, rtt));
  }

  lemma CreditLedger(c: Client, seqNr: int, rtt: real)
    requires Ledger(c) && Recorded(c)
    ensures Ledger(Credit(c, seqNr, rtt)) && Recorded(Credit(c, seqNr, rtt))
  {
    assert FrozenAt(c, RxIndex(c));
    SameLedger(c, Credit(c, seqNr, rtt));
  }

  lemma Quotient(x: real, y: real)
    requires y > 0.0
    ensures (x / y) * y == x
    ensures x / y > 0.0 <==> x > 0.0
  {
  }

  /** What closing a window records, and when it ends slow start. */
  lemma EndRecords(c: Client, k: nat)
    requires Books(c) && k < |c.windows| && EndWindow(c, k).Running?
    ensures var d := EndWindow(c, k).client; StatsAt(d, k) && d.maxThroughput >= c.maxThroughput
    ensures var d := EndWindow(c, k).client; d.slowStart <==> c.slowStart && !LostAt(d, k)
  {
    var w := c.windows[k];
    assert WindowAt(c, k);
    SumPositive(w.rtts);
    Quotient(Sum(w.rtts), |w.rtts| as real);
    var mean := Sum(w.rtts) / (|w.rtts| as real);
    Quotient((w.receivedAcks as real) * PAYLOAD_SIZE, mean);
    Quotient((w.sentPackets - w.receivedAcks) as real, w.sentPackets as real);
  }

  /** The ledger while the window just closed is still the last but one. */
  ghost predicate Closing(c: Client) {
    && (forall i: nat :: StatsAt(c, i))
    && (forall i: nat :: i + 2 < |c.windows| ==> FrozenAt(c, i))
    && (c.slowStart <==> NoLoss(c))
  }

  lemma EndLedger(c: Client, k: nat)
    requires Books(c) && Ledger(c) && k == RxIndex(c) && EndWindow(c, k).Running?
    ensures Closing(EndWindow(c, k).client)
    ensures |EndWindow(c, k).client.windows| == |c.windows|
    ensures |c.windows| > 1 ==> !EndWindow(c, k).client.windows[|c.windows| - 1].done
  {
    var d := EndWindow(c, k).client;
    EndKeeps(c, k);
    EndRecords(c, k);
    assert FrozenAt(c, k) && FrozenAt(c, |c.windows| - 1);
    forall i: nat ensures StatsAt(d, i) { assert StatsAt(c, i); }
    forall i: nat | i != k ensures LostAt(d, i) <==> LostAt(c, i) {}
    assert !LostAt(c, k);
    if d.slowStart { forall i: nat ensures !LostAt(d, i) { assert !LostAt(c, i); } }
    if NoLoss(d) {
      assert !LostAt(d, k);
      forall i: nat ensures !LostAt(c, i) { assert !LostAt(d, i); }
    }
  }

  lemma StartLedger(c: Client, cwnd: real, action: int)
    requires Closing(c) && |c.windows| > 0 && (|c.windows| > 1 ==> !c.windows[|c.windows| - 1].done)
    ensures Ledger(StartWindow(c, cwnd, action)) && Recorded(StartWindow(c, cwnd, action))
  {
    var d := StartWindow(c, cwnd, action);
    forall i: nat ensures StatsAt(d, i) && FrozenAt(d, i) { assert StatsAt(c, i); }
    forall i: nat ensures LostAt(d, i) <==> LostAt(c, i) {}
    if d.slowStart { forall i: nat ensures !LostAt(d, i) { assert !LostAt(c, i); } }
    if NoLoss(d) { forall i: nat ensures !LostAt(c, i) { assert !LostAt(d, i); } }
  }

  lemma AdvanceLedger(c: Client, action: int)
    requires Books(c) && Ledger(c) && Advance(c, action).Running?
    ensures Ledger(Advance(c, action).client) && Recorded(Advance(c, action).client)
  {
    var rx := RxIndex(c);
    assert FrozenAt(c, |c.windows| - 1);
    if !c.windows[rx].done && |c.windows| > 1 {
      EndLedger(c, rx);
      var e := EndWindow(c, rx).client;
      StartLedger(e, e.cwnd, action);
    } else {
      StartLedger(c, c.cwnd, action);
    }
  }

  lemma AckLedger(c: Client, seqNr: int, rtt: real, action: int)
    requires Valid(c) && Ledger(c) && Recorded(c) && rtt > 0.0 && Acknowledge(c, seqNr, rtt, action).Running?
    ensures var d := Acknowledge(c, seqNr, rtt, action).client; Ledger(d) && Recorded(d)
  {
    var a := Account(c, seqNr, rtt);
    AccountKeeps(c, seqNr, rtt);
    AccountLedger(c, seqNr, rtt);
    if seqNr >= a.windows[TxIndex(a)].startSeq {
      AdvanceLedger(a, action);
      CreditLedger(Advance(a, action).client, seqNr, rtt);
    } else {
      CreditLedger(a, seqNr, rtt);
    }
  }

  lemma SameClosing(c: Client, d: Client)
    requires Closing(c) && d.windows == c.windows && d.slowStart == c.slowStart && d.maxThroughput == c.maxThroughput
    ensures Closing(d)
  {
    forall i: nat ensures StatsAt(d, i) && (i + 2 < |d.windows| ==> FrozenAt(d, i)) {
      assert StatsAt(c, i) && (i + 2 < |c.windows| ==> FrozenAt(c, i));
    }
    forall i: nat ensures LostAt(d, i) <==> LostAt(c, i) {}
  }

  lemma GivenUp(c: Client)
    requires Valid(c)
    ensures Books(c.(inFlight := 0))
  {
    var d := c.(inFlight := 0);
    forall i: nat ensures WindowAt(d, i) { assert WindowAt(c, i); }
  }

  lemma TimeoutLedger(c: Client, action: int)
    requires Valid(c) && Ledger(c) && Recorded(c) && Timeout(c, action).Running?
    ensures var d := Timeout(c, action).client; Ledger(d) && Recorded(d)
  {
    var d := c.(inFlight := 0);
    GivenUp(c);
    SameLedger(c, d);
    EndLedger(d, RxIndex(d));
    var e := EndWindow(d, RxIndex(d)).client;
    var f := e.(nextRx := c.nextTx, cwnd := 1.0);
    SameClosing(e, f);
    StartLedger(f, 1.0, action);
  }

  /** Over every run, timeouts included: the client is in slow start exactly if no closed window other
      than the first has lost a packet, what is recorded of those windows fits their packets and samples,
      and the last window records the congestion window. */
  lemma {:induction false} RunKeepsLedger(events: seq<Event>)
    requires IsRun(events)
    ensures After(events).Running? ==> Ledger(After(events).client) && Recorded(After(events).client)
  {
    if events == [] {
      var c := Begin();
      forall i: nat ensures StatsAt(c, i) && FrozenAt(c, i) && !LostAt(c, i) {}
    } else {
      var before, e := events[..|events| - 1], events[|events| - 1];
      RunKeepsLedger(before);
      RunKeepsBooks(before);
      if After(before).Running? && After(events).Running? {
        match e
        case Sending => SendLedger(After(before).client);
        case Ack(seqNr, rtt, action) => AckLedger(After(before).client, seqNr, rtt, action);
        case Silence(action) => TimeoutLedger(After(before).client, action);
      }
    }
  }

  // ----- the congestion window

  /** In slow start an acknowledgement makes the window one packet larger; the one that closes a lossy
      window halves it and leaves slow start, and the agent's action is applied to the half. */
  lemma AckInSlowStart(c: Client, seqNr: int, rtt: real, action: int)
    requires Valid(c) && c.slowStart && Acknowledge(c, seqNr, rtt, action).Running?
    ensures var d := Acknowledge(c, seqNr, rtt, action).client;
            d.cwnd == if d.slowStart then c.cwnd + 1.0 else UpdateCwnd((c.cwnd + 1.0) / 2.0, action)
  {
    var a := Account(c, seqNr, rtt);
  }

  /** Afterwards the window changes only when a new one is opened, by the agent's action. */
  lemma AckAfterSlowStart(c: Client, seqNr: int, rtt: real, action: int)
    requires Valid(c) && !c.slowStart && Acknowledge(c, seqNr, rtt, action).Running?
    ensures var d := Acknowledge(c, seqNr, rtt, action).client;
      && !d.slowStart
      && |d.windows| == |c.windows| + (if seqNr >= c.windows[|c.windows| - 1].startSeq then 1 else 0)
      && d.cwnd == if |d.windows| > |c.windows| then UpdateCwnd(c.cwnd, action) else c.cwnd
  {
    var a := Account(c, seqNr, rtt);
  }

  /** A timeout makes the window one packet, or two if the agent at once asks for more; nothing counts
      as being in flight any longer, and a new window is open. */
  lemma SilenceToOne(c: Client, action: int)
    requires Valid(c) && Timeout(c, action).Running? && action <= 10
    ensures var d := Timeout(c, action).client;
      && d.cwnd == (if !d.slowStart && action > 5 then 2.0 else 1.0)
      && d.inFlight == 0 && d.nextRx == d.nextTx == c.nextTx
      && |d.windows| == |c.windows| + 1 && d.windows[|c.windows|].startSeq == c.nextTx
  {
  }

  /** An acknowledgement opens a window exactly when its packet belongs to the last one; the next one
      is expected for the packet after it, and the packets up to it are no longer in flight. */
  lemma AckOpens(c: Client, seqNr: int, rtt: real, action: int)
    requires Valid(c) && Acknowledge(c, seqNr, rtt, action).Running?
    ensures var d := Acknowledge(c, seqNr, rtt, action).client;
      && |d.windows| == |c.windows| + (if seqNr >= c.windows[|c.windows| - 1].startSeq then 1 else 0)
      && (|d.windows| > |c.windows| ==> d.windows[|c.windows|].startSeq == c.nextTx)
      && d.nextRx == seqNr + 1 && d.inFlight == c.nextTx - 1 - seqNr
  {
    var a := Account(c, seqNr, rtt);
  }

  /** Acknowledgements since the last timeout. */
  function AcksSince(events: seq<Event>): nat {
    if events == [] || events[|events| - 1].Silence? then 0
    else AcksSince(events[..|events| - 1]) + if events[|events| - 1].Ack? then 1 else 0
  }

  /** What an event does to the window while slow start lasts. */
  lemma EventInSlowStart(c: Client, e: Event)
    requires Valid(c) && Apply(c, e).Running? && Apply(c, e).client.slowStart
    ensures c.slowStart
    ensures var d := Apply(c, e).client;
            d.cwnd == if e.Silence? then 1.0 else if e.Ack? then c.cwnd + 1.0 else c.cwnd
  {
    match e
    case Sending =>
    case Ack(seqNr, rtt, action) =>
      if c.slowStart {
        AckInSlowStart(c, seqNr, rtt, action);
      } else {
        AckAfterSlowStart(c, seqNr, rtt, action);
      }
    case Silence(action) =>
  }

  /** In slow start the congestion window is one packet more than the acknowledgements since the last
      timeout. */
  lemma {:induction false} SlowStartWindow(events: seq<Event>)
    requires IsRun(events)
    ensures After(events).Running? && After(events).client.slowStart ==>
              After(events).client.cwnd == 1.0 + AcksSince(events) as real
  {
    if events != [] {
      var before, e := events[..|events| - 1], events[|events| - 1];
      SlowStartWindow(before);
      RunKeepsBooks(before);
      if After(before).Running? && After(events).Running? && After(events).client.slowStart {
        EventInSlowStart(After(before).client, e);
      }
    }
  }

  // ----- the smallest round-trip time

  ghost predicate SampledAt(c: Client, i: nat, x: real) {
    i < |c.windows| && x in c.windows[i].rtts
  }

  ghost predicate Sampled(c: Client, x: real) {
    exists i: nat :: SampledAt(c, i, x)
  }

  /** The client's smallest round-trip time is the least of all samples. */
  ghost predicate Least(c: Client) {
    && (forall i: nat, x :: SampledAt(c, i, x) ==> c.minRtt.Some? && c.minRtt.value <= x)
    && (c.minRtt.Some? ==> Sampled(c, c.minRtt.value))
  }

  /** The windows of `d` have the samples of those of `c`, and one more in window `k`. */
  ghost predicate MoreSamples(c: Client, d: Client, k: nat, more: seq<real>) {
    forall i: nat, x :: SampledAt(d, i, x) <==> SampledAt(c, i, x) || (i == k && x in more)
  }

  lemma SameLeast(c: Client, d: Client)
    requires Least(c) && MoreSamples(c, d, 0, []) && d.minRtt == c.minRtt
    ensures Least(d)
  {
    if c.minRtt.Some? {
      var i: nat :| SampledAt(c, i, c.minRtt.value);
      assert SampledAt(d, i, c.minRtt.value);
    }
  }

  lemma AckLeast(c: Client, d: Client, k: nat, rtt: real)
    requires Least(c) && MoreSamples(c, d, k, [rtt])
    requires d.minRtt == if c.minRtt.Some? && c.minRtt.value <= rtt then c.minRtt else Some(rtt)
    ensures Least(d)
  {
    if d.minRtt == c.minRtt {
      var i: nat :| SampledAt(c, i, c.minRtt.value);
      assert SampledAt(d, i, c.minRtt.value);
    } else {
      assert SampledAt(d, k, rtt);
    }
  }

  lemma MiddleSamples(c: Client, seqNr: int, action: int)
    requires Books(c) && Middle(c, seqNr, action).Running?
    ensures MoreSamples(c, Middle(c, seqNr, action).client, 0, [])
    ensures Middle(c, seqNr, action).client.minRtt == c.minRtt && |Middle(c, seqNr, action).client.windows| > 0
  {
    var rx := RxIndex(c);
    if seqNr >= c.windows[TxIndex(c)].startSeq && !c.windows[rx].done && |c.windows| > 1 { EndKeeps(c, rx); }
  }

  lemma CreditSamples(c: Client, seqNr: int, rtt: real)
    requires |c.windows| > 0
    ensures MoreSamples(c, Credit(c, seqNr, rtt), RxIndex(c), [rtt]) && Credit(c, seqNr, rtt).minRtt == c.minRtt
  {
  }

  lemma EventLeast(c: Client, e: Event)
    requires Valid(c) && Least(c) && CanHappen(c, e) && Apply(c, e).Running?
    ensures Least(Apply(c, e).client)
  {
    match e
    case Sending => SameLeast(c, Send(c));
    case Ack(seqNr, rtt, action) =>
      var a := Account(c, seqNr, rtt);
      AccountKeeps(c, seqNr, rtt);
      MiddleSamples(a, seqNr, action);
      var m := Middle(a, seqNr, action).client;
      CreditSamples(m, seqNr, rtt);
      AckLeast(c, Credit(m, seqNr, rtt), RxIndex(m), rtt);
    case Silence(action) =>
      var d := c.(inFlight := 0);
      GivenUp(c);
      EndKeeps(d, RxIndex(d));
      SameLeast(c, Timeout(c, action).client);
  }

  /** Over every run the smallest round-trip time is the least of all samples, and there is none
      exactly while there are no samples. */
  lemma {:induction false} MinRttExact(events: seq<Event>)
    requires IsRun(events)
    ensures After(events).Running? ==> Least(After(events).client)
  {
    if events == [] {
      assert forall i: nat, x :: !SampledAt(Begin(), i, x);
    } else {
      var before, e := events[..|events| - 1], events[|events| - 1];
      MinRttExact(before);
      RunKeepsBooks(before);
      if After(before).Running? && After(events).Running? { EventLeast(After(before).client, e); }
    }
  }
}
