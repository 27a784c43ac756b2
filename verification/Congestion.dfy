/** The windows of the congestion-control client: what is in flight, which window an
    acknowledgement is credited to, and when a window may be closed. */
module Congestion {
  import opened Options
  import opened Reals

  datatype Window = Window(
    number: nat,
    startSeq: int,
    cwnd: real,
    sentPackets: nat,
    receivedAcks: nat,
    rtts: seq<real>,
    txPackets: seq<int>,
    rxPackets: seq<int>,
    done: bool,
    meanRtt: real,
    lossRate: real,
    throughput: real
  )

  /** `minRtt` is infinite while `None`. */
  datatype Client = Client(
    windows: seq<Window>,
    cwnd: real,
    nextTx: int,
    nextRx: int,
    inFlight: int,
    minRtt: Option<real>,
    maxThroughput: real,
    slowStart: bool
  )

  /** Why the program ends: `exit()` on a window without samples, a division by zero, or the
      assertion that the preceding window is done. */
  datatype Stop = NoSamples | ZeroDivision | PredecessorOpen

  datatype Outcome = Running(client: Client) | Stopped(reason: Stop)

  const PAYLOAD_SIZE: real := 1000.0

  function NewWindow(number: nat, cwnd: real, startSeq: int): Window {
    Window(number, startSeq, cwnd, 0, 0, [], [], [], false, 0.0, 0.0, 0.0)
  }

  // ----- the congestion window

  /** Python's `int`: towards zero. */
  function Truncate(x: real): int {
    if x >= 0.0 then x.Floor else -((-x).Floor)
  }

  function MaxReal(x: real, y: real): real { if x >= y then x else y }

  function MinReal(x: real, y: real): real { if x <= y then x else y }

  /** The agent's action 0, ..., 10 scales the congestion window by -25%, ..., 25%, at least by one
      packet: the upper actions make it grow, the lower ones shrink, and one packet always remains. */
  function UpdateCwnd(cwnd: real, action: int): (r: real)
    ensures cwnd >= 1.0 ==> r >= 1.0
    ensures cwnd >= 1.0 && action > 5 ==> r > cwnd
    ensures cwnd >= 1.0 && action < 5 ==> r <= MaxReal(1.0, cwnd - 1.0)
  {
    var b := 0.25 * ((action - 5) as real) / 5.0;
    if action == 5 then cwnd
    else
      var n := if b > 0.0 then Truncate(cwnd + MaxReal(1.0, b * cwnd)) else Truncate(cwnd + MinReal(-1.0, b * cwnd));
      if n >= 1 then n as real else 1.0
  }

  // ----- windows

  function TxIndex(c: Client): int { |c.windows| - 1 }

  function RxIndex(c: Client): int { if |c.windows| > 1 then |c.windows| - 2 else |c.windows| - 1 }

  function Send(c: Client): Client
    requires |c.windows| > 0
  {
    var w := c.windows[TxIndex(c)];
    c.(windows := c.windows[TxIndex(c) := w.(sentPackets := w.sentPackets + 1, txPackets := w.txPackets + [c.nextTx])],
       inFlight := c.inFlight + 1,
       nextTx := c.nextTx + 1)
  }

  function StartWindow(c: Client, cwnd: real, action: int): Client {
    var updated := if c.slowStart then cwnd else UpdateCwnd(cwnd, action);
    c.(cwnd := updated, windows := c.windows + [NewWindow(|c.windows| + 1, updated, c.nextTx)])
  }

  /** The statistics of window `k`; every division of the source is guarded by what it divides by. */
  function EndWindow(c: Client, k: nat): Outcome
    requires k < |c.windows|
  {
    var w := c.windows[k];
    if w.rtts == [] then Stopped(NoSamples)
    else
      var mean := Sum(w.rtts) / (|w.rtts| as real);
      if mean == 0.0 || w.sentPackets == 0 then Stopped(ZeroDivision)
      else
        var throughput := (w.receivedAcks as real) * PAYLOAD_SIZE / mean;
        var loss := ((w.sentPackets - w.receivedAcks) as real) / (w.sentPackets as real);
        var top := MaxReal(throughput, c.maxThroughput);
        if k > 0 && !c.windows[k - 1].done then Stopped(PredecessorOpen)
        else if (k > 0 && c.windows[k - 1].meanRtt == 0.0) || top == 0.0 || c.minRtt == Some(0.0) then
          Stopped(ZeroDivision)
        else
          var leave := c.slowStart && w.number > 1 && loss > 0.0;
          var closed := w.(done := true, meanRtt := mean, lossRate := loss, throughput := throughput);
          Running(c.(windows := c.windows[k := closed],
                     maxThroughput := top,
                     cwnd := if leave then 0.5 * c.cwnd else c.cwnd,
                     slowStart := c.slowStart && !leave))
  }

  /** The acknowledgement's effect on the counters. */
  function Account(c: Client, seqNr: int, rtt: real): Client
    requires |c.windows| > 0
  {
    var w := c.windows[TxIndex(c)];
    c.(minRtt := if c.minRtt.Some? && c.minRtt.value <= rtt then c.minRtt else Some(rtt),
       inFlight := c.inFlight - (1 + seqNr - c.nextRx),
       nextRx := seqNr + 1,
       cwnd := if c.slowStart then c.cwnd + 1.0 else c.cwnd,
       windows := if c.slowStart then c.windows[TxIndex(c) := w.(cwnd := w.cwnd + 1.0)] else c.windows)
  }

  function Credit(c: Client, seqNr: int, rtt: real): Client
    requires |c.windows| > 0
  {
    var w := c.windows[RxIndex(c)];
    c.(windows := c.windows[RxIndex(c) := w.(receivedAcks := w.receivedAcks + 1, rtts := w.rtts + [rtt],
                                             rxPackets := w.rxPackets + [seqNr])])
  }

  /** The first acknowledgement for the present window closes the preceding one and opens a new one. */
  function Advance(c: Client, action: int): Outcome
    requires |c.windows| > 0
  {
    var rx := RxIndex(c);
    var out := if !c.windows[rx].done && |c.windows| > 1 then EndWindow(c, rx) else Running(c);
    if out.Running? then Running(StartWindow(out.client, out.client.cwnd, action)) else out
  }

  function Acknowledge(c: Client, seqNr: int, rtt: real, action: int): Outcome
    requires |c.windows| > 0
  {
    var a := Account(c, seqNr, rtt);
    var out := if seqNr >= a.windows[TxIndex(a)].startSeq then Advance(a, action) else Running(a);
    if out.Running? && |out.client.windows| > 0 then Running(Credit(out.client, seqNr, rtt)) else out
  }

  function Timeout(c: Client, action: int): Outcome
    requires |c.windows| > 0
  {
    var out := EndWindow(c.(inFlight := 0), RxIndex(c));
    if out.Running? then Running(StartWindow(out.client.(nextRx := c.nextTx, cwnd := 1.0), 1.0, action)) else out
  }

  // ----- invariants

  /** The sequence numbers `a`, ..., `b - 1`. */
  function Numbers(a: int, b: int): (r: seq<int>)
    ensures |r| == if a <= b then b - a else 0
    decreases b - a
  {
    if a >= b then [] else Numbers(a, b - 1) + [b - 1]
  }

  /** First sequence number after window `i`. */
  function EndSeq(c: Client, i: nat): int {
    if i + 1 < |c.windows| then c.windows[i + 1].startSeq else c.nextTx
  }

  ghost predicate Positive(s: seq<real>) {
    forall i :: 0 <= i < |s| ==> s[i] > 0.0
  }

  /** Bookkeeping of window `i`. */
  ghost predicate WindowAt(c: Client, i: nat) {
    i < |c.windows| ==>
      var w := c.windows[i];
      && w.number == i + 1
      && 1 <= w.startSeq <= EndSeq(c, i)
      && w.txPackets == Numbers(w.startSeq, EndSeq(c, i))
      && w.sentPackets == |w.txPackets|
      && w.receivedAcks == |w.rtts| == |w.rxPackets|
      && Positive(w.rtts)
      && (w.rtts != [] ==> c.minRtt.Some?)
      && (w.done ==> w.meanRtt > 0.0)
      && (i + 2 < |c.windows| ==> w.done)
  }

  ghost predicate Books(c: Client) {
    && |c.windows| > 0
    && c.windows[0].startSeq == 1
    && c.maxThroughput >= 0.0
    && (c.minRtt.Some? ==> c.minRtt.value > 0.0)
    && forall i: nat :: WindowAt(c, i)
  }

  /** What every event keeps, timeouts included. */
  ghost predicate Valid(c: Client) {
    Books(c) && c.inFlight == c.nextTx - c.nextRx && c.cwnd >= 1.0
  }

  lemma {:induction false} SumPositive(s: seq<real>)
    requires Positive(s) && s != []
    ensures Sum(s) > 0.0
  {
    if |s| > 1 { SumPositive(s[..|s| - 1]); }
  }

  /** What `EndWindow` leaves alone. */
  ghost predicate SameButWindow(c: Client, d: Client, k: nat) {
    && |d.windows| == |c.windows|
    && d.nextTx == c.nextTx && d.nextRx == c.nextRx && d.inFlight == c.inFlight && d.minRtt == c.minRtt
    && (d.slowStart ==> c.slowStart)
    && d.cwnd == (if c.slowStart && !d.slowStart then 0.5 * c.cwnd else c.cwnd)
    && k < |c.windows|
    && (forall i :: 0 <= i < |c.windows| && i != k ==> d.windows[i] == c.windows[i])
    && d.windows[k] == c.windows[k].(done := true, meanRtt := d.windows[k].meanRtt, lossRate := d.windows[k].lossRate,
                                     throughput := d.windows[k].throughput)
  }

  /** Closing a window with its predecessor closed stops the program exactly when the window has no
      sample or no packet: no other division by zero occurs and the assertion holds. */
  lemma EndStops(c: Client, k: nat)
    requires Books(c) && k < |c.windows| && (k > 0 ==> c.windows[k - 1].done)
    ensures EndWindow(c, k).Running? <==> c.windows[k].rtts != [] && c.windows[k].sentPackets > 0
    ensures EndWindow(c, k).Stopped? ==> EndWindow(c, k).reason != PredecessorOpen
  {
    assert WindowAt(c, k);
    var w := c.windows[k];
    if w.rtts != [] && w.sentPackets > 0 {
      SumPositive(w.rtts);
      assert k > 0 ==> WindowAt(c, k - 1);
    }
  }

  lemma EndKeeps(c: Client, k: nat)
    requires Books(c) && k < |c.windows| && EndWindow(c, k).Running?
    ensures Books(EndWindow(c, k).client) && SameButWindow(c, EndWindow(c, k).client, k)
    ensures var w := c.windows[k];
            EndWindow(c, k).client.windows[k].lossRate ==
              ((w.sentPackets - w.receivedAcks) as real) / (w.sentPackets as real)
  {
    var d, w := EndWindow(c, k).client, c.windows[k];
    assert WindowAt(c, k);
    SumPositive(w.rtts);
    forall i: nat ensures WindowAt(d, i) { assert WindowAt(c, i); }
  }

  lemma SendKeeps(c: Client)
    requires Valid(c)
    ensures Valid(Send(c))
  {
    var d := Send(c);
    forall i: nat ensures WindowAt(d, i) {
      assert WindowAt(c, i);
    }
  }

  lemma StartKeeps(c: Client, cwnd: real, action: int)
    requires Books(c) && cwnd >= 1.0
    requires |c.windows| > 1 ==> c.windows[|c.windows| - 2].done
    ensures Books(StartWindow(c, cwnd, action)) && StartWindow(c, cwnd, action).cwnd >= 1.0
  {
    var d := StartWindow(c, cwnd, action);
    forall i: nat ensures WindowAt(d, i) {
      assert WindowAt(c, i);
      assert WindowAt(c, |c.windows| - 1);
    }
  }

  lemma AccountKeeps(c: Client, seqNr: int, rtt: real)
    requires Valid(c) && rtt > 0.0
    ensures Valid(Account(c, seqNr, rtt)) && Account(c, seqNr, rtt).minRtt.Some?
    ensures c.slowStart ==> Account(c, seqNr, rtt).cwnd >= 2.0
  {
    var d := Account(c, seqNr, rtt);
    forall i: nat ensures WindowAt(d, i) { assert WindowAt(c, i); }
  }

  lemma CreditKeeps(c: Client, seqNr: int, rtt: real)
    requires Valid(c) && rtt > 0.0 && c.minRtt.Some?
    ensures Valid(Credit(c, seqNr, rtt))
  {
    var d := Credit(c, seqNr, rtt);
    forall i: nat ensures WindowAt(d, i) { assert WindowAt(c, i); }
  }

  lemma PredecessorDone(c: Client)
    requires Books(c)
    ensures RxIndex(c) > 0 ==> c.windows[RxIndex(c) - 1].done
  {
    if RxIndex(c) > 0 { assert WindowAt(c, RxIndex(c) - 1); }
  }

  /** Opening the next window stops the program exactly when the window to be closed has no sample
      or no packet. */
  lemma AdvanceKeeps(c: Client, action: int)
    requires Valid(c) && (c.slowStart ==> c.cwnd >= 2.0)
    ensures var w := c.windows[RxIndex(c)];
            Advance(c, action).Running? <==> |c.windows| == 1 || w.done || (w.rtts != [] && w.sentPackets > 0)
    ensures Advance(c, action).Running? ==>
              Valid(Advance(c, action).client) && Advance(c, action).client.minRtt == c.minRtt
    ensures Advance(c, action).Stopped? ==> Advance(c, action).reason != PredecessorOpen
  {
    var rx := RxIndex(c);
    PredecessorDone(c);
    EndStops(c, rx);
    var out := if !c.windows[rx].done && |c.windows| > 1 then EndWindow(c, rx) else Running(c);
    if out.Running? {
      if !c.windows[rx].done && |c.windows| > 1 { EndKeeps(c, rx); }
      StartKeeps(out.client, out.client.cwnd, action);
    }
  }

  /** When an acknowledgement stops the program. */
  ghost predicate AckStops(c: Client, seqNr: int)
    requires |c.windows| > 0
  {
    var w := c.windows[RxIndex(c)];
    seqNr >= c.windows[TxIndex(c)].startSeq && |c.windows| > 1 && !w.done && (w.rtts == [] || w.sentPackets == 0)
  }

  lemma AcknowledgeKeeps(c: Client, seqNr: int, rtt: real, action: int)
    requires Valid(c) && rtt > 0.0
    ensures Acknowledge(c, seqNr, rtt, action).Stopped? <==> AckStops(c, seqNr)
    ensures Acknowledge(c, seqNr, rtt, action).Running? ==> Valid(Acknowledge(c, seqNr, rtt, action).client)
    ensures Acknowledge(c, seqNr, rtt, action) != Stopped(PredecessorOpen)
  {
    var a := Account(c, seqNr, rtt);
    AccountKeeps(c, seqNr, rtt);
    AdvanceKeeps(a, action);
    var out := if seqNr >= a.windows[TxIndex(a)].startSeq then Advance(a, action) else Running(a);
    if out.Running? { CreditKeeps(out.client, seqNr, rtt); }
  }

  /** A timeout stops the program exactly when the window it closes has no sample or no packet. */
  lemma TimeoutKeeps(c: Client, action: int)
    requires Valid(c)
    ensures var w := c.windows[RxIndex(c)]; Timeout(c, action).Stopped? <==> w.rtts == [] || w.sentPackets == 0
    ensures Timeout(c, action).Running? ==> Valid(Timeout(c, action).client)
    ensures Timeout(c, action) != Stopped(PredecessorOpen)
  {
    var d := c.(inFlight := 0);
    forall i: nat ensures WindowAt(d, i) { assert WindowAt(c, i); }
    PredecessorDone(d);
    EndStops(d, RxIndex(d));
    if EndWindow(d, RxIndex(d)).Running? {
      EndKeeps(d, RxIndex(d));
      var e := EndWindow(d, RxIndex(d)).client;
      var f := e.(nextRx := c.nextTx, cwnd := 1.0);
      forall i: nat ensures WindowAt(f, i) { assert WindowAt(e, i); }
      StartKeeps(f, 1.0, action);
    }
  }

  // ----- without timeouts

  /** All windows but the last two are done; the last but one has samples and packets. */
  ghost predicate Succession(c: Client, i: nat) {
    i < |c.windows| ==>
      && (c.windows[i].done <==> i + 2 < |c.windows|)
      && (i + 1 < |c.windows| ==> c.windows[i].rtts != [] && c.windows[i].startSeq < c.windows[i + 1].startSeq)
  }

  ghost predicate Steady(c: Client) {
    Valid(c) && forall i: nat :: Succession(c, i)
  }

  /** The program goes on, and the client is steady. */
  ghost predicate GoesOnSteady(out: Outcome) {
    exists c :: out == Running(c) && Steady(c)
  }

  lemma SteadySend(c: Client)
    requires Steady(c)
    ensures Steady(Send(c))
  {
    SendKeeps(c);
    forall i: nat ensures Succession(Send(c), i) { assert Succession(c, i); }
  }

  /** A steady client's next acknowledgement does not stop it: the window it closes has a packet, a
      sample, and a closed predecessor. */
  lemma SteadyAck(c: Client, seqNr: int, rtt: real, action: int)
    requires Steady(c) && 1 <= seqNr < c.nextTx && rtt > 0.0
    ensures GoesOnSteady(Acknowledge(c, seqNr, rtt, action))
  {
    var rx := RxIndex(c);
    assert Succession(c, rx) && WindowAt(c, rx);
    AcknowledgeKeeps(c, seqNr, rtt, action);
    var d := Acknowledge(c, seqNr, rtt, action).client;
    forall i: nat ensures Succession(d, i) { SuccessionKept(c, seqNr, rtt, action, i); }
  }

  lemma AccountSuccession(c: Client, seqNr: int, rtt: real, i: nat)
    requires |c.windows| > 0 && Succession(c, i)
    ensures Succession(Account(c, seqNr, rtt), i)
  {
  }

  lemma CreditSuccession(c: Client, seqNr: int, rtt: real, i: nat)
    requires |c.windows| > 0 && Succession(c, i)
    ensures Succession(Credit(c, seqNr, rtt), i)
  {
  }

  /** The new window has the last but one as its predecessor, which has just been credited. */
  lemma CreditAfterStart(c: Client, seqNr: int, rtt: real, action: int, i: nat)
    requires |c.windows| > 0 && (forall k: nat :: k + 2 < |c.windows| ==> Succession(c, k))
    requires c.windows[|c.windows| - 1].startSeq < c.nextTx && !c.windows[|c.windows| - 1].done
    requires |c.windows| > 1 ==>
               var w := c.windows[|c.windows| - 2];
               w.done && w.rtts != [] && w.startSeq < c.windows[|c.windows| - 1].startSeq
    ensures Succession(Credit(StartWindow(c, c.cwnd, action), seqNr, rtt), i)
  {
    if i + 2 < |c.windows| { assert Succession(c, i); }
  }

  lemma SuccessionKept(c: Client, seqNr: int, rtt: real, action: int, i: nat)
    requires Steady(c) && 1 <= seqNr < c.nextTx && rtt > 0.0 && Acknowledge(c, seqNr, rtt, action).Running?
    ensures Succession(Acknowledge(c, seqNr, rtt, action).client, i)
  {
    var a := Account(c, seqNr, rtt);
    AccountKeeps(c, seqNr, rtt);
    forall k: nat ensures Succession(a, k) { assert Succession(c, k); AccountSuccession(c, seqNr, rtt, k); }
    if seqNr < a.windows[TxIndex(a)].startSeq {
      CreditSuccession(a, seqNr, rtt, i);
    } else {
      assert Succession(a, RxIndex(a)) && Succession(a, TxIndex(a));
      if |a.windows| > 1 { EndKeeps(a, RxIndex(a)); }
      var e := if |a.windows| > 1 then EndWindow(a, RxIndex(a)).client else a;
      forall k: nat | k + 2 < |e.windows| ensures Succession(e, k) { assert Succession(a, k); }
      CreditAfterStart(e, seqNr, rtt, action, i);
    }
  }

  // ----- acknowledgements in order

  ghost predicate Increasing(s: seq<int>) {
    forall i, j :: 0 <= i < j < |s| ==> s[i] < s[j]
  }

  ghost predicate Between(s: seq<int>, a: int, b: int) {
    forall i :: 0 <= i < |s| ==> a <= s[i] < b
  }

  /** Window `i` is credited with acknowledgements of its own packets only, all below `limit`. */
  ghost predicate CreditedAt(c: Client, i: nat, limit: int) {
    i < |c.windows| ==>
      var w := c.windows[i];
      && Increasing(w.rxPackets)
      && Between(w.rxPackets, w.startSeq, EndSeq(c, i))
      && Between(w.rxPackets, w.startSeq, limit)
      && (w.done ==> 0.0 <= w.lossRate < 1.0)
      && (|c.windows| > 1 && i == |c.windows| - 1 ==> w.rxPackets == [])
  }

  ghost predicate OwnCredit(c: Client) {
    && Steady(c) && c.nextRx <= c.nextTx
    && (|c.windows| > 1 ==> c.windows[|c.windows| - 2].startSeq < c.nextRx)
    && forall i: nat :: CreditedAt(c, i, c.nextRx)
  }

  lemma {:induction false} IncreasingLength(s: seq<int>, a: int, b: int)
    requires Increasing(s) && Between(s, a, b) && a <= b
    ensures |s| <= b - a
  {
    if s != [] {
      var x := s[|s| - 1];
      IncreasingLength(s[..|s| - 1], a, x);
    }
  }

  lemma Fraction(lost: int, sent: int)
    requires 0 <= lost < sent
    ensures 0.0 <= (lost as real) / (sent as real) < 1.0
  {
  }

  ghost predicate GoesOnOwnCredit(out: Outcome) {
    exists c :: out == Running(c) && OwnCredit(c)
  }

  lemma OwnCreditSend(c: Client)
    requires OwnCredit(c)
    ensures OwnCredit(Send(c))
  {
    SteadySend(c);
    forall i: nat ensures CreditedAt(Send(c), i, c.nextRx) { assert CreditedAt(c, i, c.nextRx); }
  }

  /** A window's loss rate is a fraction when its acknowledgements are its own. */
  lemma LossIsFraction(c: Client, k: nat, limit: int)
    requires Books(c) && k < |c.windows| && CreditedAt(c, k, limit) && EndWindow(c, k).Running?
    ensures 0.0 <= EndWindow(c, k).client.windows[k].lossRate < 1.0
  {
    EndKeeps(c, k);
    assert WindowAt(c, k);
    var w := c.windows[k];
    IncreasingLength(w.rxPackets, w.startSeq, EndSeq(c, k));
    Fraction(w.sentPackets - w.receivedAcks, w.sentPackets);
  }

  lemma AccountCredited(c: Client, seqNr: int, rtt: real, i: nat, limit: int)
    requires |c.windows| > 0 && CreditedAt(c, i, limit)
    ensures CreditedAt(Account(c, seqNr, rtt), i, limit)
  {
  }

  lemma AdvanceCredited(c: Client, action: int, i: nat, limit: int)
    requires Books(c) && CreditedAt(c, i, limit) && Advance(c, action).Running?
    requires c.nextTx >= c.windows[|c.windows| - 1].startSeq
    ensures CreditedAt(Advance(c, action).client, i, limit)
  {
    var rx := RxIndex(c);
    if !c.windows[rx].done && |c.windows| > 1 {
      EndKeeps(c, rx);
      if i == rx { LossIsFraction(c, rx, limit); }
    }
  }

  lemma CreditCredited(c: Client, seqNr: int, rtt: real, i: nat, limit: int)
    requires |c.windows| > 0 && CreditedAt(c, i, limit) && limit <= seqNr
    requires c.windows[RxIndex(c)].startSeq <= seqNr < EndSeq(c, RxIndex(c))
    ensures CreditedAt(Credit(c, seqNr, rtt), i, seqNr + 1)
  {
  }

  /** What stands between `Account` and `Credit`. */
  function Middle(c: Client, seqNr: int, action: int): Outcome
    requires |c.windows| > 0
  {
    if seqNr >= c.windows[TxIndex(c)].startSeq then Advance(c, action) else Running(c)
  }

  lemma MiddleWindows(c: Client, seqNr: int, action: int)
    requires Books(c) && Middle(c, seqNr, action).Running?
    ensures var m := Middle(c, seqNr, action).client;
            && |m.windows| == |c.windows| + (if seqNr >= c.windows[TxIndex(c)].startSeq then 1 else 0)
            && m.nextTx == c.nextTx && m.nextRx == c.nextRx
            && (forall i :: 0 <= i < |c.windows| ==>
                  && m.windows[i].startSeq == c.windows[i].startSeq
                  && m.windows[i].receivedAcks == c.windows[i].receivedAcks)
            && (|m.windows| > |c.windows| ==> m.windows[|c.windows|].startSeq == c.nextTx)
  {
    var rx := RxIndex(c);
    if seqNr >= c.windows[TxIndex(c)].startSeq && !c.windows[rx].done && |c.windows| > 1 { EndKeeps(c, rx); }
  }

  /** While acknowledgements come in order, each is credited to the window that sent its packet. */
  lemma OwnCreditAck(c: Client, seqNr: int, rtt: real, action: int)
    requires OwnCredit(c) && c.nextRx <= seqNr < c.nextTx && seqNr >= 1 && rtt > 0.0
    ensures GoesOnOwnCredit(Acknowledge(c, seqNr, rtt, action))
  {
    SteadyAck(c, seqNr, rtt, action);
    var a, d := Account(c, seqNr, rtt), Acknowledge(c, seqNr, rtt, action).client;
    AccountKeeps(c, seqNr, rtt);
    MiddleWindows(a, seqNr, action);
    var m := Middle(a, seqNr, action).client;
    assert d == Credit(m, seqNr, rtt);
    assert WindowAt(c, TxIndex(c));
    assert m.windows[RxIndex(m)].startSeq <= seqNr < EndSeq(m, RxIndex(m));
    forall i: nat ensures CreditedAt(d, i, d.nextRx) {
      assert CreditedAt(c, i, c.nextRx);
      AccountCredited(c, seqNr, rtt, i, c.nextRx);
      if m != a { AdvanceCredited(a, action, i, c.nextRx); }
      CreditCredited(m, seqNr, rtt, i, c.nextRx);
    }
  }

  // ----- conservation

  ghost function AllSent(ws: seq<Window>): seq<int> {
    if ws == [] then [] else AllSent(ws[..|ws| - 1]) + ws[|ws| - 1].txPackets
  }

  lemma {:induction false} NumbersSplit(a: int, b: int, d: int)
    requires a <= b <= d
    ensures Numbers(a, b) + Numbers(b, d) == Numbers(a, d)
    decreases d - b
  {
    if b < d { NumbersSplit(a, b, d - 1); }
  }

  lemma AllSentNext(ws: seq<Window>, m: nat)
    requires m < |ws|
    ensures AllSent(ws[..m + 1]) == AllSent(ws[..m]) + ws[m].txPackets
  {
    assert ws[..m + 1][..m] == ws[..m];
  }

  lemma {:induction false} SentUpTo(c: Client, m: nat)
    requires Books(c) && m < |c.windows|
    ensures AllSent(c.windows[..m]) == Numbers(1, c.windows[m].startSeq)
  {
    if m > 0 {
      SentUpTo(c, m - 1);
      AllSentNext(c.windows, m - 1);
      assert WindowAt(c, m - 1);
      NumbersSplit(1, c.windows[m - 1].startSeq, c.windows[m].startSeq);
    }
  }

  /** The windows' packet lists, one after the other, are 1, 2, ..., up to the last packet sent. */
  lemma WindowsPartition(c: Client)
    requires Books(c)
    ensures AllSent(c.windows) == Numbers(1, c.nextTx)
  {
    var m := |c.windows| - 1;
    SentUpTo(c, m);
    AllSentNext(c.windows, m);
    assert WindowAt(c, m);
    NumbersSplit(1, c.windows[m].startSeq, c.nextTx);
    assert c.windows[..m + 1] == c.windows;
  }

  function Credits(ws: seq<Window>): nat {
    if ws == [] then 0 else Credits(ws[..|ws| - 1]) + ws[|ws| - 1].receivedAcks
  }

  /** One more acknowledgement for window `k`, and perhaps new windows without any. */
  lemma {:induction false} CreditsGrow(ws: seq<Window>, vs: seq<Window>, k: nat)
    requires |ws| <= |vs|
    requires forall i :: 0 <= i < |vs| ==>
      vs[i].receivedAcks == (if i < |ws| then ws[i].receivedAcks else 0) + if i == k then 1 else 0
    ensures Credits(vs) == Credits(ws) + if k < |vs| then 1 else 0
  {
    if vs != [] {
      var n := |vs| - 1;
      CreditsGrow(if |ws| == |vs| then ws[..n] else ws, vs[..n], k);
    }
  }

  // ----- runs

  /** What can happen to the client; `action` is the agent's choice for a window that opens. */
  datatype Event = Sending | Ack(seqNr: int, rtt: real, action: int) | Silence(action: int)

  function Apply(c: Client, e: Event): Outcome
    requires |c.windows| > 0
  {
    match e
    case Sending => Running(Send(c))
    case Ack(seqNr, rtt, action) => Acknowledge(c, seqNr, rtt, action)
    case Silence(action) => Timeout(c, action)
  }

  /** The client when it enters its loop: one window, one packet sent. */
  function Begin(): Client {
    Send(Client([NewWindow(1, 1.0, 1)], 1.0, 1, 1, 0, None, 0.0, true))
  }

  function After(events: seq<Event>): Outcome {
    if events == [] then Running(Begin())
    else
      var out := After(events[..|events| - 1]);
      if out.Running? && |out.client.windows| > 0 then Apply(out.client, events[|events| - 1]) else out
  }

  /** An acknowledgement names a packet that has been sent, after a positive round trip. */
  predicate CanHappen(c: Client, e: Event) {
    e.Ack? ==> 1 <= e.seqNr < c.nextTx && e.rtt > 0.0
  }

  ghost predicate IsRun(events: seq<Event>) {
    events == [] ||
    (IsRun(events[..|events| - 1]) &&
     (After(events[..|events| - 1]).Running? ==> CanHappen(After(events[..|events| - 1]).client, events[|events| - 1])))
  }

  function SendingsIn(events: seq<Event>): nat {
    if events == [] then 0 else SendingsIn(events[..|events| - 1]) + if events[|events| - 1].Sending? then 1 else 0
  }

  function AcksIn(events: seq<Event>): nat {
    if events == [] then 0 else AcksIn(events[..|events| - 1]) + if events[|events| - 1].Ack? then 1 else 0
  }

  lemma BeginSteady()
    ensures OwnCredit(Begin()) && Credits(Begin().windows) == 0
  {
    var c := Begin();
    assert Numbers(1, 2) == [1];
    assert forall i: nat :: WindowAt(c, i);
  }

  lemma AckCredited(c: Client, seqNr: int, rtt: real, action: int)
    requires Valid(c) && rtt > 0.0 && Acknowledge(c, seqNr, rtt, action).Running?
    ensures var d := Acknowledge(c, seqNr, rtt, action).client;
      d.nextTx == c.nextTx && Credits(d.windows) == Credits(c.windows) + 1
  {
    var a := Account(c, seqNr, rtt);
    AccountKeeps(c, seqNr, rtt);
    MiddleWindows(a, seqNr, action);
    CreditsGrow(c.windows, Acknowledge(c, seqNr, rtt, action).client.windows, RxIndex(Middle(a, seqNr, action).client));
  }

  lemma TimeoutCredited(c: Client, action: int)
    requires Valid(c)
    ensures Timeout(c, action).Running? ==>
      var d := Timeout(c, action).client; d.nextTx == c.nextTx && Credits(d.windows) == Credits(c.windows)
  {
    if Timeout(c, action).Running? {
      CreditsGrow(c.windows, Timeout(c, action).client.windows, |c.windows| + 1);
    }
  }

  /** Every step of the bookkeeping, timeouts included. */
  lemma ApplyKeeps(c: Client, e: Event)
    requires Valid(c) && CanHappen(c, e)
    ensures Apply(c, e).Running? ==>
      var d := Apply(c, e).client;
      && Valid(d) && d.nextTx == c.nextTx + (if e.Sending? then 1 else 0)
      && Credits(d.windows) == Credits(c.windows) + if e.Ack? then 1 else 0
    ensures Apply(c, e) != Stopped(PredecessorOpen)
  {
    match e {
      case Sending =>
        SendKeeps(c);
        CreditsGrow(c.windows, Send(c).windows, |c.windows|);
      case Ack(seqNr, rtt, action) =>
        AcknowledgeKeeps(c, seqNr, rtt, action);
        if Acknowledge(c, seqNr, rtt, action).Running? { AckCredited(c, seqNr, rtt, action); }
      case Silence(action) =>
        TimeoutKeeps(c, action);
        TimeoutCredited(c, action);
    }
  }

  /** Over every run, timeouts included: the packets in flight are those between the two counters,
      the windows partition what was sent, every acknowledgement is credited to exactly one window,
      the congestion window admits a packet, and the assertion on the preceding window never fails. */
  lemma {:induction false} RunKeepsBooks(events: seq<Event>)
    requires IsRun(events)
    ensures After(events) != Stopped(PredecessorOpen)
    ensures After(events).Running? ==>
      var c := After(events).client;
      && Valid(c)
      && c.nextTx == 2 + SendingsIn(events)
      && AllSent(c.windows) == Numbers(1, c.nextTx)
      && Credits(c.windows) == AcksIn(events)
  {
    if events == [] {
      BeginSteady();
      WindowsPartition(Begin());
    } else {
      var before, e := events[..|events| - 1], events[|events| - 1];
      RunKeepsBooks(before);
      if After(before).Running? {
        ApplyKeeps(After(before).client, e);
        if After(events).Running? { WindowsPartition(After(events).client); }
      }
    }
  }

  /** Over every run without a timeout, `end_window` only ever meets a window with a packet, a sample
      and a closed predecessor: the program neither exits, divides by zero nor fails its assertion. */
  lemma {:induction false} TimeoutFreeRunsOn(events: seq<Event>)
    requires IsRun(events) && forall i :: 0 <= i < |events| ==> !events[i].Silence?
    ensures GoesOnSteady(After(events))
  {
    if events == [] {
      BeginSteady();
    } else {
      var before, e := events[..|events| - 1], events[|events| - 1];
      TimeoutFreeRunsOn(before);
      match e
      case Sending => SteadySend(After(before).client);
      case Ack(seqNr, rtt, action) => SteadyAck(After(before).client, seqNr, rtt, action);
    }
  }

  /** Acknowledgements arrive in the order of their packets. */
  ghost predicate InOrderRun(events: seq<Event>) {
    events == [] ||
    (InOrderRun(events[..|events| - 1]) &&
     (After(events[..|events| - 1]).Running? && events[|events| - 1].Ack? ==>
        events[|events| - 1].seqNr >= After(events[..|events| - 1]).client.nextRx))
  }

  /** Over every timeout-free run with acknowledgements in order, each window is credited with its own
      packets only, so every loss rate that is computed lies between 0 and 1. */
  lemma {:induction false} InOrderRunsCreditOwn(events: seq<Event>)
    requires IsRun(events) && InOrderRun(events) && forall i :: 0 <= i < |events| ==> !events[i].Silence?
    ensures GoesOnOwnCredit(After(events))
  {
    if events == [] {
      BeginSteady();
    } else {
      var before, e := events[..|events| - 1], events[|events| - 1];
      InOrderRunsCreditOwn(before);
      match e
      case Sending => OwnCreditSend(After(before).client);
      case Ack(seqNr, rtt, action) => OwnCreditAck(After(before).client, seqNr, rtt, action);
    }
  }

  /** A timeout before the first acknowledgement closes a window without samples and ends the program. */
  lemma FirstTimeoutExits(action: int)
    ensures IsRun([Silence(action)]) && After([Silence(action)]) == Stopped(NoSamples)
  {
    var events := [Silence(action)];
    assert events[..|events| - 1] == [];
    assert IsRun([]);
  }

  // ----- the client object

  datatype Status = Alive | Ended(reason: Stop)

  class UDPCCClient {
    var windows: seq<Window>
    var cwnd: real
    var nextTxSeq: int
    var nextRxSeq: int
    var packetsInFlight: int
    var minRtt: Option<real>
    var maxThroughput: real
    var slowStart: bool

    ghost function View(): Client
      reads this
    {
      Client(windows, cwnd, nextTxSeq, nextRxSeq, packetsInFlight, minRtt, maxThroughput, slowStart)
    }

    /** Windows are numbered from 1 in the order of their creation. */
    ghost predicate Numbered()
      reads this
    {
      |windows| > 0 && forall i :: 0 <= i < |windows| ==> windows[i].number == i + 1
    }

    /** The object is in the state that the specification says. */
    ghost predicate Follows(status: Status, out: Outcome)
      reads this
    {
      match out
      case Running(c) => status == Alive && Numbered() && View() == c
      case Stopped(reason) => status == Ended(reason)
    }

    /** The client as it enters its loop. */
    constructor ()
      ensures Numbered() && View() == Begin()
    {
      windows := [NewWindow(1, 1.0, 1)];
      cwnd, nextTxSeq, nextRxSeq, packetsInFlight := 1.0, 1, 1, 0;
      minRtt, maxThroughput, slowStart := None, 0.0, true;
      new;
      SendPacket();
    }

    method SendPacket()
      requires Numbered()
      modifies this
      ensures Numbered() && View() == Send(old(View()))
    {
      var tx := |windows| - 1;
      var w := windows[tx];
      windows := windows[tx := w.(sentPackets := w.sentPackets + 1, txPackets := w.txPackets + [nextTxSeq])];
      packetsInFlight := packetsInFlight + 1;
      nextTxSeq := nextTxSeq + 1;
    }

    /** Index of the window with the given number, or -1; searched from the end. */
    method GetWindow(number: int) returns (i: int)
      requires Numbered()
      ensures i == if 1 <= number <= |windows| then number - 1 else -1
    {
      i := |windows| - 1;
      while i >= 0
        invariant -1 <= i < |windows|
        invariant number <= i + 1 || number > |windows|
      {
        if windows[i].number == number { return; }
        i := i - 1;
      }
    }

    method StartNewWindow(newCwnd: real, action: int)
      requires Numbered()
      modifies this
      ensures Numbered() && View() == StartWindow(old(View()), newCwnd, action)
    {
      var updated := if slowStart then newCwnd else UpdateCwnd(newCwnd, action);
      cwnd := updated;
      windows := windows + [NewWindow(|windows| + 1, updated, nextTxSeq)];
    }

    method CloseWindow(k: nat) returns (status: Status)
      requires Numbered() && k < |windows|
      modifies this
      ensures Follows(status, EndWindow(old(View()), k))
    {
      var w := windows[k];
      if |w.rtts| == 0 { return Ended(NoSamples); }
      var mean := Sum(w.rtts) / (|w.rtts| as real);
      if mean == 0.0 || w.sentPackets == 0 { return Ended(ZeroDivision); }
      var throughput := (w.receivedAcks as real) * PAYLOAD_SIZE / mean;
      var loss := ((w.sentPackets - w.receivedAcks) as real) / (w.sentPackets as real);
      maxThroughput := MaxReal(throughput, maxThroughput);
      windows := windows[k := w.(done := true, meanRtt := mean, lossRate := loss, throughput := throughput)];
      var last := GetWindow(w.number - 1);
      if last != -1 {
        if !windows[last].done { return Ended(PredecessorOpen); }
        if windows[last].meanRtt == 0.0 { return Ended(ZeroDivision); }
      }
      if maxThroughput == 0.0 || minRtt == Some(0.0) { return Ended(ZeroDivision); }
      if slowStart && w.number > 1 && loss > 0.0 {
        cwnd := 0.5 * cwnd;
        slowStart := false;
      }
      status := Alive;
    }

    method CountAck(seqNr: int, rtt: real)
      requires Numbered()
      modifies this
      ensures Numbered() && View() == Account(old(View()), seqNr, rtt)
    {
      if !(minRtt.Some? && minRtt.value <= rtt) { minRtt := Some(rtt); }
      packetsInFlight := packetsInFlight - (1 + seqNr - nextRxSeq);
      nextRxSeq := seqNr + 1;
      var tx := |windows| - 1;
      if slowStart {
        windows := windows[tx := windows[tx].(cwnd := windows[tx].cwnd + 1.0)];
        cwnd := cwnd + 1.0;
      }
    }

    method NextWindow(action: int) returns (status: Status)
      requires Numbered()
      modifies this
      ensures Follows(status, Advance(old(View()), action))
    {
      status := Alive;
      var tx := |windows| - 1;
      var rx := if |windows| > 1 then |windows| - 2 else |windows| - 1;
      if !windows[rx].done && tx != rx {
        status := CloseWindow(rx);
        if status.Ended? { return; }
      }
      StartNewWindow(cwnd, action);
    }

    method CreditAck(seqNr: int, rtt: real)
      requires Numbered()
      modifies this
      ensures Numbered() && View() == Credit(old(View()), seqNr, rtt)
    {
      var rx := if |windows| > 1 then |windows| - 2 else |windows| - 1;
      var w := windows[rx];
      windows := windows[rx := w.(receivedAcks := w.receivedAcks + 1, rtts := w.rtts + [rtt],
                                  rxPackets := w.rxPackets + [seqNr])];
    }

    method ReceiveAck(seqNr: int, rtt: real, action: int) returns (status: Status)
      requires Numbered()
      modifies this
      ensures Follows(status, Acknowledge(old(View()), seqNr, rtt, action))
    {
      status := Alive;
      CountAck(seqNr, rtt);
      if seqNr >= windows[|windows| - 1].startSeq {
        status := NextWindow(action);
        if status.Ended? { return; }
      }
      CreditAck(seqNr, rtt);
    }

    /** The loop's answer to a socket timeout. */
    method HandleTimeout(action: int) returns (status: Status)
      requires Numbered()
      modifies this
      ensures Follows(status, Timeout(old(View()), action))
    {
      packetsInFlight := 0;
      status := CloseWindow(if |windows| > 1 then |windows| - 2 else |windows| - 1);
      if status.Ended? { return; }
      nextRxSeq := nextTxSeq;
      cwnd := 1.0;
      StartNewWindow(1.0, action);
    }

    method Handle(e: Event) returns (status: Status)
      requires Numbered()
      modifies this
      ensures Follows(status, Apply(old(View()), e))
    {
      status := Alive;
      match e {
        case Sending => SendPacket();
        case Ack(seqNr, rtt, action) => status := ReceiveAck(seqNr, rtt, action);
        case Silence(action) => status := HandleTimeout(action);
      }
    }

    /** One turn of the loop, unless the program has ended. */
    method Turn(before: Status, e: Event, ghost out: Outcome) returns (status: Status)
      requires Follows(before, out)
      modifies this
      ensures Follows(status, if out.Running? && |out.client.windows| > 0 then Apply(out.client, e) else out)
    {
      status := before;
      if status == Alive { status := Handle(e); }
    }
  }

  lemma AfterNext(events: seq<Event>, i: nat)
    requires i < |events|
    ensures var out := After(events[..i]);
            After(events[..i + 1]) ==
              if out.Running? && |out.client.windows| > 0 then Apply(out.client, events[i]) else out
  {
    assert events[..i + 1][..i] == events[..i];
  }

  /** The client's loop over finitely many events ends where `After` says. */
  method Loop(events: seq<Event>) returns (client: UDPCCClient, status: Status)
    ensures fresh(client)
    ensures client.Follows(status, After(events))
  {
    client := new UDPCCClient();
    status := Alive;
    var i := 0;
    while i < |events|
      invariant 0 <= i <= |events| && fresh(client)
      invariant client.Follows(status, After(events[..i]))
    {
      AfterNext(events, i);
      status := client.Turn(status, events[i], After(events[..i]));
      i := i + 1;
    }
    assert events[..i] == events;
  }
}
