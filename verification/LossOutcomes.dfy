/** The decoding probability of a systematic code, counted over all outcomes of the transmissions. */
module LossOutcomes {
  import opened Redundancy
  import opened Sequences

  /** Whether each packet arrives, the packet in question first. */
  datatype Outcome = Nothing | Packet(arrives: bool, others: Outcome)

  function Length(o: Outcome): nat {
    if o.Nothing? then 0 else 1 + Length(o.others)
  }

  function Arrivals(o: Outcome): nat {
    if o.Nothing? then 0 else Arrivals(o.others) + if o.arrives then 1 else 0
  }

  /** The part of `x` that falls to a first transmission that succeeds or fails. */
  function Part(arrives: bool, p: real, x: real): real {
    (if arrives then p else 1.0 - p) * x
  }

  /** The probability of an outcome. */
  function Chance(o: Outcome, p: real): real {
    if o.Nothing? then 1.0 else Part(o.arrives, p, Chance(o.others, p))
  }

  /** The outcomes that start with `arrives`. */
  function Starting(arrives: bool, os: seq<Outcome>): (r: seq<Outcome>)
    ensures |r| == |os|
  {
    if os == [] then [] else [Packet(arrives, os[0])] + Starting(arrives, os[1..])
  }

  lemma {:induction false} StartingAt(arrives: bool, os: seq<Outcome>, i: nat)
    requires i < |os|
    ensures Starting(arrives, os)[i] == Packet(arrives, os[i])
  {
    if i > 0 { StartingAt(arrives, os[1..], i - 1); }
  }

  /** All outcomes of `n` transmissions. */
  function Outcomes(n: nat): seq<Outcome> {
    if n == 0 then [Nothing] else Starting(true, Outcomes(n - 1)) + Starting(false, Outcomes(n - 1))
  }

  function Weight(happens: bool, o: Outcome, p: real): real {
    if happens then Chance(o, p) else 0.0
  }

  /** Probability of an event: what the outcomes in which it happens weigh together. */
  function Probable(os: seq<Outcome>, event: Outcome -> bool, p: real): real {
    if os == [] then 0.0 else Weight(event(os[0]), os[0], p) + Probable(os[1..], event, p)
  }

  // ----- the outcomes

  lemma StartingHas(arrives: bool, os: seq<Outcome>, o: Outcome)
    ensures o in Starting(arrives, os) <==> o.Packet? && o.arrives == arrives && o.others in os
  {
    var r := Starting(arrives, os);
    if o in r {
      var i :| 0 <= i < |r| && r[i] == o;
      StartingAt(arrives, os, i);
    }
    if o.Packet? && o.arrives == arrives && o.others in os {
      var i :| 0 <= i < |os| && os[i] == o.others;
      StartingAt(arrives, os, i);
    }
  }

  /** Every outcome is listed. */
  lemma {:induction false} OutcomesComplete(n: nat, o: Outcome)
    ensures o in Outcomes(n) <==> Length(o) == n
  {
    if n > 0 {
      StartingHas(true, Outcomes(n - 1), o);
      StartingHas(false, Outcomes(n - 1), o);
      if o.Packet? { OutcomesComplete(n - 1, o.others); }
    }
  }

  lemma StartingDistinct(arrives: bool, os: seq<Outcome>)
    requires NoDup(os)
    ensures NoDup(Starting(arrives, os))
  {
    var r := Starting(arrives, os);
    forall i, j | 0 <= i < j < |r| ensures r[i] != r[j] {
      StartingAt(arrives, os, i);
      StartingAt(arrives, os, j);
    }
  }

  /** None is listed twice. */
  lemma {:induction false} OutcomesDistinct(n: nat)
    ensures NoDup(Outcomes(n))
  {
    if n > 0 {
      var rest := Outcomes(n - 1);
      OutcomesDistinct(n - 1);
      StartingDistinct(true, rest);
      StartingDistinct(false, rest);
      var a, b := Starting(true, rest), Starting(false, rest);
      forall i, j | 0 <= i < |a| && 0 <= j < |b| ensures a[i] != b[j] {
        StartingAt(true, rest, i);
        StartingAt(false, rest, j);
      }
    }
  }

  // ----- independence

  lemma AddParts(arrives: bool, p: real, a: real, b: real)
    ensures Part(arrives, p, a) + Part(arrives, p, b) == Part(arrives, p, a + b)
  {
  }

  lemma BothParts(p: real, a: real, b: real)
    ensures Part(true, p, a) + Part(false, p, b) == Mean(p, a, b)
  {
  }

  lemma NoPart(arrives: bool, p: real)
    ensures Part(arrives, p, 0.0) == 0.0
  {
  }

  lemma {:induction false} ProbableSplit(os: seq<Outcome>, more: seq<Outcome>, event: Outcome -> bool, p: real)
    ensures Probable(os + more, event, p) == Probable(os, event, p) + Probable(more, event, p)
  {
    if os == [] {
      assert os + more == more;
    } else {
      assert (os + more)[1..] == os[1..] + more;
      ProbableSplit(os[1..], more, event, p);
    }
  }

  /** What `event` becomes once the first transmission is known. */
  ghost predicate LeavesAt(arrives: bool, event: Outcome -> bool, rest: Outcome -> bool, o: Outcome) {
    event(Packet(arrives, o)) == rest(o)
  }

  ghost predicate Leaves(arrives: bool, event: Outcome -> bool, rest: Outcome -> bool) {
    forall o :: LeavesAt(arrives, event, rest, o)
  }

  /** The first transmission is independent of the others. */
  lemma {:induction false} ProbableStarting(arrives: bool, os: seq<Outcome>, event: Outcome -> bool,
                                            rest: Outcome -> bool, p: real)
    requires Leaves(arrives, event, rest)
    ensures Probable(Starting(arrives, os), event, p) == Part(arrives, p, Probable(os, rest, p))
  {
    NoPart(arrives, p);
    if os != [] {
      ProbableStarting(arrives, os[1..], event, rest, p);
      assert LeavesAt(arrives, event, rest, os[0]);
      AddParts(arrives, p, Weight(rest(os[0]), os[0], p), Probable(os[1..], rest, p));
    }
  }

  lemma ProbableMean(n: nat, event: Outcome -> bool, ifTrue: Outcome -> bool, ifFalse: Outcome -> bool, p: real)
    requires n > 0 && Leaves(true, event, ifTrue) && Leaves(false, event, ifFalse)
    ensures Probable(Outcomes(n), event, p) ==
            Mean(p, Probable(Outcomes(n - 1), ifTrue, p), Probable(Outcomes(n - 1), ifFalse, p))
  {
    var os := Outcomes(n - 1);
    ProbableSplit(Starting(true, os), Starting(false, os), event, p);
    ProbableStarting(true, os, event, ifTrue, p);
    ProbableStarting(false, os, event, ifFalse, p);
    BothParts(p, Probable(os, ifTrue, p), Probable(os, ifFalse, p));
  }

  // ----- the events

  function Always(): Outcome -> bool {
    (o: Outcome) => true
  }

  /** At least `k` packets arrive. */
  function Enough(k: nat): Outcome -> bool {
    (o: Outcome) => Arrivals(o) >= k
  }

  /** The packet in question arrives itself, or `k` of the others do. */
  function Decodable(k: nat): Outcome -> bool {
    (o: Outcome) => o.Packet? && (o.arrives || Arrivals(o.others) >= k)
  }

  lemma {:induction false} Certain(n: nat, p: real)
    ensures Probable(Outcomes(n), Always(), p) == 1.0
  {
    if n == 0 {
      assert Probable([Nothing], Always(), p) == Weight(true, Nothing, p) + Probable([], Always(), p);
    } else {
      Certain(n - 1, p);
      forall o ensures LeavesAt(true, Always(), Always(), o) && LeavesAt(false, Always(), Always(), o) {}
      ProbableMean(n, Always(), Always(), Always(), p);
      MeanOfSame(p, 1.0);
    }
  }

  lemma {:induction false} NoneNeeded(os: seq<Outcome>, p: real)
    ensures Probable(os, Enough(0), p) == Probable(os, Always(), p)
  {
    if os != [] { NoneNeeded(os[1..], p); }
  }

  lemma EnoughMean(m: nat, k: nat, p: real)
    requires m > 0 && k > 0
    ensures Probable(Outcomes(m), Enough(k), p) ==
            Mean(p, Probable(Outcomes(m - 1), Enough(k - 1), p), Probable(Outcomes(m - 1), Enough(k), p))
  {
    var fewer := Enough(k - 1);
    forall o ensures LeavesAt(true, Enough(k), fewer, o) && LeavesAt(false, Enough(k), Enough(k), o) {}
    ProbableMean(m, Enough(k), fewer, Enough(k), p);
  }

  /** The recurrence for the tail is the probability that `k` packets arrive. */
  lemma {:induction false} TailIsProbable(m: nat, k: nat, p: real)
    ensures Tail(m, k, p) == Probable(Outcomes(m), Enough(k), p)
  {
    if k == 0 {
      NoneNeeded(Outcomes(m), p);
      Certain(m, p);
    } else if m == 0 {
      assert Probable([Nothing], Enough(k), p) == Weight(false, Nothing, p) + Probable([], Enough(k), p);
    } else {
      TailIsProbable(m - 1, k - 1, p);
      TailIsProbable(m - 1, k, p);
      EnoughMean(m, k, p);
    }
  }

  lemma DecodableMean(k: nat, n: nat, p: real, t: real)
    requires n > 0 && t == Probable(Outcomes(n - 1), Enough(k), p)
    ensures Probable(Outcomes(n), Decodable(k), p) == Mean(p, Probable(Outcomes(n - 1), Always(), p), t)
  {
    forall o ensures LeavesAt(true, Decodable(k), Always(), o) && LeavesAt(false, Decodable(k), Enough(k), o) {}
    ProbableMean(n, Decodable(k), Always(), Enough(k), p);
  }

  /** The decoding probability for a tail of probability `t`. */
  function WithTail(p: real, t: real): real {
    Mean(p, 1.0, t)
  }

  lemma DecodableIs(k: nat, n: nat, p: real, t: real)
    requires n > 0 && t == Probable(Outcomes(n - 1), Enough(k), p)
    ensures Probable(Outcomes(n), Decodable(k), p) == WithTail(p, t)
  {
    DecodableMean(k, n, p, t);
    Certain(n - 1, p);
  }

  lemma DecProbIs(k: nat, n: nat, p: real, t: real)
    requires n > 0 && t == Tail(n - 1, k, p)
    ensures DecProb(k, n, p) == WithTail(p, t)
  {
  }

  /** The decoding probability is that of all outcomes in which the packet arrives or `k` others do. */
  lemma DecProbIsProbable(k: nat, n: nat, p: real)
    requires n > 0
    ensures DecProb(k, n, p) == Probable(Outcomes(n), Decodable(k), p)
  {
    TailIsProbable(n - 1, k, p);
    var t := Tail(n - 1, k, p);
    DecodableIs(k, n, p, t);
    DecProbIs(k, n, p, t);
  }
}
