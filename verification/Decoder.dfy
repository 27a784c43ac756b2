/** The on-the-fly network decoder: generations over an in-order lossy link, and the delivery of
    decoded symbols from a list that shrinks while it is walked. */
module Decoder {
  import opened Sequences
  import opened Encoder

  // ----- the delivery loop

  /** Deleting the element under the cursor moves its right neighbour under the cursor, which then
      moves on: the neighbour is skipped. */
  ghost function Delivered(pending: seq<nat>, decoded: set<nat>): seq<nat> {
    if pending == [] then []
    else if pending[0] !in decoded then Delivered(pending[1..], decoded)
    else [pending[0]] + if |pending| == 1 then [] else Delivered(pending[2..], decoded)
  }

  ghost function Kept(pending: seq<nat>, decoded: set<nat>): seq<nat> {
    if pending == [] then []
    else if pending[0] !in decoded then [pending[0]] + Kept(pending[1..], decoded)
    else if |pending| == 1 then [] else [pending[1]] + Kept(pending[2..], decoded)
  }

  lemma RemoveAt(head: seq<nat>, x: nat, tail: seq<nat>)
    requires NoDup(head + [x] + tail)
    ensures NoDup(head + tail) && IndexOf(head + [x] + tail, x) == |head|
  {
    var s, t := head + [x] + tail, head + tail;
    IndexOfUnique(s, |head|);
    forall i, j | 0 <= i < j < |t| ensures t[i] != t[j] {
      var i', j' := if i < |head| then i else i + 1, if j < |head| then j else j + 1;
      assert s[i'] == t[i] && s[j'] == t[j];
    }
  }

  lemma Assoc(a: seq<nat>, b: seq<nat>, c: seq<nat>)
    ensures (a + b) + c == a + (b + c)
  {
  }

  /** A turn of the loop that delivers and skips. */
  lemma DeliverTurn(sent: seq<nat>, head: seq<nat>, tail: seq<nat>, decoded: set<nat>)
    requires |tail| > 1 && tail[0] in decoded
    ensures (head + [tail[1]]) + tail[2..] == head + tail[1..]
    ensures (sent + [tail[0]]) + Delivered(tail[2..], decoded) == sent + Delivered(tail, decoded)
    ensures (head + [tail[1]]) + Kept(tail[2..], decoded) == head + Kept(tail, decoded)
  {
    assert tail[1..] == [tail[1]] + tail[2..];
    Assoc(head, [tail[1]], tail[2..]);
    Assoc(sent, [tail[0]], Delivered(tail[2..], decoded));
    Assoc(head, [tail[1]], Kept(tail[2..], decoded));
  }

  /** One that does not. */
  lemma PassTurn(head: seq<nat>, tail: seq<nat>, decoded: set<nat>)
    requires tail != [] && tail[0] !in decoded
    ensures Delivered(tail, decoded) == Delivered(tail[1..], decoded)
    ensures head + Kept(tail, decoded) == (head + [tail[0]]) + Kept(tail[1..], decoded)
  {
  }

  /** The loop itself: `cursor` is the list iterator's position. */
  method DeliveryLoop(pending: seq<nat>, decoded: set<nat>) returns (sent: seq<nat>, rest: seq<nat>)
    requires NoDup(pending)
    ensures sent == Delivered(pending, decoded) && rest == Kept(pending, decoded)
  {
    sent, rest := [], pending;
    var cursor := 0;
    ghost var head, tail := [], pending;
    while cursor < |rest|
      invariant rest == head + tail && NoDup(rest)
      invariant if tail == [] then cursor >= |head| else cursor == |head|
      invariant sent + Delivered(tail, decoded) == Delivered(pending, decoded)
      invariant head + Kept(tail, decoded) == Kept(pending, decoded)
      decreases |rest| - cursor
    {
      var i := rest[cursor];
      assert i == tail[0];
      if i in decoded {
        assert rest == head + [i] + tail[1..];
        RemoveAt(head, i, tail[1..]);
        var k := IndexOf(rest, i);
        rest := rest[..k] + rest[k + 1..];
        assert rest == head + tail[1..];
        if |tail| > 1 {
          DeliverTurn(sent, head, tail, decoded);
          head, tail := head + [tail[1]], tail[2..];
        } else {
          tail := [];
        }
        sent := sent + [i];
      } else {
        PassTurn(head, tail, decoded);
        head, tail := head + [i], tail[1..];
      }
      cursor := cursor + 1;
    }
  }

  /** One pass sends decoded symbols only, and every pending symbol is either sent or kept. */
  lemma {:induction false} SentOrKept(pending: seq<nat>, decoded: set<nat>, x: nat)
    requires NoDup(pending)
    ensures x in Delivered(pending, decoded) ==> x in pending && x in decoded && x !in Kept(pending, decoded)
    ensures x in Kept(pending, decoded) ==> x in pending
    ensures x in pending ==> x in Delivered(pending, decoded) || x in Kept(pending, decoded)
  {
    if pending != [] {
      if pending[0] !in decoded {
        SentOrKept(pending[1..], decoded, x);
      } else if |pending| > 1 {
        SentOrKept(pending[2..], decoded, x);
      }
    }
  }

  lemma {:induction false} PassKeepsNoDup(pending: seq<nat>, decoded: set<nat>)
    requires NoDup(pending)
    ensures NoDup(Delivered(pending, decoded)) && NoDup(Kept(pending, decoded))
  {
    if pending != [] {
      if pending[0] !in decoded {
        PassKeepsNoDup(pending[1..], decoded);
        SentOrKept(pending[1..], decoded, pending[0]);
      } else if |pending| > 1 {
        PassKeepsNoDup(pending[2..], decoded);
        SentOrKept(pending[2..], decoded, pending[0]);
        SentOrKept(pending[2..], decoded, pending[1]);
      }
    }
  }

  ghost predicate PairAt(pending: seq<nat>, decoded: set<nat>, i: nat) {
    i + 1 < |pending| && pending[i] in decoded && pending[i + 1] in decoded
  }

  /** No two neighbours of the list are both decoded. */
  ghost predicate Spread(pending: seq<nat>, decoded: set<nat>) {
    forall i: nat :: !PairAt(pending, decoded, i)
  }

  ghost predicate CompletePass(pending: seq<nat>, decoded: set<nat>) {
    forall x :: x in pending && x in decoded ==> x in Delivered(pending, decoded)
  }

  lemma SpreadRest(pending: seq<nat>, decoded: set<nat>)
    requires |pending| > 0
    ensures Spread(pending, decoded) <==> Spread(pending[1..], decoded) && !PairAt(pending, decoded, 0)
  {
    forall i: nat ensures PairAt(pending, decoded, i + 1) == PairAt(pending[1..], decoded, i) {}
    if Spread(pending[1..], decoded) && !PairAt(pending, decoded, 0) {
      forall i: nat ensures !PairAt(pending, decoded, i) {
        assert i > 0 ==> PairAt(pending, decoded, (i - 1) + 1) == PairAt(pending[1..], decoded, i - 1);
      }
    }
  }

  /** The pass sends every decoded symbol exactly when no two neighbours are both decoded. */
  lemma {:induction false} CompleteIff(pending: seq<nat>, decoded: set<nat>)
    requires NoDup(pending)
    ensures CompletePass(pending, decoded) <==> Spread(pending, decoded)
  {
    if pending != [] {
      SpreadRest(pending, decoded);
      CompleteIff(pending[1..], decoded);
      var x, rest := pending[0], pending[1..];
      if x in decoded && rest != [] {
        if rest[0] in decoded {
          assert PairAt(pending, decoded, 0);
          SentOrKept(rest[1..], decoded, rest[0]);
          assert Delivered(pending, decoded) == [x] + Delivered(rest[1..], decoded) by {
            assert pending[2..] == rest[1..];
          }
          assert rest[0] in pending && rest[0] !in Delivered(pending, decoded);
        } else {
          assert Delivered(pending, decoded) == [x] + Delivered(rest, decoded) by { assert pending[2..] == rest[1..]; }
        }
      }
    }
  }

  function CountIn(s: seq<nat>, decoded: set<nat>): nat {
    if s == [] then 0 else (if s[0] in decoded then 1 else 0) + CountIn(s[1..], decoded)
  }

  /** A pass sends at least half of the decoded symbols. */
  lemma {:induction false} HalfDelivered(pending: seq<nat>, decoded: set<nat>)
    ensures CountIn(Kept(pending, decoded), decoded) + |Delivered(pending, decoded)| == CountIn(pending, decoded)
    ensures 2 * |Delivered(pending, decoded)| >= CountIn(pending, decoded)
  {
    if pending != [] {
      if pending[0] !in decoded {
        HalfDelivered(pending[1..], decoded);
      } else if |pending| > 1 {
        HalfDelivered(pending[2..], decoded);
        assert pending[1..][1..] == pending[2..];
      }
    }
  }

  ghost function Passes(n: nat, pending: seq<nat>, decoded: set<nat>): seq<nat> {
    if n == 0 then pending else Passes(n - 1, Kept(pending, decoded), decoded)
  }

  lemma CountBound(s: seq<nat>, decoded: set<nat>)
    ensures CountIn(s, decoded) <= |s|
  {
  }

  /** Four passes empty a generation's list of everything that is decoded. */
  lemma FourPasses(pending: seq<nat>, decoded: set<nat>)
    requires |pending| <= SYMBOLS
    ensures CountIn(Passes(4, pending, decoded), decoded) == 0
  {
    CountBound(pending, decoded);
    var k1 := Kept(pending, decoded);
    HalfDelivered(pending, decoded);
    var k2 := Kept(k1, decoded);
    HalfDelivered(k1, decoded);
    var k3 := Kept(k2, decoded);
    HalfDelivered(k2, decoded);
    HalfDelivered(k3, decoded);
    assert Passes(2, k2, decoded) == Passes(1, k3, decoded);
  }

  // ----- generations

  /** A packet from the link, and which symbols kodo reports as decoded once it has read it. */
  datatype Arrival = Arrival(packet: Coded, decoded: set<nat>)

  /** Decoder `decoder` sent out its symbol `symbol` after reading a packet written by `coder`. */
  datatype Delivery = Delivery(decoder: nat, coder: nat, symbol: nat)

  /** `built` counts the decoder objects thrown away, `fed` is what the present one has read. */
  datatype State = State(generation: nat, built: nat, fed: seq<Coded>, pending: seq<nat>)

  function Range(n: nat): (r: seq<nat>)
    ensures |r| == n && forall i :: 0 <= i < n ==> r[i] == i
  {
    if n == 0 then [] else Range(n - 1) + [n - 1]
  }

  /** The packet is taken to open a new generation. */
  predicate Opens(generation: nat, next: nat) {
    next > generation || (next == 0 && generation == 255)
  }

  ghost function Load(s: State, p: Coded): State {
    if Opens(s.generation, p.generation) then State(p.generation, s.built + 1, [p], Range(SYMBOLS))
    else s.(fed := s.fed + [p])
  }

  ghost function Step(s: State, a: Arrival): State {
    var t := Load(s, a.packet);
    t.(pending := Kept(t.pending, a.decoded))
  }

  ghost function Sent(s: State, a: Arrival): seq<nat> {
    Delivered(Load(s, a.packet).pending, a.decoded)
  }

  class RlncDecoder {
    var generation: nat
    var built: nat
    var fed: seq<Coded>
    var pending: seq<nat>

    ghost function View(): State
      reads this
    {
      State(generation, built, fed, pending)
    }

    ghost predicate Valid()
      reads this
    {
      NoDup(pending)
    }

    constructor ()
      ensures Valid() && View() == Start()
    {
      generation, built, fed, pending := 0, 0, [], Range(SYMBOLS);
    }

    /** One turn of the input loop. */
    method Receive(p: Coded, decoded: set<nat>) returns (sent: seq<nat>)
      requires Valid()
      modifies this
      ensures Valid()
      ensures View() == Step(old(View()), Arrival(p, decoded)) && sent == Sent(old(View()), Arrival(p, decoded))
    {
      if p.generation > generation {
        built, fed, pending := built + 1, [], Range(SYMBOLS);
        generation := p.generation;
      } else if p.generation == 0 && generation == 255 {
        built, fed, pending := built + 1, [], Range(SYMBOLS);
        generation := 0;
      }
      fed := fed + [p];
      PassKeepsNoDup(pending, decoded);
      sent, pending := DeliveryLoop(pending, decoded);
    }
  }

  ghost function Start(): State {
    State(0, 0, [], Range(SYMBOLS))
  }

  ghost function After(arr: seq<Arrival>): State {
    if arr == [] then Start() else Step(After(arr[..|arr| - 1]), arr[|arr| - 1])
  }

  function Tag(sent: seq<nat>, decoder: nat, coder: nat): (r: seq<Delivery>)
    ensures |r| == |sent| && forall i :: 0 <= i < |r| ==> r[i] == Delivery(decoder, coder, sent[i])
  {
    if sent == [] then [] else [Delivery(decoder, coder, sent[0])] + Tag(sent[1..], decoder, coder)
  }

  /** Everything sent out during a run. */
  ghost function Log(arr: seq<Arrival>): seq<Delivery> {
    if arr == [] then []
    else
      var before, a := arr[..|arr| - 1], arr[|arr| - 1];
      Log(before) + Tag(Sent(After(before), a), After(arr).built, a.packet.coder)
  }

  /** The input loop over finitely many packets. */
  method RunDecoder(arr: seq<Arrival>) returns (log: seq<Delivery>, last: RlncDecoder)
    ensures fresh(last) && last.Valid() && last.View() == After(arr) && log == Log(arr)
  {
    log := [];
    last := new RlncDecoder();
    var i := 0;
    while i < |arr|
      invariant 0 <= i <= |arr|
      invariant fresh(last) && last.Valid() && last.View() == After(arr[..i]) && log == Log(arr[..i])
    {
      assert arr[..i + 1][..i] == arr[..i];
      var sent := last.Receive(arr[i].packet, arr[i].decoded);
      log := log + Tag(sent, last.built, arr[i].packet.coder);
      i := i + 1;
    }
    assert arr[..i] == arr;
  }

  // ----- at most once

  ghost predicate LoggedOk(d: Delivery, s: State) {
    d.decoder <= s.built && (d.decoder == s.built ==> d.symbol !in s.pending)
  }

  ghost predicate Different(d: Delivery, e: Delivery) {
    d.decoder != e.decoder || d.symbol != e.symbol
  }

  /** No decoder sends a symbol twice, whatever arrives and whatever kodo answers. */
  lemma {:induction false} DecoderSendsOnce(arr: seq<Arrival>)
    ensures NoDup(After(arr).pending)
    ensures forall i :: 0 <= i < |Log(arr)| ==> LoggedOk(Log(arr)[i], After(arr))
    ensures forall i, j :: 0 <= i < j < |Log(arr)| ==> Different(Log(arr)[i], Log(arr)[j])
  {
    if arr != [] {
      var before, a := arr[..|arr| - 1], arr[|arr| - 1];
      DecoderSendsOnce(before);
      var s, log := After(before), Log(before);
      var t, sent := Load(s, a.packet), Sent(s, a);
      PassKeepsNoDup(t.pending, a.decoded);
      forall x ensures x in sent ==> x in t.pending && x !in After(arr).pending { SentOrKept(t.pending, a.decoded, x); }
      forall x ensures x in After(arr).pending ==> x in t.pending { SentOrKept(t.pending, a.decoded, x); }
      forall i | 0 <= i < |log|
        ensures LoggedOk(log[i], After(arr))
        ensures forall x :: x in sent ==> Different(log[i], Delivery(t.built, a.packet.coder, x))
      {
        assert LoggedOk(log[i], s);
      }
    }
  }

  // ----- delivery over a run

  /** Kodo reports every symbol of the generation as decoded. */
  ghost predicate AllDecoded(decoded: set<nat>) {
    forall x: nat :: x < SYMBOLS ==> x in decoded
  }

  ghost predicate Symbols(pending: seq<nat>) {
    |pending| <= SYMBOLS && forall x :: x in pending ==> x < SYMBOLS
  }

  lemma {:induction false} KeptShorter(pending: seq<nat>, decoded: set<nat>)
    ensures |Kept(pending, decoded)| <= |pending|
  {
    if pending != [] {
      if pending[0] !in decoded {
        KeptShorter(pending[1..], decoded);
      } else if |pending| > 1 {
        KeptShorter(pending[2..], decoded);
      }
    }
  }

  lemma KeptSymbols(pending: seq<nat>, decoded: set<nat>)
    requires NoDup(pending) && Symbols(pending)
    ensures Symbols(Kept(pending, decoded))
  {
    KeptShorter(pending, decoded);
    forall x | x in Kept(pending, decoded) ensures x < SYMBOLS { SentOrKept(pending, decoded, x); }
  }

  lemma {:induction false} PendingSymbols(arr: seq<Arrival>)
    ensures Symbols(After(arr).pending)
  {
    if arr != [] {
      var before, a := arr[..|arr| - 1], arr[|arr| - 1];
      PendingSymbols(before);
      DecoderSendsOnce(before);
      KeptSymbols(Load(After(before), a.packet).pending, a.decoded);
    }
  }

  lemma {:induction false} AllCounted(s: seq<nat>, decoded: set<nat>)
    requires forall x :: x in s ==> x in decoded
    ensures CountIn(s, decoded) == |s|
  {
    if s != [] { AllCounted(s[1..], decoded); }
  }

  /** A pass over a fully decoded list leaves at most half of it. */
  lemma HalfLeft(pending: seq<nat>, decoded: set<nat>)
    requires NoDup(pending) && Symbols(pending) && AllDecoded(decoded)
    ensures 2 * |Kept(pending, decoded)| <= |pending|
  {
    HalfDelivered(pending, decoded);
    KeptSymbols(pending, decoded);
    AllCounted(pending, decoded);
    AllCounted(Kept(pending, decoded), decoded);
  }

  /** Arrival `i` opens no decoder, and finds its generation decoded. */
  ghost predicate MoreOfDecoded(arr: seq<Arrival>, i: nat)
    requires i < |arr|
  {
    !Opens(After(arr[..i]).generation, arr[i].packet.generation) && AllDecoded(arr[i].decoded)
  }

  lemma MoreHalves(arr: seq<Arrival>, i: nat)
    requires i < |arr| && MoreOfDecoded(arr, i)
    ensures 2 * |After(arr[..i + 1]).pending| <= |After(arr[..i]).pending|
  {
    assert arr[..i + 1][..i] == arr[..i];
    DecoderSendsOnce(arr[..i]);
    PendingSymbols(arr[..i]);
    HalfLeft(After(arr[..i]).pending, arr[i].decoded);
  }

  /** Once a generation is decoded, four more of its packets are enough to send all of its symbols. */
  lemma FourMore(arr: seq<Arrival>)
    requires |arr| >= 4 && forall i :: |arr| - 4 <= i < |arr| ==> MoreOfDecoded(arr, i)
    ensures After(arr).pending == []
  {
    var n := |arr| - 4;
    PendingSymbols(arr[..n]);
    MoreHalves(arr, n);
    MoreHalves(arr, n + 1);
    MoreHalves(arr, n + 2);
    MoreHalves(arr, n + 3);
    assert arr[..n + 4] == arr;
  }

  /** The log holds symbol `x` from decoder `decoder`. */
  ghost predicate Logged(log: seq<Delivery>, decoder: nat, x: nat) {
    exists i :: 0 <= i < |log| && log[i].decoder == decoder && log[i].symbol == x
  }

  ghost predicate LoggedOnce(log: seq<Delivery>, decoder: nat, x: nat) {
    exists i :: 0 <= i < |log| && log[i].decoder == decoder && log[i].symbol == x
                && forall j :: 0 <= j < |log| && log[j].decoder == decoder && log[j].symbol == x ==> j == i
  }

  lemma LoggedStays(log: seq<Delivery>, more: seq<Delivery>, decoder: nat, x: nat)
    requires Logged(log, decoder, x)
    ensures Logged(log + more, decoder, x)
  {
    var i :| 0 <= i < |log| && log[i].decoder == decoder && log[i].symbol == x;
    assert (log + more)[i] == log[i];
  }

  lemma SentIsLogged(log: seq<Delivery>, sent: seq<nat>, decoder: nat, coder: nat, x: nat)
    requires x in sent
    ensures Logged(log + Tag(sent, decoder, coder), decoder, x)
  {
    var k :| 0 <= k < |sent| && sent[k] == x;
    assert (log + Tag(sent, decoder, coder))[|log| + k] == Delivery(decoder, coder, x);
  }

  /** Every decoder waits for all of its symbols: whatever arrives and whatever kodo answers, each one
      is still pending or has been sent out by the present decoder. */
  lemma {:induction false} NothingForgotten(arr: seq<Arrival>, x: nat)
    requires x < SYMBOLS
    ensures x in After(arr).pending || Logged(Log(arr), After(arr).built, x)
  {
    if arr == [] {
      assert Range(SYMBOLS)[x] == x;
    } else {
      var before, a := arr[..|arr| - 1], arr[|arr| - 1];
      var s := After(before);
      NothingForgotten(before, x);
      DecoderSendsOnce(before);
      if Opens(s.generation, a.packet.generation) { assert Range(SYMBOLS)[x] == x; }
      if x in Load(s, a.packet).pending {
        SentOrKept(Load(s, a.packet).pending, a.decoded, x);
        if x in Sent(s, a) { SentIsLogged(Log(before), Sent(s, a), After(arr).built, a.packet.coder, x); }
      } else {
        LoggedStays(Log(before), Tag(Sent(s, a), After(arr).built, a.packet.coder), s.built, x);
      }
    }
  }

  /** Once a generation is decoded, four more of its packets are enough, and all of its symbols have
      been sent out, each exactly once. */
  lemma GenerationDelivered(arr: seq<Arrival>, x: nat)
    requires |arr| >= 4 && (forall i :: |arr| - 4 <= i < |arr| ==> MoreOfDecoded(arr, i)) && x < SYMBOLS
    ensures LoggedOnce(Log(arr), After(arr).built, x)
  {
    FourMore(arr);
    NothingForgotten(arr, x);
    DecoderSendsOnce(arr);
    OnceOnly(Log(arr), After(arr).built, x);
  }

  lemma OnceOnly(log: seq<Delivery>, decoder: nat, x: nat)
    requires Logged(log, decoder, x)
    requires forall i, j :: 0 <= i < j < |log| ==> Different(log[i], log[j])
    ensures LoggedOnce(log, decoder, x)
  {
    var i :| 0 <= i < |log| && log[i].decoder == decoder && log[i].symbol == x;
    forall j | 0 <= j < |log| && log[j].decoder == decoder && log[j].symbol == x ensures j == i {
      AreDifferent(log, i, j);
    }
  }

  lemma AreDifferent(log: seq<Delivery>, i: nat, j: nat)
    requires i < |log| && j < |log|
    requires forall i, j :: 0 <= i < j < |log| ==> Different(log[i], log[j])
    ensures i == j || Different(log[i], log[j])
  {
  }

  // ----- one decoder, one generation

  ghost function Packets(arr: seq<Arrival>): (r: seq<Coded>)
    ensures |r| == |arr| && forall i :: 0 <= i < |r| ==> r[i] == arr[i].packet
  {
    if arr == [] then [] else Packets(arr[..|arr| - 1]) + [arr[|arr| - 1].packet]
  }

  /** Everything the present decoder has read was written by one coder. */
  ghost predicate Pure(s: State) {
    forall i :: 0 <= i < |s.fed| ==> s.fed[i].coder == s.fed[|s.fed| - 1].coder
  }

  ghost predicate AlwaysPure(arr: seq<Arrival>) {
    arr == [] || (AlwaysPure(arr[..|arr| - 1]) && Pure(After(arr)))
  }

  /** The header of packet `i` shows that it does not belong to the generation of packet `i - 1`. */
  ghost predicate NoticedAt(p: seq<Coded>, i: nat) {
    0 < i < |p| && p[i - 1].coder != p[i].coder ==> Opens(p[i - 1].generation, p[i].generation)
  }

  ghost predicate AllNoticed(p: seq<Coded>) {
    forall i: nat :: NoticedAt(p, i)
  }

  lemma NoticedLast(p: seq<Coded>)
    requires |p| > 0
    ensures AllNoticed(p) <==> AllNoticed(p[..|p| - 1]) && NoticedAt(p, |p| - 1)
  {
    var q := p[..|p| - 1];
    forall i: nat ensures i < |q| ==> NoticedAt(p, i) == NoticedAt(q, i) {}
    forall i: nat ensures i >= |q| ==> NoticedAt(q, i) {}
    forall i: nat ensures i > |q| ==> NoticedAt(p, i) {}
    if AllNoticed(p) {
      forall i: nat ensures NoticedAt(q, i) { assert NoticedAt(p, i); }
    }
  }

  lemma OrderPrefix(p: seq<Coded>)
    requires InOrder(p) && |p| > 0
    ensures InOrder(p[..|p| - 1])
  {
  }

  /** What a pure decoder holds after a nonempty run. */
  ghost predicate Current(s: State, p: Coded) {
    && Pure(s) && |s.fed| > 0
    && s.fed[|s.fed| - 1].coder == p.coder
    && s.generation == p.generation
  }

  lemma PureStep(s: State, p: Coded, q: Coded)
    requires Current(s, p) && Tagged(p) && Tagged(q) && p.coder <= q.coder
    ensures Pure(Load(s, q)) <==> (p.coder != q.coder ==> Opens(p.generation, q.generation))
    ensures Pure(Load(s, q)) ==> Current(Load(s, q), q)
  {
    var t := Load(s, q);
    if !Opens(s.generation, q.generation) {
      assert t.fed[0] == s.fed[0];
      if p.coder == q.coder { assert Pure(t); }
    }
  }

  /** One more arrival at a pure decoder. */
  lemma PureArrival(s: State, a: Arrival, p: Coded)
    requires Current(s, p) && Tagged(p) && Tagged(a.packet) && p.coder <= a.packet.coder
    ensures Pure(Step(s, a)) <==> (p.coder != a.packet.coder ==> Opens(p.generation, a.packet.generation))
    ensures Pure(Step(s, a)) ==> Current(Step(s, a), a.packet)
  {
    PureStep(s, p, a.packet);
    assert Pure(Step(s, a)) == Pure(Load(s, a.packet));
  }

  lemma FirstArrival(a: Arrival)
    ensures Current(Step(Start(), a), a.packet) || !Tagged(a.packet)
  {
  }

  /** No decoder mixes generations exactly when every change of generation between successive
      arrivals shows in the 8-bit numbers. */
  lemma {:induction false} PureIff(arr: seq<Arrival>)
    requires InOrder(Packets(arr))
    ensures AlwaysPure(arr) <==> AllNoticed(Packets(arr))
    ensures AlwaysPure(arr) && arr != [] ==> Current(After(arr), arr[|arr| - 1].packet)
  {
    if arr != [] {
      var n := |arr| - 1;
      var before, p := arr[..n], Packets(arr);
      assert Packets(before) == p[..n];
      OrderPrefix(p);
      NoticedLast(p);
      PureIff(before);
      assert Tagged(p[n]);
      if n == 0 {
        FirstArrival(arr[0]);
      } else if AlwaysPure(before) {
        assert Tagged(p[n - 1]);
        PureArrival(After(before), arr[n], p[n - 1]);
      }
    }
  }

  ghost predicate SourceOk(d: Delivery, built: nat, coder: nat) {
    if d.decoder == built then d.coder == coder else d.decoder < built && d.coder < coder
  }

  ghost predicate SameSource(d: Delivery, e: Delivery) {
    d.decoder == e.decoder <==> d.coder == e.coder
  }

  lemma SourceStep(s: State, p: Coded, q: Coded, d: Delivery)
    requires Current(s, p) && Tagged(p) && Tagged(q) && p.coder <= q.coder
    requires Pure(Load(s, q)) && SourceOk(d, s.built, p.coder)
    ensures SourceOk(d, Load(s, q).built, q.coder)
  {
    PureStep(s, p, q);
  }

  lemma SourceStepRun(before: seq<Arrival>, arr: seq<Arrival>, d: Delivery)
    requires |arr| > 0 && before == arr[..|arr| - 1] && before != []
    requires InOrder(Packets(arr)) && AlwaysPure(arr)
    requires SourceOk(d, After(before).built, before[|before| - 1].packet.coder)
    ensures SourceOk(d, After(arr).built, arr[|arr| - 1].packet.coder)
  {
    var p := Packets(arr);
    assert Packets(before) == p[..|arr| - 1];
    OrderPrefix(p);
    PureIff(before);
    assert p[|before| - 1] == before[|before| - 1].packet && p[|before|] == arr[|arr| - 1].packet;
    SourceStep(After(before), p[|before| - 1], p[|before|], d);
  }

  lemma {:induction false} SourcesOk(arr: seq<Arrival>, i: nat)
    requires InOrder(Packets(arr)) && AlwaysPure(arr) && i < |Log(arr)|
    ensures SourceOk(Log(arr)[i], After(arr).built, arr[|arr| - 1].packet.coder)
  {
    var before := arr[..|arr| - 1];
    if i < |Log(before)| {
      assert Packets(before) == Packets(arr)[..|arr| - 1];
      OrderPrefix(Packets(arr));
      SourcesOk(before, i);
      SourceStepRun(before, arr, Log(before)[i]);
    }
  }

  /** In a pure run, two deliveries come from one decoder exactly when they carry symbols of one
      generation. */
  lemma {:induction false} PureSources(arr: seq<Arrival>, i: nat, j: nat)
    requires InOrder(Packets(arr)) && AlwaysPure(arr) && i < j < |Log(arr)|
    ensures SameSource(Log(arr)[i], Log(arr)[j])
  {
    var before := arr[..|arr| - 1];
    if j < |Log(before)| {
      assert Packets(before) == Packets(arr)[..|arr| - 1];
      OrderPrefix(Packets(arr));
      PureSources(before, i, j);
    } else {
      SourcesOk(arr, i);
    }
  }

  ghost predicate DifferentData(d: Delivery, e: Delivery) {
    d.coder != e.coder || d.symbol != e.symbol
  }

  /** In a pure run they are symbols of the generation that is arriving. */
  lemma GenerationComplete(arr: seq<Arrival>, x: nat)
    requires |arr| >= 4 && (forall i :: |arr| - 4 <= i < |arr| ==> MoreOfDecoded(arr, i)) && x < SYMBOLS
    requires InOrder(Packets(arr)) && AlwaysPure(arr)
    ensures Delivery(After(arr).built, arr[|arr| - 1].packet.coder, x) in Log(arr)
  {
    GenerationDelivered(arr, x);
    var i :| 0 <= i < |Log(arr)| && Log(arr)[i].decoder == After(arr).built && Log(arr)[i].symbol == x;
    SourcesOk(arr, i);
  }

  /** A number that has been read cannot open a decoder again. */
  lemma ReadIsClosed(arr: seq<Arrival>)
    requires |arr| > 0
    ensures !Opens(After(arr).generation, arr[|arr| - 1].packet.generation)
  {
  }

  /** On every in-order link, whatever is lost, what was sent for the generation of the last arrival
      came from the present decoder. */
  lemma {:induction false} OneDecoderEach(arr: seq<Arrival>, i: nat)
    requires InOrder(Packets(arr)) && i < |Log(arr)|
    ensures var d, last := Log(arr)[i], arr[|arr| - 1].packet.coder;
      d.coder <= last && (d.coder == last ==> d.decoder == After(arr).built)
  {
    var before, p := arr[..|arr| - 1], Packets(arr);
    if i < |Log(before)| {
      assert Packets(before) == p[..|arr| - 1];
      OrderPrefix(p);
      OneDecoderEach(before, i);
      ReadIsClosed(before);
      assert p[|before| - 1] == before[|before| - 1].packet && p[|before|] == arr[|arr| - 1].packet;
      assert Tagged(p[|before| - 1]) && Tagged(p[|before|]);
    }
  }

  lemma {:induction false} SameCoderSameDecoder(arr: seq<Arrival>, i: nat, j: nat)
    requires InOrder(Packets(arr)) && i < j < |Log(arr)|
    ensures Log(arr)[i].coder == Log(arr)[j].coder ==> Log(arr)[i].decoder == Log(arr)[j].decoder
  {
    var before := arr[..|arr| - 1];
    if j < |Log(before)| {
      assert Packets(before) == Packets(arr)[..|arr| - 1];
      OrderPrefix(Packets(arr));
      SameCoderSameDecoder(before, i, j);
    } else {
      OneDecoderEach(arr, i);
    }
  }

  /** On every in-order link, whatever is lost, no symbol of a generation is sent out twice. */
  lemma SymbolSentOnce(arr: seq<Arrival>, i: nat, j: nat)
    requires InOrder(Packets(arr)) && i < j < |Log(arr)|
    ensures DifferentData(Log(arr)[i], Log(arr)[j])
  {
    SameCoderSameDecoder(arr, i, j);
    DecoderSendsOnce(arr);
    assert Different(Log(arr)[i], Log(arr)[j]);
  }

  ghost predicate Arrives(p: seq<Coded>, coder: nat) {
    exists i :: 0 <= i < |p| && p[i].coder == coder
  }

  /** Every generation numbered 0 or 255 between the first and the last arrival is represented. */
  ghost predicate RoundsMarked(p: seq<Coded>) {
    forall g: nat :: |p| > 0 && p[0].coder <= g <= p[|p| - 1].coder
                     && (g % GENERATIONS == 0 || g % GENERATIONS == 255) ==>
      Arrives(p, g)
  }

  /** A generation between two successive arrivals that arrives at all is one of the two. */
  lemma NothingBetween(p: seq<Coded>, i: nat, g: nat)
    requires InOrder(p) && 0 < i < |p| && p[i - 1].coder <= g <= p[i].coder && Arrives(p, g)
    ensures g == p[i - 1].coder || g == p[i].coder
  {
    var k :| 0 <= k < |p| && p[k].coder == g;
    if k < i { assert k == i - 1 || p[k].coder <= p[i - 1].coder; } else { assert k == i || p[i].coder <= p[k].coder; }
  }

  lemma SameRound(a: nat, b: nat)
    requires a < b
    ensures a / GENERATIONS == b / GENERATIONS ==> a % GENERATIONS < b % GENERATIONS
    ensures a / GENERATIONS < b / GENERATIONS ==>
      var first, last := b / GENERATIONS * GENERATIONS, a / GENERATIONS * GENERATIONS + 255;
      a <= last < b && a < first <= b && first % GENERATIONS == 0 && last % GENERATIONS == 255
  {
  }

  /** One packet of each generation numbered 255 and each numbered 0 is enough to notice every
      change, however many other generations are lost. */
  lemma MarkedRoundsNoticed(p: seq<Coded>)
    requires InOrder(p) && RoundsMarked(p)
    ensures AllNoticed(p)
  {
    forall i: nat ensures NoticedAt(p, i) {
      if 0 < i < |p| && p[i - 1].coder != p[i].coder {
        var a, b := p[i - 1].coder, p[i].coder;
        assert Tagged(p[i - 1]) && Tagged(p[i]);
        assert p[0].coder <= a && b <= p[|p| - 1].coder;
        SameRound(a, b);
        if a / GENERATIONS < b / GENERATIONS {
          NothingBetween(p, i, b / GENERATIONS * GENERATIONS);
          NothingBetween(p, i, a / GENERATIONS * GENERATIONS + 255);
        }
      }
    }
  }

  /** When a whole round is lost the decoder takes the packet of another generation for one of its
      own. */
  lemma LostRoundMixes(g: nat, first: set<nat>, second: set<nat>)
    ensures var arr := [Arrival(FirstOf(g), first), Arrival(FirstOf(g + GENERATIONS), second)];
      InOrder(Packets(arr)) && !AlwaysPure(arr)
  {
    var arr := [Arrival(FirstOf(g), first), Arrival(FirstOf(g + GENERATIONS), second)];
    assert (g + GENERATIONS) % GENERATIONS == g % GENERATIONS;
    PureIff(arr);
    assert !NoticedAt(Packets(arr), 1);
  }

  /** `got` is what an in-order link that loses packets makes of `sent`: packet `i` is `sent[at[i]]`. */
  ghost predicate Subsequence(got: seq<Coded>, sent: seq<Coded>, at: seq<nat>) {
    && |at| == |got|
    && (forall i :: 0 <= i < |at| ==> at[i] < |sent| && got[i] == sent[at[i]])
    && (forall i, j :: 0 <= i < j < |at| ==> at[i] < at[j])
  }

  /** Two packets of different generations can be what the link leaves of an encoder's output. */
  lemma TwoArrive(sent: seq<Coded>, p: Coded, q: Coded) returns (at: seq<nat>)
    requires InOrder(sent) && p in sent && q in sent && p.coder < q.coder
    ensures Subsequence([p, q], sent, at)
  {
    var i :| 0 <= i < |sent| && sent[i] == p;
    var j :| 0 <= j < |sent| && sent[j] == q;
    at := [i, j];
  }

  /** For any generation there is an input and a loss after which its decoder is fed a packet of the
      generation that follows 256 later. */
  lemma LostRoundHappens(g: nat, first: set<nat>, second: set<nat>) returns (frames: seq<Frame>, at: seq<nat>)
    ensures var arr := [Arrival(FirstOf(g), first), Arrival(FirstOf(g + GENERATIONS), second)];
      Subsequence(Packets(arr), Output(frames, 0, INIT_REDUNDANCY), at) && !AlwaysPure(arr)
  {
    var m := (g + GENERATIONS) * SYMBOLS + 1;
    frames := Segments(m);
    EveryGenerationSent(m, 0, INIT_REDUNDANCY, g);
    EveryGenerationSent(m, 0, INIT_REDUNDANCY, g + GENERATIONS);
    OutputInOrder(frames, 0, INIT_REDUNDANCY);
    at := TwoArrive(Output(frames, 0, INIT_REDUNDANCY), FirstOf(g), FirstOf(g + GENERATIONS));
    LostRoundMixes(g, first, second);
    assert Packets([Arrival(FirstOf(g), first), Arrival(FirstOf(g + GENERATIONS), second)])
        == [FirstOf(g), FirstOf(g + GENERATIONS)];
  }

  /** The whole transport: whatever the encoder is given, whatever the in-order link loses, and
      whatever kodo answers, no symbol of a generation is sent out twice; and if the generations
      numbered 0 and 255 are not lost entirely, no decoder is fed two generations. */
  lemma LossyLink(frames: seq<Frame>, arr: seq<Arrival>, at: seq<nat>)
    requires Subsequence(Packets(arr), Output(frames, 0, INIT_REDUNDANCY), at)
    ensures RoundsMarked(Packets(arr)) ==> AlwaysPure(arr)
    ensures forall i, j :: 0 <= i < j < |Log(arr)| ==> DifferentData(Log(arr)[i], Log(arr)[j])
  {
    OutputInOrder(frames, 0, INIT_REDUNDANCY);
    if RoundsMarked(Packets(arr)) { MarkedRoundsNoticed(Packets(arr)); }
    PureIff(arr);
    forall i, j | 0 <= i < j < |Log(arr)| ensures DifferentData(Log(arr)[i], Log(arr)[j]) { SymbolSentOnce(arr, i, j); }
  }
}
