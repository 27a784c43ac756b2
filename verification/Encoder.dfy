/** The on-the-fly network encoder: which generation every coded packet belongs to. */
module Encoder {

  const SYMBOLS: nat := 10
  const SYMBOL_SIZE: nat := 100
  const INIT_REDUNDANCY: int := 5
  const GENERATIONS: nat := 256
  const IP_PROTO_UDP: nat := 17
  const UDP_PORT_OAM: nat := 8888
  const UDP_PORT_DATA: nat := 9999

  /** A received frame; `word` is the signed 32-bit number at the start of a UDP payload. */
  datatype Frame = NotIpv4 | Ipv4(proto: nat, port: nat, length: nat, word: int)

  /** A coded packet: the generation number in its header, the coder object that wrote its payload
      (counted from 0), and how many symbols that coder held. */
  datatype Coded = Coded(generation: nat, coder: nat, rank: nat)

  predicate Udp(f: Frame) {
    f.Ipv4? && f.proto == IP_PROTO_UDP
  }

  /** The encoder's assertion on the payload length fails, and the program ends. */
  predicate Crashes(f: Frame) {
    Udp(f) && f.length >= SYMBOL_SIZE
  }

  predicate IsData(f: Frame) {
    Udp(f) && f.port == UDP_PORT_DATA
  }

  predicate IsOam(f: Frame) {
    Udp(f) && f.port == UDP_PORT_OAM
  }

  function Copies(c: Coded, n: int): (r: seq<Coded>)
    ensures |r| == if n > 0 then n else 0
    ensures forall i :: 0 <= i < |r| ==> r[i] == c
  {
    if n <= 0 then [] else Copies(c, n - 1) + [c]
  }

  /** What data segment number `n` (from 0) makes the encoder send: `SYMBOLS` segments share a
      generation, and the last of them triggers the redundant packets. */
  ghost function Emission(n: nat, redundancy: int): seq<Coded> {
    Copies(Coded(n / SYMBOLS % GENERATIONS, n / SYMBOLS, n % SYMBOLS + 1),
           if (n + 1) % SYMBOLS == 0 then 1 + redundancy else 1)
  }

  /** Everything sent for `frames`, after `n` data segments and with the given redundancy. */
  ghost function Output(frames: seq<Frame>, n: nat, redundancy: int): seq<Coded> {
    if frames == [] || Crashes(frames[0]) then []
    else if IsData(frames[0]) then Emission(n, redundancy) + Output(frames[1..], n + 1, redundancy)
    else Output(frames[1..], n, if IsOam(frames[0]) then frames[0].word else redundancy)
  }

  /** Which generation the next segment belongs to. */
  lemma NextSegment(n: nat)
    ensures n % SYMBOLS + 1 < SYMBOLS ==> (n + 1) % SYMBOLS == n % SYMBOLS + 1 && (n + 1) / SYMBOLS == n / SYMBOLS
    ensures n % SYMBOLS + 1 == SYMBOLS ==> (n + 1) % SYMBOLS == 0 && (n + 1) / SYMBOLS == n / SYMBOLS + 1
  {
  }

  lemma NextGeneration(g: nat)
    ensures (g + 1) % GENERATIONS == if g % GENERATIONS < 255 then g % GENERATIONS + 1 else 0
  {
  }

  /** The loop that sends one coded packet `n` times. */
  method SendCopies(c: Coded, n: int) returns (sent: seq<Coded>)
    ensures sent == Copies(c, n)
  {
    sent := [];
    var i := 0;
    while i < n
      invariant 0 <= i && (i <= n || i == 0) && sent == Copies(c, i)
    {
      sent := sent + [c];
      i := i + 1;
    }
  }

  class RlncEncoder {
    var rank: nat
    var generation: nat
    var redundancy: int
    /** Number of coder objects built so far, minus one. */
    var coder: nat
    /** Data segments taken in so far. */
    ghost var segments: nat

    ghost predicate Valid()
      reads this
    {
      && rank == segments % SYMBOLS
      && coder == segments / SYMBOLS
      && generation == segments / SYMBOLS % GENERATIONS
    }

    constructor ()
      ensures Valid() && segments == 0 && redundancy == INIT_REDUNDANCY
    {
      rank, generation, redundancy, coder, segments := 0, 0, INIT_REDUNDANCY, 0, 0;
    }

    /** One turn of the input loop; `alive` is false when the assertion stops the program. */
    method Handle(f: Frame) returns (alive: bool, sent: seq<Coded>)
      requires Valid()
      modifies this
      ensures Valid()
      ensures alive == !Crashes(f)
      ensures segments == old(segments) + if alive && IsData(f) then 1 else 0
      ensures redundancy == if alive && IsOam(f) then f.word else old(redundancy)
      ensures sent == if alive && IsData(f) then Emission(old(segments), redundancy) else []
    {
      alive, sent := true, [];
      if f.NotIpv4? { return; }
      if f.proto != IP_PROTO_UDP { return; }
      if f.length >= SYMBOL_SIZE {
        alive := false;
        return;
      }
      if f.port == UDP_PORT_OAM {
        redundancy := f.word;
        return;
      } else if f.port != UDP_PORT_DATA {
        return;
      }
      // The coder stores the segment in its next symbol.
      var full := rank + 1;
      var sendNum := if full < SYMBOLS then 1 else 1 + redundancy;
      sent := SendCopies(Coded(generation, coder, full), sendNum);
      NextSegment(segments);
      NextGeneration(segments / SYMBOLS);
      segments := segments + 1;
      if full == SYMBOLS {
        rank, coder := 0, coder + 1;
        generation := if generation < 255 then generation + 1 else 0;
      } else {
        rank := full;
      }
    }

    /** The input loop over finitely many frames. */
    method Run(frames: seq<Frame>) returns (sent: seq<Coded>)
      requires Valid()
      modifies this
      ensures Valid()
      ensures sent == Output(frames, old(segments), old(redundancy))
    {
      sent := [];
      var i := 0;
      while i < |frames|
        invariant 0 <= i <= |frames| && Valid()
        invariant sent + Output(frames[i..], segments, redundancy) == Output(frames, old(segments), old(redundancy))
      {
        assert frames[i..][1..] == frames[i + 1..];
        var alive, out := Handle(frames[i]);
        sent := sent + out;
        if !alive { return; }
        i := i + 1;
      }
    }
  }

  /** Packets carry their coder's number modulo 256, and coders come in order. */
  ghost predicate Tagged(c: Coded) {
    c.generation == c.coder % GENERATIONS && 1 <= c.rank <= SYMBOLS
  }

  ghost predicate InOrder(s: seq<Coded>) {
    && (forall i :: 0 <= i < |s| ==> Tagged(s[i]))
    && (forall i, j :: 0 <= i < j < |s| ==> s[i].coder <= s[j].coder)
  }

  lemma {:induction false} OutputInOrder(frames: seq<Frame>, n: nat, redundancy: int)
    ensures InOrder(Output(frames, n, redundancy))
    ensures forall i :: 0 <= i < |Output(frames, n, redundancy)| ==>
              Output(frames, n, redundancy)[i].coder >= n / SYMBOLS
  {
    if frames != [] && !Crashes(frames[0]) {
      if IsData(frames[0]) {
        OutputInOrder(frames[1..], n + 1, redundancy);
      } else {
        OutputInOrder(frames[1..], n, if IsOam(frames[0]) then frames[0].word else redundancy);
      }
    }
  }

  function CountOf(s: seq<Coded>, coder: nat): nat {
    if s == [] then 0 else (if s[0].coder == coder then 1 else 0) + CountOf(s[1..], coder)
  }

  lemma {:induction false} CountSplit(s: seq<Coded>, t: seq<Coded>, coder: nat)
    ensures CountOf(s + t, coder) == CountOf(s, coder) + CountOf(t, coder)
  {
    if s == [] {
      assert s + t == t;
    } else {
      assert (s + t)[1..] == s[1..] + t;
      CountSplit(s[1..], t, coder);
    }
  }

  lemma {:induction false} CountSame(s: seq<Coded>, c: Coded, coder: nat)
    requires forall i :: 0 <= i < |s| ==> s[i] == c
    ensures CountOf(s, coder) == if c.coder == coder then |s| else 0
  {
    if s != [] { CountSame(s[1..], c, coder); }
  }

  /** Data segments taken in, up to the frame that ends the program. */
  function DataCount(frames: seq<Frame>): nat {
    if frames == [] || Crashes(frames[0]) then 0 else (if IsData(frames[0]) then 1 else 0) + DataCount(frames[1..])
  }

  /** The redundancy in force when segment number `k` is taken in, starting before segment `n`. */
  ghost function InForce(frames: seq<Frame>, n: nat, redundancy: int, k: nat): int {
    if frames == [] || (IsData(frames[0]) && n == k) then redundancy
    else if IsData(frames[0]) then InForce(frames[1..], n + 1, redundancy, k)
    else InForce(frames[1..], n, if IsOam(frames[0]) then frames[0].word else redundancy, k)
  }

  /** Number of the last segment of generation `g`. */
  function LastOf(g: nat): nat {
    g * SYMBOLS + SYMBOLS - 1
  }

  /** Packets of generation `g` still to be sent before segment `n`, if its last segment meets the
      given redundancy. */
  ghost function Rest(n: nat, g: nat, redundancy: int): int {
    if n / SYMBOLS > g then 0
    else SYMBOLS - 1 - (if n / SYMBOLS == g then n % SYMBOLS else 0) + if redundancy >= 0 then 1 + redundancy else 0
  }

  /** A complete generation gets `SYMBOLS + r` packets, where `r` is the redundancy in force at its last
      segment (and one packet too few for decoding when `r` is negative), however often OAM messages
      change the redundancy before and after. */
  lemma {:induction false} GenerationSize(frames: seq<Frame>, n: nat, redundancy: int, g: nat)
    requires n + DataCount(frames) > LastOf(g)
    ensures CountOf(Output(frames, n, redundancy), g) == Rest(n, g, InForce(frames, n, redundancy, LastOf(g)))
  {
    if frames == [] || Crashes(frames[0]) {
      assert n / SYMBOLS > g;
    } else if IsData(frames[0]) {
      var first := Emission(n, redundancy);
      CountSplit(first, Output(frames[1..], n + 1, redundancy), g);
      CountSame(first, Coded(n / SYMBOLS % GENERATIONS, n / SYMBOLS, n % SYMBOLS + 1), g);
      GenerationSize(frames[1..], n + 1, redundancy, g);
    } else {
      GenerationSize(frames[1..], n, if IsOam(frames[0]) then frames[0].word else redundancy, g);
    }
  }

  // ----- ranks

  function Times(s: seq<Coded>, c: Coded): nat {
    if s == [] then 0 else (if s[0] == c then 1 else 0) + Times(s[1..], c)
  }

  lemma {:induction false} TimesSplit(s: seq<Coded>, t: seq<Coded>, c: Coded)
    ensures Times(s + t, c) == Times(s, c) + Times(t, c)
  {
    if s == [] {
      assert s + t == t;
    } else {
      assert (s + t)[1..] == s[1..] + t;
      TimesSplit(s[1..], t, c);
    }
  }

  lemma {:induction false} TimesSame(s: seq<Coded>, c: Coded, d: Coded)
    requires forall i :: 0 <= i < |s| ==> s[i] == c
    ensures Times(s, d) == if c == d then |s| else 0
  {
    if s != [] { TimesSame(s[1..], c, d); }
  }

  /** The packet of generation `g` whose coder holds `rank` symbols. */
  function OfRank(g: nat, rank: nat): Coded {
    Coded(g % GENERATIONS, g, rank)
  }

  /** Number of the segment with which generation `g` reaches `rank`. */
  function SegmentOf(g: nat, rank: nat): nat
    requires 1 <= rank <= SYMBOLS
  {
    g * SYMBOLS + rank - 1
  }

  /** Exactly one segment is coded with that rank. */
  lemma EmissionRank(n: nat, redundancy: int, g: nat, rank: nat)
    requires 1 <= rank <= SYMBOLS
    ensures Times(Emission(n, redundancy), OfRank(g, rank)) ==
            if n != SegmentOf(g, rank) then 0
            else if rank < SYMBOLS then 1 else if redundancy >= 0 then 1 + redundancy else 0
  {
    var c := Coded(n / SYMBOLS % GENERATIONS, n / SYMBOLS, n % SYMBOLS + 1);
    TimesSame(Emission(n, redundancy), c, OfRank(g, rank));
    assert c == OfRank(g, rank) <==> n == SegmentOf(g, rank);
    NextSegment(n);
  }

  /** Each rank below the full one is sent once, the full rank once and as often again as the redundancy
      in force says; nothing is sent for a segment that was taken in before. */
  lemma {:induction false} EachRankSent(frames: seq<Frame>, n: nat, redundancy: int, g: nat, rank: nat)
    requires 1 <= rank <= SYMBOLS && n + DataCount(frames) > SegmentOf(g, rank)
    ensures var k := SegmentOf(g, rank);
      var r := InForce(frames, n, redundancy, k);
      Times(Output(frames, n, redundancy), OfRank(g, rank)) ==
        if n > k then 0 else if rank < SYMBOLS then 1 else if r >= 0 then 1 + r else 0
  {
    if frames == [] || Crashes(frames[0]) {
    } else if IsData(frames[0]) {
      TimesSplit(Emission(n, redundancy), Output(frames[1..], n + 1, redundancy), OfRank(g, rank));
      EmissionRank(n, redundancy, g, rank);
      EachRankSent(frames[1..], n + 1, redundancy, g, rank);
    } else {
      EachRankSent(frames[1..], n, if IsOam(frames[0]) then frames[0].word else redundancy, g, rank);
    }
  }

  // ----- every generation is reached

  const EMPTY_SEGMENT: Frame := Ipv4(IP_PROTO_UDP, UDP_PORT_DATA, 0, 0)

  ghost function Segments(m: nat): seq<Frame> {
    if m == 0 then [] else [EMPTY_SEGMENT] + Segments(m - 1)
  }

  /** The first packet of generation `g`. */
  function FirstOf(g: nat): Coded {
    OfRank(g, 1)
  }

  /** Enough data segments make the encoder send a packet of any generation. */
  lemma {:induction false} EveryGenerationSent(m: nat, n: nat, redundancy: int, g: nat)
    requires n <= g * SYMBOLS < n + m
    ensures FirstOf(g) in Output(Segments(m), n, redundancy)
  {
    if n == g * SYMBOLS {
      assert Emission(n, redundancy)[0] == FirstOf(g);
    } else {
      EveryGenerationSent(m - 1, n + 1, redundancy, g);
    }
  }
}
