/** How many packets a systematic network code must send so that a packet is decoded with a
    wanted probability. */
module Redundancy {
  import opened Reals

  /** A success probability of one transmission. */
  ghost predicate Probability(p: real) {
    0.0 <= p <= 1.0
  }

  /** The value of an event of probability `p` is `a`, and of its opposite `b`. */
  function Mean(p: real, a: real, b: real): real {
    p * a + (1.0 - p) * b
  }

  /** Probability of at least `k` successes in `m` independent trials (scipy's `binom.sf(k - 1, m, p)`),
      by the outcome of the last trial. */
  function Tail(m: nat, k: nat, p: real): real
    decreases m, 1
  {
    if k == 0 then 1.0 else if m == 0 then 0.0 else TailByLast(m, k, p)
  }

  /** At least `k` successes: the last trial succeeds after `k - 1` successes, or fails after `k`. */
  function TailByLast(m: nat, k: nat, p: real): real
    requires m > 0 && k > 0
    decreases m, 0
  {
    Mean(p, Tail(m - 1, k - 1, p), Tail(m - 1, k, p))
  }

  /** `dec_prob_systematic_packet`: received directly, or recovered from the other n - 1 packets. */
  function DecProb(k: nat, n: nat, p: real): real
    requires n > 0
  {
    Mean(p, 1.0, Tail(n - 1, k, p))
  }

  // ----- weighted means

  /** A weighted mean grows with its parts. */
  lemma MeanMonotone(p: real, a: real, b: real, c: real, d: real)
    requires Probability(p) && a <= c && b <= d
    ensures Mean(p, a, b) <= Mean(p, c, d)
  {
    NonNegative(p, c - a);
    NonNegative(1.0 - p, d - b);
    assert Mean(p, c, d) - Mean(p, a, b) == p * (c - a) + (1.0 - p) * (d - b);
  }

  lemma MeanOfSame(p: real, a: real)
    ensures Mean(p, a, a) == a
  {
  }

  /** It lies between its parts. */
  lemma MeanBetween(p: real, a: real, b: real, lo: real, hi: real)
    requires Probability(p) && lo <= a <= hi && lo <= b <= hi
    ensures lo <= Mean(p, a, b) <= hi
  {
    MeanMonotone(p, lo, lo, a, b);
    MeanMonotone(p, a, b, hi, hi);
    MeanOfSame(p, lo);
    MeanOfSame(p, hi);
  }

  /** It grows with the weight of its larger part. */
  lemma MeanMonotoneInWeight(p: real, p': real, a: real, b: real)
    requires p <= p' && b <= a
    ensures Mean(p, a, b) <= Mean(p', a, b)
  {
    NonNegative(p' - p, a - b);
    assert Mean(p', a, b) - Mean(p, a, b) == (p' - p) * (a - b);
  }

  /** Means with the same weight can be added part by part. */
  lemma AddMeans(p: real, a: real, b: real, c: real, d: real)
    ensures Mean(p, a, c) + Mean(p, b, d) == Mean(p, a + b, c + d)
  {
  }

  // ----- the tail is the binomial one

  function Choose(m: nat, j: nat): nat {
    if j == 0 then 1 else if m == 0 then 0 else Choose(m - 1, j - 1) + Choose(m - 1, j)
  }

  /** Probability of exactly `j` successes. */
  function Exactly(m: nat, j: nat, p: real): real {
    if j > m then 0.0 else (Choose(m, j) as real) * (Pow(p, j) * Pow(1.0 - p, m - j))
  }

  /** The distribution of the number of successes. */
  function Row(m: nat, p: real): nat -> real {
    (j: nat) => Exactly(m, j, p)
  }

  function SumOver(f: nat -> real, k: nat, hi: nat): real
    decreases hi + 1 - k
  {
    if k > hi then 0.0 else f(k) + SumOver(f, k + 1, hi)
  }

  /** The binomial tail: `k`, or `k + 1`, ..., or `m` successes. */
  function BinomialTail(m: nat, k: nat, p: real): real {
    SumOver(Row(m, p), k, m)
  }

  lemma {:induction false} ChooseZero(m: nat, j: nat)
    requires j > m
    ensures Choose(m, j) == 0
  {
    if m > 0 {
      ChooseZero(m - 1, j - 1);
      ChooseZero(m - 1, j);
    }
  }

  lemma Regroup(c: real, a: real, b: real, p: real, q: real, x: real, y: real, px: real, qy: real)
    requires c == a + b && px == p * x && qy == q * y
    ensures c * (px * qy) == p * (a * (x * qy)) + q * (b * (px * y))
  {
    var z := x * y;
    assert px * qy == p * q * z;
    assert x * qy == q * z;
    assert px * y == p * z;
    assert p * (a * (q * z)) == a * (p * q * z);
    assert q * (b * (p * z)) == b * (p * q * z);
  }

  lemma MiddleStep(m: nat, j: nat, p: real)
    requires 0 < j < m
    ensures Exactly(m, j, p) == Mean(p, Exactly(m - 1, j - 1, p), Exactly(m - 1, j, p))
  {
    var q := 1.0 - p;
    var a, b, c := Choose(m - 1, j - 1) as real, Choose(m - 1, j) as real, Choose(m, j) as real;
    Regroup(c, a, b, p, q, Pow(p, j - 1), Pow(q, m - 1 - j), Pow(p, j), Pow(q, m - j));
  }

  /** Pascal's rule for the probabilities. */
  lemma ExactlyStep(m: nat, j: nat, p: real)
    requires m > 0 && j > 0
    ensures Exactly(m, j, p) == Mean(p, Exactly(m - 1, j - 1, p), Exactly(m - 1, j, p))
  {
    if j < m {
      MiddleStep(m, j, p);
    } else if j == m {
      ChooseZero(m - 1, j);
      var c, x := Choose(m, m) as real, Pow(p, m - 1);
      assert Exactly(m, m, p) == c * ((p * x) * 1.0);
      assert Exactly(m - 1, m - 1, p) == c * (x * 1.0);
    }
  }

  ghost predicate PascalAt(f: nat -> real, g: nat -> real, p: real, j: nat)
    requires j > 0
  {
    f(j) == Mean(p, g(j - 1), g(j))
  }

  ghost predicate Pascal(f: nat -> real, g: nat -> real, p: real) {
    forall j: nat :: j > 0 ==> PascalAt(f, g, p, j)
  }

  lemma {:induction false} SumStep(f: nat -> real, g: nat -> real, p: real, k: nat, hi: nat)
    requires k > 0 && hi > 0
    requires Pascal(f, g, p)
    ensures SumOver(f, k, hi) == Mean(p, SumOver(g, k - 1, hi - 1), SumOver(g, k, hi))
    decreases hi + 1 - k
  {
    if k <= hi {
      SumStep(f, g, p, k + 1, hi);
      assert PascalAt(f, g, p, k);
      AddMeans(p, g(k - 1), SumOver(g, k, hi - 1), g(k), SumOver(g, k + 1, hi));
    }
  }

  lemma {:induction false} LastTerm(g: nat -> real, k: nat, hi: nat)
    requires k <= hi && hi > 0 && g(hi) == 0.0
    ensures SumOver(g, k, hi) == SumOver(g, k, hi - 1)
    decreases hi - k
  {
    if k < hi { LastTerm(g, k + 1, hi); }
  }

  /** Pascal's rule for two successive rows, the earlier one extended by a zero. */
  lemma RowsArePascal(m: nat, p: real)
    requires m > 0
    ensures Pascal(Row(m, p), Row(m - 1, p), p)
    ensures Row(m - 1, p)(m) == 0.0
  {
    var f, g := Row(m, p), Row(m - 1, p);
    forall j: nat | j > 0 ensures PascalAt(f, g, p, j) { ExactlyStep(m, j, p); }
  }

  lemma BinomialStep(m: nat, k: nat, p: real)
    requires m > 0 && k > 0
    ensures BinomialTail(m, k, p) == Mean(p, BinomialTail(m - 1, k - 1, p), BinomialTail(m - 1, k, p))
  {
    var f, g := Row(m, p), Row(m - 1, p);
    RowsArePascal(m, p);
    SumStep(f, g, p, k, m);
    if k <= m { LastTerm(g, k, m); }
  }

  /** No success is certain failure, `m` times. */
  lemma FirstTerms(m: nat, p: real)
    requires m > 0
    ensures Exactly(m, 0, p) == Mean(p, 0.0, Exactly(m - 1, 0, p))
    ensures BinomialTail(m, 0, p) == Exactly(m, 0, p) + BinomialTail(m, 1, p)
    ensures BinomialTail(m - 1, 0, p) == Exactly(m - 1, 0, p) + BinomialTail(m - 1, 1, p)
  {
    assert Exactly(m, 0, p) == 1.0 * (1.0 * Pow(1.0 - p, m));
    assert Exactly(m - 1, 0, p) == 1.0 * (1.0 * Pow(1.0 - p, m - 1));
    assert Row(m, p)(0) == Exactly(m, 0, p) && Row(m - 1, p)(0) == Exactly(m - 1, 0, p);
  }

  lemma {:induction false} TotalProbability(m: nat, p: real)
    ensures BinomialTail(m, 0, p) == 1.0
  {
    if m > 0 {
      TotalProbability(m - 1, p);
      BinomialStep(m, 1, p);
      FirstTerms(m, p);
      AddMeans(p, 0.0, 1.0, Exactly(m - 1, 0, p), BinomialTail(m - 1, 1, p));
      MeanOfSame(p, 1.0);
    }
  }

  /** The recurrence computes the binomial tail. */
  lemma {:induction false} TailIsBinomial(m: nat, k: nat, p: real)
    ensures Tail(m, k, p) == BinomialTail(m, k, p)
  {
    if k == 0 {
      TotalProbability(m, p);
    } else if m > 0 {
      TailIsBinomial(m - 1, k - 1, p);
      TailIsBinomial(m - 1, k, p);
      BinomialStep(m, k, p);
    }
  }

  // ----- monotonicity

  lemma {:induction false} TailInRange(m: nat, k: nat, p: real)
    requires Probability(p)
    ensures 0.0 <= Tail(m, k, p) <= 1.0
  {
    if k > 0 && m > 0 {
      TailInRange(m - 1, k - 1, p);
      TailInRange(m - 1, k, p);
      MeanBetween(p, Tail(m - 1, k - 1, p), Tail(m - 1, k, p), 0.0, 1.0);
    }
  }

  /** More successes are less likely. */
  lemma {:induction false} TailFalls(m: nat, k: nat, p: real)
    requires Probability(p)
    ensures Tail(m, k + 1, p) <= Tail(m, k, p)
  {
    TailInRange(m, k + 1, p);
    if m > 0 && k > 0 {
      TailFalls(m - 1, k, p);
      TailFalls(m - 1, k - 1, p);
      MeanMonotone(p, Tail(m - 1, k, p), Tail(m - 1, k + 1, p), Tail(m - 1, k - 1, p), Tail(m - 1, k, p));
    }
  }

  /** More trials make them likelier. */
  lemma TailRises(m: nat, k: nat, p: real)
    requires Probability(p)
    ensures Tail(m, k, p) <= Tail(m + 1, k, p)
  {
    if k > 0 {
      TailFalls(m, k - 1, p);
      MeanBetween(p, Tail(m, k - 1, p), Tail(m, k, p), Tail(m, k, p), Tail(m, k - 1, p));
    }
  }

  /** A better link makes every tail likelier. */
  lemma {:induction false} TailMonotoneInP(m: nat, k: nat, p: real, p': real)
    requires Probability(p) && Probability(p') && p <= p'
    ensures Tail(m, k, p) <= Tail(m, k, p')
  {
    if k > 0 && m > 0 {
      TailMonotoneInP(m - 1, k - 1, p, p');
      TailMonotoneInP(m - 1, k, p, p');
      var a, b := Tail(m - 1, k - 1, p'), Tail(m - 1, k, p');
      MeanMonotone(p, Tail(m - 1, k - 1, p), Tail(m - 1, k, p), a, b);
      TailFalls(m - 1, k - 1, p');
      MeanMonotoneInWeight(p, p', a, b);
    }
  }

  lemma DecProbMonotone(k: nat, n: nat, p: real)
    requires Probability(p) && n > 0
    ensures DecProb(k, n, p) <= DecProb(k, n + 1, p) <= 1.0
  {
    TailRises(n - 1, k, p);
    TailInRange(n, k, p);
    MeanMonotone(p, 1.0, Tail(n - 1, k, p), 1.0, Tail(n, k, p));
    MeanMonotone(p, 1.0, Tail(n, k, p), 1.0, 1.0);
  }

  lemma DecProbMonotoneInP(k: nat, n: nat, p: real, p': real)
    requires Probability(p) && Probability(p') && p <= p' && n > 0
    ensures DecProb(k, n, p) <= DecProb(k, n, p')
  {
    TailMonotoneInP(n - 1, k, p, p');
    TailInRange(n - 1, k, p');
    var t := Tail(n - 1, k, p');
    MeanMonotone(p, 1.0, Tail(n - 1, k, p), 1.0, t);
    MeanMonotoneInWeight(p, p', 1.0, t);
  }

  // ----- the search ends

  /** Bernoulli's bound on the inverse of a power. */
  function Growth(x: real, d: real): real {
    1.0 + x * d
  }

  ghost predicate Within(y: real, g: real) {
    y * g <= 1.0
  }

  ghost predicate Beyond(y: real, g: real) {
    y * g > 1.0
  }

  lemma Bernoulli(q: real, y: real, x: real)
    requires 0.0 <= q < 1.0 && 0.0 <= y && 0.0 <= x && Within(y, Growth(x, 1.0 - q))
    ensures Within(q * y, Growth(x + 1.0, 1.0 - q))
  {
    var d := 1.0 - q;
    var rest := (x * d) * d + d * d;
    NonNegative(x, d);
    NonNegative(x * d, d);
    NonNegative(d, d);
    NonNegative(y, rest);
    assert (q * y) * Growth(x + 1.0, d) == y * Growth(x, d) - y * rest;
  }

  lemma {:induction false} PowFalls(q: real, m: nat)
    requires 0.0 <= q < 1.0
    ensures 0.0 <= Pow(q, m) && Within(Pow(q, m), Growth(m as real, 1.0 - q))
  {
    if m > 0 {
      PowFalls(q, m - 1);
      NonNegative(q, Pow(q, m - 1));
      Bernoulli(q, Pow(q, m - 1), (m - 1) as real);
    }
  }

  /** Powers of a number below one become arbitrarily small. */
  lemma PowVanishes(q: real, e: real) returns (m: nat)
    requires 0.0 <= q < 1.0 && e > 0.0
    ensures Pow(q, m) < e
  {
    m := EnoughTerms(e, 1.0 - q);
    PowFalls(q, m);
    TooSmall(Pow(q, m), e, Growth(m as real, 1.0 - q));
  }

  lemma Inverse(z: real) returns (r: real)
    requires z > 0.0
    ensures r > 0.0 && r * z == 1.0
  {
    r := 1.0 / z;
    if r <= 0.0 { Scale(r, 0.0, z); }
  }

  lemma Positive(x: real, y: real)
    requires x > 0.0 && y > 0.0
    ensures x * y > 0.0
  {
  }

  lemma Between(a: real, one: real, b: real)
    requires a <= one && one < b
    ensures a < b
  {
  }

  lemma EnoughTerms(e: real, d: real) returns (m: nat)
    requires e > 0.0 && d > 0.0
    ensures Growth(m as real, d) >= 0.0 && Beyond(e, Growth(m as real, d))
  {
    Positive(e, d);
    var r := Inverse(e * d);
    m := r.Floor + 1;
    var x := m as real;
    NonNegative(x, d);
    Scale(r, x, e * d);
    Expand(e, x, d);
    Exceeds(e, Growth(x, d), x * (e * d), e * Growth(x, d));
  }

  lemma Expand(e: real, x: real, d: real)
    ensures e * Growth(x, d) == e + x * (e * d)
  {
  }

  lemma Exceeds(e: real, g: real, u: real, eg: real)
    requires e > 0.0 && u >= 1.0 && eg == e * g && eg == e + u
    ensures Beyond(e, g)
  {
  }

  lemma Unscale(y: real, e: real, g: real, yg: real, eg: real)
    requires g >= 0.0 && yg == y * g && eg == e * g && yg < eg
    ensures y < e
  {
    if y >= e { Scale(e, y, g); }
  }

  lemma TooSmall(y: real, e: real, g: real)
    requires g >= 0.0 && Beyond(e, g) && Within(y, g)
    ensures y < e
  {
    Between(y * g, 1.0, e * g);
    Unscale(y, e, g, y * g, e * g);
  }

  lemma ShiftMean(p: real, t: real, y: real, z: real, a: real, b: real)
    requires Probability(p) && t <= a && t - y <= b && z == (1.0 - p) * y
    ensures t - z <= Mean(p, a, b)
  {
    MeanMonotone(p, t, t - y, a, b);
    assert Mean(p, t, t - y) == t - (1.0 - p) * y;
  }

  /** After `m` more trials one more success is missing at most with the probability that all of
      them fail. */
  lemma {:induction false} OneMore(n: nat, m: nat, k: nat, p: real)
    requires Probability(p)
    ensures 1.0 - Tail(n + m, k + 1, p) <= (1.0 - Tail(n, k, p)) + Pow(1.0 - p, m)
  {
    var q := 1.0 - p;
    if m == 0 {
      TailInRange(n, k, p);
      TailInRange(n, k + 1, p);
    } else {
      OneMore(n, m - 1, k, p);
      MoreTrials(n, m - 1, k, p);
      ShiftMean(p, Tail(n, k, p), Pow(q, m - 1), Pow(q, m), Tail(n + m - 1, k, p), Tail(n + m - 1, k + 1, p));
    }
  }

  lemma {:induction false} MoreTrials(n: nat, m: nat, k: nat, p: real)
    requires Probability(p)
    ensures Tail(n, k, p) <= Tail(n + m, k, p)
  {
    if m > 0 {
      MoreTrials(n, m - 1, k, p);
      TailRises(n + m - 1, k, p);
    }
  }

  /** With enough trials `k` successes are almost certain. */
  lemma {:induction false} TailApproachesOne(k: nat, p: real, e: real) returns (n: nat)
    requires 0.0 < p <= 1.0 && e > 0.0
    ensures 1.0 - Tail(n, k, p) < e
  {
    if k == 0 {
      n := 0;
    } else {
      var n' := TailApproachesOne(k - 1, p, e / 2.0);
      var m := PowVanishes(1.0 - p, e / 2.0);
      OneMore(n', m, k - 1, p);
      n := n' + m;
    }
  }

  /** A wanted probability can be reached exactly when it is below one. */
  lemma ReachableBelowOne(k: nat, p: real, qos: real)
    requires 0.0 < p <= 1.0
    ensures qos < 1.0 <==> exists n :: n >= k && n > 0 && DecProb(k, n, p) > qos
  {
    if qos < 1.0 {
      var n := ReachesQos(k, p, qos);
      assert n >= k;
    }
    forall n | n >= k && n > 0 ensures DecProb(k, n, p) <= 1.0 { DecProbMonotone(k, n, p); }
  }

  lemma ReachesQos(k: nat, p: real, qos: real) returns (n: nat)
    requires 0.0 < p <= 1.0 && qos < 1.0
    ensures n >= k && n > 0 && DecProb(k, n, p) > qos
  {
    var m := TailApproachesOne(k, p, 1.0 - qos);
    MoreTrials(m, k, k, p);
    n := m + k + 1;
    var t := Tail(n - 1, k, p);
    TailInRange(n - 1, k, p);
    MeanBetween(p, 1.0, t, t, 1.0);
  }

  lemma {:induction false} DecProbGrows(k: nat, n: nat, n': nat, p: real)
    requires Probability(p) && 0 < n <= n'
    ensures DecProb(k, n, p) <= DecProb(k, n', p)
  {
    if n < n' {
      DecProbGrows(k, n, n' - 1, p);
      DecProbMonotone(k, n' - 1, p);
    }
  }

  /** `n` is the least number of packets that is enough. */
  ghost predicate IsRedundancy(k: nat, p: real, qos: real, n: int)
    requires k > 0
  {
    n >= k && DecProb(k, n, p) > qos && forall m :: k <= m < n ==> DecProb(k, m, p) <= qos
  }

  /** `systematic_redundancy`: the least number of packets whose decoding probability exceeds the
      wanted one. Without packets the library's probability is not a number, which is not below any
      wanted one, so that a `k` of zero or less is returned at once. */
  method SystematicRedundancy(k: int, p: real, qos: real) returns (n: int)
    requires 0.0 < p <= 1.0 && (k > 0 ==> qos < 1.0)
    ensures k <= 0 ==> n == k
    ensures k > 0 ==> IsRedundancy(k, p, qos, n)
  {
    n := k;
    ghost var enough: int := k;
    if k > 0 { enough := ReachesQos(k, p, qos); }
    while n > 0 && DecProb(k, n, p) <= qos
      invariant k <= n <= enough && (k <= 0 ==> n == k)
      invariant forall m :: 0 < k <= m < n ==> DecProb(k, m, p) <= qos
      decreases enough - n
    {
      n := n + 1;
    }
  }

  /** A better link never needs more packets, and any larger number of packets is enough too. */
  lemma BetterLinkNeedsNoMore(k: nat, p: real, p': real, qos: real, n: nat, n': nat)
    requires k > 0 && 0.0 < p <= p' <= 1.0 && IsRedundancy(k, p, qos, n) && IsRedundancy(k, p', qos, n')
    ensures n' <= n
    ensures forall m :: m >= k ==> (DecProb(k, m, p) > qos <==> m >= n)
  {
    DecProbMonotoneInP(k, n, p, p');
    forall m | m >= k ensures DecProb(k, m, p) > qos <==> m >= n {
      if m >= n { DecProbGrows(k, n, m, p); }
    }
  }
}
