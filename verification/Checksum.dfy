/** The IPv4 header checksum, computed and stored in the opposite byte order. */
module Checksum {
  type Byte = x: int | 0 <= x < 0x100

  const WORD: int := 0x1_0000
  const ONES: int := 0xFFFF
  const FIELD: nat := 10

  /** Sum of the 16-bit words of a header, read big-endian. */
  function BigSum(h: seq<Byte>): nat
    requires |h| % 2 == 0
  {
    if h == [] then 0 else BigSum(h[..|h| - 2]) + 0x100 * (h[|h| - 2] as int) + h[|h| - 1]
  }

  /** The same words read little-endian, as the code does. */
  function LittleSum(h: seq<Byte>): nat
    requires |h| % 2 == 0
  {
    if h == [] then 0 else LittleSum(h[..|h| - 2]) + h[|h| - 2] + 0x100 * (h[|h| - 1] as int)
  }

  /** End-around carry until the sum fits a word (section 1 of RFC 1071). */
  function Fold(n: nat): (r: nat)
    ensures r <= ONES && (n > 0 ==> r > 0)
  {
    if n < WORD then n else Fold(n / WORD + n % WORD)
  }

  /** The header with its checksum field cleared. */
  function Cleared(h: seq<Byte>): (r: seq<Byte>)
    requires |h| >= FIELD + 2
    ensures |r| == |h|
  {
    h[FIELD := 0][FIELD + 1 := 0]
  }

  /** The header with checksum `c` stored most significant byte first. */
  function Stored(h: seq<Byte>, c: nat): (r: seq<Byte>)
    requires |h| >= FIELD + 2 && c <= ONES
    ensures |r| == |h|
  {
    h[FIELD := c / 0x100][FIELD + 1 := c % 0x100]
  }

  /** The checksum of RFC 791, section 3.1: complement of the one's complement sum of the header
      with a zero checksum field. */
  function Checksum(h: seq<Byte>): (c: nat)
    requires |h| >= FIELD + 2 && |h| % 2 == 0
    ensures c <= ONES
  {
    ONES - Fold(BigSum(Cleared(h)))
  }

  /** A receiver accepts a header whose one's complement sum is all ones. */
  predicate Accepts(h: seq<Byte>)
    requires |h| % 2 == 0
  {
    Fold(BigSum(h)) == ONES
  }

  // ----- arithmetic of the fold

  /** Folding keeps the value modulo 2^16 - 1. */
  lemma {:induction false} FoldCongruent(n: nat) returns (k: nat)
    ensures n == Fold(n) + ONES * k
  {
    if n < WORD {
      k := 0;
    } else {
      var k' := FoldCongruent(n / WORD + n % WORD);
      k := k' + n / WORD;
    }
  }

  /** A folded sum is determined by its residue, apart from the two forms of zero. */
  lemma FoldUnique(n: nat, r: nat, k: int)
    requires r <= ONES && n == r + ONES * k && (n > 0 ==> r > 0) && (n == 0 ==> r == 0)
    ensures Fold(n) == r
  {
    var j := FoldCongruent(n);
    assert ONES * (j - k) == r - Fold(n);
    assert -1 <= j - k <= 1;
  }

  lemma Residue(n: int, r: int, k: int)
    requires 0 <= r < ONES && n == r + ONES * k
    ensures n % ONES == r
  {
  }

  /** A sum folds to all ones exactly when it is a positive multiple of 2^16 - 1. */
  lemma FoldOnes(n: nat)
    ensures Fold(n) == ONES <==> n > 0 && n % ONES == 0
  {
    var k := FoldCongruent(n);
    Residue(n, if Fold(n) == ONES then 0 else Fold(n), if Fold(n) == ONES then k + 1 else k);
  }

  // ----- byte order

  function OddBytes(h: seq<Byte>): nat
    requires |h| % 2 == 0
  {
    if h == [] then 0 else OddBytes(h[..|h| - 2]) + h[|h| - 1]
  }

  /** Reading the words the other way round multiplies the sum by 2^8 modulo 2^16 - 1. */
  lemma {:induction false} SwappedSum(h: seq<Byte>)
    requires |h| % 2 == 0
    ensures BigSum(h) + ONES * OddBytes(h) == 0x100 * LittleSum(h)
    ensures BigSum(h) == 0 <==> LittleSum(h) == 0
  {
    if h != [] { SwappedSum(h[..|h| - 2]); }
  }

  function Swap(v: nat): (w: nat)
    requires v <= ONES
    ensures w <= ONES && (w == 0 <==> v == 0)
  {
    0x100 * (v % 0x100) + v / 0x100
  }

  /** So the folded sums are byte-swapped copies of each other. */
  lemma FoldSwapped(h: seq<Byte>)
    requires |h| % 2 == 0
    ensures Fold(BigSum(h)) == Swap(Fold(LittleSum(h)))
  {
    SwappedSum(h);
    var k := FoldCongruent(LittleSum(h));
    var v := Fold(LittleSum(h));
    assert Swap(v) == 0x100 * v - ONES * (v / 0x100);
    FoldUnique(BigSum(h), Swap(v), 0x100 * k + v / 0x100 - OddBytes(h));
  }

  /** Two carries are enough for the sum of a header. */
  lemma TwoFolds(s: nat)
    requires s <= ONES * WORD
    ensures var s1 := s / WORD + s % WORD; (s1 + s1 / WORD) % WORD == Fold(s)
  {
    var s1 := s / WORD + s % WORD;
    assert s == s1 + ONES * (s / WORD);
    var v := (s1 + s1 / WORD) % WORD;
    assert s / WORD <= ONES;
    assert s1 < 2 * WORD - 1;
    assert v == if s1 < WORD then s1 else s1 - ONES;
    FoldUnique(s, v, s / WORD + if s1 < WORD then 0 else 1);
  }

  lemma {:induction false} LittleSumBound(h: seq<Byte>)
    requires |h| % 2 == 0
    ensures LittleSum(h) <= ONES * (|h| / 2)
  {
    if h != [] { LittleSumBound(h[..|h| - 2]); }
  }

  /** The summation loop. */
  method SumWords(buf: array<Byte>, offset: nat, len: nat) returns (s: nat)
    requires len % 2 == 0 && offset + len <= buf.Length
    ensures s == LittleSum(buf[offset..offset + len])
  {
    s := 0;
    ghost var z := buf[offset..offset + len];
    for i := 0 to len / 2
      invariant s == LittleSum(z[..2 * i])
    {
      var a: int, b: int := buf[offset + 2 * i], buf[offset + 2 * i + 1];
      assert a == z[2 * i] && b == z[2 * i + 1];
      assert z[..2 * i + 2][..2 * i] == z[..2 * i];
      s := s + (a + b * 0x100);
    }
    assert z[..2 * (len / 2)] == z;
  }

  lemma TwoBytes(v: int, high: int, low: int)
    requires v == 0x100 * high + low && 0 <= low < 0x100
    ensures v / 0x100 == high && v % 0x100 == low
  {
  }

  lemma ComplementSwapped(v: nat)
    requires v <= ONES
    ensures (ONES - Swap(v)) / 0x100 == (ONES - v) % 0x100 && (ONES - Swap(v)) % 0x100 == (ONES - v) / 0x100
  {
    var high, low := 0xFF - v / 0x100, 0xFF - v % 0x100;
    TwoBytes(ONES - Swap(v), low, high);
    TwoBytes(ONES - v, high, low);
  }

  /** Folding twice and complementing gives the byte-swapped checksum. */
  lemma SwappedChecksum(h: seq<Byte>)
    requires FIELD + 2 <= |h| <= 2 * WORD && |h| % 2 == 0
    ensures var s1 := LittleSum(Cleared(h)) / WORD + LittleSum(Cleared(h)) % WORD;
      var c := ONES - (s1 + s1 / WORD) % WORD;
      Checksum(h) / 0x100 == c % 0x100 && Checksum(h) % 0x100 == c / 0x100
  {
    var z := Cleared(h);
    LittleSumBound(z);
    assert ONES * (|h| / 2) <= ONES * WORD;
    TwoFolds(LittleSum(z));
    FoldSwapped(z);
    ComplementSwapped(Fold(LittleSum(z)));
  }

  /** `update_cksum_ipv4`: the header gets exactly the checksum of RFC 791, although the code adds
      up and stores little-endian words and folds only twice; no other byte changes. */
  method UpdateCksumIpv4(buf: array<Byte>, offset: nat, len: nat)
    requires FIELD + 2 <= len <= 2 * WORD && len % 2 == 0 && offset + len <= buf.Length
    modifies buf
    ensures buf[offset..offset + len] ==
            Stored(old(buf[offset..offset + len]), Checksum(old(buf[offset..offset + len])))
    ensures buf[..offset] == old(buf[..offset]) && buf[offset + len..] == old(buf[offset + len..])
  {
    ghost var h := buf[offset..offset + len];
    buf[offset + FIELD], buf[offset + FIELD + 1] := 0, 0;
    assert buf[offset..offset + len] == Cleared(h);
    var s := SumWords(buf, offset, len);
    s := s / WORD + s % WORD;
    s := s + s / WORD;
    s := ONES - s % WORD;
    SwappedChecksum(h);
    buf[offset + FIELD], buf[offset + FIELD + 1] := s % 0x100, s / 0x100;
    assert buf[offset..offset + len] == Stored(h, Checksum(h));
  }

  // ----- what the checksum is for

  lemma {:induction false} BigSumStored(h: seq<Byte>, c: nat)
    requires |h| >= FIELD + 2 && |h| % 2 == 0 && c <= ONES
    ensures BigSum(Stored(h, c)) == BigSum(Cleared(h)) + c
  {
    var r, z := Stored(h, c), Cleared(h);
    if |h| == FIELD + 2 {
      assert r[..FIELD] == z[..FIELD];
    } else {
      assert r[..|h| - 2] == Stored(h[..|h| - 2], c) && z[..|h| - 2] == Cleared(h[..|h| - 2]);
      BigSumStored(h[..|h| - 2], c);
    }
  }

  /** A header is accepted exactly with the checksum the sender computes, or with the other form
      of zero where that is zero. */
  lemma AcceptedExactly(h: seq<Byte>, c: nat)
    requires |h| >= FIELD + 2 && |h| % 2 == 0 && c <= ONES
    ensures Accepts(Stored(h, c)) <==> c == Checksum(h) || (c == ONES && Checksum(h) == 0)
  {
    var s := BigSum(Cleared(h));
    var k := FoldCongruent(s);
    BigSumStored(h, c);
    FoldOnes(s + c);
    SmallMultiple(k + 1, c - Checksum(h));
  }

  /** What a byte counts in the sum. */
  function Place(i: nat): int {
    if i % 2 == 0 then 0x100 else 1
  }

  lemma {:induction false} BigSumByte(h: seq<Byte>, i: nat, b: Byte)
    requires |h| % 2 == 0 && i < |h|
    ensures BigSum(h[i := b]) == BigSum(h) + Place(i) * (b - h[i])
  {
    var n := |h| - 2;
    var r := h[i := b];
    if i < n {
      assert r[..n] == h[..n][i := b];
      BigSumByte(h[..n], i, b);
    } else {
      assert r[..n] == h[..n];
    }
  }

  /** Any change of a single byte is noticed by the receiver. */
  lemma ChangedByteNoticed(h: seq<Byte>, i: nat, b: Byte)
    requires |h| % 2 == 0 && i < |h| && b != h[i] && Accepts(h)
    ensures !Accepts(h[i := b])
  {
    BigSumByte(h, i, b);
    FoldOnes(BigSum(h));
    FoldOnes(BigSum(h[i := b]));
    SmallMultiple(BigSum(h) / ONES, Place(i) * (b - h[i]));
  }

  lemma SmallMultiple(q: int, d: int)
    requires -ONES <= d <= ONES
    ensures (ONES * q + d) % ONES == 0 <==> d == -ONES || d == 0 || d == ONES
  {
    assert (ONES * q + d) % ONES == d % ONES;
  }
}
