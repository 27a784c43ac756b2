/** Flow identifiers: the two addresses joined by an underscore. */
module FlowIds {
  import opened Sequences

  const SEPARATOR: char := '_'

  function BuildId(src: string, dst: string): string {
    src + [SEPARATOR] + dst
  }

  /** Python's `s.split("_")`. */
  function Split(s: string): (parts: seq<string>)
    ensures |parts| > 0 && (SEPARATOR in s <==> |parts| > 1)
  {
    if SEPARATOR !in s then [s]
    else
      var i := IndexOf(s, SEPARATOR);
      [s[..i]] + Split(s[i + 1..])
  }

  /** The two addresses of a flow id; the code needs at least one separator. */
  function BuildIpAddresses(id: string): (string, string)
    requires SEPARATOR in id
  {
    (Split(id)[0], Split(id)[1])
  }

  /** A separator inside `a` is found before the one that follows `a`. */
  lemma {:induction false} IndexOfBefore<T>(a: seq<T>, x: T, b: seq<T>)
    requires x in a
    ensures x in a + b && IndexOf(a + b, x) < |a|
  {
    assert (a + b)[0] == a[0];
    if a[0] != x {
      assert (a + b)[1..] == a[1..] + b;
      IndexOfBefore(a[1..], x, b);
    }
  }

  /** An id can be taken apart into the addresses it was built from exactly when neither of
      them contains the separator. */
  lemma {:induction false} IdRoundTrip(src: string, dst: string)
    ensures SEPARATOR in BuildId(src, dst)
    ensures BuildIpAddresses(BuildId(src, dst)) == (src, dst) <==> SEPARATOR !in src && SEPARATOR !in dst
  {
    var id := BuildId(src, dst);
    assert id[|src|] == SEPARATOR;
    if SEPARATOR in src {
      assert id == src + ([SEPARATOR] + dst);
      IndexOfBefore(src, SEPARATOR, [SEPARATOR] + dst);
      assert |Split(id)[0]| < |src|;
    } else {
      assert id[..|src|] == src && id[|src| + 1..] == dst;
      if SEPARATOR in dst {
        assert |Split(dst)[0]| < |dst|;
      }
    }
  }
}
