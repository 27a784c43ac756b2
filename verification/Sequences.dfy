/** Sequence vocabulary shared by the controller models: duplicate-freedom, Python's
    `list.index`, `list.reverse` and `dict.fromkeys`. */
module Sequences {

  predicate NoDup<T(==)>(s: seq<T>) {
    forall i, j :: 0 <= i < j < |s| ==> s[i] != s[j]
  }

  /** Position of the first occurrence of `x`, as Python's `list.index`. */
  function IndexOf<T(==)>(s: seq<T>, x: T): (i: nat)
    requires x in s
    ensures i < |s| && s[i] == x
  {
    if s[0] == x then 0 else 1 + IndexOf(s[1..], x)
  }

  lemma IndexOfUnique<T>(s: seq<T>, i: nat)
    requires NoDup(s) && i < |s|
    ensures IndexOf(s, s[i]) == i
  {
    var k := IndexOf(s, s[i]);
    assert s[k] == s[i];
  }

  function Reverse<T>(s: seq<T>): (r: seq<T>)
    ensures |r| == |s|
  {
    if s == [] then [] else Reverse(s[1..]) + [s[0]]
  }

  lemma {:induction false} ReverseAt<T>(s: seq<T>, i: nat)
    requires i < |s|
    ensures Reverse(s)[i] == s[|s| - 1 - i]
  {
    if i < |s| - 1 { ReverseAt(s[1..], i); }
  }

  lemma {:induction false} ReversePush<T>(s: seq<T>, x: T)
    ensures Reverse(s + [x]) == [x] + Reverse(s)
  {
    if s == [] {
      assert [] + [x] == [x];
    } else {
      assert (s + [x])[1..] == s[1..] + [x];
      ReversePush(s[1..], x);
    }
  }

  lemma {:induction false} ReverseHas<T>(s: seq<T>, x: T)
    ensures x in s <==> x in Reverse(s)
  {
    if s != [] {
      ReverseHas(s[1..], x);
      assert s == [s[0]] + s[1..];
    }
  }

  lemma {:induction false} ReverseNoDup<T>(s: seq<T>)
    requires NoDup(Reverse(s))
    ensures NoDup(s)
  {
    forall a, b | 0 <= a < b < |s| ensures s[a] != s[b] {
      ReverseAt(s, |s| - 1 - a);
      ReverseAt(s, |s| - 1 - b);
    }
  }

  /** First occurrences in order, as `list(dict.fromkeys(s))`. */
  function FromKeys(s: seq<int>): (r: seq<int>)
    ensures NoDup(r)
    ensures forall x :: x in r <==> x in s
  {
    if s == [] then []
    else
      var init, x := s[..|s| - 1], s[|s| - 1];
      assert s == init + [x];
      if x in init then FromKeys(init) else FromKeys(init) + [x]
  }

  lemma {:induction false} FromKeysAbsorbs(s: seq<int>, extra: seq<int>)
    requires NoDup(s) && forall x :: x in extra ==> x in s
    ensures FromKeys(s + extra) == s
    decreases |s| + |extra|
  {
    if extra != [] {
      var init := extra[..|extra| - 1];
      assert (s + extra)[..|s + extra| - 1] == s + init;
      FromKeysAbsorbs(s, init);
    } else if s != [] {
      assert s + extra == s;
      FromKeysAbsorbs(s[..|s| - 1], []);
      assert s[..|s| - 1] + [] == s[..|s| - 1];
    }
  }
}
