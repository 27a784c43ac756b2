/** The edit-distance table between two paths, and that it is the least number of edits. */
module Levenshtein {
  type Elem = int

  function Min(a: nat, b: nat): nat {
    if a <= b then a else b
  }

  function Init(s: seq<Elem>): seq<Elem>
    requires s != []
  {
    s[..|s| - 1]
  }

  function Last(s: seq<Elem>): Elem
    requires s != []
  {
    s[|s| - 1]
  }

  /** The recurrence of the table. */
  function Lev(s: seq<Elem>, t: seq<Elem>): nat
    decreases |s| + |t|
  {
    if s == [] then |t|
    else if t == [] then |s|
    else
      Min(Min(Lev(Init(s), t) + 1, Lev(s, Init(t)) + 1),
          Lev(Init(s), Init(t)) + if Last(s) == Last(t) then 0 else 1)
  }

  /** Value of a table cell: the distance between two prefixes. */
  function LevAt(s: seq<Elem>, t: seq<Elem>, row: nat, col: nat): nat
    requires row <= |s| && col <= |t|
  {
    Lev(s[..row], t[..col])
  }

  lemma LevCell(s: seq<Elem>, t: seq<Elem>, row: nat, col: nat)
    requires 0 < row <= |s| && 0 < col <= |t|
    ensures LevAt(s, t, row, col) ==
            Min(Min(LevAt(s, t, row - 1, col) + 1, LevAt(s, t, row, col - 1) + 1),
                LevAt(s, t, row - 1, col - 1) + if s[row - 1] == t[col - 1] then 0 else 1)
  {
    assert Init(s[..row]) == s[..row - 1] && Init(t[..col]) == t[..col - 1];
  }

  /** Columns `[..col]` of the table are final. */
  ghost predicate Filled(dist: array2<nat>, s: seq<Elem>, t: seq<Elem>, col: nat)
    requires dist.Length0 == |s| + 1 && dist.Length1 == |t| + 1 && col <= |t| + 1
    reads dist
  {
    forall i, j :: 0 <= i <= |s| && 0 <= j < col ==> dist[i, j] == LevAt(s, t, i, j)
  }

  /** The table of `iterative_levenshtein`, filled column by column. */
  method IterativeLevenshtein(s: seq<Elem>, t: seq<Elem>) returns (dist: array2<nat>)
    ensures fresh(dist) && dist.Length0 == |s| + 1 && dist.Length1 == |t| + 1
    ensures Filled(dist, s, t, |t| + 1)
  {
    var rows, cols := |s| + 1, |t| + 1;
    dist := new nat[rows, cols]((i, j) => 0);
    for i := 1 to rows
      invariant forall k :: 0 <= k < i ==> dist[k, 0] == k
    {
      dist[i, 0] := i;
    }
    for i := 1 to cols
      invariant forall k :: 0 <= k < rows ==> dist[k, 0] == k
      invariant forall k :: 0 <= k < i ==> dist[0, k] == k
    {
      dist[0, i] := i;
    }
    forall k: nat
      ensures k < rows ==> dist[k, 0] == LevAt(s, t, k, 0)
      ensures k < cols ==> dist[0, k] == LevAt(s, t, 0, k)
    {
    }
    for col := 1 to cols
      invariant Filled(dist, s, t, col)
      invariant forall k :: 0 <= k < cols ==> dist[0, k] == LevAt(s, t, 0, k)
    {
      FillColumn(dist, s, t, col);
    }
  }

  /** The inner loop: one column, from the top down. */
  method FillColumn(dist: array2<nat>, s: seq<Elem>, t: seq<Elem>, col: nat)
    requires dist.Length0 == |s| + 1 && dist.Length1 == |t| + 1 && 0 < col <= |t|
    requires Filled(dist, s, t, col)
    requires forall k :: 0 <= k <= |t| ==> dist[0, k] == LevAt(s, t, 0, k)
    modifies dist
    ensures Filled(dist, s, t, col + 1)
    ensures forall k :: 0 <= k <= |t| ==> dist[0, k] == LevAt(s, t, 0, k)
  {
    for row := 1 to |s| + 1
      invariant Filled(dist, s, t, col)
      invariant forall k :: 0 <= k <= |t| ==> dist[0, k] == LevAt(s, t, 0, k)
      invariant forall i :: 0 <= i < row ==> dist[i, col] == LevAt(s, t, i, col)
    {
      LevCell(s, t, row, col);
      var cost := if s[row - 1] == t[col - 1] then 0 else 1;
      dist[row, col] := Min(Min(dist[row - 1, col] + 1, dist[row, col - 1] + 1), dist[row - 1, col - 1] + cost);
    }
  }

  // ----- neighbouring cells

  /** Horizontally and vertically adjacent cells differ by at most one. */
  lemma {:induction false} AdjacentCells(s: seq<Elem>, t: seq<Elem>)
    ensures s != [] ==> Lev(Init(s), t) <= Lev(s, t) + 1 && Lev(s, t) <= Lev(Init(s), t) + 1
    ensures t != [] ==> Lev(s, Init(t)) <= Lev(s, t) + 1 && Lev(s, t) <= Lev(s, Init(t)) + 1
    decreases |s| + |t|
  {
    if s != [] && t != [] {
      AdjacentCells(Init(s), t);
      AdjacentCells(s, Init(t));
      AdjacentCells(Init(s), Init(t));
    }
  }

  /** A diagonal step over equal elements leaves the value unchanged; any diagonal step raises
      it by at most one. */
  lemma DiagonalCells(s: seq<Elem>, t: seq<Elem>)
    requires s != [] && t != []
    ensures Lev(Init(s), Init(t)) <= Lev(s, t) <= Lev(Init(s), Init(t)) + 1
    ensures Last(s) == Last(t) ==> Lev(s, t) == Lev(Init(s), Init(t))
  {
    AdjacentCells(Init(s), t);
    AdjacentCells(s, Init(t));
  }

  // ----- the distance is the least number of edits

  function Delete(s: seq<Elem>, i: nat): seq<Elem>
    requires i < |s|
  {
    s[..i] + s[i + 1..]
  }

  /** `t` is `s` with one element deleted, inserted or replaced, anywhere. */
  ghost predicate Edit(s: seq<Elem>, t: seq<Elem>) {
    || (exists i :: 0 <= i < |s| && t == Delete(s, i))
    || (exists i :: 0 <= i < |t| && s == Delete(t, i))
    || (exists i :: 0 <= i < |s| && |s| == |t| && t == s[i := t[i]])
  }

  /** A sequence of edits that turns `s` into `t`. */
  ghost predicate Script(c: seq<seq<Elem>>, s: seq<Elem>, t: seq<Elem>) {
    |c| > 0 && c[0] == s && c[|c| - 1] == t && forall k :: 0 <= k < |c| - 1 ==> Edit(c[k], c[k + 1])
  }

  lemma {:induction false} DeletionBound(s: seq<Elem>, i: nat, t: seq<Elem>)
    requires i < |s|
    ensures Lev(s, t) <= Lev(Delete(s, i), t) + 1 && Lev(Delete(s, i), t) <= Lev(s, t) + 1
    decreases |s| + |t|
  {
    var d := Delete(s, i);
    if i == |s| - 1 {
      assert d == Init(s);
      AdjacentCells(s, t);
    } else if t != [] {
      assert Init(d) == Delete(Init(s), i) && Last(d) == Last(s);
      DeletionBound(Init(s), i, t);
      DeletionBound(s, i, Init(t));
      DeletionBound(Init(s), i, Init(t));
    }
  }

  lemma {:induction false} SubstitutionBound(s: seq<Elem>, i: nat, x: Elem, t: seq<Elem>)
    requires i < |s|
    ensures Lev(s, t) <= Lev(s[i := x], t) + 1
    decreases |s| + |t|
  {
    var d := s[i := x];
    if i == |s| - 1 {
      assert d == Init(s) + [x];
      SubstitutedLast(s, x, t);
    } else if t != [] {
      assert Init(d) == Init(s)[i := x] && Last(d) == Last(s);
      SubstitutionBound(Init(s), i, x, t);
      SubstitutionBound(s, i, x, Init(t));
      SubstitutionBound(Init(s), i, x, Init(t));
    }
  }

  lemma SubstitutedLast(s: seq<Elem>, x: Elem, t: seq<Elem>)
    requires s != []
    ensures Lev(s, t) <= Lev(Init(s) + [x], t) + 1
  {
    var d := Init(s) + [x];
    assert Init(d) == Init(s);
    if t != [] {
      DiagonalCells(s, t);
      DiagonalCells(d, t);
    }
  }

  lemma EditSymmetric(s: seq<Elem>, u: seq<Elem>)
    requires Edit(s, u)
    ensures Edit(u, s)
  {
    if i :| 0 <= i < |s| && |s| == |u| && u == s[i := u[i]] {
      assert s == u[i := s[i]];
    }
  }

  lemma OneEdit(s: seq<Elem>, u: seq<Elem>, t: seq<Elem>)
    requires Edit(s, u)
    ensures Lev(s, t) <= Lev(u, t) + 1
  {
    if i :| 0 <= i < |s| && u == Delete(s, i) {
      DeletionBound(s, i, t);
    } else if i :| 0 <= i < |u| && s == Delete(u, i) {
      DeletionBound(u, i, t);
    } else {
      var i :| 0 <= i < |s| && |s| == |u| && u == s[i := u[i]];
      SubstitutionBound(s, i, u[i], t);
    }
  }

  /** One edit anywhere changes the distance to any sequence by at most one. */
  lemma EditBound(s: seq<Elem>, u: seq<Elem>, t: seq<Elem>)
    requires Edit(s, u)
    ensures Lev(s, t) <= Lev(u, t) + 1 && Lev(u, t) <= Lev(s, t) + 1
  {
    OneEdit(s, u, t);
    EditSymmetric(s, u);
    OneEdit(u, s, t);
  }

  lemma {:induction false} SelfDistance(s: seq<Elem>)
    ensures Lev(s, s) == 0
  {
    if s != [] {
      SelfDistance(Init(s));
    }
  }

  lemma {:induction false} ScriptBound(c: seq<seq<Elem>>, s: seq<Elem>, t: seq<Elem>)
    requires Script(c, s, t)
    ensures Lev(s, t) <= |c| - 1
  {
    if |c| == 1 {
      SelfDistance(s);
    } else {
      assert Edit(c[0], c[0 + 1]);
      var rest := c[1..];
      forall k | 0 <= k < |rest| - 1 ensures Edit(rest[k], rest[k + 1]) {
        assert Edit(c[k + 1], c[k + 1 + 1]);
      }
      ScriptBound(rest, c[1], t);
      EditBound(s, c[1], t);
    }
  }

  /** The same edits with `x` standing at the end throughout. */
  ghost function Extend(c: seq<seq<Elem>>, x: Elem): (r: seq<seq<Elem>>)
    ensures |r| == |c| && forall k :: 0 <= k < |c| ==> r[k] == c[k] + [x]
  {
    if c == [] then [] else Extend(c[..|c| - 1], x) + [c[|c| - 1] + [x]]
  }

  lemma EditExtend(s: seq<Elem>, t: seq<Elem>, x: Elem)
    requires Edit(s, t)
    ensures Edit(s + [x], t + [x])
  {
    if i :| 0 <= i < |s| && t == Delete(s, i) {
      assert t + [x] == Delete(s + [x], i);
    } else if i :| 0 <= i < |t| && s == Delete(t, i) {
      assert s + [x] == Delete(t + [x], i);
    } else {
      var i :| 0 <= i < |s| && |s| == |t| && t == s[i := t[i]];
      assert t + [x] == (s + [x])[i := (t + [x])[i]];
    }
  }

  lemma ScriptExtend(c: seq<seq<Elem>>, s: seq<Elem>, t: seq<Elem>, x: Elem)
    requires Script(c, s, t)
    ensures Script(Extend(c, x), s + [x], t + [x])
  {
    var r := Extend(c, x);
    forall k | 0 <= k < |r| - 1 ensures Edit(r[k], r[k + 1]) {
      assert Edit(c[k], c[k + 1]);
      EditExtend(c[k], c[k + 1], x);
    }
  }

  lemma ScriptThen(c: seq<seq<Elem>>, s: seq<Elem>, t: seq<Elem>, u: seq<Elem>)
    requires Script(c, s, t) && Edit(t, u)
    ensures Script(c + [u], s, u)
  {
    var r := c + [u];
    forall k | 0 <= k < |r| - 1 ensures Edit(r[k], r[k + 1]) {
      if k < |c| - 1 { assert Edit(c[k], c[k + 1]); }
    }
  }

  lemma ScriptAfter(c: seq<seq<Elem>>, s: seq<Elem>, t: seq<Elem>, u: seq<Elem>)
    requires Script(c, s, t) && Edit(u, s)
    ensures Script([u] + c, u, t)
  {
    var r := [u] + c;
    forall k | 0 <= k < |r| - 1 ensures Edit(r[k], r[k + 1]) {
      if k > 0 { assert Edit(c[k - 1], c[k - 1 + 1]); }
    }
  }

  /** Edits of the initial parts, then one replacement of the last element if it differs. */
  lemma ScriptDiagonal(b: seq<seq<Elem>>, s: seq<Elem>, t: seq<Elem>) returns (c: seq<seq<Elem>>)
    requires s != [] && t != [] && Script(b, Init(s), Init(t))
    ensures Script(c, s, t) && |c| == |b| + if Last(s) == Last(t) then 0 else 1
  {
    var u := Init(t) + [Last(s)];
    ScriptExtend(b, Init(s), Init(t), Last(s));
    assert Init(s) + [Last(s)] == s;
    c := Extend(b, Last(s));
    if Last(s) == Last(t) {
      assert u == t;
    } else {
      assert t == u[|t| - 1 := t[|t| - 1]];
      ScriptThen(c, s, u, t);
      c := c + [t];
    }
  }

  /** A script of exactly `Lev(s, t)` edits. */
  lemma {:induction false} ScriptExists(s: seq<Elem>, t: seq<Elem>)
    ensures exists c :: Script(c, s, t) && |c| - 1 == Lev(s, t)
    decreases |s| + |t|
  {
    if s == [] && t == [] {
      assert Script([s], s, t);
    } else if t != [] && Lev(s, t) == Lev(s, Init(t)) + 1 {
      assert Init(t) == Delete(t, |t| - 1);
      assert Edit(Init(t), t);
      ScriptExists(s, Init(t));
      var b :| Script(b, s, Init(t)) && |b| - 1 == Lev(s, Init(t));
      ScriptThen(b, s, Init(t), t);
    } else if s != [] && Lev(s, t) == Lev(Init(s), t) + 1 {
      assert Init(s) == Delete(s, |s| - 1);
      assert Edit(s, Init(s));
      ScriptExists(Init(s), t);
      var b :| Script(b, Init(s), t) && |b| - 1 == Lev(Init(s), t);
      ScriptAfter(b, Init(s), t, s);
    } else {
      ScriptExists(Init(s), Init(t));
      var b :| Script(b, Init(s), Init(t)) && |b| - 1 == Lev(Init(s), Init(t));
      var c := ScriptDiagonal(b, s, t);
    }
  }

  /** Main result: the table entry is the least number of single edits between the prefixes. */
  lemma LevIsEditDistance(s: seq<Elem>, t: seq<Elem>, n: nat)
    ensures n == Lev(s, t) <==>
            (exists c :: Script(c, s, t) && |c| - 1 == n) && (forall c :: Script(c, s, t) ==> n <= |c| - 1)
  {
    ScriptExists(s, t);
    forall c | Script(c, s, t) ensures Lev(s, t) <= |c| - 1 { ScriptBound(c, s, t); }
  }
}
