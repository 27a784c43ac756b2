/** Replaying the path found in the edit-distance table as in-place edits of the old path. */
module EditScript {
  import opened GridSearch
  import opened Levenshtein

  datatype Operation = NoChange | Substitute | Insert | Remove

  /** One change, with the row (in the new path) and the column (in the old path) it leaves. */
  datatype Change = Change(op: Operation, r: int, c: int)

  /** A path through the table from its last cell back to its first. */
  ghost predicate IsTablePath(p: seq<Cell>, rows: nat, cols: nat) {
    IsBackward(p) && p[0] == Cell(rows, cols) && p[|p| - 1] == Cell(0, 0)
  }

  /** The coordinates along a backward path never grow. */
  lemma {:induction false} BackwardFalls(p: seq<Cell>, i: nat, j: nat)
    requires IsBackward(p) && i <= j < |p|
    ensures p[j].r <= p[i].r && p[j].c <= p[i].c
    decreases j - i
  {
    if i < j {
      BackwardFalls(p, i, j - 1);
      assert IsMove(p[j - 1 + 1], p[j - 1]);
    }
  }

  lemma TablePathBounds(p: seq<Cell>, rows: nat, cols: nat, k: nat)
    requires IsTablePath(p, rows, cols) && k < |p|
    ensures 0 <= p[k].r <= rows && 0 <= p[k].c <= cols
  {
    BackwardFalls(p, 0, k);
    BackwardFalls(p, k, |p| - 1);
  }

  /** How the step from `a` back to `b` is labelled; a diagonal step counts as no change when the
      two table values are equal. */
  function Label(equalValues: bool, a: Cell, b: Cell): Change {
    if b.c < a.c && b.r < a.r then Change(if equalValues then NoChange else Substitute, a.r, a.c)
    else if b.c == a.c && b.r < a.r then Change(Insert, a.r, a.c)
    else Change(Remove, a.r, a.c)
  }

  ghost predicate Labelled(p: seq<Cell>, equal: seq<bool>, changes: seq<Change>) {
    && |p| > 0 && |changes| == |equal| == |p| - 1
    && forall i :: 0 <= i < |changes| ==> changes[i] == Label(equal[i], p[i], p[i + 1])
  }

  ghost predicate AllInGrid(rows: nat, cols: nat, p: seq<Cell>) {
    forall k {:trigger p[k]} :: 0 <= k < |p| ==> 0 <= p[k].r < rows && 0 <= p[k].c < cols
  }

  /** `equal[k]` says whether the table values at the two ends of step `k` agree. */
  ghost predicate ComparesValues(grid: array2<nat>, p: seq<Cell>, equal: seq<bool>)
    requires |p| == |equal| + 1 && AllInGrid(grid.Length0, grid.Length1, p)
    reads grid
  {
    forall k :: 0 <= k < |equal| ==> equal[k] == (grid[p[k + 1].r, p[k + 1].c] == grid[p[k].r, p[k].c])
  }

  /** The labels of all steps of a path through the table. */
  method ChangeList(p: seq<Cell>, grid: array2<nat>) returns (changes: seq<Change>, ghost equal: seq<bool>)
    requires IsBackward(p) && AllInGrid(grid.Length0, grid.Length1, p)
    ensures Labelled(p, equal, changes) && ComparesValues(grid, p, equal)
  {
    changes, equal := [], [];
    for i := 0 to |p| - 1
      invariant Labelled(p[..i + 1], equal, changes) && ComparesValues(grid, p[..i + 1], equal)
    {
      assert p[..i + 2][..i + 1] == p[..i + 1];
      var same := grid[p[i + 1].r, p[i + 1].c] == grid[p[i].r, p[i].c];
      changes := changes + [Label(same, p[i], p[i + 1])];
      equal := equal + [same];
    }
    assert p[..|p|] == p;
  }

  ghost predicate SoundAt(oldPath: seq<Elem>, newPath: seq<Elem>, ch: Change) {
    ch.op == NoChange ==>
      0 < ch.c <= |oldPath| && 0 < ch.r <= |newPath| && oldPath[ch.c - 1] == newPath[ch.r - 1]
  }

  /** Every step labelled as no change lies on equal elements. */
  ghost predicate Sound(oldPath: seq<Elem>, newPath: seq<Elem>, changes: seq<Change>, k: nat)
    requires k <= |changes|
  {
    forall i :: 0 <= i < k ==> SoundAt(oldPath, newPath, changes[i])
  }

  /** What has been replayed when the path stands at cell `at`. */
  ghost predicate Replayed(oldPath: seq<Elem>, newPath: seq<Elem>, changes: seq<Change>, k: nat, at: Cell,
                           list: seq<Elem>)
    requires k <= |changes|
  {
    && 0 <= at.r <= |newPath| && 0 <= at.c <= |oldPath|
    && |list| == at.c + |newPath| - at.r
    && list[..at.c] == oldPath[..at.c]
    && (list[at.c..] == newPath[at.r..] <==> Sound(oldPath, newPath, changes, k))
  }

  /** One change, applied in place. */
  function ApplyChange(list: seq<Elem>, newPath: seq<Elem>, ch: Change): seq<Elem>
    requires ch.op != NoChange ==> 0 <= ch.c <= |list|
    requires ch.op in {Substitute, Insert} ==> 0 < ch.r <= |newPath|
    requires ch.op in {Substitute, Remove} ==> 0 < ch.c
  {
    match ch.op
    case NoChange => list
    case Substitute => list[ch.c - 1 := newPath[ch.r - 1]]
    case Insert => list[..ch.c] + [newPath[ch.r - 1]] + list[ch.c..]
    case Remove => list[..ch.c - 1] + list[ch.c..]
  }

  lemma ReplayStep(oldPath: seq<Elem>, newPath: seq<Elem>, changes: seq<Change>, k: nat, a: Cell, b: Cell, same: bool,
                   list: seq<Elem>)
    requires k < |changes| && IsMove(b, a) && b.r >= 0 && b.c >= 0 && changes[k] == Label(same, a, b)
    requires Replayed(oldPath, newPath, changes, k, a, list)
    ensures Replayed(oldPath, newPath, changes, k + 1, b, ApplyChange(list, newPath, changes[k]))
  {
    var ch := changes[k];
    var after := ApplyChange(list, newPath, ch);
    match ch.op
    case NoChange =>
      assert list[..a.c - 1] == list[..a.c][..a.c - 1];
      assert list[a.c - 1] == list[..a.c][a.c - 1] == oldPath[a.c - 1];
      assert after[b.c..] == [oldPath[a.c - 1]] + list[a.c..];
    case Substitute =>
      assert after[..b.c] == list[..a.c][..b.c];
      assert after[b.c..] == [newPath[b.r]] + list[a.c..];
    case Insert =>
      assert after[..b.c] == list[..a.c];
      assert after[b.c..] == [newPath[b.r]] + list[a.c..];
    case Remove =>
      assert after[..b.c] == list[..a.c][..b.c];
      assert after[b.c..] == list[a.c..];
  }

  /** Applies the changes to the old path, from its end to its start. The result is the new path
      exactly when every step labelled as no change lies on equal elements. */
  method Replay(oldPath: seq<Elem>, newPath: seq<Elem>, changes: seq<Change>, ghost p: seq<Cell>,
                ghost equal: seq<bool>)
    returns (list: seq<Elem>)
    requires IsTablePath(p, |newPath|, |oldPath|) && Labelled(p, equal, changes)
    ensures |list| == |newPath|
    ensures list == newPath <==> Sound(oldPath, newPath, changes, |changes|)
  {
    list := oldPath;
    for k := 0 to |changes|
      invariant Replayed(oldPath, newPath, changes, k, p[k], list)
    {
      TablePathBounds(p, |newPath|, |oldPath|, k + 1);
      assert IsMove(p[k + 1], p[k]);
      ReplayStep(oldPath, newPath, changes, k, p[k], p[k + 1], equal[k], list);
      list := ApplyChange(list, newPath, changes[k]);
    }
    assert list[0..] == list && newPath[0..] == newPath;
  }

  /** The labels follow the Levenshtein table between the two paths. */
  ghost predicate FollowsTable(oldPath: seq<Elem>, newPath: seq<Elem>, p: seq<Cell>, equal: seq<bool>)
    requires |p| == |equal| + 1 && AllInGrid(|newPath| + 1, |oldPath| + 1, p)
  {
    forall k :: 0 <= k < |equal| ==>
      equal[k] == (LevAt(newPath, oldPath, p[k + 1].r, p[k + 1].c) == LevAt(newPath, oldPath, p[k].r, p[k].c))
  }

  /** `changes` are the labels of a path through the table of the two paths. */
  ghost predicate FromTable(oldPath: seq<Elem>, newPath: seq<Elem>, p: seq<Cell>, equal: seq<bool>,
                            changes: seq<Change>) {
    && IsTablePath(p, |newPath|, |oldPath|) && Labelled(p, equal, changes)
    && AllInGrid(|newPath| + 1, |oldPath| + 1, p) && FollowsTable(oldPath, newPath, p, equal)
  }

  /** Over different elements the diagonal into cell (r, c) joins different table values. */
  ghost predicate UnambiguousAt(oldPath: seq<Elem>, newPath: seq<Elem>, r: nat, c: nat) {
    0 < r <= |newPath| && 0 < c <= |oldPath| && newPath[r - 1] != oldPath[c - 1] ==>
      LevAt(newPath, oldPath, r - 1, c - 1) != LevAt(newPath, oldPath, r, c)
  }

  /** What a caller can check of the two paths. */
  ghost predicate Unambiguous(oldPath: seq<Elem>, newPath: seq<Elem>) {
    forall r: nat, c: nat :: UnambiguousAt(oldPath, newPath, r, c)
  }

  lemma UnambiguousSound(oldPath: seq<Elem>, newPath: seq<Elem>, p: seq<Cell>, equal: seq<bool>, changes: seq<Change>)
    requires Unambiguous(oldPath, newPath) && FromTable(oldPath, newPath, p, equal, changes)
    ensures Sound(oldPath, newPath, changes, |changes|)
  {
    forall i | 0 <= i < |changes| ensures SoundAt(oldPath, newPath, changes[i]) {
      assert changes[i] == Label(equal[i], p[i], p[i + 1]) && IsMove(p[i + 1], p[i]);
      TablePathBounds(p, |newPath|, |oldPath|, i);
      TablePathBounds(p, |newPath|, |oldPath|, i + 1);
      assert UnambiguousAt(oldPath, newPath, p[i].r, p[i].c);
    }
  }

  /** Up the rows from `a`, then along the columns to `b`. */
  ghost function Straight(a: Cell, b: Cell): (p: seq<Cell>)
    requires 0 <= b.r <= a.r && 0 <= b.c <= a.c
    ensures |p| > 0 && p[0] == a && p[|p| - 1] == b
    ensures forall k {:trigger p[k]} :: 0 <= k < |p| ==> b.r <= p[k].r <= a.r && b.c <= p[k].c <= a.c
    decreases a.r - b.r + a.c - b.c
  {
    if a == b then [a]
    else if a.r > b.r then [a] + Straight(Cell(a.r - 1, a.c), b)
    else [a] + Straight(Cell(a.r, a.c - 1), b)
  }

  lemma {:induction false} StraightMoves(a: Cell, b: Cell)
    requires 0 <= b.r <= a.r && 0 <= b.c <= a.c
    ensures IsBackward(Straight(a, b))
    decreases a.r - b.r + a.c - b.c
  {
    if a != b {
      var next := if a.r > b.r then Cell(a.r - 1, a.c) else Cell(a.r, a.c - 1);
      StraightMoves(next, b);
      BackwardJoins([a], Straight(next, b));
    }
  }

  lemma BackwardJoins(p: seq<Cell>, q: seq<Cell>)
    requires IsBackward(p) && IsBackward(q) && IsMove(q[0], p[|p| - 1])
    ensures IsBackward(p + q)
  {
    var s := p + q;
    forall k | 0 <= k < |s| - 1 ensures IsMove(s[k + 1], s[k]) {
      if k < |p| - 1 {
        assert IsMove(p[k + 1], p[k]);
      } else if k >= |p| {
        assert IsMove(q[k - |p| + 1], q[k - |p|]);
      }
    }
  }

  /** The labels that the table gives to a path. */
  ghost function EqualAlong(oldPath: seq<Elem>, newPath: seq<Elem>, p: seq<Cell>): seq<bool>
    requires |p| > 0 && AllInGrid(|newPath| + 1, |oldPath| + 1, p)
  {
    seq(|p| - 1, k requires 0 <= k < |p| - 1 =>
      LevAt(newPath, oldPath, p[k + 1].r, p[k + 1].c) == LevAt(newPath, oldPath, p[k].r, p[k].c))
  }

  ghost function Labels(p: seq<Cell>, equal: seq<bool>): seq<Change>
    requires |p| == |equal| + 1
  {
    seq(|equal|, k requires 0 <= k < |equal| => Label(equal[k], p[k], p[k + 1]))
  }

  lemma LabelsFromTable(oldPath: seq<Elem>, newPath: seq<Elem>, p: seq<Cell>)
    requires IsTablePath(p, |newPath|, |oldPath|) && AllInGrid(|newPath| + 1, |oldPath| + 1, p)
    ensures var equal := EqualAlong(oldPath, newPath, p);
      FromTable(oldPath, newPath, p, equal, Labels(p, equal))
  {
  }

  /** A path through the table over the diagonal into cell (r, c). */
  lemma PathAcross(rows: nat, cols: nat, r: nat, c: nat) returns (p: seq<Cell>, i: nat)
    requires 0 < r <= rows && 0 < c <= cols
    ensures IsTablePath(p, rows, cols) && AllInGrid(rows + 1, cols + 1, p)
    ensures i + 1 < |p| && p[i] == Cell(r, c) && p[i + 1] == Cell(r - 1, c - 1)
  {
    var a, b := Straight(Cell(rows, cols), Cell(r, c)), Straight(Cell(r - 1, c - 1), Cell(0, 0));
    StraightMoves(Cell(rows, cols), Cell(r, c));
    StraightMoves(Cell(r - 1, c - 1), Cell(0, 0));
    BackwardJoins(a, b);
    p, i := a + b, |a| - 1;
  }

  /** Over an ambiguous diagonal the label is no change, and unsound. */
  lemma AmbiguousLabel(oldPath: seq<Elem>, newPath: seq<Elem>, p: seq<Cell>, i: nat, r: nat, c: nat)
    requires i + 1 < |p| && AllInGrid(|newPath| + 1, |oldPath| + 1, p)
    requires !UnambiguousAt(oldPath, newPath, r, c) && p[i] == Cell(r, c) && p[i + 1] == Cell(r - 1, c - 1)
    ensures !SoundAt(oldPath, newPath, Labels(p, EqualAlong(oldPath, newPath, p))[i])
  {
  }

  /** An ambiguous diagonal lies on a path through the table whose replay goes wrong. */
  lemma AmbiguousFails(oldPath: seq<Elem>, newPath: seq<Elem>, r: nat, c: nat)
    returns (p: seq<Cell>, equal: seq<bool>, changes: seq<Change>)
    requires !UnambiguousAt(oldPath, newPath, r, c)
    ensures FromTable(oldPath, newPath, p, equal, changes) && !Sound(oldPath, newPath, changes, |changes|)
  {
    var i;
    p, i := PathAcross(|newPath|, |oldPath|, r, c);
    LabelsFromTable(oldPath, newPath, p);
    AmbiguousLabel(oldPath, newPath, p, i, r, c);
    equal := EqualAlong(oldPath, newPath, p);
    changes := Labels(p, equal);
  }

  /** Main result: replaying the labels of a path through the table is right for every such path
      exactly when no diagonal over different elements joins equal table values. */
  lemma ReplayExact(oldPath: seq<Elem>, newPath: seq<Elem>)
    ensures Unambiguous(oldPath, newPath) <==>
            forall p, equal, changes ::
              FromTable(oldPath, newPath, p, equal, changes) ==> Sound(oldPath, newPath, changes, |changes|)
  {
    if Unambiguous(oldPath, newPath) {
      forall p, equal, changes | FromTable(oldPath, newPath, p, equal, changes)
        ensures Sound(oldPath, newPath, changes, |changes|)
      {
        UnambiguousSound(oldPath, newPath, p, equal, changes);
      }
    } else {
      var r: nat, c: nat :| !UnambiguousAt(oldPath, newPath, r, c);
      var p, equal, changes := AmbiguousFails(oldPath, newPath, r, c);
    }
  }

  /** Edit script between two paths, replayed on the old one. */
  method GetCommandsRerouting(oldPath: seq<Elem>, newPath: seq<Elem>, h: (Cell, Cell) -> real)
    returns (changes: seq<Change>, list: seq<Elem>, ghost p: seq<Cell>, ghost equal: seq<bool>)
    ensures FromTable(oldPath, newPath, p, equal, changes)
    ensures |list| == |newPath|
    ensures list == newPath <==> Sound(oldPath, newPath, changes, |changes|)
    ensures Unambiguous(oldPath, newPath) ==> list == newPath
  {
    var grid := IterativeLevenshtein(newPath, oldPath);
    var found := AStar(grid, Cell(0, 0), Cell(|newPath|, |oldPath|), h);
    var path := found.value + [Cell(0, 0)];
    p := path;
    forall k {:trigger path[k]} | 0 <= k < |path| ensures 0 <= path[k].r <= |newPath| && 0 <= path[k].c <= |oldPath| {
      TablePathBounds(path, |newPath|, |oldPath|, k);
    }
    changes, equal := ChangeList(path, grid);
    list := Replay(oldPath, newPath, changes, path, equal);
    if Unambiguous(oldPath, newPath) { UnambiguousSound(oldPath, newPath, path, equal, changes); }
  }

  /** A diagonal step over equal elements is always labelled as no change, so only the converse
      can fail: equal table values over different elements. */
  lemma EqualElementsKept(oldPath: seq<Elem>, newPath: seq<Elem>, r: nat, c: nat)
    requires 0 < r <= |newPath| && 0 < c <= |oldPath| && newPath[r - 1] == oldPath[c - 1]
    ensures Label(LevAt(newPath, oldPath, r - 1, c - 1) == LevAt(newPath, oldPath, r, c),
                  Cell(r, c), Cell(r - 1, c - 1)).op
            == NoChange
  {
    var s, t := newPath[..r], oldPath[..c];
    DiagonalCells(s, t);
    assert Init(s) == newPath[..r - 1] && Init(t) == oldPath[..c - 1];
  }

  const OLD_SAMPLE: seq<Elem> := [1, 2]
  const NEW_SAMPLE: seq<Elem> := [2, 1, 3, 4]

  lemma SampleBorder()
    ensures forall k: nat :: k <= 4 ==> LevAt(NEW_SAMPLE, OLD_SAMPLE, k, 0) == k
    ensures forall k: nat :: k <= 2 ==> LevAt(NEW_SAMPLE, OLD_SAMPLE, 0, k) == k
  {
  }

  lemma SampleColumnOne()
    ensures LevAt(NEW_SAMPLE, OLD_SAMPLE, 1, 1) == 1 && LevAt(NEW_SAMPLE, OLD_SAMPLE, 2, 1) == 1
    ensures LevAt(NEW_SAMPLE, OLD_SAMPLE, 3, 1) == 2 && LevAt(NEW_SAMPLE, OLD_SAMPLE, 4, 1) == 3
  {
    SampleBorder();
    LevCell(NEW_SAMPLE, OLD_SAMPLE, 1, 1);
    LevCell(NEW_SAMPLE, OLD_SAMPLE, 2, 1);
    LevCell(NEW_SAMPLE, OLD_SAMPLE, 3, 1);
    LevCell(NEW_SAMPLE, OLD_SAMPLE, 4, 1);
  }

  /** The table values along the path used by `WrongReplay`. */
  lemma SampleTable()
    ensures LevAt(NEW_SAMPLE, OLD_SAMPLE, 2, 0) == 2 && LevAt(NEW_SAMPLE, OLD_SAMPLE, 3, 1) == 2
    ensures LevAt(NEW_SAMPLE, OLD_SAMPLE, 4, 2) == 3
  {
    SampleColumnOne();
    LevCell(NEW_SAMPLE, OLD_SAMPLE, 3, 2);
    LevCell(NEW_SAMPLE, OLD_SAMPLE, 4, 2);
  }

  /** The converse does fail: on the way from [1, 2] to [2, 1, 3, 4] the diagonal from cell (3, 1)
      joins equal table values, although 3 differs from 1. */
  lemma SampleAmbiguous()
    ensures !UnambiguousAt(OLD_SAMPLE, NEW_SAMPLE, 3, 1)
  {
    SampleTable();
  }

  const WRONG_PATH: seq<Cell> := [Cell(4, 2), Cell(3, 1), Cell(2, 0), Cell(1, 0), Cell(0, 0)]

  lemma WrongPathInTable()
    ensures IsTablePath(WRONG_PATH, 4, 2) && AllInGrid(5, 3, WRONG_PATH)
  {
  }

  /** A path through the table over that diagonal, and its labels. */
  lemma WrongLabels()
    ensures var changes :=
              [Change(Substitute, 4, 2), Change(NoChange, 3, 1), Change(Insert, 2, 0), Change(Insert, 1, 0)];
      FromTable(OLD_SAMPLE, NEW_SAMPLE, WRONG_PATH, [false, true, false, false], changes)
  {
    WrongPathInTable();
    SampleTable();
    SampleBorder();
  }

  /** Their replay ends in [2, 1, 1, 4]. */
  lemma WrongReplay()
    ensures var l1 := ApplyChange(OLD_SAMPLE, NEW_SAMPLE, Change(Substitute, 4, 2));
      var l2 := ApplyChange(l1, NEW_SAMPLE, Change(NoChange, 3, 1));
      var l3 := ApplyChange(l2, NEW_SAMPLE, Change(Insert, 2, 0));
      ApplyChange(l3, NEW_SAMPLE, Change(Insert, 1, 0)) == [2, 1, 1, 4] != NEW_SAMPLE
  {
    var l1 := ApplyChange(OLD_SAMPLE, NEW_SAMPLE, Change(Substitute, 4, 2));
    assert l1 == [1, 4];
    assert ApplyChange(l1, NEW_SAMPLE, Change(Insert, 2, 0)) == [1, 1, 4];
  }
}
