/** The search over the edit-distance table: a best-first search whose scores may decrease, so
    that finished cells are reopened. */
module GridSearch {
  import opened Options

  datatype Cell = Cell(r: int, c: int)

  type Heap = seq<(real, Cell)>

  /** The three moves of the search: right, down, diagonally. */
  function Neighbour(c: Cell, k: nat): Cell
    requires k < 3
  {
    if k == 0 then Cell(c.r, c.c + 1) else if k == 1 then Cell(c.r + 1, c.c) else Cell(c.r + 1, c.c + 1)
  }

  predicate InGrid(rows: nat, cols: nat, c: Cell) {
    0 <= c.r < rows && 0 <= c.c < cols
  }

  predicate IsMove(from: Cell, to: Cell) {
    (to.r == from.r || to.r == from.r + 1) && (to.c == from.c || to.c == from.c + 1) && to != from
  }

  /** A path of backward moves. */
  ghost predicate IsBackward(p: seq<Cell>) {
    |p| > 0 && forall i :: 0 <= i < |p| - 1 ==> IsMove(p[i + 1], p[i])
  }

  // ----- the heap

  /** Order of the heap entries: tuples compare lexicographically. */
  predicate Before(a: (real, Cell), b: (real, Cell)) {
    a.0 < b.0 || (a.0 == b.0 && (a.1.r < b.1.r || (a.1.r == b.1.r && a.1.c <= b.1.c)))
  }

  /** The cells waiting on the heap. */
  function Cells(heap: Heap): set<Cell> {
    if heap == [] then {} else Cells(heap[..|heap| - 1]) + {heap[|heap| - 1].1}
  }

  lemma {:induction false} CellsConcat(a: Heap, b: Heap)
    ensures Cells(a + b) == Cells(a) + Cells(b)
    decreases |b|
  {
    if b == [] {
      assert a + b == a;
    } else {
      assert (a + b)[..|a + b| - 1] == a + b[..|b| - 1];
      CellsConcat(a, b[..|b| - 1]);
    }
  }

  /** `heappop`: removes a least entry. */
  method HeapPop(heap: Heap) returns (i: nat, top: (real, Cell), rest: Heap)
    requires heap != []
    ensures i < |heap| && top == heap[i] && rest == heap[..i] + heap[i + 1..]
    ensures forall k :: 0 <= k < |heap| ==> Before(top, heap[k])
  {
    i := 0;
    for k := 1 to |heap|
      invariant i < |heap| && forall j :: 0 <= j < k ==> Before(heap[i], heap[j])
    {
      if !Before(heap[i], heap[k]) { i := k; }
    }
    top, rest := heap[i], heap[..i] + heap[i + 1..];
  }

  lemma PushCells(heap: Heap, e: (real, Cell))
    ensures Cells(heap + [e]) == Cells(heap) + {e.1}
  {
    assert (heap + [e])[..|heap|] == heap;
  }

  lemma MiddleCell(a: Heap, e: (real, Cell), b: Heap)
    ensures Cells(a + [e] + b) == Cells(a + b) + {e.1}
  {
    CellsConcat(a + [e], b);
    CellsConcat(a, b);
    PushCells(a, e);
  }

  lemma PopCells(heap: Heap, i: nat)
    requires i < |heap|
    ensures Cells(heap) == Cells(heap[..i] + heap[i + 1..]) + {heap[i].1}
  {
    MiddleCell(heap[..i], heap[i], heap[i + 1..]);
    assert heap == heap[..i] + [heap[i]] + heap[i + 1..];
  }

  // ----- termination

  /** Number of forward lattice paths that start in a cell and stay in the grid. */
  ghost function Paths(rows: nat, cols: nat, c: Cell): nat
    decreases rows - c.r + cols - c.c
  {
    if !InGrid(rows, cols, c) then 0
    else
      1 + Paths(rows, cols, Neighbour(c, 0)) + Paths(rows, cols, Neighbour(c, 1)) + Paths(rows, cols, Neighbour(c, 2))
  }

  ghost function Load(rows: nat, cols: nat, heap: Heap): nat {
    if heap == [] then 0 else Load(rows, cols, heap[..|heap| - 1]) + Paths(rows, cols, heap[|heap| - 1].1)
  }

  lemma {:induction false} LoadConcat(rows: nat, cols: nat, a: Heap, b: Heap)
    ensures Load(rows, cols, a + b) == Load(rows, cols, a) + Load(rows, cols, b)
    decreases |b|
  {
    if b == [] {
      assert a + b == a;
    } else {
      assert (a + b)[..|a + b| - 1] == a + b[..|b| - 1];
      LoadConcat(rows, cols, a, b[..|b| - 1]);
    }
  }

  lemma PushLoad(rows: nat, cols: nat, heap: Heap, e: (real, Cell))
    ensures Load(rows, cols, heap + [e]) == Load(rows, cols, heap) + Paths(rows, cols, e.1)
  {
    assert (heap + [e])[..|heap|] == heap;
  }

  lemma MiddleLoad(rows: nat, cols: nat, a: Heap, e: (real, Cell), b: Heap)
    ensures Load(rows, cols, a + [e] + b) == Load(rows, cols, a + b) + Paths(rows, cols, e.1)
  {
    LoadConcat(rows, cols, a + [e], b);
    LoadConcat(rows, cols, a, b);
    PushLoad(rows, cols, a, e);
  }

  lemma PopLoad(rows: nat, cols: nat, heap: Heap, i: nat)
    requires i < |heap|
    ensures Load(rows, cols, heap) == Load(rows, cols, heap[..i] + heap[i + 1..]) + Paths(rows, cols, heap[i].1)
  {
    MiddleLoad(rows, cols, heap[..i], heap[i], heap[i + 1..]);
    assert heap == heap[..i] + [heap[i]] + heap[i + 1..];
  }

  /** What the neighbours of `c` from number `k` on may still add to the heap. */
  ghost function PathsFrom(rows: nat, cols: nat, c: Cell, k: nat): nat
    requires k <= 3
    decreases 3 - k
  {
    if k == 3 then 0 else Paths(rows, cols, Neighbour(c, k)) + PathsFrom(rows, cols, c, k + 1)
  }

  lemma PathsSplit(rows: nat, cols: nat, c: Cell)
    requires InGrid(rows, cols, c)
    ensures Paths(rows, cols, c) == 1 + PathsFrom(rows, cols, c, 0)
  {
    assert PathsFrom(rows, cols, c, 1) == Paths(rows, cols, Neighbour(c, 1)) + PathsFrom(rows, cols, c, 2);
    assert PathsFrom(rows, cols, c, 2) == Paths(rows, cols, Neighbour(c, 2)) + PathsFrom(rows, cols, c, 3);
  }

  // ----- the search state

  /** Every cell that was ever reached, other than the start, has a predecessor one move back
      that was reached too. */
  ghost predicate Linked(rows: nat, cols: nat, start: Cell, cameFrom: map<Cell, Cell>, reached: set<Cell>) {
    forall n :: LinkedAt(rows, cols, start, cameFrom, reached, n)
  }

  ghost predicate LinkedAt(rows: nat, cols: nat, start: Cell, cameFrom: map<Cell, Cell>, reached: set<Cell>, n: Cell) {
    && (n in reached ==> InGrid(rows, cols, n) && start.r <= n.r && start.c <= n.c && (n == start || n in cameFrom))
    && (n in cameFrom ==> n != start && IsMove(cameFrom[n], n) && cameFrom[n] in reached)
  }

  /** If cell `c` is finished, its neighbour number `j` is finished or waiting. */
  ghost predicate ClosedAt(rows: nat, cols: nat, closeSet: set<Cell>, waiting: set<Cell>, c: Cell, j: int) {
    c in closeSet && 0 <= j < 3 && InGrid(rows, cols, Neighbour(c, j)) ==>
      Neighbour(c, j) in closeSet || Neighbour(c, j) in waiting
  }

  /** Every finished cell has all its neighbours finished or waiting. */
  ghost predicate Closed(rows: nat, cols: nat, closeSet: set<Cell>, waiting: set<Cell>) {
    forall c, j :: ClosedAt(rows, cols, closeSet, waiting, c, j)
  }

  /** If nothing waits, everything between the start and any later cell has been finished. */
  lemma {:induction false} EverythingFinished(rows: nat, cols: nat, start: Cell, goal: Cell, closeSet: set<Cell>)
    requires Closed(rows, cols, closeSet, {}) && start in closeSet && InGrid(rows, cols, start)
    requires InGrid(rows, cols, goal) && start.r <= goal.r && start.c <= goal.c
    ensures goal in closeSet
    decreases goal.r + goal.c
  {
    if start.c < goal.c {
      var before := Cell(goal.r, goal.c - 1);
      EverythingFinished(rows, cols, start, before, closeSet);
      assert ClosedAt(rows, cols, closeSet, {}, before, 0) && Neighbour(before, 0) == goal;
    } else if start.r < goal.r {
      var before := Cell(goal.r - 1, goal.c);
      EverythingFinished(rows, cols, start, before, closeSet);
      assert ClosedAt(rows, cols, closeSet, {}, before, 1) && Neighbour(before, 1) == goal;
    }
  }

  /** As `Closed`, except that of `current` only the neighbours below `k` have been handled. */
  ghost predicate ClosedUpTo(rows: nat, cols: nat, closeSet: set<Cell>, waiting: set<Cell>, current: Cell, k: nat) {
    forall c, j :: c != current || j < k ==> ClosedAt(rows, cols, closeSet, waiting, c, j)
  }

  lemma LinkedPush(rows: nat, cols: nat, start: Cell, cameFrom: map<Cell, Cell>, reached: set<Cell>, current: Cell,
                   n: Cell)
    requires Linked(rows, cols, start, cameFrom, reached) && current in reached && IsMove(current, n)
    requires InGrid(rows, cols, n)
    ensures Linked(rows, cols, start, cameFrom[n := current], reached + {n})
  {
    assert LinkedAt(rows, cols, start, cameFrom, reached, current);
    var cameFrom', reached' := cameFrom[n := current], reached + {n};
    forall m ensures LinkedAt(rows, cols, start, cameFrom', reached', m) {
      assert LinkedAt(rows, cols, start, cameFrom, reached, m);
    }
  }

  /** Taking `current` off the heap and finishing it loses no reached cell. */
  lemma PopState(rows: nat, cols: nat, closeSet: set<Cell>, heap: Heap, rest: Heap, current: Cell)
    requires Closed(rows, cols, closeSet, Cells(heap)) && Cells(heap) == Cells(rest) + {current}
    ensures ClosedUpTo(rows, cols, closeSet + {current}, Cells(rest), current, 0)
    ensures closeSet + {current} + Cells(rest) == closeSet + Cells(heap)
  {
    var closeSet' := closeSet + {current};
    forall c, j | c != current || j < 0 ensures ClosedAt(rows, cols, closeSet', Cells(rest), c, j) {
      assert ClosedAt(rows, cols, closeSet, Cells(heap), c, j);
    }
  }

  lemma ClosedStep(rows: nat, cols: nat, closeSet: set<Cell>, waiting: set<Cell>, waiting': set<Cell>, current: Cell,
                   k: nat)
    requires ClosedUpTo(rows, cols, closeSet, waiting, current, k) && waiting <= waiting' && k < 3
    requires InGrid(rows, cols, Neighbour(current, k)) ==>
               Neighbour(current, k) in closeSet || Neighbour(current, k) in waiting'
    ensures ClosedUpTo(rows, cols, closeSet, waiting', current, k + 1)
  {
    forall c, j | c != current || j < k + 1 ensures ClosedAt(rows, cols, closeSet, waiting', c, j) {
      if c != current || j < k { assert ClosedAt(rows, cols, closeSet, waiting, c, j); }
    }
  }

  /** With all three handled, every finished cell has its neighbours finished or waiting. */
  lemma ClosedAll(rows: nat, cols: nat, closeSet: set<Cell>, waiting: set<Cell>, current: Cell)
    requires ClosedUpTo(rows, cols, closeSet, waiting, current, 3)
    ensures Closed(rows, cols, closeSet, waiting)
  {
    forall c, j ensures ClosedAt(rows, cols, closeSet, waiting, c, j) {
      if j < 3 { assert ClosedAt(rows, cols, closeSet, waiting, c, j); }
    }
  }

  /** A neighbour is put on the heap and its predecessor recorded. */
  lemma PushState(rows: nat, cols: nat, start: Cell, cameFrom: map<Cell, Cell>, closeSet: set<Cell>, heap: Heap,
                  heap': Heap, current: Cell, n: Cell, f: real)
    requires Linked(rows, cols, start, cameFrom, closeSet + Cells(heap)) && current in closeSet && IsMove(current, n)
    requires InGrid(rows, cols, n) && heap' == heap + [(f, n)]
    ensures Cells(heap') == Cells(heap) + {n}
    ensures Linked(rows, cols, start, cameFrom[n := current], closeSet + Cells(heap'))
    ensures Load(rows, cols, heap') == Load(rows, cols, heap) + Paths(rows, cols, n)
  {
    PushCells(heap, (f, n));
    PushLoad(rows, cols, heap, (f, n));
    LinkedPush(rows, cols, start, cameFrom, closeSet + Cells(heap), current, n);
    assert closeSet + Cells(heap') == closeSet + Cells(heap) + {n};
  }

  /** The state of the search when `current` is finished and its neighbours below `k` are handled;
      the heap was `heap0` before the first of them. */
  ghost predicate Relaxing(rows: nat, cols: nat, start: Cell, closeSet: set<Cell>, cameFrom: map<Cell, Cell>,
                           scored: set<Cell>, heap: Heap, heap0: Heap, current: Cell, k: nat)
    requires k <= 3
  {
    && closeSet + Cells(heap) <= scored && Cells(heap0) <= Cells(heap)
    && Linked(rows, cols, start, cameFrom, closeSet + Cells(heap))
    && ClosedUpTo(rows, cols, closeSet, Cells(heap), current, k)
    && Load(rows, cols, heap) + PathsFrom(rows, cols, current, k) <=
       Load(rows, cols, heap0) + PathsFrom(rows, cols, current, 0)
  }

  lemma PushKeeps(rows: nat, cols: nat, start: Cell, closeSet: set<Cell>, cameFrom: map<Cell, Cell>, scored: set<Cell>,
                  heap: Heap, heap0: Heap, current: Cell, k: nat, f: real)
    requires k < 3 && Relaxing(rows, cols, start, closeSet, cameFrom, scored, heap, heap0, current, k)
    requires current in closeSet && InGrid(rows, cols, Neighbour(current, k))
    ensures var n := Neighbour(current, k);
            Relaxing(rows, cols, start, closeSet, cameFrom[n := current], scored + {n}, heap + [(f, n)], heap0,
                     current, k + 1)
  {
    var n := Neighbour(current, k);
    PushState(rows, cols, start, cameFrom, closeSet, heap, heap + [(f, n)], current, n, f);
    ClosedStep(rows, cols, closeSet, Cells(heap), Cells(heap + [(f, n)]), current, k);
  }

  lemma SkipKeeps(rows: nat, cols: nat, start: Cell, closeSet: set<Cell>, cameFrom: map<Cell, Cell>, scored: set<Cell>,
                  heap: Heap, heap0: Heap, current: Cell, k: nat)
    requires k < 3 && Relaxing(rows, cols, start, closeSet, cameFrom, scored, heap, heap0, current, k)
    requires var n := Neighbour(current, k); InGrid(rows, cols, n) ==> n in closeSet || n in Cells(heap)
    ensures Relaxing(rows, cols, start, closeSet, cameFrom, scored, heap, heap0, current, k + 1)
  {
    ClosedStep(rows, cols, closeSet, Cells(heap), Cells(heap), current, k);
  }

  // ----- scores

  /** A walk from `start` to `c`, written backwards. */
  ghost predicate IsWalkTo(rows: nat, cols: nat, start: Cell, c: Cell, p: seq<Cell>) {
    IsBackward(p) && p[0] == c && p[|p| - 1] == start && forall i :: 0 <= i < |p| ==> InGrid(rows, cols, p[i])
  }

  /** What a walk adds up: the estimate of every step, and the table value of every cell it enters. */
  ghost function WalkScore(grid: array2<nat>, h: (Cell, Cell) -> real, p: seq<Cell>): real
    requires forall i :: 0 <= i < |p| ==> InGrid(grid.Length0, grid.Length1, p[i])
    reads grid
  {
    if |p| <= 1 then 0.0
    else
      assert InGrid(grid.Length0, grid.Length1, p[0]);
      WalkScore(grid, h, p[1..]) + h(p[1], p[0]) + grid[p[0].r, p[0].c] as real
  }

  ghost predicate HasScore(grid: array2<nat>, h: (Cell, Cell) -> real, start: Cell, c: Cell, score: real)
    reads grid
  {
    exists p :: IsWalkTo(grid.Length0, grid.Length1, start, c, p) && WalkScore(grid, h, p) == score
  }

  /** The place of a cell on the heap: the score of a walk to it, less the table value of the cell
      itself, plus the estimate of the rest. */
  ghost predicate HasPriority(grid: array2<nat>, h: (Cell, Cell) -> real, start: Cell, goal: Cell, e: (real, Cell))
    reads grid
  {
    InGrid(grid.Length0, grid.Length1, e.1) &&
    exists score :: HasScore(grid, h, start, e.1, score) &&
      e.0 == score - (if e.1 == start then 0.0 else grid[e.1.r, e.1.c] as real) + h(e.1, goal)
  }

  /** Every score is that of a walk through the table, and so is every priority. */
  ghost predicate Scored(grid: array2<nat>, h: (Cell, Cell) -> real, start: Cell, goal: Cell,
                         gscore: map<Cell, real>, heap: Heap)
    reads grid
  {
    && (forall c :: ScoreAt(grid, h, start, gscore, c))
    && (forall i: nat :: PriorityAt(grid, h, start, goal, heap, i))
  }

  ghost predicate ScoreAt(grid: array2<nat>, h: (Cell, Cell) -> real, start: Cell, gscore: map<Cell, real>, c: Cell)
    reads grid
  {
    c in gscore ==> HasScore(grid, h, start, c, gscore[c])
  }

  ghost predicate PriorityAt(grid: array2<nat>, h: (Cell, Cell) -> real, start: Cell, goal: Cell, heap: Heap, i: nat)
    reads grid
  {
    i < |heap| ==> HasPriority(grid, h, start, goal, heap[i])
  }

  lemma StartScored(grid: array2<nat>, h: (Cell, Cell) -> real, start: Cell, goal: Cell)
    requires InGrid(grid.Length0, grid.Length1, start)
    ensures Scored(grid, h, start, goal, map[start := 0.0], [(h(start, goal), start)])
  {
    assert IsWalkTo(grid.Length0, grid.Length1, start, start, [start]) && WalkScore(grid, h, [start]) == 0.0;
    assert HasScore(grid, h, start, start, 0.0);
    assert HasPriority(grid, h, start, goal, (h(start, goal), start));
  }

  /** One more step of a walk. */
  lemma StepScore(grid: array2<nat>, h: (Cell, Cell) -> real, start: Cell, c: Cell, n: Cell, score: real)
    requires HasScore(grid, h, start, c, score) && IsMove(c, n) && InGrid(grid.Length0, grid.Length1, n)
    ensures HasScore(grid, h, start, n, score + h(c, n) + grid[n.r, n.c] as real)
  {
    var p :| IsWalkTo(grid.Length0, grid.Length1, start, c, p) && WalkScore(grid, h, p) == score;
    var q := [n] + p;
    assert q[1..] == p;
    forall i | 0 <= i < |q| - 1 ensures IsMove(q[i + 1], q[i]) {
      if i > 0 { assert IsMove(p[i - 1 + 1], p[i - 1]); }
    }
    assert IsWalkTo(grid.Length0, grid.Length1, start, n, q);
  }

  lemma PushScored(grid: array2<nat>, h: (Cell, Cell) -> real, start: Cell, goal: Cell, gscore: map<Cell, real>,
                   heap: Heap, current: Cell, n: Cell)
    requires Scored(grid, h, start, goal, gscore, heap) && current in gscore && IsMove(current, n) && n != start
    requires InGrid(grid.Length0, grid.Length1, n)
    ensures var tentative := gscore[current] + h(current, n);
            Scored(grid, h, start, goal, gscore[n := tentative + grid[n.r, n.c] as real],
                   heap + [(tentative + h(n, goal), n)])
  {
    var tentative := gscore[current] + h(current, n);
    var score := tentative + grid[n.r, n.c] as real;
    assert ScoreAt(grid, h, start, gscore, current);
    StepScore(grid, h, start, current, n, gscore[current]);
    assert HasPriority(grid, h, start, goal, (tentative + h(n, goal), n));
    var gscore', heap' := gscore[n := score], heap + [(tentative + h(n, goal), n)];
    forall c ensures ScoreAt(grid, h, start, gscore', c) { assert ScoreAt(grid, h, start, gscore, c); }
    forall i: nat ensures PriorityAt(grid, h, start, goal, heap', i) {
      assert PriorityAt(grid, h, start, goal, heap, i);
    }
  }

  lemma PopScored(grid: array2<nat>, h: (Cell, Cell) -> real, start: Cell, goal: Cell, gscore: map<Cell, real>,
                  heap: Heap, i: nat)
    requires Scored(grid, h, start, goal, gscore, heap) && i < |heap|
    ensures Scored(grid, h, start, goal, gscore, heap[..i] + heap[i + 1..])
  {
    var rest := heap[..i] + heap[i + 1..];
    forall j: nat ensures PriorityAt(grid, h, start, goal, rest, j) {
      assert PriorityAt(grid, h, start, goal, heap, if j < i then j else j + 1);
    }
  }

  lemma NotStart(rows: nat, cols: nat, start: Cell, cameFrom: map<Cell, Cell>, reached: set<Cell>, current: Cell,
                 k: nat)
    requires Linked(rows, cols, start, cameFrom, reached) && current in reached && k < 3
    ensures IsMove(current, Neighbour(current, k)) && Neighbour(current, k) != start
  {
    assert LinkedAt(rows, cols, start, cameFrom, reached, current);
  }

  /** The whole state of the search while the neighbours of `current` are handled. */
  ghost predicate Searching(grid: array2<nat>, h: (Cell, Cell) -> real, start: Cell, goal: Cell, closeSet: set<Cell>,
                            cameFrom: map<Cell, Cell>, gscore: map<Cell, real>, heap: Heap, first: Heap, current: Cell,
                            k: nat)
    requires k <= 3
    reads grid
  {
    && Relaxing(grid.Length0, grid.Length1, start, closeSet, cameFrom, gscore.Keys, heap, first, current, k)
    && Scored(grid, h, start, goal, gscore, heap)
  }

  lemma PushSearching(grid: array2<nat>, h: (Cell, Cell) -> real, start: Cell, goal: Cell, closeSet: set<Cell>,
                      cameFrom: map<Cell, Cell>, gscore: map<Cell, real>, heap: Heap, first: Heap, current: Cell,
                      k: nat)
    requires k < 3 && Searching(grid, h, start, goal, closeSet, cameFrom, gscore, heap, first, current, k)
    requires current in closeSet && InGrid(grid.Length0, grid.Length1, Neighbour(current, k))
    ensures current in gscore
    ensures var n := Neighbour(current, k);
      var tentative := gscore[current] + h(current, n);
      Searching(grid, h, start, goal, closeSet, cameFrom[n := current],
                gscore[n := tentative + grid[n.r, n.c] as real], heap + [(tentative + h(n, goal), n)], first,
                current, k + 1)
  {
    var n := Neighbour(current, k);
    var tentative := gscore[current] + h(current, n);
    NotStart(grid.Length0, grid.Length1, start, cameFrom, closeSet + Cells(heap), current, k);
    PushScored(grid, h, start, goal, gscore, heap, current, n);
    PushKeeps(grid.Length0, grid.Length1, start, closeSet, cameFrom, gscore.Keys, heap, first, current, k,
              tentative + h(n, goal));
    assert gscore[n := tentative + grid[n.r, n.c] as real].Keys == gscore.Keys + {n};
  }

  /** The score of neighbour number `k` is no more than going over `current` adds up to. */
  ghost predicate RelaxedAt(grid: array2<nat>, h: (Cell, Cell) -> real, score: real, gscore: map<Cell, real>,
                            current: Cell, k: nat)
    requires k < 3
    reads grid
  {
    var n := Neighbour(current, k);
    InGrid(grid.Length0, grid.Length1, n) ==>
      n in gscore && gscore[n] <= score + h(current, n) + grid[n.r, n.c] as real
  }

  /** At most the score of `n` differs. */
  ghost predicate OnlyScoreOf(gscore: map<Cell, real>, gscore': map<Cell, real>, n: Cell) {
    gscore' == gscore || (n in gscore' && gscore' == gscore[n := gscore'[n]])
  }

  /** Puts neighbour number `k` of `current` on the heap. */
  method Push(grid: array2<nat>, current: Cell, goal: Cell, h: (Cell, Cell) -> real, closeSet: set<Cell>,
              cameFrom0: map<Cell, Cell>, gscore0: map<Cell, real>, heap0: Heap, k: nat, tentative: real,
              ghost start: Cell, ghost first: Heap)
    returns (cameFrom: map<Cell, Cell>, gscore: map<Cell, real>, heap: Heap)
    requires k < 3 && current in closeSet && InGrid(grid.Length0, grid.Length1, Neighbour(current, k))
    requires Searching(grid, h, start, goal, closeSet, cameFrom0, gscore0, heap0, first, current, k)
    requires current in gscore0 && tentative == gscore0[current] + h(current, Neighbour(current, k))
    ensures Searching(grid, h, start, goal, closeSet, cameFrom, gscore, heap, first, current, k + 1)
    ensures RelaxedAt(grid, h, gscore0[current], gscore, current, k)
    ensures OnlyScoreOf(gscore0, gscore, Neighbour(current, k))
  {
    var neighbour := Neighbour(current, k);
    PushSearching(grid, h, start, goal, closeSet, cameFrom0, gscore0, heap0, first, current, k);
    cameFrom := cameFrom0[neighbour := current];
    var difference := grid[neighbour.r, neighbour.c] as real;
    gscore := gscore0[neighbour := tentative + difference];
    var fscore := tentative + h(neighbour, goal);
    heap := heap0 + [(fscore, neighbour)];
  }

  /** Handles neighbour number `k` of `current`: an unknown or cheaper one is put on the heap. */
  method Visit(grid: array2<nat>, current: Cell, goal: Cell, h: (Cell, Cell) -> real, closeSet: set<Cell>,
               cameFrom0: map<Cell, Cell>, gscore0: map<Cell, real>, heap0: Heap, k: nat,
               ghost start: Cell, ghost first: Heap)
    returns (cameFrom: map<Cell, Cell>, gscore: map<Cell, real>, heap: Heap)
    requires k < 3 && current in closeSet
    requires Searching(grid, h, start, goal, closeSet, cameFrom0, gscore0, heap0, first, current, k)
    ensures Searching(grid, h, start, goal, closeSet, cameFrom, gscore, heap, first, current, k + 1)
    ensures current in gscore0 && RelaxedAt(grid, h, gscore0[current], gscore, current, k)
    ensures OnlyScoreOf(gscore0, gscore, Neighbour(current, k))
  {
    cameFrom, gscore, heap := cameFrom0, gscore0, heap0;
    var neighbour := Neighbour(current, k);
    var tentative := gscore[current] + h(current, neighbour);
    var known := if neighbour in gscore then gscore[neighbour] else 0.0;
    if 0 <= neighbour.r < grid.Length0 && 0 <= neighbour.c < grid.Length1 {
      if !(neighbour in closeSet && tentative >= known) {
        if tentative < known || neighbour !in Cells(heap) {
          cameFrom, gscore, heap :=
            Push(grid, current, goal, h, closeSet, cameFrom, gscore, heap, k, tentative, start, first);
          return;
        }
      }
    }
    SkipKeeps(grid.Length0, grid.Length1, start, closeSet, cameFrom, gscore.Keys, heap, first, current, k);
  }

  lemma OthersRelaxed(grid: array2<nat>, h: (Cell, Cell) -> real, score: real, gscore: map<Cell, real>,
                      gscore': map<Cell, real>, current: Cell, j: nat, k: nat)
    requires j < k < 3 && RelaxedAt(grid, h, score, gscore, current, j)
    requires OnlyScoreOf(gscore, gscore', Neighbour(current, k))
    ensures RelaxedAt(grid, h, score, gscore', current, j)
  {
    assert Neighbour(current, j) != Neighbour(current, k);
  }

  /** The loop over the neighbours of the cell just taken from the heap. */
  method Relax(grid: array2<nat>, current: Cell, goal: Cell, h: (Cell, Cell) -> real, closeSet: set<Cell>,
               cameFrom0: map<Cell, Cell>, gscore0: map<Cell, real>, heap0: Heap, ghost start: Cell)
    returns (cameFrom: map<Cell, Cell>, gscore: map<Cell, real>, heap: Heap)
    requires current in closeSet && closeSet + Cells(heap0) <= gscore0.Keys
    requires Linked(grid.Length0, grid.Length1, start, cameFrom0, closeSet + Cells(heap0))
    requires ClosedUpTo(grid.Length0, grid.Length1, closeSet, Cells(heap0), current, 0)
    requires Scored(grid, h, start, goal, gscore0, heap0)
    ensures closeSet + Cells(heap) <= gscore.Keys && Cells(heap0) <= Cells(heap)
    ensures Linked(grid.Length0, grid.Length1, start, cameFrom, closeSet + Cells(heap))
    ensures Closed(grid.Length0, grid.Length1, closeSet, Cells(heap))
    ensures Load(grid.Length0, grid.Length1, heap) <=
            Load(grid.Length0, grid.Length1, heap0) + PathsFrom(grid.Length0, grid.Length1, current, 0)
    ensures Scored(grid, h, start, goal, gscore, heap)
    ensures forall j :: 0 <= j < 3 ==> RelaxedAt(grid, h, gscore0[current], gscore, current, j)
  {
    cameFrom, gscore, heap := cameFrom0, gscore0, heap0;
    for k := 0 to 3
      invariant current in gscore && gscore[current] == gscore0[current]
      invariant forall j :: 0 <= j < k ==> RelaxedAt(grid, h, gscore0[current], gscore, current, j)
      invariant Searching(grid, h, start, goal, closeSet, cameFrom, gscore, heap, heap0, current, k)
    {
      ghost var before := gscore;
      cameFrom, gscore, heap := Visit(grid, current, goal, h, closeSet, cameFrom, gscore, heap, k, start, heap0);
      forall j | 0 <= j < k ensures RelaxedAt(grid, h, gscore0[current], gscore, current, j) {
        OthersRelaxed(grid, h, gscore0[current], before, gscore, current, j, k);
      }
    }
    ClosedAll(grid.Length0, grid.Length1, closeSet, Cells(heap), current);
  }

  /** Follows the predecessors from the goal back to the start. */
  method Trace(rows: nat, cols: nat, start: Cell, goal: Cell, cameFrom: map<Cell, Cell>, ghost reached: set<Cell>)
    returns (data: seq<Cell>)
    requires Linked(rows, cols, start, cameFrom, reached) && goal in reached
    ensures var p := data + [start]; IsBackward(p) && p[0] == goal
  {
    data := [];
    var current := goal;
    while current in cameFrom
      invariant current in reached && IsBackward(data + [current]) && (data + [current])[0] == goal
      decreases current.r + current.c - start.r - start.c
    {
      assert LinkedAt(rows, cols, start, cameFrom, reached, current);
      var p := data + [current, cameFrom[current]];
      forall i | 0 <= i < |p| - 1 ensures IsMove(p[i + 1], p[i]) {
        assert i < |data| ==> IsMove((data + [current])[i + 1], (data + [current])[i]);
      }
      data := data + [current];
      assert data + [cameFrom[current]] == p;
      assert LinkedAt(rows, cols, start, cameFrom, reached, cameFrom[current]);
      current := cameFrom[current];
    }
    assert LinkedAt(rows, cols, start, cameFrom, reached, current);
  }

  /** Until the goal is finished there is something left to explore. */
  lemma HeapNeverEmpty(rows: nat, cols: nat, start: Cell, goal: Cell, closeSet: set<Cell>, heap: Heap)
    requires Closed(rows, cols, closeSet, Cells(heap)) && start in closeSet + Cells(heap) && goal !in closeSet
    requires InGrid(rows, cols, start) && InGrid(rows, cols, goal) && start.r <= goal.r && start.c <= goal.c
    ensures heap != []
  {
    if heap == [] {
      assert Cells(heap) == {};
      EverythingFinished(rows, cols, start, goal, closeSet);
    }
  }

  /** Best-first search from `start` to `goal`. It always finds a path of backward moves, for any
      estimate `h` whatever. */
  method AStar(grid: array2<nat>, start: Cell, goal: Cell, h: (Cell, Cell) -> real) returns (path: Option<seq<Cell>>)
    requires InGrid(grid.Length0, grid.Length1, start) && InGrid(grid.Length0, grid.Length1, goal)
    requires start.r <= goal.r && start.c <= goal.c
    ensures path.Some?
    ensures var p := path.value + [start]; IsBackward(p) && p[0] == goal
  {
    var rows, cols := grid.Length0, grid.Length1;
    var closeSet: set<Cell> := {};
    var cameFrom: map<Cell, Cell> := map[];
    var gscore: map<Cell, real> := map[start := 0.0];
    var heap: Heap := [(h(start, goal), start)];
    StartScored(grid, h, start, goal);
    while heap != []
      invariant closeSet + Cells(heap) <= gscore.Keys
      invariant Linked(rows, cols, start, cameFrom, closeSet + Cells(heap))
      invariant Closed(rows, cols, closeSet, Cells(heap))
      invariant start in closeSet + Cells(heap) && goal !in closeSet
      invariant Scored(grid, h, start, goal, gscore, heap)
      invariant heap != []
      decreases Load(rows, cols, heap)
    {
      var i, top, rest := HeapPop(heap);
      var current := top.1;
      PopCells(heap, i);
      if current == goal {
        var data := Trace(rows, cols, start, goal, cameFrom, closeSet + Cells(heap));
        return Some(data);
      }
      PopLoad(rows, cols, heap, i);
      PopScored(grid, h, start, goal, gscore, heap, i);
      assert LinkedAt(rows, cols, start, cameFrom, closeSet + Cells(heap), current);
      PathsSplit(rows, cols, current);
      PopState(rows, cols, closeSet, heap, rest, current);
      cameFrom, gscore, heap := Relax(grid, current, goal, h, closeSet + {current}, cameFrom, gscore, rest, start);
      closeSet := closeSet + {current};
      HeapNeverEmpty(rows, cols, start, goal, closeSet, heap);
    }
    path := None;
  }
}
