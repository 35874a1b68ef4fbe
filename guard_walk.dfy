/** The guard's patrol until it leaves the map (`simulate_walk` and
    `part_one` of src/bin/06.rs), against the reference trajectory of
    `GuardPatrol.Move`. */
module GuardWalk {
  import opened Prelude
  import opened GuardPatrol

  // ---------------------------------------------------------------------
  // Trajectories of a step function

  /** A deterministic move from state to state, None once off the grid. */
  type Step = State -> Option<State>

  /** The guard's own move on a grid of `size` with the given obstacles. */
  function Walk(size: (int, int), obstacles: set<Pos>): Step {
    s => Move(size, obstacles, s)
  }

  /** The state after `n` moves, or None once the guard has left the grid. */
  function Iter(step: Step, s: State, n: nat): Option<State>
    decreases n
  {
    if n == 0 then Some(s)
    else match step(s)
      case None => None
      case Some(t) => Iter(step, t, n - 1)
  }

  /** The guard eventually leaves the grid. */
  ghost predicate Exits(step: Step, s: State) {
    exists n: nat :: Iter(step, s, n).None?
  }

  /** A guard that leaves does so after a least number of moves ... */
  lemma {:induction false} LeastExit(step: Step, s: State, n: nat)
    requires Iter(step, s, n).None?
    ensures exists k: nat :: IsExitTime(step, s, k)
    decreases n
  {
    if forall m: nat :: m < n ==> Iter(step, s, m).Some? {
      assert IsExitTime(step, s, n);
    } else {
      var m: nat :| m < n && Iter(step, s, m).None?;
      LeastExit(step, s, m);
    }
  }

  ghost predicate IsExitTime(step: Step, s: State, k: nat) {
    Iter(step, s, k).None? && forall m: nat :: m < k ==> Iter(step, s, m).Some?
  }

  /** ... the number of moves it makes on the grid before stepping off. */
  ghost function ExitTime(step: Step, s: State): (n: nat)
    requires Exits(step, s)
    ensures IsExitTime(step, s, n)
  {
    var n0: nat :| Iter(step, s, n0).None?;
    LeastExit(step, s, n0);
    var n: nat :| IsExitTime(step, s, n);
    n
  }

  /** Each move brings a leaving guard one move closer to the edge. */
  lemma ExitTimeStep(step: Step, s: State)
    requires Exits(step, s) && step(s).Some?
    ensures Exits(step, step(s).value)
    ensures ExitTime(step, step(s).value) < ExitTime(step, s)
  {
    var t := step(s).value;
    var n := ExitTime(step, s);
    assert Iter(step, s, 0).Some?;
    assert Iter(step, t, n - 1) == Iter(step, s, n);
  }

  /** `a + b` moves are `a` moves followed by `b` moves. */
  lemma {:induction false} IterAdd(step: Step, s: State, a: nat, b: nat)
    ensures Iter(step, s, a + b) ==
      match Iter(step, s, a)
      case None => None
      case Some(t) => Iter(step, t, b)
    decreases a
  {
    if a > 0 {
      match step(s)
      case None =>
      case Some(t) =>
        IterAdd(step, t, a - 1, b);
    }
  }

  /** Once the guard has left, it stays gone. */
  lemma IterGone(step: Step, s: State, n: nat, m: nat)
    requires n <= m && Iter(step, s, n).None?
    ensures Iter(step, s, m).None?
  {
    IterAdd(step, s, n, m - n);
  }

  /** Whether the guard leaves depends only on its next move. */
  lemma ExitsStep(step: Step, s: State)
    ensures step(s).None? ==> Exits(step, s)
    ensures step(s).Some? ==> (Exits(step, s) <==> Exits(step, step(s).value))
  {
    match step(s)
    case None =>
      assert Iter(step, s, 1).None?;
    case Some(t) =>
      if Exits(step, s) {
        var n: nat :| Iter(step, s, n).None?;
        assert Iter(step, t, n - 1).None?;
      }
      if Exits(step, t) {
        var n: nat :| Iter(step, t, n).None?;
        assert Iter(step, s, n + 1).None?;
      }
  }

  /** Two states with the same next move leave, or do not, together. */
  lemma SameMoveSameExits(step: Step, s1: State, s2: State)
    requires step(s1) == step(s2)
    ensures Exits(step, s1) <==> Exits(step, s2)
  {
    ExitsStep(step, s1);
    ExitsStep(step, s2);
  }

  /** A state seen twice means the guard walks in a loop and never leaves. */
  lemma RepeatLoops(step: Step, s: State, j: nat, k: nat)
    requires j < k && Iter(step, s, k).Some?
    requires Iter(step, s, j) == Iter(step, s, k)
    ensures !Exits(step, s)
  {
    forall n: nat ensures Iter(step, s, n).Some? {
      RepeatSome(step, s, j, k, n);
    }
  }

  lemma {:induction false} RepeatSome(step: Step, s: State, j: nat, k: nat, n: nat)
    requires j < k && Iter(step, s, k).Some?
    requires Iter(step, s, j) == Iter(step, s, k)
    ensures Iter(step, s, n).Some?
    decreases n
  {
    if n <= k {
      if Iter(step, s, n).None? {
        IterGone(step, s, n, k);
      }
    } else {
      IterAdd(step, s, k, n - k);
      IterAdd(step, s, j, n - k);
      RepeatSome(step, s, j, k, j + (n - k));
    }
  }

  // ---------------------------------------------------------------------
  // Visited cells

  /** The guard stands on `p` at some point of its walk. */
  ghost predicate Reached(step: Step, s: State, p: Pos) {
    exists k: nat :: Iter(step, s, k).Some? && Iter(step, s, k).value.pos == p
  }

  /** The cells of a grid of `size` the guard stands on at some point. */
  ghost function Visited(size: (int, int), step: Step, s: State): set<Pos> {
    set p | p in GridCells(size) && Reached(step, s, p)
  }

  /** The cells visited from `s` are its own cell and those visited after
      its next move. */
  lemma VisitedStep(size: (int, int), step: Step, s: State)
    requires IsInsideGrid(s.pos, size)
    ensures Visited(size, step, s) ==
      {s.pos} + match step(s)
        case None => {}
        case Some(t) => Visited(size, step, t)
  {
    assert Iter(step, s, 0) == Some(s);
    forall p | p in Visited(size, step, s) && p != s.pos
      ensures step(s).Some? && p in Visited(size, step, step(s).value)
    {
      var k: nat :| Iter(step, s, k).Some? && Iter(step, s, k).value.pos == p;
      assert k > 0;
      var t := step(s).value;
      assert Iter(step, t, k - 1) == Iter(step, s, k);
    }
    if step(s).Some? {
      var t := step(s).value;
      forall p | p in Visited(size, step, t) ensures p in Visited(size, step, s) {
        var k: nat :| Iter(step, t, k).Some? && Iter(step, t, k).value.pos == p;
        assert Iter(step, s, k + 1) == Iter(step, t, k);
      }
    }
  }

  // ---------------------------------------------------------------------
  // simulate_walk

  /** The conditions under which the source's walk ends: the guard stands on
      the map on its `GuardTile`, no other guard is in its way, it is not
      boxed in, and it eventually leaves. */
  ghost predicate Patrol(grid: Grid, guard: Guard) {
    Rectangular(grid) && WellFormed(guard) && IsInsideGrid(guard.pos, GridSize(grid)) &&
    At(grid, guard.pos) == GuardTile(guard.dir) && NoOtherGuard(grid, guard.pos) &&
    !WalledIn(ObstaclesOf(grid), guard.pos) &&
    Exits(Walk(GridSize(grid), ObstaclesOf(grid)), StateOf(guard))
  }

  /** `simulate_walk`: the grid after the guard has left, with `Walked` on
      exactly the cells it stood on and every other tile as it was. */
  method SimulateWalk(grid: Grid, guard: Guard) returns (walked: Grid)
    requires Patrol(grid, guard)
    ensures Rectangular(walked) && GridSize(walked) == GridSize(grid)
    ensures forall p :: Inside(grid, p) ==>
      At(walked, p) == if p in Visited(GridSize(grid), Walk(GridSize(grid), ObstaclesOf(grid)), StateOf(guard)) then Walked else At(grid, p)
  {
    ghost var seen: set<Pos> := {};
    var g := guard;
    walked := grid;
    WalkInvInit(grid, guard);
    while true
      invariant WalkInv(grid, guard, walked, g, seen)
      decreases ExitTime(Walk(GridSize(grid), ObstaclesOf(grid)), StateOf(g))
    {
      WalkInvGuard(grid, guard, walked, g, seen);
      var next := GetNewGuard(g, walked);
      match next {
        case None =>
          WalkInvDone(grid, guard, walked, g, seen);
          walked := SetTile(walked, g.pos, Walked);
          return;
        case Some(ng) =>
          WalkInvStep(grid, guard, walked, g, seen, ng);
          walked := SetTile(walked, g.pos, Walked);
          walked := SetTile(walked, ng.pos, GuardTile(ng.dir));
          seen := seen + {g.pos};
          g := ng;
      }
    }
  }

  /** The loop invariant of `simulate_walk` at guard `g`, after the cells in
      `seen` were left behind. */
  ghost predicate WalkInv(grid: Grid, guard: Guard, walked: Grid, g: Guard, seen: set<Pos>) {
    Rectangular(grid) && NoOtherGuard(grid, guard.pos) &&
    Rectangular(walked) && GridSize(walked) == GridSize(grid) && ObstaclesOf(walked) == ObstaclesOf(grid) &&
    WellFormed(g) && IsInsideGrid(g.pos, GridSize(grid)) &&
    g.pos !in ObstaclesOf(grid) && !WalledIn(ObstaclesOf(grid), g.pos) &&
    Exits(Walk(GridSize(grid), ObstaclesOf(grid)), StateOf(g)) &&
    Visited(GridSize(grid), Walk(GridSize(grid), ObstaclesOf(grid)), StateOf(guard)) ==
      seen + Visited(GridSize(grid), Walk(GridSize(grid), ObstaclesOf(grid)), StateOf(g)) &&
    (guard.pos == g.pos || guard.pos in seen) &&
    WalkMarks(grid, walked, StateOf(g), seen)
  }

  lemma WalkInvInit(grid: Grid, guard: Guard)
    requires Patrol(grid, guard)
    ensures WalkInv(grid, guard, grid, guard, {})
  {
    assert Visited(GridSize(grid), Walk(GridSize(grid), ObstaclesOf(grid)), StateOf(guard)) == {} + Visited(GridSize(grid), Walk(GridSize(grid), ObstaclesOf(grid)), StateOf(guard));
    ObstacleMember(grid, guard.pos);
  }

  lemma WalkInvGuard(grid: Grid, guard: Guard, walked: Grid, g: Guard, seen: set<Pos>)
    requires WalkInv(grid, guard, walked, g, seen)
    ensures NoOtherGuard(walked, g.pos)
  {
    WalkMarksNoOtherGuard(grid, walked, StateOf(g), seen, guard.pos);
  }

  lemma WalkInvStep(grid: Grid, guard: Guard, walked: Grid, g: Guard, seen: set<Pos>, ng: Guard)
    requires WalkInv(grid, guard, walked, g, seen)
    requires NoOtherGuard(walked, g.pos) && GetNewGuard(g, walked) == Some(ng)
    ensures Inside(walked, g.pos) && Inside(SetTile(walked, g.pos, Walked), ng.pos)
    ensures WalkInv(grid, guard, SetTile(SetTile(walked, g.pos, Walked), ng.pos, GuardTile(ng.dir)), ng, seen + {g.pos})
    ensures ExitTime(Walk(GridSize(grid), ObstaclesOf(grid)), StateOf(ng)) < ExitTime(Walk(GridSize(grid), ObstaclesOf(grid)), StateOf(g))
  {
    NextGuard(walked, g, ng);
    MarkTwice(walked, g.pos, Walked, ng.pos, GuardTile(ng.dir));
    WalkMarksStep(grid, walked, StateOf(g), seen, StateOf(ng));
    WalkProgress(GridSize(grid), ObstaclesOf(grid), StateOf(guard), StateOf(g), StateOf(ng), seen);
  }

  /** One move keeps the account of visited cells and brings the exit closer. */
  lemma WalkProgress(size: (int, int), o: set<Pos>, s0: State, s: State, t: State, seen: set<Pos>)
    requires IsInsideGrid(s.pos, size) && Exits(Walk(size, o), s) && Walk(size, o)(s) == Some(t)
    requires Visited(size, Walk(size, o), s0) == seen + Visited(size, Walk(size, o), s)
    ensures Exits(Walk(size, o), t) && ExitTime(Walk(size, o), t) < ExitTime(Walk(size, o), s)
    ensures Visited(size, Walk(size, o), s0) == seen + {s.pos} + Visited(size, Walk(size, o), t)
  {
    VisitedStep(size, Walk(size, o), s);
    ExitTimeStep(Walk(size, o), s);
  }

  /** The guard `get_new_guard` returns is the reference move, lands on a
      free cell other than its old one, and is not boxed in there. */
  lemma NextGuard(grid: Grid, g: Guard, ng: Guard)
    requires Rectangular(grid) && WellFormed(g) && IsInsideGrid(g.pos, GridSize(grid))
    requires g.pos !in ObstaclesOf(grid) && !WalledIn(ObstaclesOf(grid), g.pos)
    requires NoOtherGuard(grid, g.pos) && GetNewGuard(g, grid) == Some(ng)
    ensures Walk(GridSize(grid), ObstaclesOf(grid))(StateOf(g)) == Some(StateOf(ng))
    ensures WellFormed(ng) && IsInsideGrid(ng.pos, GridSize(grid)) && ng.pos != g.pos
    ensures ng.pos !in ObstaclesOf(grid) && !WalledIn(ObstaclesOf(grid), ng.pos)
    ensures !WalledIn(ObstaclesOf(grid) + {Forward(ng.pos, ng.dir)}, ng.pos)
  {
    var size := GridSize(grid);
    var o := ObstaclesOf(grid);
    MoveFacts(size, o, StateOf(g));
    ArrivedNotWalledIn(size, o, StateOf(g), StateOf(ng));
  }

  /** Writing two tiles that are not obstacles over cells that are not keeps
      the obstacles. */
  lemma MarkTwice(grid: Grid, p: Pos, t: Tile, q: Pos, u: Tile)
    requires Inside(grid, p) && Inside(grid, q) && p !in ObstaclesOf(grid) && q !in ObstaclesOf(grid)
    requires !IsObstacle(t) && !IsObstacle(u)
    ensures Inside(SetTile(grid, p, t), q)
    ensures ObstaclesOf(SetTile(SetTile(grid, p, t), q, u)) == ObstaclesOf(grid)
  {
    ObstacleMember(grid, p);
    SetTileKeepsObstacles(grid, p, t);
    var w := SetTile(grid, p, t);
    ObstacleMember(w, q);
    SetTileKeepsObstacles(w, q, u);
  }

  lemma WalkInvDone(grid: Grid, guard: Guard, walked: Grid, g: Guard, seen: set<Pos>)
    requires WalkInv(grid, guard, walked, g, seen)
    requires NoOtherGuard(walked, g.pos) && GetNewGuard(g, walked).None?
    ensures Inside(walked, g.pos)
    ensures var w := SetTile(walked, g.pos, Walked);
      Rectangular(w) && GridSize(w) == GridSize(grid) &&
      forall p :: Inside(grid, p) ==>
        At(w, p) == if p in Visited(GridSize(grid), Walk(GridSize(grid), ObstaclesOf(grid)), StateOf(guard)) then Walked else At(grid, p)
  {
    VisitedStep(GridSize(grid), Walk(GridSize(grid), ObstaclesOf(grid)), StateOf(g));
    WalkMarksLast(grid, walked, StateOf(g), seen);
  }

  /** The tiles during `simulate_walk`: the guard's own tile where it stands,
      `Walked` where it stood before, the original tile elsewhere. */
  ghost predicate WalkMarks(grid: Grid, walked: Grid, s: State, seen: set<Pos>) {
    Rectangular(grid) && Rectangular(walked) && GridSize(walked) == GridSize(grid) &&
    forall p :: Inside(grid, p) ==>
      At(walked, p) == if p == s.pos then GuardTile(s.dir) else if p in seen then Walked else At(grid, p)
  }

  lemma WalkMarksNoOtherGuard(grid: Grid, walked: Grid, s: State, seen: set<Pos>, start: Pos)
    requires WalkMarks(grid, walked, s, seen) && NoOtherGuard(grid, start)
    requires start == s.pos || start in seen
    ensures NoOtherGuard(walked, s.pos)
  {
    forall y, x | 0 <= y < |walked| && 0 <= x < |walked[y]| && (x, y) != s.pos
      ensures !walked[y][x].GuardTile?
    {
      assert Inside(grid, (x, y));
    }
  }

  lemma WalkMarksStep(grid: Grid, walked: Grid, s: State, seen: set<Pos>, t: State)
    requires WalkMarks(grid, walked, s, seen) && Inside(grid, s.pos) && Inside(grid, t.pos)
    ensures WalkMarks(grid, SetTile(SetTile(walked, s.pos, Walked), t.pos, GuardTile(t.dir)), t, seen + {s.pos})
  {
  }

  lemma WalkMarksLast(grid: Grid, walked: Grid, s: State, seen: set<Pos>)
    requires WalkMarks(grid, walked, s, seen) && Inside(grid, s.pos)
    ensures var w := SetTile(walked, s.pos, Walked);
      forall p :: Inside(grid, p) ==> At(w, p) == if p in seen + {s.pos} then Walked else At(grid, p)
  {
  }

  // ---------------------------------------------------------------------
  // Counting tiles

  /** How many of the first `m` tiles of `row` are `t`. */
  function CountInRow(row: seq<Tile>, t: Tile, m: nat): nat
    requires m <= |row|
  {
    if m == 0 then 0 else CountInRow(row, t, m - 1) + if row[m - 1] == t then 1 else 0
  }

  /** The tile count of `part_one`: per row the tiles equal to `t`, summed
      over the first `n` rows. */
  function CountInRows(grid: Grid, t: Tile, n: nat): nat
    requires n <= |grid|
  {
    if n == 0 then 0 else CountInRows(grid, t, n - 1) + CountInRow(grid[n - 1], t, |grid[n - 1]|)
  }

  ghost function RowCellsWith(row: seq<Tile>, y: int, t: Tile, m: nat): set<Pos>
    requires m <= |row|
  {
    set x | 0 <= x < m && row[x] == t :: (x, y)
  }

  ghost function CellsWith(grid: Grid, t: Tile, n: nat): set<Pos>
    requires n <= |grid|
  {
    set y, x | 0 <= y < n && 0 <= x < |grid[y]| && grid[y][x] == t :: (x, y)
  }

  lemma {:induction false} CountInRowCells(row: seq<Tile>, y: int, t: Tile, m: nat)
    requires m <= |row|
    ensures CountInRow(row, t, m) == |RowCellsWith(row, y, t, m)|
  {
    if m > 0 {
      CountInRowCells(row, y, t, m - 1);
      if row[m - 1] == t {
        assert RowCellsWith(row, y, t, m) == RowCellsWith(row, y, t, m - 1) + {(m - 1, y)};
      } else {
        assert RowCellsWith(row, y, t, m) == RowCellsWith(row, y, t, m - 1);
      }
    }
  }

  /** Counting tiles row by row counts the cells holding them. */
  lemma {:induction false} CountInRowsCells(grid: Grid, t: Tile, n: nat)
    requires n <= |grid|
    ensures CountInRows(grid, t, n) == |CellsWith(grid, t, n)|
  {
    if n > 0 {
      CountInRowsCells(grid, t, n - 1);
      CountInRowCells(grid[n - 1], n - 1, t, |grid[n - 1]|);
      CellsWithSplit(grid, t, n);
    }
  }

  /** The cells of the first `n` rows are those of the first `n - 1` rows
      and, apart from them, those of row `n - 1`. */
  lemma CellsWithSplit(grid: Grid, t: Tile, n: nat)
    requires 0 < n <= |grid|
    ensures var row := RowCellsWith(grid[n - 1], n - 1, t, |grid[n - 1]|);
      CellsWith(grid, t, n) == CellsWith(grid, t, n - 1) + row &&
      CellsWith(grid, t, n - 1) * row == {}
  {
    var row := RowCellsWith(grid[n - 1], n - 1, t, |grid[n - 1]|);
    forall p | p in CellsWith(grid, t, n) ensures p in CellsWith(grid, t, n - 1) + row {
      var (x, y) := p;
      if y == n - 1 {
        assert p in row;
      }
    }
    forall p | p in row ensures p in CellsWith(grid, t, n) {
      var (x, y) := p;
      assert grid[y][x] == t;
    }
  }

  // ---------------------------------------------------------------------
  // part_one

  /** `part_one`: the number of distinct cells the guard stands on before it
      leaves the map. */
  method PartOne(input: string) returns (count: nat)
    requires ValidText(Lines(input))
    requires var grid := ParseInput(input); FindGuard(grid).Some? && Patrol(grid, FindGuard(grid).value)
    ensures var grid := ParseInput(input);
      count == |Visited(GridSize(grid), Walk(GridSize(grid), ObstaclesOf(grid)), StateOf(FindGuard(grid).value))|
  {
    var grid := ParseInput(input);
    var guard := FindGuard(grid).value;
    var walked := SimulateWalk(grid, guard);
    count := CountInRows(walked, Walked, |walked|);
    ghost var visited := Visited(GridSize(grid), Walk(GridSize(grid), ObstaclesOf(grid)), StateOf(guard));
    CountInRowsCells(walked, Walked, |walked|);
    forall p | p in CellsWith(walked, Walked, |walked|) ensures p in visited {
      assert Inside(grid, p);
    }
    forall p | p in visited ensures p in CellsWith(walked, Walked, |walked|) {
      assert Inside(grid, p);
      var (x, y) := p;
      assert walked[y][x] == Walked;
    }
    assert CellsWith(walked, Walked, |walked|) == visited;
  }

  /** The guard stands on at least its starting cell, and on no more cells
      than the map has. */
  lemma VisitedBounds(grid: Grid, guard: Guard)
    requires Patrol(grid, guard)
    ensures var size := GridSize(grid);
      var v := Visited(size, Walk(size, ObstaclesOf(grid)), StateOf(guard));
      guard.pos in v && |v| <= size.0 * size.1
  {
    var size := GridSize(grid);
    assert Iter(Walk(size, ObstaclesOf(grid)), StateOf(guard), 0) == Some(StateOf(guard));
    var v := Visited(size, Walk(size, ObstaclesOf(grid)), StateOf(guard));
    var all := GridCells(size);
    assert v <= all;
    Cardinality(v, all);
    CellCount(size.0, size.1);
  }

  /** The w * h cells of a w-by-h grid. */
  lemma {:induction false} CellCount(w: nat, h: nat)
    ensures |GridCells((w, h))| == w * h
  {
    if h > 0 {
      CellCount(w, h - 1);
      RowCount(w, h - 1);
      CellsSplit(w, h);
      RowProduct(w, h);
    }
  }

  /** The cells of a w-by-h grid are those of its first h - 1 rows and,
      apart from them, its last row. */
  lemma CellsSplit(w: nat, h: nat)
    requires h > 0
    ensures GridCells((w, h)) == GridCells((w, h - 1)) + RowOfCells(w, h - 1)
    ensures GridCells((w, h - 1)) * RowOfCells(w, h - 1) == {}
  {
    forall p | p in RowOfCells(w, h - 1) ensures p in GridCells((w, h)) && p !in GridCells((w, h - 1)) {
      assert p.1 == h - 1;
    }
    forall p | p in GridCells((w, h)) && p !in GridCells((w, h - 1)) ensures p in RowOfCells(w, h - 1) {
      var (x, y) := p;
      assert y == h - 1;
    }
  }

  lemma RowProduct(w: nat, h: nat)
    requires h > 0
    ensures w * h == w * (h - 1) + w
  {
  }

  ghost function RowOfCells(w: int, y: int): set<Pos> {
    set x | 0 <= x < w :: (x, y)
  }

  lemma {:induction false} RowCount(w: nat, y: int)
    ensures |RowOfCells(w, y)| == w
  {
    if w > 0 {
      RowCount(w - 1, y);
      assert RowOfCells(w, y) == RowOfCells(w - 1, y) + {(w - 1, y)};
    }
  }

  lemma Cardinality(small: set<Pos>, big: set<Pos>)
    requires small <= big
    ensures |small| <= |big|
  {
    assert big == small + (big - small);
  }
}
