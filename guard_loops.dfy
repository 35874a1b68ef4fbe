/** The search for obstructions that trap the guard in a loop
    (`simulate_walk_3`, `can_create_loop`, `simulate_walk_2` and `part_two`
    of src/bin/06.rs), what that search finds, and a corrected search. */
module GuardLoops {
  import opened Prelude
  import opened GuardPatrol
  import opened GuardWalk

  // ---------------------------------------------------------------------
  // More about trajectories

  /** `n + 1` moves are `n` moves and one more. */
  lemma IterSnoc(step: Step, s: State, n: nat)
    ensures Iter(step, s, n + 1) ==
      match Iter(step, s, n)
      case None => None
      case Some(u) => step(u)
  {
    IterAdd(step, s, n, 1);
    match Iter(step, s, n)
    case None =>
    case Some(u) =>
      assert Iter(step, u, 1) == step(u);
  }

  /** Whether the guard leaves is decided again at every state it reaches. */
  lemma ExitsAfter(step: Step, s: State, k: nat)
    requires Iter(step, s, k).Some?
    ensures Exits(step, s) <==> Exits(step, Iter(step, s, k).value)
  {
    var t := Iter(step, s, k).value;
    if Exits(step, s) {
      var n: nat :| Iter(step, s, n).None?;
      if n <= k {
        IterGone(step, s, n, k);
      }
      IterAdd(step, s, k, n - k);
      assert Iter(step, t, n - k).None?;
    }
    if Exits(step, t) {
      var n: nat :| Iter(step, t, n).None?;
      IterAdd(step, s, k, n);
      assert Iter(step, s, k + n).None?;
    }
  }

  /** The cells of the first `k` states of the walk. */
  ghost function Prefix(step: Step, s: State, k: nat): set<Pos> {
    if k == 0 then {}
    else Prefix(step, s, k - 1) + match Iter(step, s, k - 1)
      case None => {}
      case Some(t) => {t.pos}
  }

  lemma {:induction false} PrefixMember(step: Step, s: State, k: nat, p: Pos)
    ensures p in Prefix(step, s, k) <==>
      exists j: nat :: j < k && Iter(step, s, j).Some? && Iter(step, s, j).value.pos == p
  {
    if k > 0 {
      PrefixMember(step, s, k - 1, p);
      var u := Iter(step, s, k - 1);
      if p in Prefix(step, s, k - 1) {
        var j: nat :| j < k - 1 && Iter(step, s, j).Some? && Iter(step, s, j).value.pos == p;
        assert j < k && Iter(step, s, j).Some? && Iter(step, s, j).value.pos == p;
      } else if p in Prefix(step, s, k) {
        assert u.Some? && u.value.pos == p;
        var j: nat := k - 1;
        assert j < k && Iter(step, s, j).Some? && Iter(step, s, j).value.pos == p;
      }
      if exists j: nat :: j < k && Iter(step, s, j).Some? && Iter(step, s, j).value.pos == p {
        var j: nat :| j < k && Iter(step, s, j).Some? && Iter(step, s, j).value.pos == p;
        if j < k - 1 {
          assert exists i: nat :: i < k - 1 && Iter(step, s, i).Some? && Iter(step, s, i).value.pos == p;
        } else {
          assert Prefix(step, s, k) == Prefix(step, s, k - 1) + {u.value.pos};
        }
        assert p in Prefix(step, s, k);
      }
      assert p in Prefix(step, s, k) ==> exists j: nat :: j < k && Iter(step, s, j).Some? && Iter(step, s, j).value.pos == p;
    }
  }

  lemma {:induction false} PrefixGrows(step: Step, s: State, j: nat, k: nat)
    requires j <= k
    ensures Prefix(step, s, j) <= Prefix(step, s, k)
    decreases k
  {
    if j < k {
      PrefixGrows(step, s, j, k - 1);
    }
  }

  /** A guard boxed in on all four sides never leaves. */
  lemma WalledInStays(size: (int, int), obstacles: set<Pos>, s: State)
    requires WalledIn(obstacles, s.pos)
    ensures !Exits(Walk(size, obstacles), s)
  {
    assert Walk(size, obstacles)(s) == Some(s);
    assert Iter(Walk(size, obstacles), s, 1) == Iter(Walk(size, obstacles), s, 0);
    RepeatLoops(Walk(size, obstacles), s, 0, 1);
  }

  /** One more obstacle on a cell the move neither turns at nor enters does
      not change the move. */
  lemma MoveUnaffected(size: (int, int), obstacles: set<Pos>, c: Pos, s: State)
    requires c !in obstacles && IsInsideGrid(c, size)
    requires Move(size, obstacles, s).None? || Move(size, obstacles, s).value.pos != c
    ensures Move(size, obstacles + {c}, s) == Move(size, obstacles, s)
  {
    TurnRightCycle(s.dir);
  }

  /** Two steps that agree wherever the first does not end on `c` take
      the same first `k` moves from a state whose first `k + 1` cells avoid
      `c`. */
  lemma {:induction false} IterAgree(w: Step, w': Step, c: Pos, s: State, k: nat)
    requires forall u :: w(u).None? || w(u).value.pos != c ==> w'(u) == w(u)
    requires Iter(w, s, k).Some? && c !in Prefix(w, s, k + 1)
    ensures Iter(w', s, k) == Iter(w, s, k)
  {
    if k > 0 {
      IterSnoc(w, s, k - 1);
      IterSnoc(w', s, k - 1);
      PrefixGrows(w, s, k, k + 1);
      IterAgree(w, w', c, s, k - 1);
      PrefixMember(w, s, k + 1, Iter(w, s, k).value.pos);
    }
  }

  /** One more obstacle off the first `k + 1` cells of the walk leaves its
      first `k` moves as they were. */
  lemma IterUnaffected(size: (int, int), obstacles: set<Pos>, c: Pos, s: State, k: nat)
    requires c !in obstacles && IsInsideGrid(c, size)
    requires Iter(Walk(size, obstacles), s, k).Some?
    requires c !in Prefix(Walk(size, obstacles), s, k + 1)
    ensures Iter(Walk(size, obstacles + {c}), s, k) == Iter(Walk(size, obstacles), s, k)
  {
    var w := Walk(size, obstacles);
    var w' := Walk(size, obstacles + {c});
    forall u | w(u).None? || w(u).value.pos != c ensures w'(u) == w(u) {
      MoveUnaffected(size, obstacles, c, u);
    }
    IterAgree(w, w', c, s, k);
  }

  // ---------------------------------------------------------------------
  // simulate_walk_3

  /** After its first move the walk reaches a state of `v`. */
  ghost predicate ReachesAfter(step: Step, s: State, v: set<State>) {
    exists m: nat :: 1 <= m && Iter(step, s, m).Some? && Iter(step, s, m).value in v
  }

  /** The states of a grid of `size`: a cell and a heading. */
  ghost function States(size: (int, int)): set<State> {
    set p, d: Direction | p in GridCells(size) && d in {Up, Down, Left, Right} :: State(p, d)
  }

  lemma InStates(size: (int, int), s: State)
    requires IsInsideGrid(s.pos, size)
    ensures s in States(size)
  {
    var (p, d) := (s.pos, s.dir);
    assert d == Up || d == Down || d == Left || d == Right;
    assert d in {Up, Down, Left, Right};
    assert State(p, d) in States(size);
  }

  /** `simulate_walk_3`: walk on, marking cells `Walked2` and recording
      states, until a state repeats one already recorded (`true`) or the
      guard leaves (`false`). Started with the states `visitedStates`
      already recorded, it answers whether the guard never leaves or comes
      back to one of them after its first move. */
  method SimulateWalk3(grid: Grid, guard: Guard, visitedStates: set<State>) returns (loops: bool)
    requires Rectangular(grid) && WellFormed(guard) && IsInsideGrid(guard.pos, GridSize(grid))
    requires NoOtherGuard(grid, guard.pos) && !IsObstacle(At(grid, guard.pos))
    requires !WalledIn(ObstaclesOf(grid), guard.pos)
    ensures loops <==>
      !Exits(Walk(GridSize(grid), ObstaclesOf(grid)), StateOf(guard)) ||
      ReachesAfter(Walk(GridSize(grid), ObstaclesOf(grid)), StateOf(guard), visitedStates)
  {
    ghost var w := Walk(GridSize(grid), ObstaclesOf(grid));
    var g := guard;
    var marked := grid;
    var visited := visitedStates;
    ghost var mine: set<State> := {};
    ghost var k: nat := 0;
    ObstacleMember(grid, guard.pos);
    while true
      invariant DetectFrame(grid, marked, g)
      invariant TraceInv(w, StateOf(guard), visitedStates, StateOf(g), visited, mine, k)
      decreases |States(GridSize(grid)) - visited| + if StateOf(g) in visited then 1 else 0
    {
      DetectMark(grid, marked, g);
      marked := SetTile(marked, g.pos, Walked2(g.dir));
      ghost var seen := visited;
      visited := visited + {State(g.pos, g.dir)};
      var next := GetNewGuard(g, marked);
      match next {
        case None =>
          TraceExit(w, StateOf(guard), visitedStates, StateOf(g), seen, mine, k);
          return false;
        case Some(ng) =>
          NextGuard(marked, g, ng);
          if State(ng.pos, ng.dir) in visited {
            TraceFound(w, StateOf(guard), visitedStates, StateOf(g), seen, mine, k, StateOf(ng));
            return true;
          }
          TraceStep(w, StateOf(guard), visitedStates, StateOf(g), seen, mine, k, StateOf(ng));
          StatesShrink(GridSize(grid), seen, StateOf(g));
          NoGuardNoOther(marked, ng.pos);
          mine := mine + {StateOf(g)};
          g := ng;
          k := k + 1;
      }
    }
  }

  /** What `simulate_walk_3` keeps of the grid: the marks change no obstacle
      and leave no other guard, and the guard stands on a free cell. */
  ghost predicate DetectFrame(grid: Grid, marked: Grid, g: Guard) {
    Rectangular(grid) && Rectangular(marked) && GridSize(marked) == GridSize(grid) &&
    ObstaclesOf(marked) == ObstaclesOf(grid) &&
    WellFormed(g) && IsInsideGrid(g.pos, GridSize(grid)) &&
    g.pos !in ObstaclesOf(grid) && !WalledIn(ObstaclesOf(grid), g.pos) &&
    NoOtherGuard(marked, g.pos)
  }

  /** The record of `simulate_walk_3` after `k` moves from `s0`, standing at
      `s`: the states recorded on the way (`mine`) are earlier states of the
      walk, and no state after the first is one of the given states `v`. */
  ghost predicate TraceInv(step: Step, s0: State, v: set<State>, s: State,
                           visited: set<State>, mine: set<State>, k: nat) {
    Iter(step, s0, k) == Some(s) && visited == v + mine &&
    (forall x :: x in mine ==> exists m: nat :: m < k && Iter(step, s0, m) == Some(x)) &&
    (forall m: nat :: 1 <= m <= k ==> Iter(step, s0, m).Some? && Iter(step, s0, m).value !in v)
  }

  /** No `GuardTile` anywhere. */
  predicate NoGuard(grid: Grid) {
    forall y, x :: 0 <= y < |grid| && 0 <= x < |grid[y]| ==> !grid[y][x].GuardTile?
  }

  lemma NoGuardNoOther(grid: Grid, q: Pos)
    requires NoGuard(grid)
    ensures NoOtherGuard(grid, q)
  {
  }

  /** Marking the guard's own cell with a tile that is not a guard leaves
      no guard on the grid. */
  lemma MarkClearsGuard(grid: Grid, p: Pos, t: Tile)
    requires Inside(grid, p) && NoOtherGuard(grid, p) && !t.GuardTile?
    ensures NoGuard(SetTile(grid, p, t))
  {
    var r: Grid := SetTile(grid, p, t);
    forall y: int, x: int | 0 <= y < |r| && 0 <= x < |r[y]| ensures !r[y][x].GuardTile? {
      assert Inside(grid, (x, y));
    }
  }

  /** Writing a tile that is not a guard adds no guard. */
  lemma SetTileNoGuard(grid: Grid, p: Pos, t: Tile, q: Pos)
    requires Inside(grid, p) && NoOtherGuard(grid, q) && !t.GuardTile?
    ensures NoOtherGuard(SetTile(grid, p, t), q)
  {
    var r: Grid := SetTile(grid, p, t);
    forall y: int, x: int | 0 <= y < |r| && 0 <= x < |r[y]| && (x, y) != q ensures !r[y][x].GuardTile? {
      assert Inside(grid, (x, y));
    }
  }

  /** Marking the guard's cell `Walked2` keeps what `get_new_guard` needs. */
  lemma DetectMark(grid: Grid, marked: Grid, g: Guard)
    requires DetectFrame(grid, marked, g)
    ensures Inside(marked, g.pos)
    ensures var m := SetTile(marked, g.pos, Walked2(g.dir));
      Rectangular(m) && GridSize(m) == GridSize(grid) && ObstaclesOf(m) == ObstaclesOf(grid) &&
      NoGuard(m) && NoOtherGuard(m, g.pos)
  {
    ObstacleMember(marked, g.pos);
    SetTileKeepsObstacles(marked, g.pos, Walked2(g.dir));
    MarkClearsGuard(marked, g.pos, Walked2(g.dir));
    NoGuardNoOther(SetTile(marked, g.pos, Walked2(g.dir)), g.pos);
  }

  /** The guard leaves: the walk exits, and every state after the first
      was checked against `v`. */
  lemma TraceExit(step: Step, s0: State, v: set<State>, s: State,
                  visited: set<State>, mine: set<State>, k: nat)
    requires TraceInv(step, s0, v, s, visited, mine, k)
    requires step(s).None?
    ensures Exits(step, s0) && !ReachesAfter(step, s0, v)
  {
    IterSnoc(step, s0, k);
    assert Iter(step, s0, k + 1).None?;
    if ReachesAfter(step, s0, v) {
      var m: nat :| 1 <= m && Iter(step, s0, m).Some? && Iter(step, s0, m).value in v;
      if m > k {
        IterGone(step, s0, k + 1, m);
      }
      assert false;
    }
  }

  /** The next state was recorded: either it is one of `v`, or the walk
      repeats a state and so goes round for ever. */
  lemma TraceFound(step: Step, s0: State, v: set<State>, s: State,
                   visited: set<State>, mine: set<State>, k: nat, t: State)
    requires TraceInv(step, s0, v, s, visited, mine, k)
    requires step(s) == Some(t) && t in visited + {s}
    ensures !Exits(step, s0) || ReachesAfter(step, s0, v)
  {
    IterSnoc(step, s0, k);
    assert Iter(step, s0, k + 1) == Some(t);
    if t in v {
      assert ReachesAfter(step, s0, v);
    } else if t in mine {
      var m: nat :| m < k && Iter(step, s0, m) == Some(t);
      RepeatLoops(step, s0, m, k + 1);
    } else {
      RepeatLoops(step, s0, k, k + 1);
    }
  }

  lemma TraceStep(step: Step, s0: State, v: set<State>, s: State,
                  visited: set<State>, mine: set<State>, k: nat, t: State)
    requires TraceInv(step, s0, v, s, visited, mine, k)
    requires step(s) == Some(t) && t !in visited + {s}
    ensures TraceInv(step, s0, v, t, visited + {s}, mine + {s}, k + 1)
  {
    IterSnoc(step, s0, k);
    assert Iter(step, s0, k + 1) == Some(t);
    forall x | x in mine + {s}
      ensures exists j: nat :: j < k + 1 && Iter(step, s0, j) == Some(x)
    {
      if x == s {
        assert Iter(step, s0, k) == Some(x);
      }
    }
  }

  /** Recording a state of the grid brings the loop closer to its end. */
  lemma StatesShrink(size: (int, int), visited: set<State>, s: State)
    requires IsInsideGrid(s.pos, size)
    ensures |States(size) - (visited + {s})| <
      |States(size) - visited| + if s in visited then 1 else 0
  {
    InStates(size, s);
    if s !in visited {
      assert States(size) - visited == (States(size) - (visited + {s})) + {s};
    } else {
      assert visited + {s} == visited;
    }
  }

  // ---------------------------------------------------------------------
  // can_create_loop

  /** The guard is not boxed in once the cell straight ahead is blocked,
      when that cell can take an obstacle: otherwise the source turns for
      ever. */
  predicate LoopTestable(grid: Grid, guard: Guard)
    requires Rectangular(grid)
  {
    var ahead := Forward(guard.pos, guard.dir);
    Inside(grid, ahead) && At(grid, ahead) == Empty ==> !WalledIn(ObstaclesOf(grid) + {ahead}, guard.pos)
  }

  /** The cell straight ahead is `Empty`, and an obstacle there keeps the
      guard, from where it stands, on the grid for ever. */
  ghost predicate LoopsWithObstacleAhead(grid: Grid, guard: Guard)
    requires Rectangular(grid)
  {
    var ahead := Forward(guard.pos, guard.dir);
    Inside(grid, ahead) && At(grid, ahead) == Empty &&
    !Exits(Walk(GridSize(grid), ObstaclesOf(grid) + {ahead}), StateOf(guard))
  }

  /** `can_create_loop`: put an `Obstacle2` on the `Empty` cell straight
      ahead and run `simulate_walk_3` from the guard turned right. The turn
      changes nothing, since the guard would turn there anyway: the answer
      is the cell ahead exactly when that obstacle keeps the guard from
      ever leaving. */
  method CanCreateLoop(grid: Grid, guard: Guard) returns (r: Option<Pos>)
    requires Rectangular(grid) && WellFormed(guard) && IsInsideGrid(guard.pos, GridSize(grid))
    requires NoOtherGuard(grid, guard.pos) && !IsObstacle(At(grid, guard.pos))
    requires LoopTestable(grid, guard)
    ensures r.Some? ==> r.value == Forward(guard.pos, guard.dir)
    ensures r.Some? <==> LoopsWithObstacleAhead(grid, guard)
  {
    var rightTurnDir := TurnRight(guard.dir);
    var newGuard := Guard(guard.pos, rightTurnDir, DirDiff(rightTurnDir));
    var guardDiff := DirDiff(guard.dir);
    var obstaclePos := (guard.pos.0 + guardDiff.0, guard.pos.1 + guardDiff.1);
    if IsInsideGrid(obstaclePos, GridSize(grid)) && CanCreateObstacle(grid, obstaclePos) {
      var newGrid := SetTile(grid, obstaclePos, Obstacle2);
      SetTileAddsObstacle(grid, obstaclePos, Obstacle2);
      SetTileNoGuard(grid, obstaclePos, Obstacle2, guard.pos);
      var loops := SimulateWalk3(newGrid, newGuard, {});
      ghost var w := Walk(GridSize(grid), ObstaclesOf(grid) + {obstaclePos});
      BlockedTurn(GridSize(grid), ObstaclesOf(grid) + {obstaclePos}, guard.pos, guard.dir);
      SameMoveSameExits(w, StateOf(guard), StateOf(newGuard));
      assert !ReachesAfter(w, StateOf(newGuard), {});
      if loops {
        r := Some(obstaclePos);
      } else {
        r := None;
      }
    } else {
      r := None;
    }
  }

  // ---------------------------------------------------------------------
  // simulate_walk_2

  /** The cell straight ahead of the `k`-th state of the walk is a cell
      `simulate_walk_2` reports: it is `Empty` in the original grid, the
      guard has not stood on it in its first `k + 1` states (so it is still
      `Empty` in the marked grid), and an obstacle there keeps the guard,
      from that state on, from ever leaving. */
  ghost predicate CandidateAt(grid: Grid, guard: Guard, k: nat, c: Pos)
    requires Rectangular(grid)
  {
    Iter(Walk(GridSize(grid), ObstaclesOf(grid)), StateOf(guard), k).Some? &&
    c == Forward(Iter(Walk(GridSize(grid), ObstaclesOf(grid)), StateOf(guard), k).value.pos,
                 Iter(Walk(GridSize(grid), ObstaclesOf(grid)), StateOf(guard), k).value.dir) &&
    Inside(grid, c) && At(grid, c) == Empty &&
    c !in Prefix(Walk(GridSize(grid), ObstaclesOf(grid)), StateOf(guard), k + 1) &&
    !Exits(Walk(GridSize(grid), ObstaclesOf(grid) + {c}),
           Iter(Walk(GridSize(grid), ObstaclesOf(grid)), StateOf(guard), k).value)
  }

  /** The cells reported at the first `k` states. */
  ghost function CandidatesBefore(grid: Grid, guard: Guard, k: nat): set<Pos>
    requires Rectangular(grid)
  {
    set c | c in GridCells(GridSize(grid)) && exists j: nat :: j < k && CandidateAt(grid, guard, j, c)
  }

  /** The cells `simulate_walk_2` reports. */
  ghost function Candidates(grid: Grid, guard: Guard): set<Pos>
    requires Rectangular(grid)
  {
    set c | c in GridCells(GridSize(grid)) && exists j: nat :: CandidateAt(grid, guard, j, c)
  }

  /** `simulate_walk_2`: at every state of the walk, ask `can_create_loop`
      about the cell straight ahead, then mark the cell `Walked2` and move
      on; the answer is the set of cells it said yes to. */
  method SimulateWalk2(grid: Grid, guard: Guard) returns (result: set<Pos>)
    requires Patrol(grid, guard) && LoopTestable(grid, guard)
    ensures result == Candidates(grid, guard)
  {
    ghost var w := Walk(GridSize(grid), ObstaclesOf(grid));
    ghost var seen: set<Pos> := {};
    ghost var k: nat := 0;
    var g := guard;
    var walked := grid;
    result := {};
    Walk2Init(grid, guard);
    while true
      invariant Walk2Frame(grid, guard, walked, g, seen)
      invariant Walk2Trace(grid, guard, StateOf(g), seen, k, result)
      decreases ExitTime(w, StateOf(g))
    {
      Walk2Ready(grid, guard, walked, g, seen);
      var found := CanCreateLoop(walked, g);
      Walk2Candidate(grid, guard, walked, g, seen, k, result);
      var posSet: set<Pos> := if found.Some? then {found.value} else {};
      result := result + posSet;
      ghost var before := walked;
      walked := SetTile(walked, g.pos, Walked2(g.dir));
      var next := GetNewGuard(g, walked);
      match next {
        case None =>
          Walk2Done(grid, guard, g, k);
          return;
        case Some(ng) =>
          NextGuard(walked, g, ng);
          Walk2FrameStep(grid, guard, before, g, seen, ng);
          walked := SetTile(walked, ng.pos, GuardTile(ng.dir));
          Walk2TraceStep(grid, guard, g, seen, k, StateOf(ng), result);
          seen := seen + {g.pos};
          g := ng;
          k := k + 1;
      }
    }
  }

  /** The tiles during `simulate_walk_2`: the guard's own tile where it
      stands, some `Walked2` where it stood before, the original tile
      elsewhere. */
  ghost predicate Walk2Marks(grid: Grid, walked: Grid, s: State, seen: set<Pos>) {
    Rectangular(grid) && Rectangular(walked) && GridSize(walked) == GridSize(grid) &&
    forall p :: Inside(grid, p) ==>
      if p == s.pos then At(walked, p) == GuardTile(s.dir)
      else if p in seen then At(walked, p).Walked2?
      else At(walked, p) == At(grid, p)
  }

  /** What `simulate_walk_2` keeps of the grid at guard `g`, after the cells
      in `seen` were left behind. */
  ghost predicate Walk2Frame(grid: Grid, guard: Guard, walked: Grid, g: Guard, seen: set<Pos>) {
    Rectangular(grid) && NoOtherGuard(grid, guard.pos) &&
    Rectangular(walked) && GridSize(walked) == GridSize(grid) && ObstaclesOf(walked) == ObstaclesOf(grid) &&
    WellFormed(g) && IsInsideGrid(g.pos, GridSize(grid)) &&
    g.pos !in ObstaclesOf(grid) && !WalledIn(ObstaclesOf(grid), g.pos) &&
    LoopTestable(walked, g) &&
    (guard.pos == g.pos || guard.pos in seen) &&
    Walk2Marks(grid, walked, StateOf(g), seen)
  }

  /** Where `simulate_walk_2` is on the walk after `k` moves, and what it has
      collected. */
  ghost predicate Walk2Trace(grid: Grid, guard: Guard, s: State, seen: set<Pos>, k: nat, result: set<Pos>) {
    Rectangular(grid) &&
    Exits(Walk(GridSize(grid), ObstaclesOf(grid)), s) &&
    Iter(Walk(GridSize(grid), ObstaclesOf(grid)), StateOf(guard), k) == Some(s) &&
    seen == Prefix(Walk(GridSize(grid), ObstaclesOf(grid)), StateOf(guard), k) &&
    result == CandidatesBefore(grid, guard, k)
  }

  lemma Walk2Init(grid: Grid, guard: Guard)
    requires Patrol(grid, guard) && LoopTestable(grid, guard)
    ensures Walk2Frame(grid, guard, grid, guard, {})
    ensures Walk2Trace(grid, guard, StateOf(guard), {}, 0, {})
  {
    ObstacleMember(grid, guard.pos);
    assert CandidatesBefore(grid, guard, 0) == {};
  }

  /** What `can_create_loop` and `get_new_guard` need. */
  lemma Walk2Ready(grid: Grid, guard: Guard, walked: Grid, g: Guard, seen: set<Pos>)
    requires Walk2Frame(grid, guard, walked, g, seen)
    ensures Inside(walked, g.pos) && NoOtherGuard(walked, g.pos) && !IsObstacle(At(walked, g.pos))
    ensures var m := SetTile(walked, g.pos, Walked2(g.dir));
      Rectangular(m) && GridSize(m) == GridSize(grid) && ObstaclesOf(m) == ObstaclesOf(grid) &&
      NoOtherGuard(m, g.pos)
  {
    var walked': Grid := walked;
    forall y: int, x: int | 0 <= y < |walked'| && 0 <= x < |walked'[y]| && (x, y) != g.pos
      ensures !walked'[y][x].GuardTile?
    {
      assert Inside(grid, (x, y));
    }
    ObstacleMember(walked, g.pos);
    SetTileKeepsObstacles(walked, g.pos, Walked2(g.dir));
    SetTileNoGuard(walked, g.pos, Walked2(g.dir), g.pos);
  }

  /** `can_create_loop` says yes at the `k`-th state exactly when its cell
      ahead is a candidate. */
  lemma Walk2Candidate(grid: Grid, guard: Guard, walked: Grid, g: Guard, seen: set<Pos>, k: nat, result: set<Pos>)
    requires Walk2Frame(grid, guard, walked, g, seen)
    requires Walk2Trace(grid, guard, StateOf(g), seen, k, result)
    ensures LoopsWithObstacleAhead(walked, g) <==> CandidateAt(grid, guard, k, Forward(g.pos, g.dir))
    ensures result + (if LoopsWithObstacleAhead(walked, g) then {Forward(g.pos, g.dir)} else {}) ==
      CandidatesBefore(grid, guard, k + 1)
  {
    var w := Walk(GridSize(grid), ObstaclesOf(grid));
    var ahead := Forward(g.pos, g.dir);
    assert Prefix(w, StateOf(guard), k + 1) == seen + {g.pos};
    ForwardBack(g.pos, g.dir);
    CandidatesBeforeStep(grid, guard, k, StateOf(g));
  }

  /** The candidates of the first `k + 1` states are those of the first `k`
      and perhaps the cell ahead of the `k`-th. */
  lemma CandidatesBeforeStep(grid: Grid, guard: Guard, k: nat, s: State)
    requires Rectangular(grid)
    requires Iter(Walk(GridSize(grid), ObstaclesOf(grid)), StateOf(guard), k) == Some(s)
    ensures CandidatesBefore(grid, guard, k + 1) ==
      CandidatesBefore(grid, guard, k) +
      (if CandidateAt(grid, guard, k, Forward(s.pos, s.dir)) then {Forward(s.pos, s.dir)} else {})
  {
    forall c ensures c in CandidatesBefore(grid, guard, k + 1) <==>
      c in CandidatesBefore(grid, guard, k) || (c == Forward(s.pos, s.dir) && CandidateAt(grid, guard, k, c))
    {
      CandidatesBeforeMember(grid, guard, k, c);
      CandidatesBeforeMember(grid, guard, k + 1, c);
      if CandidateAt(grid, guard, k, c) {
        assert c == Forward(s.pos, s.dir);
      }
    }
  }

  lemma CandidatesBeforeMember(grid: Grid, guard: Guard, k: nat, c: Pos)
    requires Rectangular(grid)
    ensures c in CandidatesBefore(grid, guard, k + 1) <==>
      c in CandidatesBefore(grid, guard, k) || CandidateAt(grid, guard, k, c)
  {
    if c in CandidatesBefore(grid, guard, k + 1) {
      var j: nat :| j < k + 1 && CandidateAt(grid, guard, j, c);
      if j < k {
        assert c in CandidatesBefore(grid, guard, k);
      }
    }
    if c in CandidatesBefore(grid, guard, k) {
      var j: nat :| j < k && CandidateAt(grid, guard, j, c);
      assert j < k + 1;
    }
    if CandidateAt(grid, guard, k, c) {
      assert c in GridCells(GridSize(grid));
    }
  }

  /** The guard has left after the `k`-th state: nothing more to collect. */
  lemma Walk2Done(grid: Grid, guard: Guard, g: Guard, k: nat)
    requires Rectangular(grid)
    requires Iter(Walk(GridSize(grid), ObstaclesOf(grid)), StateOf(guard), k) == Some(StateOf(g))
    requires Walk(GridSize(grid), ObstaclesOf(grid))(StateOf(g)).None?
    ensures CandidatesBefore(grid, guard, k + 1) == Candidates(grid, guard)
  {
    var w := Walk(GridSize(grid), ObstaclesOf(grid));
    IterSnoc(w, StateOf(guard), k);
    forall c | c in Candidates(grid, guard) ensures c in CandidatesBefore(grid, guard, k + 1) {
      var j: nat :| CandidateAt(grid, guard, j, c);
      if j > k {
        IterGone(w, StateOf(guard), k + 1, j);
      }
    }
  }

  lemma Walk2FrameStep(grid: Grid, guard: Guard, walked: Grid, g: Guard, seen: set<Pos>, ng: Guard)
    requires Walk2Frame(grid, guard, walked, g, seen)
    requires WellFormed(ng) && IsInsideGrid(ng.pos, GridSize(grid)) && ng.pos != g.pos
    requires ng.pos !in ObstaclesOf(grid) && !WalledIn(ObstaclesOf(grid), ng.pos)
    requires !WalledIn(ObstaclesOf(grid) + {Forward(ng.pos, ng.dir)}, ng.pos)
    ensures Inside(walked, g.pos) && Inside(SetTile(walked, g.pos, Walked2(g.dir)), ng.pos)
    ensures Walk2Frame(grid, guard, SetTile(SetTile(walked, g.pos, Walked2(g.dir)), ng.pos, GuardTile(ng.dir)),
                       ng, seen + {g.pos})
  {
    MarkTwice(walked, g.pos, Walked2(g.dir), ng.pos, GuardTile(ng.dir));
    Walk2MarksStep(grid, walked, StateOf(g), seen, StateOf(ng));
  }

  lemma Walk2MarksStep(grid: Grid, walked: Grid, s: State, seen: set<Pos>, t: State)
    requires Walk2Marks(grid, walked, s, seen) && Inside(grid, s.pos) && Inside(grid, t.pos) && s.pos != t.pos
    ensures Walk2Marks(grid, SetTile(SetTile(walked, s.pos, Walked2(s.dir)), t.pos, GuardTile(t.dir)), t, seen + {s.pos})
  {
  }

  lemma Walk2TraceStep(grid: Grid, guard: Guard, g: Guard, seen: set<Pos>, k: nat, t: State, result: set<Pos>)
    requires Rectangular(grid)
    requires Walk2Trace(grid, guard, StateOf(g), seen, k, CandidatesBefore(grid, guard, k))
    requires Walk(GridSize(grid), ObstaclesOf(grid))(StateOf(g)) == Some(t)
    requires result == CandidatesBefore(grid, guard, k + 1)
    ensures Walk2Trace(grid, guard, t, seen + {g.pos}, k + 1, result)
    ensures ExitTime(Walk(GridSize(grid), ObstaclesOf(grid)), t) <
      ExitTime(Walk(GridSize(grid), ObstaclesOf(grid)), StateOf(g))
  {
    var w := Walk(GridSize(grid), ObstaclesOf(grid));
    IterSnoc(w, StateOf(guard), k);
    ExitTimeStep(w, StateOf(g));
  }

  // ---------------------------------------------------------------------
  // What the search is after, and what it finds

  /** The cells where one new obstruction keeps the guard on the grid for
      ever: a cell the guard walks over (an obstruction elsewhere changes
      nothing), other than its starting cell. */
  ghost function Obstructions(grid: Grid, guard: Guard): set<Pos>
    requires Rectangular(grid)
  {
    set c | c in Visited(GridSize(grid), Walk(GridSize(grid), ObstaclesOf(grid)), StateOf(guard)) &&
      c != guard.pos && !Exits(Walk(GridSize(grid), ObstaclesOf(grid) + {c}), StateOf(guard))
  }

  /** A reported cell is on the guard's path: the guard walks straight into
      it from the state that reported it. */
  lemma CandidateVisited(grid: Grid, guard: Guard, j: nat, c: Pos)
    requires Rectangular(grid) && CandidateAt(grid, guard, j, c)
    ensures c in Visited(GridSize(grid), Walk(GridSize(grid), ObstaclesOf(grid)), StateOf(guard))
    ensures c != guard.pos && c !in ObstaclesOf(grid)
  {
    var w := Walk(GridSize(grid), ObstaclesOf(grid));
    var s := Iter(w, StateOf(guard), j).value;
    ObstacleMember(grid, c);
    FreeAhead(GridSize(grid), ObstaclesOf(grid), s);
    IterSnoc(w, StateOf(guard), j);
    assert Iter(w, StateOf(guard), j + 1) == Some(State(c, s.dir));
    assert Reached(w, StateOf(guard), c);
    PrefixMember(w, StateOf(guard), j + 1, guard.pos);
    assert Iter(w, StateOf(guard), 0) == Some(StateOf(guard));
  }

  /** A reported cell does trap the guard: the walk up to the reporting
      state never touches the cell, so the obstruction only takes effect
      from there. */
  lemma CandidateIsObstruction(grid: Grid, guard: Guard, j: nat, c: Pos)
    requires Rectangular(grid) && CandidateAt(grid, guard, j, c)
    ensures c in Obstructions(grid, guard)
  {
    CandidateVisited(grid, guard, j, c);
    var o := ObstaclesOf(grid);
    var w' := Walk(GridSize(grid), o + {c});
    IterUnaffected(GridSize(grid), o, c, StateOf(guard), j);
    ExitsAfter(w', StateOf(guard), j);
  }

  /** Everything `simulate_walk_2` reports is an obstruction that traps the
      guard. */
  lemma CandidatesAreObstructions(grid: Grid, guard: Guard)
    requires Rectangular(grid)
    ensures Candidates(grid, guard) <= Obstructions(grid, guard)
  {
    forall c | c in Candidates(grid, guard) ensures c in Obstructions(grid, guard) {
      var j: nat :| CandidateAt(grid, guard, j, c);
      CandidateIsObstruction(grid, guard, j, c);
    }
  }

  /** `part_two`: the number of cells reported, less the starting cell
      (which is never among them); at most the number of obstructions that
      trap the guard. */
  method PartTwo(input: string) returns (count: nat)
    requires ValidText(Lines(input))
    requires var grid := ParseInput(input);
      FindGuard(grid).Some? && Patrol(grid, FindGuard(grid).value) && LoopTestable(grid, FindGuard(grid).value)
    ensures var grid := ParseInput(input);
      count == |Candidates(grid, FindGuard(grid).value)| &&
      count <= |Obstructions(grid, FindGuard(grid).value)|
  {
    var grid := ParseInput(input);
    var guard := FindGuard(grid).value;
    var origPos := guard.pos;
    var reported := SimulateWalk2(grid, guard);
    CandidatesCount(grid, guard);
    reported := reported - {origPos};
    count := |reported|;
  }

  /** The starting cell is never reported, and there are no more reports
      than obstructions. */
  lemma CandidatesCount(grid: Grid, guard: Guard)
    requires Rectangular(grid)
    ensures Candidates(grid, guard) - {guard.pos} == Candidates(grid, guard)
    ensures |Candidates(grid, guard)| <= |Obstructions(grid, guard)|
  {
    CandidatesAreObstructions(grid, guard);
    SubsetCardinality(Candidates(grid, guard), Obstructions(grid, guard));
  }

  lemma {:induction false} SubsetCardinality(a: set<Pos>, b: set<Pos>)
    requires a <= b
    ensures |a| <= |b|
    decreases |b|
  {
    if a != {} {
      var x :| x in a;
      SubsetCardinality(a - {x}, b - {x});
    }
  }

  // ---------------------------------------------------------------------
  // A corrected search

  /** The `k + 1`-th state of the walk enters cell `c` for the first time,
      and an obstacle on `c` keeps the guard, from the `k`-th state on, on
      the grid for ever. */
  ghost predicate FirstEntryAt(grid: Grid, guard: Guard, k: nat, c: Pos)
    requires Rectangular(grid)
  {
    Iter(Walk(GridSize(grid), ObstaclesOf(grid)), StateOf(guard), k).Some? &&
    Iter(Walk(GridSize(grid), ObstaclesOf(grid)), StateOf(guard), k + 1).Some? &&
    c == Iter(Walk(GridSize(grid), ObstaclesOf(grid)), StateOf(guard), k + 1).value.pos &&
    c !in Prefix(Walk(GridSize(grid), ObstaclesOf(grid)), StateOf(guard), k + 1) &&
    !Exits(Walk(GridSize(grid), ObstaclesOf(grid) + {c}),
           Iter(Walk(GridSize(grid), ObstaclesOf(grid)), StateOf(guard), k).value)
  }

  /** The cells found at the first `k` states. */
  ghost function EntriesBefore(grid: Grid, guard: Guard, k: nat): set<Pos>
    requires Rectangular(grid)
  {
    set c | c in GridCells(GridSize(grid)) && exists j: nat :: j < k && FirstEntryAt(grid, guard, j, c)
  }

  /** The search: walk the guard's path once; on entering a cell for the
      first time, put an obstacle there and ask `simulate_walk_3`, from the
      state just before, whether the guard still leaves. The starting
      cell is cleared first so that no guard tile is left behind. */
  method LoopObstructions(grid: Grid, guard: Guard) returns (obstructions: set<Pos>)
    requires Patrol(grid, guard)
    ensures obstructions == Obstructions(grid, guard)
  {
    ghost var w := Walk(GridSize(grid), ObstaclesOf(grid));
    ghost var k: nat := 0;
    ObstacleMember(grid, guard.pos);
    var open := SetTile(grid, guard.pos, Empty);
    SetTileKeepsObstacles(grid, guard.pos, Empty);
    MarkClearsGuard(grid, guard.pos, Empty);
    var g := guard;
    var entered: set<Pos> := {guard.pos};
    obstructions := {};
    FixInit(grid, guard);
    while true
      invariant FixFrame(grid, open, g)
      invariant FixTrace(grid, guard, StateOf(g), entered, k, obstructions)
      decreases ExitTime(w, StateOf(g))
    {
      NoGuardNoOther(open, g.pos);
      var next := GetNewGuard(g, open);
      match next {
        case None =>
          NoNextGuard(open, g);
          FixDone(grid, guard, StateOf(g), k);
          return;
        case Some(ng) =>
          NextGuard(open, g, ng);
          ghost var before := obstructions;
          var loops := false;
          if ng.pos !in entered {
            loops := TrapsGuard(open, g, ng.pos);
          }
          assert loops <==> (ng.pos !in entered &&
            !Exits(Walk(GridSize(grid), ObstaclesOf(grid) + {ng.pos}), StateOf(g)));
          obstructions := obstructions + if loops then {ng.pos} else {};
          FixStep(grid, guard, StateOf(g), entered, k, StateOf(ng), loops, before, obstructions);
          entered := entered + {ng.pos};
          g := ng;
          k := k + 1;
      }
    }
  }

  /** `get_new_guard` answers `None` exactly when the guard leaves. */
  lemma NoNextGuard(grid: Grid, g: Guard)
    requires Rectangular(grid) && WellFormed(g) && IsInsideGrid(g.pos, GridSize(grid))
    requires NoOtherGuard(grid, g.pos) && !WalledIn(ObstaclesOf(grid), g.pos)
    requires GetNewGuard(g, grid).None?
    ensures Walk(GridSize(grid), ObstaclesOf(grid))(StateOf(g)).None?
  {
  }

  /** Whether an obstacle on cell `c` keeps the guard, from where it
      stands, on the grid for ever: a guard boxed in by it stays put, any
      other is asked of `simulate_walk_3`. */
  method TrapsGuard(open: Grid, g: Guard, c: Pos) returns (loops: bool)
    requires Rectangular(open) && NoGuard(open) && Inside(open, c)
    requires WellFormed(g) && IsInsideGrid(g.pos, GridSize(open)) && g.pos != c
    requires g.pos !in ObstaclesOf(open)
    ensures loops <==> !Exits(Walk(GridSize(open), ObstaclesOf(open) + {c}), StateOf(g))
  {
    var blocked := SetTile(open, c, Obstacle2);
    SetTileAddsObstacle(open, c, Obstacle2);
    if WalledIn(ObstaclesOf(blocked), g.pos) {
      WalledInStays(GridSize(open), ObstaclesOf(blocked), StateOf(g));
      loops := true;
    } else {
      NoGuardNoOther(open, g.pos);
      SetTileNoGuard(open, c, Obstacle2, g.pos);
      ObstacleMember(blocked, g.pos);
      loops := SimulateWalk3(blocked, g, {});
      assert !ReachesAfter(Walk(GridSize(blocked), ObstaclesOf(blocked)), StateOf(g), {});
    }
  }

  /** The grid the corrected search walks on: the obstacles of the input and
      no guard tile. */
  ghost predicate FixFrame(grid: Grid, open: Grid, g: Guard) {
    Rectangular(grid) && Rectangular(open) && GridSize(open) == GridSize(grid) &&
    ObstaclesOf(open) == ObstaclesOf(grid) && NoGuard(open) &&
    WellFormed(g) && IsInsideGrid(g.pos, GridSize(grid)) &&
    g.pos !in ObstaclesOf(grid) && !WalledIn(ObstaclesOf(grid), g.pos)
  }

  /** Where the corrected search is after `k` moves, the cells entered so far
      and what it has found. */
  ghost predicate FixTrace(grid: Grid, guard: Guard, s: State, entered: set<Pos>, k: nat, found: set<Pos>) {
    Rectangular(grid) &&
    Exits(Walk(GridSize(grid), ObstaclesOf(grid)), s) &&
    Iter(Walk(GridSize(grid), ObstaclesOf(grid)), StateOf(guard), k) == Some(s) &&
    entered == Prefix(Walk(GridSize(grid), ObstaclesOf(grid)), StateOf(guard), k + 1) &&
    found == EntriesBefore(grid, guard, k)
  }

  lemma FixInit(grid: Grid, guard: Guard)
    requires Patrol(grid, guard)
    ensures FixTrace(grid, guard, StateOf(guard), {guard.pos}, 0, {})
  {
    assert EntriesBefore(grid, guard, 0) == {};
    assert Prefix(Walk(GridSize(grid), ObstaclesOf(grid)), StateOf(guard), 1) == {guard.pos};
  }

  lemma FixStep(grid: Grid, guard: Guard, s: State, entered: set<Pos>, k: nat, t: State,
                trapped: bool, found: set<Pos>, found': set<Pos>)
    requires FixTrace(grid, guard, s, entered, k, found)
    requires Walk(GridSize(grid), ObstaclesOf(grid))(s) == Some(t) && IsInsideGrid(t.pos, GridSize(grid))
    requires trapped <==> t.pos !in entered && !Exits(Walk(GridSize(grid), ObstaclesOf(grid) + {t.pos}), s)
    requires found' == found + if trapped then {t.pos} else {}
    ensures FixTrace(grid, guard, t, entered + {t.pos}, k + 1, found')
    ensures ExitTime(Walk(GridSize(grid), ObstaclesOf(grid)), t) <
      ExitTime(Walk(GridSize(grid), ObstaclesOf(grid)), s)
  {
    var w := Walk(GridSize(grid), ObstaclesOf(grid));
    IterSnoc(w, StateOf(guard), k);
    ExitTimeStep(w, s);
    PrefixStep(w, StateOf(guard), k, t);
    EntriesBeforeStep(grid, guard, k, s, t, entered, trapped, found, found');
  }

  lemma PrefixStep(step: Step, s0: State, k: nat, t: State)
    requires Iter(step, s0, k + 1) == Some(t)
    ensures Prefix(step, s0, k + 2) == Prefix(step, s0, k + 1) + {t.pos}
  {
  }

  /** One more state of the walk adds its cell to what was found exactly
      when the guard enters it for the first time and is trapped by it. */
  lemma EntriesBeforeStep(grid: Grid, guard: Guard, k: nat, s: State, t: State, entered: set<Pos>,
                          trapped: bool, found: set<Pos>, found': set<Pos>)
    requires Rectangular(grid)
    requires Iter(Walk(GridSize(grid), ObstaclesOf(grid)), StateOf(guard), k) == Some(s)
    requires Iter(Walk(GridSize(grid), ObstaclesOf(grid)), StateOf(guard), k + 1) == Some(t)
    requires entered == Prefix(Walk(GridSize(grid), ObstaclesOf(grid)), StateOf(guard), k + 1)
    requires trapped <==> t.pos !in entered && !Exits(Walk(GridSize(grid), ObstaclesOf(grid) + {t.pos}), s)
    requires found == EntriesBefore(grid, guard, k)
    requires found' == found + if trapped then {t.pos} else {}
    ensures found' == EntriesBefore(grid, guard, k + 1)
  {
    forall c ensures c in EntriesBefore(grid, guard, k + 1) <==> c in found'
    {
      EntriesBeforeMember(grid, guard, k, c);
      assert FirstEntryAt(grid, guard, k, c) <==> c == t.pos && trapped;
    }
  }

  lemma EntriesBeforeMember(grid: Grid, guard: Guard, k: nat, c: Pos)
    requires Rectangular(grid)
    ensures c in EntriesBefore(grid, guard, k + 1) <==>
      c in EntriesBefore(grid, guard, k) || FirstEntryAt(grid, guard, k, c)
  {
    if c in EntriesBefore(grid, guard, k + 1) {
      var j: nat :| j < k + 1 && FirstEntryAt(grid, guard, j, c);
      if j < k {
        assert c in EntriesBefore(grid, guard, k);
      }
    }
    if c in EntriesBefore(grid, guard, k) {
      var j: nat :| j < k && FirstEntryAt(grid, guard, j, c);
      assert j < k + 1;
    }
    if FirstEntryAt(grid, guard, k, c) {
      FirstEntryInside(grid, guard, k, c);
    }
  }

  /** A cell the guard enters is a cell of the grid. */
  lemma FirstEntryInside(grid: Grid, guard: Guard, k: nat, c: Pos)
    requires Rectangular(grid) && FirstEntryAt(grid, guard, k, c)
    ensures c in GridCells(GridSize(grid))
  {
    var w := Walk(GridSize(grid), ObstaclesOf(grid));
    var s := Iter(w, StateOf(guard), k).value;
    IterSnoc(w, StateOf(guard), k);
    if !WalledIn(ObstaclesOf(grid), s.pos) {
      MoveFacts(GridSize(grid), ObstaclesOf(grid), s);
    }
  }

  /** The guard has left after the `k`-th state: what was found is every
      obstruction that traps it. */
  lemma FixDone(grid: Grid, guard: Guard, s: State, k: nat)
    requires Patrol(grid, guard)
    requires Iter(Walk(GridSize(grid), ObstaclesOf(grid)), StateOf(guard), k) == Some(s)
    requires Walk(GridSize(grid), ObstaclesOf(grid))(s).None?
    ensures EntriesBefore(grid, guard, k) == Obstructions(grid, guard)
  {
    IterSnoc(Walk(GridSize(grid), ObstaclesOf(grid)), StateOf(guard), k);
    EntriesSound(grid, guard, k);
    EntriesComplete(grid, guard, k);
  }

  lemma EntriesSound(grid: Grid, guard: Guard, k: nat)
    requires Patrol(grid, guard)
    ensures EntriesBefore(grid, guard, k) <= Obstructions(grid, guard)
  {
    forall c | c in EntriesBefore(grid, guard, k) ensures c in Obstructions(grid, guard) {
      var j: nat :| j < k && FirstEntryAt(grid, guard, j, c);
      FirstEntryIsObstruction(grid, guard, j, c);
    }
  }

  lemma EntriesComplete(grid: Grid, guard: Guard, k: nat)
    requires Patrol(grid, guard)
    requires Iter(Walk(GridSize(grid), ObstaclesOf(grid)), StateOf(guard), k + 1).None?
    ensures Obstructions(grid, guard) <= EntriesBefore(grid, guard, k)
  {
    var w := Walk(GridSize(grid), ObstaclesOf(grid));
    forall c | c in Obstructions(grid, guard) ensures c in EntriesBefore(grid, guard, k) {
      var j := ObstructionFirstEntry(grid, guard, c);
      if j >= k {
        IterGone(w, StateOf(guard), k + 1, j + 1);
      }
      FirstEntryInside(grid, guard, j, c);
    }
  }

  /** An obstacle on a cell of the walk traps the guard only if it is not
      already there. */
  lemma TrapIsNew(grid: Grid, guard: Guard, c: Pos, k: nat)
    requires Patrol(grid, guard)
    requires Iter(Walk(GridSize(grid), ObstaclesOf(grid)), StateOf(guard), k).Some?
    requires !Exits(Walk(GridSize(grid), ObstaclesOf(grid) + {c}),
                    Iter(Walk(GridSize(grid), ObstaclesOf(grid)), StateOf(guard), k).value)
    ensures c !in ObstaclesOf(grid)
  {
    var w := Walk(GridSize(grid), ObstaclesOf(grid));
    if c in ObstaclesOf(grid) {
      assert ObstaclesOf(grid) + {c} == ObstaclesOf(grid);
      ExitsAfter(w, StateOf(guard), k);
    }
  }

  lemma FirstEntryIsObstruction(grid: Grid, guard: Guard, j: nat, c: Pos)
    requires Patrol(grid, guard) && FirstEntryAt(grid, guard, j, c)
    ensures c in Obstructions(grid, guard)
  {
    var w := Walk(GridSize(grid), ObstaclesOf(grid));
    FirstEntryInside(grid, guard, j, c);
    TrapIsNew(grid, guard, c, j);
    assert Reached(w, StateOf(guard), c);
    PrefixMember(w, StateOf(guard), j + 1, guard.pos);
    assert Iter(w, StateOf(guard), 0) == Some(StateOf(guard));
    IterUnaffected(GridSize(grid), ObstaclesOf(grid), c, StateOf(guard), j);
    ExitsAfter(Walk(GridSize(grid), ObstaclesOf(grid) + {c}), StateOf(guard), j);
  }

  /** Every obstruction that traps the guard is found on entering its cell
      for the first time. */
  lemma ObstructionFirstEntry(grid: Grid, guard: Guard, c: Pos) returns (j: nat)
    requires Patrol(grid, guard) && c in Obstructions(grid, guard)
    ensures FirstEntryAt(grid, guard, j, c)
  {
    var w := Walk(GridSize(grid), ObstaclesOf(grid));
    var s0 := StateOf(guard);
    var m: nat :| Iter(w, s0, m).Some? && Iter(w, s0, m).value.pos == c;
    var n := LeastReach(w, s0, c, m);
    assert n != 0;
    j := n - 1;
    IterGoneBefore(w, s0, j, n);
    assert Iter(w, s0, 0) == Some(s0);
    TrapIsNew(grid, guard, c, 0);
    IterUnaffected(GridSize(grid), ObstaclesOf(grid), c, s0, j);
    ExitsAfter(Walk(GridSize(grid), ObstaclesOf(grid) + {c}), s0, j);
  }

  /** A walk that is still going after `n` moves was going after fewer. */
  lemma IterGoneBefore(step: Step, s: State, j: nat, n: nat)
    requires j <= n && Iter(step, s, n).Some?
    ensures Iter(step, s, j).Some?
  {
    if Iter(step, s, j).None? {
      IterGone(step, s, j, n);
    }
  }

  /** The first time the walk stands on `c`. */
  lemma {:induction false} LeastReach(step: Step, s: State, c: Pos, m: nat) returns (n: nat)
    requires Iter(step, s, m).Some? && Iter(step, s, m).value.pos == c
    ensures n <= m && Iter(step, s, n).Some? && Iter(step, s, n).value.pos == c
    ensures c !in Prefix(step, s, n)
  {
    PrefixMember(step, s, m, c);
    if c in Prefix(step, s, m) {
      var j: nat :| j < m && Iter(step, s, j).Some? && Iter(step, s, j).value.pos == c;
      n := LeastReach(step, s, c, j);
    } else {
      n := m;
    }
  }

  /** `part_two` with the corrected search: the number of obstructions that
      trap the guard. */
  method PartTwoCorrected(input: string) returns (count: nat)
    requires ValidText(Lines(input))
    requires var grid := ParseInput(input); FindGuard(grid).Some? && Patrol(grid, FindGuard(grid).value)
    ensures var grid := ParseInput(input);
      count == |Obstructions(grid, FindGuard(grid).value)|
  {
    var grid := ParseInput(input);
    var guard := FindGuard(grid).value;
    var found := LoopObstructions(grid, guard);
    count := |found|;
  }

  // ---------------------------------------------------------------------
  // An obstruction `simulate_walk_2` misses

  /** The map
        .....
        .#...
        .^...
        #..#.
        .##..
      The guard starts facing the obstacle at (1, 1), turns right and
      leaves along row 2. `can_create_loop` only tries the cell straight ahead of each
      state, so the cell (2, 2) the guard turns into at its first move is
      never tried; yet an obstacle there boxes the guard in between
      (1, 2) and (1, 3) for ever. */
  function ExampleGrid(): Grid {
    [[Empty, Empty, Empty, Empty, Empty],
     [Empty, Obstacle, Empty, Empty, Empty],
     [Empty, GuardTile(Up), Empty, Empty, Empty],
     [Obstacle, Empty, Empty, Obstacle, Empty],
     [Empty, Obstacle, Obstacle, Empty, Empty]]
  }

  function ExampleGuard(): Guard {
    Guard((1, 2), Up, DirDiff(Up))
  }

  function ExampleObstacles(): set<Pos> {
    {(1, 1), (0, 3), (3, 3), (1, 4), (2, 4)}
  }

  lemma ExampleObstaclesOf()
    ensures ObstaclesOf(ExampleGrid()) == ExampleObstacles()
  {
    var grid := ExampleGrid();
    forall p ensures p in ObstaclesOf(grid) <==> p in ExampleObstacles() {
      ObstacleMember(grid, p);
      if Inside(grid, p) {
        var (x, y) := p;
        assert y == 0 || y == 1 || y == 2 || y == 3 || y == 4;
        assert x == 0 || x == 1 || x == 2 || x == 3 || x == 4;
      }
    }
  }

  lemma ExampleNoOtherGuard()
    ensures NoOtherGuard(ExampleGrid(), (1, 2))
  {
    var grid: Grid := ExampleGrid();
    forall y: int, x: int | 0 <= y < |grid| && 0 <= x < |grid[y]| && (x, y) != (1, 2)
      ensures !grid[y][x].GuardTile?
    {
      assert y == 0 || y == 1 || y == 2 || y == 3 || y == 4;
      assert x == 0 || x == 1 || x == 2 || x == 3 || x == 4;
    }
  }

  /** The guard's walk on the example: three steps along row 2, then out. */
  lemma ExampleWalk()
    ensures var w := Walk((5, 5), ExampleObstacles());
      Iter(w, StateOf(ExampleGuard()), 1) == Some(State((2, 2), Right)) &&
      Iter(w, StateOf(ExampleGuard()), 2) == Some(State((3, 2), Right)) &&
      Iter(w, StateOf(ExampleGuard()), 3) == Some(State((4, 2), Right)) &&
      Iter(w, StateOf(ExampleGuard()), 4) == None
  {
    var w := Walk((5, 5), ExampleObstacles());
    var s0 := StateOf(ExampleGuard());
    assert w(s0) == Some(State((2, 2), Right));
    assert w(State((2, 2), Right)) == Some(State((3, 2), Right));
    assert w(State((3, 2), Right)) == Some(State((4, 2), Right));
    assert w(State((4, 2), Right)) == None;
    IterSnoc(w, s0, 0);
    IterSnoc(w, s0, 1);
    IterSnoc(w, s0, 2);
    IterSnoc(w, s0, 3);
  }

  /** With an obstacle on (2, 2) the guard goes down to (1, 3) and back up
      to (1, 2), for ever. */
  lemma ExampleTrap()
    ensures !Exits(Walk((5, 5), ExampleObstacles() + {(2, 2)}), StateOf(ExampleGuard()))
  {
    var w := Walk((5, 5), ExampleObstacles() + {(2, 2)});
    var s0 := StateOf(ExampleGuard());
    assert w(s0) == Some(State((1, 3), Down));
    assert w(State((1, 3), Down)) == Some(s0);
    IterSnoc(w, s0, 0);
    IterSnoc(w, s0, 1);
    RepeatLoops(w, s0, 0, 2);
  }

  /** The example meets every demand of `SimulateWalk2`. */
  lemma ExamplePatrol()
    ensures Patrol(ExampleGrid(), ExampleGuard()) && LoopTestable(ExampleGrid(), ExampleGuard())
  {
    ExampleObstaclesOf();
    ExampleNoOtherGuard();
    ExampleExits();
    assert GridSize(ExampleGrid()) == (5, 5);
  }

  lemma ExampleExits()
    ensures Exits(Walk((5, 5), ExampleObstacles()), StateOf(ExampleGuard()))
    ensures !WalledIn(ExampleObstacles(), (1, 2))
  {
    ExampleWalk();
    assert Iter(Walk((5, 5), ExampleObstacles()), StateOf(ExampleGuard()), 4).None?;
  }

  /** The cell (2, 2) traps the guard. */
  lemma ExampleObstruction()
    ensures (2, 2) in Obstructions(ExampleGrid(), ExampleGuard())
  {
    ExampleObstaclesOf();
    ExampleWalk();
    ExampleTrap();
    assert GridSize(ExampleGrid()) == (5, 5);
    assert Reached(Walk((5, 5), ExampleObstacles()), StateOf(ExampleGuard()), (2, 2));
    assert (2, 2) in GridCells((5, 5));
  }

  /** The cell (2, 2) is never straight ahead of the guard. */
  lemma ExampleAhead(j: nat)
    requires Iter(Walk((5, 5), ExampleObstacles()), StateOf(ExampleGuard()), j).Some?
    ensures var s := Iter(Walk((5, 5), ExampleObstacles()), StateOf(ExampleGuard()), j).value;
      Forward(s.pos, s.dir) != (2, 2)
  {
    ExampleWalk();
    if j >= 4 {
      IterGone(Walk((5, 5), ExampleObstacles()), StateOf(ExampleGuard()), 4, j);
    }
    assert j == 0 || j == 1 || j == 2 || j == 3;
  }

  /** `simulate_walk_2` does not report the cell (2, 2). */
  lemma ExampleNotCandidate()
    ensures (2, 2) !in Candidates(ExampleGrid(), ExampleGuard())
  {
    var grid := ExampleGrid();
    ExampleObstaclesOf();
    assert GridSize(grid) == (5, 5);
    if (2, 2) in Candidates(grid, ExampleGuard()) {
      var j: nat :| CandidateAt(grid, ExampleGuard(), j, (2, 2));
      ExampleAhead(j);
    }
  }

  /** On the example the guard can be trapped by an obstruction that
      `simulate_walk_2` does not report. */
  lemma MissedObstruction()
    ensures Patrol(ExampleGrid(), ExampleGuard()) && LoopTestable(ExampleGrid(), ExampleGuard())
    ensures (2, 2) in Obstructions(ExampleGrid(), ExampleGuard())
    ensures (2, 2) !in Candidates(ExampleGrid(), ExampleGuard())
  {
    ExamplePatrol();
    ExampleObstruction();
    ExampleNotCandidate();
  }
}
