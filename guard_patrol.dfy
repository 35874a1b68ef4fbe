/** The guard's map and the step function of the guard patrol
    (src/bin/06.rs): tiles, headings, the guard, parsing, and
    `get_new_guard`, proved equal to an obstacle-set reference `Move`. */
module GuardPatrol {
  import opened Prelude

  datatype Direction = Up | Down | Left | Right

  datatype Tile =
    | Empty
    | Walked
    | Walked2(walkedDir: Direction)
    | GuardTile(guardDir: Direction)
    | Obstacle
    | Obstacle2

  /** (x, y), with y growing downward; `grid[y][x]` holds the tile. */
  type Pos = (int, int)

  /** The guard, carrying its heading both as a direction and as a step. */
  datatype Guard = Guard(pos: Pos, dir: Direction, dirDiff: Pos)

  /** What the walk depends on: where the guard stands and where it faces. */
  datatype State = State(pos: Pos, dir: Direction)

  type Grid = seq<seq<Tile>>

  // ---------------------------------------------------------------------
  // Headings

  /** `get_dir_diff`: one cell in the heading, y growing downward. */
  function DirDiff(dir: Direction): (d: Pos)
    ensures (d.0 == 0 && (d.1 == 1 || d.1 == -1)) || (d.1 == 0 && (d.0 == 1 || d.0 == -1))
    ensures d.1 == -1 <==> dir == Up
    ensures d.0 == 1 <==> dir == Right
  {
    match dir
    case Up => (0, -1)
    case Down => (0, 1)
    case Left => (-1, 0)
    case Right => (1, 0)
  }

  /** `turn_right_dir`, and the same table written out inline in
      `can_create_loop` and `get_new_guard`. */
  function TurnRight(dir: Direction): (r: Direction)
    ensures DirDiff(r) == (-DirDiff(dir).1, DirDiff(dir).0)
  {
    match dir
    case Up => Right
    case Right => Down
    case Down => Left
    case Left => Up
  }

  /** Right turns walk the clockwise 4-cycle Up, Right, Down, Left: four turns
      are the identity, and the first four headings are all different. */
  lemma TurnRightCycle(dir: Direction)
    ensures TurnRight(TurnRight(TurnRight(TurnRight(dir)))) == dir
    ensures {dir, TurnRight(dir), TurnRight(TurnRight(dir)), TurnRight(TurnRight(TurnRight(dir)))} == {Up, Right, Down, Left}
  {
  }

  /** The heading opposite `dir`. */
  function Reverse(dir: Direction): Direction {
    TurnRight(TurnRight(dir))
  }

  /** The guard's step agrees with its heading. */
  predicate WellFormed(g: Guard) {
    g.dirDiff == DirDiff(g.dir)
  }

  function StateOf(g: Guard): State {
    State(g.pos, g.dir)
  }

  /** The guard for a state, built the way the source builds every guard. */
  function GuardOf(s: State): (g: Guard)
    ensures WellFormed(g) && StateOf(g) == s
  {
    Guard(s.pos, s.dir, DirDiff(s.dir))
  }

  function ToGuard(s: Option<State>): Option<Guard> {
    match s
    case None => None
    case Some(s) => Some(GuardOf(s))
  }

  /** The cell one step from `p` in heading `dir`. */
  function Forward(p: Pos, dir: Direction): Pos {
    (p.0 + DirDiff(dir).0, p.1 + DirDiff(dir).1)
  }

  lemma ForwardBack(p: Pos, dir: Direction)
    ensures Forward(Forward(p, dir), Reverse(dir)) == p
    ensures Forward(p, dir) != Forward(p, Reverse(dir))
  {
  }

  // ---------------------------------------------------------------------
  // The grid

  /** `is_inside_grid(p, (w, h))`. */
  predicate IsInsideGrid(p: Pos, size: (int, int)) {
    0 <= p.0 < size.0 && 0 <= p.1 < size.1
  }

  /** The four cases of `test_is_inside_grid`. */
  lemma IsInsideGridExamples()
    ensures IsInsideGrid((0, 0), (10, 10))
    ensures !IsInsideGrid((10, 10), (10, 10))
    ensures !IsInsideGrid((-1, 0), (10, 10))
    ensures !IsInsideGrid((0, -1), (10, 10))
  {
  }

  /** At least one row, every row as long as the first. */
  predicate Rectangular(grid: Grid) {
    |grid| >= 1 && forall y :: 0 <= y < |grid| ==> |grid[y]| == |grid[0]|
  }

  /** `(grid[0].len(), grid.len())`. */
  function GridSize(grid: Grid): (int, int)
    requires |grid| >= 1
  {
    (|grid[0]|, |grid|)
  }

  predicate Inside(grid: Grid, p: Pos) {
    Rectangular(grid) && IsInsideGrid(p, GridSize(grid))
  }

  function At(grid: Grid, p: Pos): Tile
    requires Inside(grid, p)
  {
    grid[p.1][p.0]
  }

  /** `grid[p.1][p.0] = t`. */
  function SetTile(grid: Grid, p: Pos, t: Tile): (r: Grid)
    requires Inside(grid, p)
    ensures Rectangular(r) && GridSize(r) == GridSize(grid)
    ensures forall q :: Inside(r, q) ==> At(r, q) == if q == p then t else At(grid, q)
  {
    grid[p.1 := grid[p.1][p.0 := t]]
  }

  ghost function GridCells(size: (int, int)): (cells: set<Pos>)
    ensures forall p :: p in cells <==> IsInsideGrid(p, size)
  {
    var cells := set x, y | 0 <= x < size.0 && 0 <= y < size.1 :: (x, y);
    assert forall p :: IsInsideGrid(p, size) ==> p in cells by {
      forall p | IsInsideGrid(p, size) ensures p in cells {
        var (x, y) := p;
        assert (x, y) in cells;
      }
    }
    cells
  }

  predicate IsObstacle(t: Tile) {
    t == Obstacle || t == Obstacle2
  }

  /** The cells holding `Obstacle` or `Obstacle2`: all the walk depends on. */
  function ObstaclesOf(grid: Grid): set<Pos>
    requires Rectangular(grid)
  {
    set y, x | 0 <= y < |grid| && 0 <= x < |grid[0]| && IsObstacle(grid[y][x]) :: (x, y)
  }

  lemma ObstacleMember(grid: Grid, p: Pos)
    requires Rectangular(grid)
    ensures p in ObstaclesOf(grid) <==> Inside(grid, p) && IsObstacle(At(grid, p))
  {
    if Inside(grid, p) && IsObstacle(At(grid, p)) {
      var (x, y) := p;
      assert (x, y) in ObstaclesOf(grid);
    }
  }

  /** Writing a tile that is not an obstacle over one that is not leaves the
      obstacles as they were ... */
  lemma SetTileKeepsObstacles(grid: Grid, p: Pos, t: Tile)
    requires Inside(grid, p) && !IsObstacle(At(grid, p)) && !IsObstacle(t)
    ensures ObstaclesOf(SetTile(grid, p, t)) == ObstaclesOf(grid)
  {
    var r := SetTile(grid, p, t);
    forall q ensures q in ObstaclesOf(r) <==> q in ObstaclesOf(grid) {
      ObstacleMember(r, q);
      ObstacleMember(grid, q);
    }
  }

  /** ... and writing an obstacle adds exactly that cell. */
  lemma SetTileAddsObstacle(grid: Grid, p: Pos, t: Tile)
    requires Inside(grid, p) && IsObstacle(t)
    ensures ObstaclesOf(SetTile(grid, p, t)) == ObstaclesOf(grid) + {p}
  {
    var r := SetTile(grid, p, t);
    forall q ensures q in ObstaclesOf(r) <==> q in ObstaclesOf(grid) + {p} {
      ObstacleMember(r, q);
      ObstacleMember(grid, q);
    }
  }

  /** No `GuardTile` anywhere except perhaps at `p`: `get_new_guard` panics
      on stepping onto a `GuardTile`. */
  predicate NoOtherGuard(grid: Grid, p: Pos) {
    forall y, x :: 0 <= y < |grid| && 0 <= x < |grid[y]| && (x, y) != p ==> !grid[y][x].GuardTile?
  }

  // ---------------------------------------------------------------------
  // The reference step: obstacles as a set

  predicate Blocked(obstacles: set<Pos>, p: Pos, dir: Direction) {
    Forward(p, dir) in obstacles
  }

  /** Obstacles on all four sides: the source then turns forever. */
  predicate WalledIn(obstacles: set<Pos>, p: Pos) {
    Blocked(obstacles, p, Up) && Blocked(obstacles, p, Right) &&
    Blocked(obstacles, p, Down) && Blocked(obstacles, p, Left)
  }

  /** The first heading, turning right from `dir`, whose way ahead is free. */
  function FreeHeading(obstacles: set<Pos>, p: Pos, dir: Direction): (d: Direction)
    requires !WalledIn(obstacles, p)
    ensures !Blocked(obstacles, p, d)
  {
    TurnRightCycle(dir);
    if !Blocked(obstacles, p, dir) then dir
    else if !Blocked(obstacles, p, TurnRight(dir)) then TurnRight(dir)
    else if !Blocked(obstacles, p, Reverse(dir)) then Reverse(dir)
    else TurnRight(Reverse(dir))
  }

  /** How many right turns that takes. */
  function Turns(obstacles: set<Pos>, p: Pos, dir: Direction): nat {
    if !Blocked(obstacles, p, dir) then 0
    else if !Blocked(obstacles, p, TurnRight(dir)) then 1
    else if !Blocked(obstacles, p, Reverse(dir)) then 2
    else 3
  }

  /** One step forward in heading `dir`, or off the grid. */
  function Go(size: (int, int), p: Pos, dir: Direction): Option<State> {
    var q := Forward(p, dir);
    if IsInsideGrid(q, size) then Some(State(q, dir)) else None
  }

  /** One move of the guard: turn right until the way ahead is free, then
      step forward, or leave the grid. A guard boxed in on all four sides
      stays where it is (it never leaves). */
  function Move(size: (int, int), obstacles: set<Pos>, s: State): Option<State> {
    if WalledIn(obstacles, s.pos) then Some(s)
    else Go(size, s.pos, FreeHeading(obstacles, s.pos, s.dir))
  }

  /** Turning in front of an obstacle does not change the next move, and
      leaves one turn fewer to make. */
  lemma BlockedTurn(size: (int, int), obstacles: set<Pos>, p: Pos, dir: Direction)
    requires !WalledIn(obstacles, p) && Blocked(obstacles, p, dir)
    ensures Turns(obstacles, p, TurnRight(dir)) < Turns(obstacles, p, dir)
    ensures Move(size, obstacles, State(p, dir)) == Move(size, obstacles, State(p, TurnRight(dir)))
  {
    TurnRightCycle(dir);
  }

  /** With the way ahead free, a move is a plain step forward. */
  lemma FreeAhead(size: (int, int), obstacles: set<Pos>, s: State)
    requires !Blocked(obstacles, s.pos, s.dir)
    ensures Move(size, obstacles, s) == Go(size, s.pos, s.dir)
  {
  }

  /** A move leaves the guard inside the grid on a free cell, one step along
      its new heading; if the way ahead was free it keeps its heading. */
  lemma MoveFacts(size: (int, int), obstacles: set<Pos>, s: State)
    requires !WalledIn(obstacles, s.pos)
    ensures Move(size, obstacles, s).Some? ==>
      var t := Move(size, obstacles, s).value;
      IsInsideGrid(t.pos, size) && t.pos !in obstacles && t.pos == Forward(s.pos, t.dir) &&
      (!Blocked(obstacles, s.pos, s.dir) ==> t.dir == s.dir)
    ensures Move(size, obstacles, s).None? <==>
      !IsInsideGrid(Forward(s.pos, FreeHeading(obstacles, s.pos, s.dir)), size)
  {
  }

  /** A guard that has just moved came from a free cell behind it, so it is
      not boxed in, even with one more obstacle straight ahead. */
  lemma ArrivedNotWalledIn(size: (int, int), obstacles: set<Pos>, s: State, t: State)
    requires s.pos !in obstacles && !WalledIn(obstacles, s.pos)
    requires Move(size, obstacles, s) == Some(t)
    ensures !WalledIn(obstacles, t.pos)
    ensures !WalledIn(obstacles + {Forward(t.pos, t.dir)}, t.pos)
  {
    MoveFacts(size, obstacles, s);
    ForwardBack(s.pos, t.dir);
    TurnRightCycle(t.dir);
    var back := Reverse(t.dir);
    assert Forward(t.pos, back) == s.pos;
    assert !Blocked(obstacles + {Forward(t.pos, t.dir)}, t.pos, back);
  }

  // ---------------------------------------------------------------------
  // get_new_guard

  /** `get_new_guard`: step into a free cell ahead, turn right in front of an
      obstacle and try again, or report that the guard left the grid. The
      source panics on a `GuardTile` ahead and turns forever when boxed in;
      both are excluded by the requires. */
  function GetNewGuard(guard: Guard, grid: Grid): (r: Option<Guard>)
    requires Rectangular(grid) && WellFormed(guard) && IsInsideGrid(guard.pos, GridSize(grid))
    requires NoOtherGuard(grid, guard.pos)
    requires !WalledIn(ObstaclesOf(grid), guard.pos)
    ensures r == ToGuard(Move(GridSize(grid), ObstaclesOf(grid), StateOf(guard)))
    decreases Turns(ObstaclesOf(grid), guard.pos, guard.dir)
  {
    var ahead := (guard.pos.0 + guard.dirDiff.0, guard.pos.1 + guard.dirDiff.1);
    ObstacleMember(grid, ahead);
    if IsInsideGrid(ahead, GridSize(grid)) then
      match At(grid, ahead)
      case Empty | Walked | Walked2(_) =>
        FreeAhead(GridSize(grid), ObstaclesOf(grid), StateOf(guard));
        Some(Guard(ahead, guard.dir, guard.dirDiff))
      case Obstacle | Obstacle2 =>
        var newDir := TurnRight(guard.dir);
        BlockedTurn(GridSize(grid), ObstaclesOf(grid), guard.pos, guard.dir);
        GetNewGuard(Guard(guard.pos, newDir, DirDiff(newDir)), grid)
      case GuardTile(_) =>
        assert false; None
    else
      FreeAhead(GridSize(grid), ObstaclesOf(grid), StateOf(guard));
      None
  }

  /** The properties of `get_new_guard` spelled out: `None` exactly when the
      cell ahead after the forced turns is off the grid; otherwise a
      well-formed guard, inside the grid, on a free cell, one step along its
      new heading, with its heading kept when the first cell ahead was free. */
  lemma GetNewGuardFacts(guard: Guard, grid: Grid)
    requires Rectangular(grid) && WellFormed(guard) && IsInsideGrid(guard.pos, GridSize(grid))
    requires NoOtherGuard(grid, guard.pos)
    requires !WalledIn(ObstaclesOf(grid), guard.pos)
    ensures var o := ObstaclesOf(grid);
      GetNewGuard(guard, grid).None? <==>
        !IsInsideGrid(Forward(guard.pos, FreeHeading(o, guard.pos, guard.dir)), GridSize(grid))
    ensures GetNewGuard(guard, grid).Some? ==>
      var g := GetNewGuard(guard, grid).value;
      WellFormed(g) && Inside(grid, g.pos) && !IsObstacle(At(grid, g.pos)) &&
      g.pos == Forward(guard.pos, g.dir) &&
      (!IsObstacle(At(grid, guard.pos)) && !Blocked(ObstaclesOf(grid), guard.pos, guard.dir) ==> g.dir == guard.dir)
  {
    MoveFacts(GridSize(grid), ObstaclesOf(grid), StateOf(guard));
    ObstacleMember(grid, guard.pos);
    if GetNewGuard(guard, grid).Some? {
      ObstacleMember(grid, GetNewGuard(guard, grid).value.pos);
    }
  }

  // ---------------------------------------------------------------------
  // Parsing and finding the guard

  predicate ValidChar(c: char) {
    c == '.' || c == '#' || c == '^' || c == '>' || c == 'v' || c == '<'
  }

  /** The character map of `parse_input`; any other character panics. */
  function ParseTile(c: char): Tile
    requires ValidChar(c)
  {
    match c
    case '.' => Empty
    case '#' => Obstacle
    case '^' => GuardTile(Up)
    case '>' => GuardTile(Right)
    case 'v' => GuardTile(Down)
    case '<' => GuardTile(Left)
  }

  predicate ValidText(lines: seq<string>) {
    forall y, x :: 0 <= y < |lines| && 0 <= x < |lines[y]| ==> ValidChar(lines[y][x])
  }

  /** A freshly parsed grid: only empty cells, obstacles and guards. */
  predicate Pristine(grid: Grid) {
    forall y, x :: 0 <= y < |grid| && 0 <= x < |grid[y]| ==>
      grid[y][x] == Empty || grid[y][x] == Obstacle || grid[y][x].GuardTile?
  }

  /** `parse_input`: one row of tiles per line. */
  function ParseGrid(lines: seq<string>): (grid: Grid)
    requires ValidText(lines)
    ensures |grid| == |lines| && forall y :: 0 <= y < |grid| ==> |grid[y]| == |lines[y]|
    ensures forall y, x :: 0 <= y < |grid| && 0 <= x < |grid[y]| ==> grid[y][x] == ParseTile(lines[y][x])
    ensures Pristine(grid)
  {
    seq(|lines|, y requires 0 <= y < |lines| =>
      seq(|lines[y]|, x requires 0 <= x < |lines[y]| => ParseTile(lines[y][x])))
  }

  /** `parse_input` on the text: one row per line, one tile per character. */
  function ParseInput(input: string): (grid: Grid)
    requires ValidText(Lines(input))
    ensures |grid| == |Lines(input)| && forall y :: 0 <= y < |grid| ==> |grid[y]| == |Lines(input)[y]|
    ensures forall y, x :: 0 <= y < |grid| && 0 <= x < |grid[y]| ==> grid[y][x] == ParseTile(Lines(input)[y][x])
    ensures Pristine(grid)
  {
    ParseGrid(Lines(input))
  }

  /** Row-major order. */
  predicate Before(p: Pos, q: Pos) {
    p.1 < q.1 || (p.1 == q.1 && p.0 < q.0)
  }

  /** The first `GuardTile` at column `x` or later of `row`. */
  function FindInRow(row: seq<Tile>, x: nat): (r: Option<nat>)
    ensures r.Some? ==> (x <= r.value < |row| && row[r.value].GuardTile? &&
      forall i :: x <= i < r.value ==> !row[i].GuardTile?)
    ensures r.None? ==> forall i :: x <= i < |row| ==> !row[i].GuardTile?
    decreases |row| - x
  {
    if x >= |row| then None
    else if row[x].GuardTile? then Some(x)
    else FindInRow(row, x + 1)
  }

  /** The first guard at row `y` or below, in row-major order. */
  function FindGuardFrom(grid: Grid, y: nat): (r: Option<Guard>)
    ensures r.Some? ==>
      var g := r.value;
      WellFormed(g) && y <= g.pos.1 < |grid| && 0 <= g.pos.0 < |grid[g.pos.1]| &&
      grid[g.pos.1][g.pos.0] == GuardTile(g.dir) &&
      forall y', x :: y <= y' < |grid| && 0 <= x < |grid[y']| && Before((x, y'), g.pos) ==> !grid[y'][x].GuardTile?
    ensures r.None? ==> forall y', x :: y <= y' < |grid| && 0 <= x < |grid[y']| ==> !grid[y'][x].GuardTile?
    decreases |grid| - y
  {
    if y >= |grid| then None
    else match FindInRow(grid[y], 0)
      case Some(x) =>
        var dir := grid[y][x].guardDir;
        Some(Guard((x, y), dir, DirDiff(dir)))
      case None => FindGuardFrom(grid, y + 1)
  }

  /** The `find_map` of `part_one`/`part_two`: the first guard in row-major
      order, with its step taken from `get_dir_diff`; `None` when the grid
      holds no guard. */
  function FindGuard(grid: Grid): (r: Option<Guard>)
    ensures r.Some? ==>
      var g := r.value;
      WellFormed(g) && 0 <= g.pos.1 < |grid| && 0 <= g.pos.0 < |grid[g.pos.1]| &&
      grid[g.pos.1][g.pos.0] == GuardTile(g.dir) &&
      forall y, x :: 0 <= y < |grid| && 0 <= x < |grid[y]| && Before((x, y), g.pos) ==> !grid[y][x].GuardTile?
    ensures r.None? <==> forall y, x :: 0 <= y < |grid| && 0 <= x < |grid[y]| ==> !grid[y][x].GuardTile?
  {
    FindGuardFrom(grid, 0)
  }

  /** `can_create_obstacle`: only an `Empty` cell can take a new obstacle:
      never an obstacle, a guard, or a cell the guard has walked. */
  predicate CanCreateObstacle(grid: Grid, p: Pos)
    requires Inside(grid, p)
    ensures CanCreateObstacle(grid, p) ==>
      p !in ObstaclesOf(grid) && !At(grid, p).GuardTile? && !At(grid, p).Walked? && !At(grid, p).Walked2?
  {
    ObstacleMember(grid, p);
    At(grid, p) == Empty
  }
}
