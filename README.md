# Advent of Code 2024, days 6 to 10, in Dafny

This project models five puzzle solutions in Dafny and proves what each one computes:

- **Guard patrol (day 6).** A guard walks a grid of open cells and obstacles. It steps forward, and turns right whenever the cell ahead is blocked, until it leaves the grid. Part one counts the cells the guard stands on. Part two counts the cells where one more obstacle would trap the guard on the grid for ever.
- **Bridge repair (day 7).** Each equation lists a test value and some numbers. The operators `+`, `*` and (in part two) digit concatenation are placed between the numbers and applied strictly left to right. An answer is the sum of the test values that some choice of operators reaches.
- **Resonant collinearity (day 8).** Antennas of the same frequency, taken in pairs, create two antinodes: each antenna's mirror image through the other. Part one counts the distinct antinodes inside the map.
- **Disk fragmenter (day 9).** A dense disk map of digits expands into file blocks and free blocks. The blocks are compacted by moving the last file block into the first free block until no gap is left. The answer is the checksum: each file block's index times its file id, summed.
- **Hoof it (day 10).** A topographic map holds heights 0 to 9. A hiking trail climbs from 0 to 9 in orthogonal steps of exactly one. A trailhead's score is the number of peaks it reaches, and its rating is the number of distinct trails from it.

There is one module per source file, plus `Prelude`.

| module | file | source |
|---|---|---|
| `GuardPatrol` | `guard_patrol.dfy` | `src/bin/06.rs`: headings, grid, one guard move, parsing |
| `GuardWalk` | `guard_walk.dfy` | `src/bin/06.rs`: the walk and part one |
| `GuardLoops` | `guard_loops.dfy` | `src/bin/06.rs`: loop detection and part two |
| `Equations` | `equations.dfy` | `src/bin/07.rs` |
| `Antennas` | `antennas.dfy` | `src/bin/08.rs` |
| `DiskCompaction` | `disk_compaction.dfy` | `src/bin/09.rs` |
| `Trailheads` | `trailheads.dfy` | `src/bin/10.rs` |

`Prelude` provides:

- `str::lines`, as `Lines`;
- decimal digits;
- `SetSum`, an order-independent sum over a finite set. A sum over the entries of a `HashMap` or `HashSet` amounts to one.

Each module follows the form of its source:

- **Recursion and iterator chains** (`get_new_guard`, `calculate_equation`, `get_trail_head_peaks`, `get_num_paths`, the parsers) become functions.
- **Recursive walks that rebuild the grid** (`simulate_walk`, `simulate_walk_2`, `simulate_walk_3`) become methods with a `while` loop over a grid value. Each is proved against a ghost reference walk:
  - `Walk` is the guard's move as a function of a state;
  - `Iter` is its `n`-th iterate;
  - `Exits` says the walk leaves the grid.
- **Day 9's in-place loops** (`move_bytes`, `get_next_j`) are methods over an `array`. They are proved against a recursive reference compaction, `Compact`.

## Model

| member | source | states |
|---|---|---|
| `GuardPatrol.DirDiff` | src/bin/06.rs:59-66 | each heading is a unit step; "up" is exactly the heading with y decreasing, and "right" exactly the one with x increasing |
| `GuardPatrol.TurnRight` | src/bin/06.rs:244-251 | turning right rotates the step vector a quarter turn clockwise |
| `GuardPatrol.TurnRightCycle` | src/bin/06.rs:244-251 | four right turns come back to the start and pass through all four headings |
| `GuardPatrol.GuardOf` | src/bin/06.rs:23-28 | a guard built from a position and heading has a consistent `dir_diff` and gives that state back |
| `GuardPatrol.ForwardBack` | src/bin/06.rs:59-66 | a step followed by a step the opposite way returns to the start, and the two steps differ |
| `GuardPatrol.IsInsideGridExamples` | src/bin/06.rs:387-393 | the four boundary cases of `is_inside_grid` in the source's test |
| `GuardPatrol.SetTile` | src/bin/06.rs:128 | writing one tile keeps the grid's size and changes that cell only |
| `GuardPatrol.GridCells` | src/bin/06.rs:294-299 | the cells of a size are exactly the positions `is_inside_grid` accepts |
| `GuardPatrol.ObstacleMember` | src/bin/06.rs:269 | a position is an obstacle exactly when it is on the grid and holds `Obstacle` or `Obstacle2` |
| `GuardPatrol.SetTileKeepsObstacles` | src/bin/06.rs:128-132 | marking a free cell with a free tile leaves the obstacles unchanged |
| `GuardPatrol.SetTileAddsObstacle` | src/bin/06.rs:196 | writing `Obstacle2` adds exactly that cell to the obstacles |
| `GuardPatrol.FreeHeading` | src/bin/06.rs:269-281 | when the guard is not boxed in, turning right finds a heading whose cell ahead is free |
| `GuardPatrol.BlockedTurn` | src/bin/06.rs:269-281 | facing an obstacle, a move equals the move after one right turn, and fewer turns remain |
| `GuardPatrol.FreeAhead` | src/bin/06.rs:259-268 | with the cell ahead free, a move is one step forward, or leaving the grid |
| `GuardPatrol.MoveFacts` | src/bin/06.rs:253-292 | a move ends one step from the guard on a free in-grid cell, or the step after the turns leaves the grid |
| `GuardPatrol.ArrivedNotWalledIn` | src/bin/06.rs:253-292 | after a move the guard is not boxed in, even with an obstacle added straight ahead |
| `GuardPatrol.GetNewGuard` | src/bin/06.rs:253-292 | `get_new_guard` (step ahead, or turn right on an obstacle and retry) agrees with the reference move on every grid |
| `GuardPatrol.GetNewGuardFacts` | src/bin/06.rs:253-292 | the answer is `None` exactly when the cell ahead after the turns is off the grid; otherwise the new guard is well formed, on a free cell, one step along its heading, and keeps its heading when the way was clear |
| `GuardPatrol.ParseGrid` | src/bin/06.rs:301-318 | the grid has the text's shape, every cell is the character's tile, and it holds only `Empty`, `Obstacle` and guard tiles |
| `GuardPatrol.ParseInput` | src/bin/06.rs:301-318 | the grid has one row per line of the input and one tile per character, each the character's tile, and holds only `Empty`, `Obstacle` and guard tiles |
| `GuardPatrol.FindInRow` | src/bin/06.rs:33-40 | the result is the first guard tile at or after a column, or `None` when there is none |
| `GuardPatrol.FindGuardFrom` | src/bin/06.rs:32-41 | the result is the first guard tile in row-major order, with its position, heading and step; `None` when the grid has none |
| `GuardPatrol.FindGuard` | src/bin/06.rs:32-45 | the guard found is well formed and stands on the first guard tile of the grid in row-major order; there is none exactly when the grid holds no guard tile |
| `GuardPatrol.CanCreateObstacle` | src/bin/06.rs:207-213 | a new obstacle goes only on an `Empty` cell: never on an obstacle, a guard, or a cell the guard has walked |
| `GuardWalk.LeastExit` | src/bin/06.rs:125-141 | a walk that leaves the grid has a first exit time |
| `GuardWalk.ExitTimeStep` | src/bin/06.rs:125-141 | each move of a leaving walk brings the exit strictly closer |
| `GuardWalk.IterAdd` | src/bin/06.rs:125-141 | `a + b` moves are `a` moves followed by `b` moves |
| `GuardWalk.ExitsStep` | src/bin/06.rs:125-141 | a walk leaves from a state exactly when it leaves from the next one |
| `GuardWalk.SameMoveSameExits` | src/bin/06.rs:173-183 | two states with the same next move both leave or both stay |
| `GuardWalk.RepeatLoops` | src/bin/06.rs:225-235 | a walk that comes back to a state it was in never leaves the grid |
| `GuardWalk.VisitedStep` | src/bin/06.rs:125-141 | the cells visited from a state are that state's cell plus the cells visited from the next state |
| `GuardWalk.SimulateWalk` | src/bin/06.rs:125-141 | the returned grid keeps its size and has `Walked` on exactly the cells the guard stands on before leaving; every other tile is unchanged |
| `GuardWalk.CountInRowsCells` | src/bin/06.rs:49-52 | the row-by-row count of a tile equals the number of cells holding it |
| `GuardWalk.PartOne` | src/bin/06.rs:30-57 | part one is the number of distinct cells the guard visits |
| `GuardWalk.VisitedBounds` | src/bin/06.rs:30-57 | the starting cell is visited, and no more cells are visited than the grid has |
| `GuardWalk.CellCount` | src/bin/06.rs:294-299 | a w-by-h grid has w·h cells |
| `GuardLoops.ExitsAfter` | src/bin/06.rs:215-242 | a walk leaves from a state exactly when it leaves from any later state on it |
| `GuardLoops.PrefixMember` | src/bin/06.rs:143-170 | the cells of the first k states are exactly the cells of some state before k |
| `GuardLoops.WalledInStays` | src/bin/06.rs:253-292 | a boxed-in guard never leaves the grid |
| `GuardLoops.MoveUnaffected` | src/bin/06.rs:195-197 | an extra obstacle changes no move that does not run into it |
| `GuardLoops.IterUnaffected` | src/bin/06.rs:195-197 | an extra obstacle off the path so far leaves the walk so far unchanged |
| `GuardLoops.SimulateWalk3` | src/bin/06.rs:215-242 | returns true exactly when the walk never leaves the grid or comes back to an already recorded state |
| `GuardLoops.TraceExit` | src/bin/06.rs:240 | reaching the edge without a repeat means the walk leaves the grid and meets no recorded state |
| `GuardLoops.TraceFound` | src/bin/06.rs:225-235 | finding a repeated state means the walk never leaves the grid, or it meets a recorded state |
| `GuardLoops.CanCreateLoop` | src/bin/06.rs:172-213 | answers the cell straight ahead, exactly when that cell is `Empty` and an obstacle there keeps the guard on the grid for ever |
| `GuardLoops.SimulateWalk2` | src/bin/06.rs:143-170 | the set of cells ahead of some state of the walk that are `Empty`, not yet walked, and trap the guard from that state |
| `GuardLoops.CandidateIsObstruction` | src/bin/06.rs:143-170 | every reported cell does trap the guard when the obstruction is in place from the start |
| `GuardLoops.CandidatesAreObstructions` | src/bin/06.rs:143-170 | the reported cells are a subset of the trapping obstructions |
| `GuardLoops.PartTwo` | src/bin/06.rs:94-123 | part two is the number of reported cells; the starting cell is never among them, and the count is at most the number of trapping obstructions |
| `GuardLoops.CandidatesCount` | src/bin/06.rs:112-114 | removing the start position removes nothing, and the count is bounded by the obstructions |
| `GuardLoops.TrapsGuard` | src/bin/06.rs:215-242 | true exactly when the walk with one extra obstacle never leaves the grid |
| `GuardLoops.LoopObstructions` | src/bin/06.rs:143-170 | the set is exactly the visited cells, other than the start, where one more obstacle traps the guard |
| `GuardLoops.EntriesSound` | src/bin/06.rs:143-170 | every cell the corrected search reports is such an obstruction |
| `GuardLoops.EntriesComplete` | src/bin/06.rs:143-170 | every such obstruction is reported by the corrected search |
| `GuardLoops.PartTwoCorrected` | src/bin/06.rs:94-123 | the corrected count is the number of trapping obstructions |
| `GuardLoops.ExampleTrap` | src/bin/06.rs:215-242 | on the 5x5 map of the finding below, an obstacle at (2, 2) traps the guard |
| `GuardLoops.ExampleNotCandidate` | src/bin/06.rs:143-205 | on the same map, `simulate_walk_2` does not report (2, 2) |
| `GuardLoops.MissedObstruction` | src/bin/06.rs:143-205 | a valid map with a trapping obstruction that `simulate_walk_2` misses |
| `Equations.Digits` | src/bin/07.rs:83-84 | `to_string` yields a nonempty string of decimal digits |
| `Equations.DecimalValueOfDigits` | src/bin/07.rs:83-85 | parsing a number's decimal text gives the number back |
| `Equations.DecimalValueAppend` | src/bin/07.rs:85 | the value of joined digit strings is the first value shifted by the second's length, plus the second value |
| `Equations.Calculate` | src/bin/07.rs:78-88 | `+` adds and `*` multiplies; concatenation is `a·10^(digits of b) + b` |
| `Equations.FoldEquationSnoc` | src/bin/07.rs:72-74 | folding one more number applies its operator to the previous result |
| `Equations.CalculateEquation` | src/bin/07.rs:66-76 | a single number is its own value; otherwise operators apply strictly left to right, the last one to the value of everything before it |
| `Equations.ProductMembers` | src/bin/07.rs:60-64 | a cartesian-product member is a chosen operator followed by a tail |
| `Equations.ProductLength` | src/bin/07.rs:60-64 | the product has one entry per operator and tail |
| `Equations.AllPermutationsMembers` | src/bin/07.rs:60-64 | the sequences are exactly those of length n over the given operators |
| `Equations.AllPermutations` | src/bin/07.rs:60-64 | there are `|ops|^n` operator sequences of length n |
| `Equations.IsSolvable` | src/bin/07.rs:54-58 | a single number takes no operator and is solvable exactly when it equals the test value |
| `Equations.SolvableIff` | src/bin/07.rs:54-58 | an equation is solvable exactly when some operator sequence over the set evaluates to the key |
| `Equations.SolvableMonotone` | src/bin/07.rs:41-42 | an equation solvable with fewer operators stays solvable with more |
| `Equations.ConcatenationExample` | src/bin/07.rs:41-42 | `156: 15 6` is unsolvable with `+` and `*`, and solvable with concatenation |
| `Equations.Solution` | src/bin/07.rs:44-52 | the fold adds up the test values of exactly the solvable equations, in any order |
| `Equations.Solution2AtLeastSolution1` | src/bin/07.rs:97-105 | part two's answer is at least part one's |
| `Equations.DigitRun` | src/bin/07.rs:24-26 | `digit1` takes the longest leading run of digits |
| `Equations.ParseNumber` | src/bin/07.rs:24-26 | a parsed number consumes input |
| `Equations.ParseLine` | src/bin/07.rs:17-22 | a parsed line has at least one number and consumes input |
| `Equations.MoreLines` | src/bin/07.rs:12-15 | every line parsed has at least one number |
| `Equations.CollectKeys` | src/bin/07.rs:14 | the map's keys are exactly the lines' test values |
| `Equations.CollectLastWins` | src/bin/07.rs:14 | a repeated test value keeps its last line |
| `Equations.CollectWellFormed` | src/bin/07.rs:14 | every collected equation has at least one number |
| `Equations.ParseInput` | src/bin/07.rs:12-15 | every equation parsed has at least one number, so `equation.len() - 1` never underflows, and input is consumed |
| `Equations.ParseNumberDigits` | src/bin/07.rs:24-26 | parsing a number's decimal text followed by a non-digit gives the number and the rest |
| `Equations.ParseLineFormat` | src/bin/07.rs:17-22 | parsing a formatted line gives the line back |
| `Equations.MoreLinesNewline` | src/bin/07.rs:13 | parsing newline-separated formatted lines gives them back |
| `Equations.ParseInputFormat` | src/bin/07.rs:12-15 | parsing formatted lines, with or without a final newline, gives the collected map and that ending |
| `Equations.Part` | src/bin/07.rs:35-39 | `None` exactly when no line parses; otherwise the sum of the test values of the parsed equations that are solvable |
| `Equations.PartOfFormat` | src/bin/07.rs:35-39 | the answer on formatted lines is the sum of the solvable test values of the collected map |
| `Equations.MoreNumbersShape` | src/bin/07.rs:20 | the numbers after the first were each written as a space and one or more digits, with the value of those digits |
| `Equations.ParseLineShape` | src/bin/07.rs:17-26 | a line that parses was written `<digits>: <digits>( <digits>)*`, and every number is the value of its digits, leading zeros included; the converse of `ParseLineFormat` |
| `Antennas.TileOf` | src/bin/08.rs:44-47 | `.` is `Empty`, and every other character is an antenna of that frequency |
| `Antennas.GridSize` | src/bin/08.rs:31-35 | when all lines are equally long, the positions inside the size are exactly the characters of the text |
| `Antennas.GridSizeOfRows` | src/bin/08.rs:31-35 | the size of a text is (width of the first line, number of lines) |
| `Antennas.CellsContents` | src/bin/08.rs:38-51 | the cells are exactly the text's characters, each at its own position |
| `Antennas.CellsRowMajor` | src/bin/08.rs:38-51 | the cells come in row-major order, on the text's lines |
| `Antennas.GroupIsGroupBy` | src/bin/08.rs:52-55 | the fold is a group-by: a key exists exactly when the tile occurs, holding its positions in order |
| `Antennas.PositionsMembers` | src/bin/08.rs:52-55 | a tile's list holds exactly its positions |
| `Antennas.PositionsRowMajor` | src/bin/08.rs:52-55 | each list is in row-major order |
| `Antennas.TileMap` | src/bin/08.rs:37-58 | no `Empty` key, and each frequency's list is in row-major order, so it repeats no position |
| `Antennas.TileMapIsGroupBy` | src/bin/08.rs:37-58 | no `Empty` key; a frequency is a key exactly when it occurs; its list holds exactly its positions, in row-major order |
| `Antennas.PairAntinodes` | src/bin/08.rs:96-108 | the two antinodes of a pair are each antenna mirrored through the other |
| `Antennas.PairAntinodesReflect` | src/bin/08.rs:96-108 | the antinodes are the same whichever order the pair comes in |
| `Antennas.PairAntinodesCollinear` | src/bin/08.rs:96-108 | an antinode is in line with the pair and twice as far from one antenna as from the other |
| `Antennas.AllAntennaAntinodes` | src/bin/08.rs:79-90 | a list has antinodes exactly when it holds at least two antennas |
| `Antennas.AllAntennaAntinodesIff` | src/bin/08.rs:79-90 | the antinodes are exactly the mirrors of one antenna through another |
| `Antennas.RowMajorDistinct` | src/bin/08.rs:52-55 | positions in a list are distinct, so `combinations(2)` never pairs an antenna with itself |
| `Antennas.InGridAntinodes` | src/bin/08.rs:60-77 | every counted antinode is on the map and mirrors one antenna through another of the same frequency |
| `Antennas.InGridAntinodesComplete` | src/bin/08.rs:60-77 | every such mirror on the map is counted |
| `Antennas.InGridAntinodesIff` | src/bin/08.rs:60-77 | both directions together |
| `Antennas.PartOne` | src/bin/08.rs:60-77 | part one is the number of map cells that are an antenna mirrored through another antenna of the same frequency, each cell counted once |
| `Antennas.PartTwo` | src/bin/08.rs:109-111 | part two answers `None` |
| `Antennas.ExampleAntinodes` | src/bin/08.rs:123-137 | on the test's map the antinodes on the map are (0, 2), (3, 1), (6, 7) and (2, 6) |
| `Antennas.ExamplePartOne` | src/bin/08.rs:123-137 | `part_one` of the test's map answers 4, as the test expects |
| `DiskCompaction.ParseInput` | src/bin/09.rs:9-25 | the loop builds the expansion: even positions give file blocks numbered 0, 1, 2, … and odd positions give free blocks |
| `DiskCompaction.ExpandedLength` | src/bin/09.rs:9-33 | the expansion's length is the sum of the digits |
| `DiskCompaction.ExpandedFileCount` | src/bin/09.rs:9-33 | file k occupies as many blocks as the digit at position 2k |
| `DiskCompaction.ParseExample` | src/bin/09.rs:107-128 | "12345" expands as in the source's test |
| `DiskCompaction.CompactPermutes` | src/bin/09.rs:50-71 | compaction only rearranges the blocks |
| `DiskCompaction.CompactFilesFirst` | src/bin/09.rs:50-71 | after compaction no file block follows a free block |
| `DiskCompaction.CompactFixesPacked` | src/bin/09.rs:50-71 | a disk with no gap is left as it is |
| `DiskCompaction.CompactIdempotent` | src/bin/09.rs:50-71 | compacting twice is compacting once |
| `DiskCompaction.CompactDropEmpties` | src/bin/09.rs:50-71 | trailing free blocks take no part in compaction |
| `DiskCompaction.GetNextJ` | src/bin/09.rs:73-80 | returns the last file block at or before j; everything between it and j is free |
| `DiskCompaction.MoveBytes` | src/bin/09.rs:50-71 | the array ends up as the reference compaction of its old contents: the same blocks, with every file block before every free block |
| `DiskCompaction.Checksum` | src/bin/09.rs:38-46 | on a disk whose files come first, the rank-weighted checksum is the sum of index times file id |
| `DiskCompaction.ChecksumOfPacked` | src/bin/09.rs:38-46 | on a gapless disk, ranking the file blocks equals weighting each block by its index |
| `DiskCompaction.AllEmptyZero` | src/bin/09.rs:38-46 | free blocks add nothing |
| `DiskCompaction.ExpandedHasFile` | src/bin/09.rs:50-52 | a map with a nonzero file digit expands to at least one file block |
| `DiskCompaction.PartOne` | src/bin/09.rs:35-48 | part one is the checksum of the compacted expansion, equal to the index-weighted sum of the blocks |
| `DiskCompaction.CompactExample` | src/bin/09.rs:95-99 | compacting the expansion of "1111111111" gives the files in order 0 4 1 3 2 |
| `DiskCompaction.ChecksumExample` | src/bin/09.rs:95-99 | the checksum of "1111111111" is 23, as in the source's test |
| `Trailheads.ParseGrid` | src/bin/10.rs:10-25 | the map has exactly the text's positions, each with its digit's height |
| `Trailheads.ParseInput` | src/bin/10.rs:10-25 | the map has one entry per character of each line of the input, with that digit as its height |
| `Trailheads.DirsAreSteps` | src/bin/10.rs:51 | the four directions are exactly the orthogonal unit steps |
| `Trailheads.StepPeaks` | src/bin/10.rs:53-67 | peaks found through one direction have height 9, and there are some only if that step climbs by one |
| `Trailheads.Peaks` | src/bin/10.rs:46-70 | every cell found has height 9 |
| `Trailheads.TrailHeadScore` | src/bin/10.rs:42-44 | a trailhead's score is at most its number of paths, and zero exactly when that number is |
| `Trailheads.PeaksAreTrailEnds` | src/bin/10.rs:46-70 | the peaks found from a cell are exactly the ends of the hiking trails starting there |
| `Trailheads.StepPaths` | src/bin/10.rs:111-124 | the paths through one direction are at least as many as the peaks found through it, and zero exactly when there are none |
| `Trailheads.NumPaths` | src/bin/10.rs:108-127 | a cell has at least as many paths as peaks it reaches, and no path exactly when it reaches no peak |
| `Trailheads.TrailHeights` | src/bin/10.rs:56-58 | along a trail each cell is one higher than the one before, and the last is a 9 |
| `Trailheads.ClimbIsTrail` | src/bin/10.rs:56-58 | a path that climbs by one at every orthogonal step and ends on a 9 is a trail (the converse of `TrailHeights`) |
| `Trailheads.SingleTrailHead` | src/bin/10.rs:26-40 | a map with one trailhead and one peak, joined by a trail, has part one 1 |
| `Trailheads.ExamplePartOne` | src/bin/10.rs:133-142 | `part_one` of the map 0123 / 1234 / 8765 / 9876 answers 1, as the test expects |
| `Trailheads.TrailSetIsTrails` | src/bin/10.rs:108-127 | the trail set from a cell is exactly the hiking trails that start there |
| `Trailheads.NumPathsCountsTrails` | src/bin/10.rs:108-127 | `get_num_paths` is the number of distinct hiking trails from the cell |
| `Trailheads.PartOne` | src/bin/10.rs:26-40 | part one is the sum of the trailheads' scores; no other cell contributes |
| `Trailheads.PartTwo` | src/bin/10.rs:92-106 | part two is the sum of the trailheads' numbers of paths; no other cell contributes |
| `Trailheads.PartTwoAtLeastPartOne` | src/bin/10.rs:92-106 | part two's answer is never below part one's, and it is zero exactly when part one's is |
| `Prelude.LinesUnlines` | src/bin/08.rs:38-39 | splitting newline-terminated rows into lines gives the rows back |

## Left out

- Printing is not modelled: `print_grid`, `print_tile_map_with_pos`, the `println!` calls and the `print` flag of `simulate_walk_3`. Neither are `part_two`'s loop that writes `Obstacle2` into a grid only to print it (06.rs:116-120).
- The `solution!` harness, and the tests that read example files (days 6 to 10), are not modelled: those files are not part of this model.
- Integers are unbounded. Overflow, and the `i64`/`u64`/`usize` casts, are not modelled.
- Panics become preconditions. These cover:
  - an invalid map character;
  - no guard found;
  - a guard tile straight ahead of the guard. The model requires more: the map holds exactly one guard tile (`NoOtherGuard`), and its rows all have the same length (`Rectangular`). The source would still answer on a map whose second guard tile the guard never reaches;
  - in 08.rs, a text with no line (`lines().next().unwrap()`): `Antennas.PartOne` requires at least one line;
  - `to_digit(10).unwrap()` on a non-digit;
  - `unwrap` on a missing map key;
  - `get_next_j` running below zero.
- `GuardWalk.SimulateWalk`, `GuardWalk.PartOne`, `GuardLoops.SimulateWalk2`, `GuardLoops.LoopObstructions`, `GuardLoops.PartTwo` and `GuardLoops.PartTwoCorrected` require that the guard leaves the grid (`Patrol`). The source's `simulate_walk` and `simulate_walk_2` have no cycle check and would recurse for ever on a map where the guard loops.
- `GuardPatrol.GetNewGuard` requires that the guard is not boxed in on all four sides; the source would turn for ever. `GuardLoops.SimulateWalk2` and `GuardLoops.PartTwo` add `LoopTestable`: after an obstacle is placed ahead, the guard is still not boxed in.
- `GuardLoops.SimulateWalk3` requires that the guard does not stand on an obstacle. Its termination measure is the number of unrecorded states on the grid.
- GuardLoops.PartTwo: states the count of reported cells, and only an upper bound against the true number of trapping obstructions. It is weaker on purpose: the source's count is wrong (see Findings).
- Grids are values: `clone` and writes through `&mut` become new sequences, and the recursion of the walks becomes loops.
- Some of the source's tests are not proved: the 06.rs part-two maps (336-385) and the 7-by-7 map of 10.rs (144-156). Proving them means evaluating whole walks and searches. `GuardLoops.MissedObstruction`, `Equations.ConcatenationExample`, `DiskCompaction.ChecksumExample`, `Antennas.ExamplePartOne` and `Trailheads.ExamplePartOne` stand for the source's tests.
- `nom`'s error values are left out: a failed parse is `None`. In 07.rs, the input after the last line is returned and then ignored.
- `itertools` is modelled by its meaning. `repeat_n(…).multi_cartesian_product()` becomes all sequences of length n. `combinations(2)` becomes the ordered pairs of distinct list positions, and `Antennas.PairAntinodesReflect` shows the order does not matter.
- With zero factors, `Equations.AllPermutations` gives one empty sequence, the mathematical product, so a one-number line `k: k` is solvable. `itertools` releases differ on this case, and the source tree fixes no release.
- `HashMap`/`HashSet` iteration order is not modelled: sums over them are order-free `SetSum`s, so `Trailheads.PartOne`, `Trailheads.PartTwo` and `Equations.Solution` are ghost.
- 08.rs `_parse_input` (13-29) is unused by the program and is not modelled.
- 08.rs `part_two` and 09.rs `part_two` (82-84) are stubs answering `None`.
- Carriage returns are not modelled: `Lines` splits at `'\n'` only.

## Findings

| source | as written | input that shows it | evidently intended | confidence | as-written member | corrected member |
|---|---|---|---|---|---|---|
| src/bin/06.rs:143-205 | `simulate_walk_2` only tries, at each step, the cell straight ahead of the guard's current heading. A cell the guard first enters right after turning at an obstacle is never tried. | The 5x5 map `.....` / `.#...` / `.^...` / `#..#.` / `.##..`, guard at (1, 2) facing up. It faces the obstacle at (1, 1), turns right and leaves along row 2. An obstacle at (2, 2) makes it circle between (1, 2) and (1, 3) for ever, but (2, 2) is not reported. | Every cell on the guard's path, other than the start, where one more obstacle traps the guard | not executed | `GuardLoops.SimulateWalk2`, `GuardLoops.MissedObstruction` | `GuardLoops.LoopObstructions`, `GuardLoops.PartTwoCorrected` |
