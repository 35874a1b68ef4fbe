/** Trailhead scoring (src/bin/10.rs): a topographic map of digit heights; a
    hiking trail climbs from height 0 to height 9 in orthogonal steps of
    exactly +1. */
module Trailheads {
  import opened Prelude

  /** (x, y), with y counting lines from the top. */
  type Pos = (int, int)

  /** Position to height; the `Tile` struct holds nothing but the height. */
  type HeightMap = map<Pos, nat>

  // ---------------------------------------------------------------------
  // Parsing

  /** Every character of every line is a decimal digit (`to_digit(10).unwrap()`
      panics otherwise). */
  predicate DigitGrid(lines: seq<string>) {
    forall y, x :: 0 <= y < |lines| && 0 <= x < |lines[y]| ==> IsDigit(lines[y][x])
  }

  /** `parse_input`: the height at (x, y) is the digit at column x of line y. */
  function ParseGrid(lines: seq<string>): (tm: HeightMap)
    requires DigitGrid(lines)
    ensures forall p :: p in tm <==> 0 <= p.1 < |lines| && 0 <= p.0 < |lines[p.1]|
    ensures forall p :: p in tm ==> tm[p] == DigitValue(lines[p.1][p.0]) && tm[p] <= 9
  {
    map y, x | 0 <= y < |lines| && 0 <= x < |lines[y]| :: (x, y) := DigitValue(lines[y][x])
  }

  /** `parse_input` on the text: the map holds one entry per character of
      each line, and its height is that digit's value. */
  function ParseInput(input: string): (tm: HeightMap)
    requires DigitGrid(Lines(input))
    ensures forall p :: p in tm <==> 0 <= p.1 < |Lines(input)| && 0 <= p.0 < |Lines(input)[p.1]|
    ensures forall p :: p in tm ==> tm[p] == DigitValue(Lines(input)[p.1][p.0]) && tm[p] <= 9
  {
    ParseGrid(Lines(input))
  }

  // ---------------------------------------------------------------------
  // Climbing

  /** The four steps, in the order the searches try them. */
  const Dirs: seq<Pos> := [(0, 1), (1, 0), (0, -1), (-1, 0)]

  function Add(p: Pos, d: Pos): Pos {
    (p.0 + d.0, p.1 + d.1)
  }

  /** `q` is one orthogonal step from `p`. */
  predicate Adjacent(p: Pos, q: Pos) {
    (q.0 - p.0 == 0 && (q.1 - p.1 == 1 || q.1 - p.1 == -1)) ||
    (q.1 - p.1 == 0 && (q.0 - p.0 == 1 || q.0 - p.0 == -1))
  }

  lemma DirsAreSteps(p: Pos, q: Pos)
    ensures Adjacent(p, q) <==> exists k :: 0 <= k < 4 && q == Add(p, Dirs[k])
  {
    if Adjacent(p, q) {
      if q == Add(p, Dirs[0]) {} else if q == Add(p, Dirs[1]) {} else if q == Add(p, Dirs[2]) {}
      else { assert q == Add(p, Dirs[3]); }
    }
  }

  /** `tm` has `q` one higher than `p`: the step condition of both searches. */
  predicate Climbs(tm: HeightMap, p: Pos, q: Pos)
    requires p in tm
  {
    q in tm && tm[q] == tm[p] + 1
  }

  /** The peaks reachable through the step in direction `d`: the closure in
      the `flat_map` of `get_trail_head_peaks`. */
  function StepPeaks(tm: HeightMap, pos: Pos, d: Pos): (r: set<Pos>)
    requires pos in tm
    ensures forall q :: q in r ==> q in tm && tm[q] == 9
    ensures r != {} ==> Climbs(tm, pos, Add(pos, d))
    decreases 10 - tm[pos] as int, 0
  {
    var np := Add(pos, d);
    if Climbs(tm, pos, np) && tm[np] < 9 then Peaks(tm, np)
    else if Climbs(tm, pos, np) && tm[np] == 9 then {np}
    else {}
  }

  /** `get_trail_head_peaks`: the set of height-9 cells reachable from `pos`
      by steps that climb exactly one. The position must be on the map
      (`unwrap`). */
  function Peaks(tm: HeightMap, pos: Pos): (r: set<Pos>)
    requires pos in tm
    ensures forall q :: q in r ==> q in tm && tm[q] == 9
    decreases 10 - tm[pos] as int, 1
  {
    StepPeaks(tm, pos, Dirs[0]) + StepPeaks(tm, pos, Dirs[1]) +
    StepPeaks(tm, pos, Dirs[2]) + StepPeaks(tm, pos, Dirs[3])
  }

  /** `get_trail_head_score`: never more than the number of paths, and zero
      exactly when there is no path. */
  function TrailHeadScore(tm: HeightMap, pos: Pos): (r: nat)
    requires pos in tm
    ensures r <= NumPaths(tm, pos)
    ensures r == 0 <==> NumPaths(tm, pos) == 0
  {
    |Peaks(tm, pos)|
  }

  /** The number of climbing paths through the step in direction `d`. */
  function StepPaths(tm: HeightMap, pos: Pos, d: Pos): (r: nat)
    requires pos in tm
    ensures |StepPeaks(tm, pos, d)| <= r
    ensures r == 0 <==> StepPeaks(tm, pos, d) == {}
    decreases 10 - tm[pos] as int, 0
  {
    var np := Add(pos, d);
    if Climbs(tm, pos, np) && tm[np] < 9 then NumPaths(tm, np)
    else if Climbs(tm, pos, np) && tm[np] == 9 then 1
    else 0
  }

  /** `get_num_paths`: the number of climbing paths from `pos` to a height-9
      cell. Each peak is reached by at least one path, so there are at least
      as many paths as peaks, and there is no path exactly when there is no
      peak. */
  function NumPaths(tm: HeightMap, pos: Pos): (r: nat)
    requires pos in tm
    ensures |Peaks(tm, pos)| <= r
    ensures r == 0 <==> Peaks(tm, pos) == {}
    decreases 10 - tm[pos] as int, 1
  {
    CardUnion4(StepPeaks(tm, pos, Dirs[0]), StepPeaks(tm, pos, Dirs[1]),
               StepPeaks(tm, pos, Dirs[2]), StepPeaks(tm, pos, Dirs[3]));
    StepPaths(tm, pos, Dirs[0]) + StepPaths(tm, pos, Dirs[1]) +
    StepPaths(tm, pos, Dirs[2]) + StepPaths(tm, pos, Dirs[3])
  }

  // ---------------------------------------------------------------------
  // Trails: the independent definition

  /** One step of a trail: orthogonal, and exactly one higher. */
  predicate Step(tm: HeightMap, p: Pos, q: Pos) {
    p in tm && q in tm && Adjacent(p, q) && tm[q] == tm[p] + 1
  }

  /** A hiking trail: at least one step, every step orthogonal and exactly one
      higher, ending at height 9. */
  predicate Trail(tm: HeightMap, path: seq<Pos>)
    decreases |path|
  {
    |path| >= 2 && Step(tm, path[0], path[1]) &&
    if |path| == 2 then tm[path[1]] == 9 else Trail(tm, path[1..])
  }

  lemma {:induction false} TrailHeights(tm: HeightMap, path: seq<Pos>, i: nat)
    requires Trail(tm, path) && i < |path|
    ensures path[i] in tm && tm[path[i]] == tm[path[0]] + i
    ensures path[|path| - 1] in tm && tm[path[|path| - 1]] == 9
    decreases |path|
  {
    if |path| > 2 {
      TrailHeights(tm, path[1..], if i == 0 then 0 else i - 1);
    }
  }

  /** A peak found through direction `d` ends a trail whose first step is `d`. */
  lemma {:induction false} StepPeaksSound(tm: HeightMap, pos: Pos, d: Pos, q: Pos)
    requires pos in tm && d in Dirs && q in StepPeaks(tm, pos, d)
    ensures exists path :: Trail(tm, path) && path[0] == pos && path[|path| - 1] == q
    decreases 10 - tm[pos] as int, 0
  {
    var np := Add(pos, d);
    var k :| 0 <= k < 4 && Dirs[k] == d;
    DirsAreSteps(pos, np);
    if Climbs(tm, pos, np) && tm[np] < 9 {
      PeaksSound(tm, np, q);
      var path :| Trail(tm, path) && path[0] == np && path[|path| - 1] == q;
      assert ([pos] + path)[1..] == path;
      assert Trail(tm, [pos] + path);
      assert ([pos] + path)[|[pos] + path| - 1] == q;
    } else {
      assert Trail(tm, [pos, np]);
    }
  }

  lemma {:induction false} PeaksSound(tm: HeightMap, pos: Pos, q: Pos)
    requires pos in tm && q in Peaks(tm, pos)
    ensures exists path :: Trail(tm, path) && path[0] == pos && path[|path| - 1] == q
    decreases 10 - tm[pos] as int, 1
  {
    var k :| 0 <= k < 4 && q in StepPeaks(tm, pos, Dirs[k]);
    StepPeaksSound(tm, pos, Dirs[k], q);
  }

  lemma {:induction false} PeaksComplete(tm: HeightMap, path: seq<Pos>)
    requires Trail(tm, path)
    ensures path[|path| - 1] in Peaks(tm, path[0])
    decreases |path|
  {
    var pos, np := path[0], path[1];
    DirsAreSteps(pos, np);
    var k :| 0 <= k < 4 && np == Add(pos, Dirs[k]);
    TrailHeights(tm, path, 1);
    TrailHeights(tm, path, |path| - 1);
    if |path| == 2 {
      assert path[|path| - 1] in StepPeaks(tm, pos, Dirs[k]);
    } else {
      PeaksComplete(tm, path[1..]);
      assert path[1..][|path[1..]| - 1] == path[|path| - 1];
      assert path[|path| - 1] in StepPeaks(tm, pos, Dirs[k]);
    }
  }

  /** The peaks of a position are exactly the ends of the hiking trails that
      start there. */
  lemma PeaksAreTrailEnds(tm: HeightMap, pos: Pos, q: Pos)
    requires pos in tm
    ensures q in Peaks(tm, pos) <==> exists path :: Trail(tm, path) && path[0] == pos && path[|path| - 1] == q
  {
    if q in Peaks(tm, pos) {
      PeaksSound(tm, pos, q);
    }
    if exists path :: Trail(tm, path) && path[0] == pos && path[|path| - 1] == q {
      var path :| Trail(tm, path) && path[0] == pos && path[|path| - 1] == q;
      PeaksComplete(tm, path);
    }
  }

  // ---------------------------------------------------------------------
  // Paths and peaks

  lemma CardUnion4(a: set<Pos>, b: set<Pos>, c: set<Pos>, d: set<Pos>)
    ensures |a + b + c + d| <= |a| + |b| + |c| + |d|
  {
    assert |a + b| <= |a| + |b|;
    assert |a + b + c| <= |a + b| + |c|;
  }

  // ---------------------------------------------------------------------
  // What `get_num_paths` counts

  /** The trails through the step in direction `d`, built the way
      `get_num_paths` explores them. */
  function StepTrails(tm: HeightMap, pos: Pos, d: Pos): (r: set<seq<Pos>>)
    requires pos in tm
    ensures forall t :: t in r ==> |t| >= 2 && t[0] == pos && t[1] == Add(pos, d)
    decreases 10 - tm[pos] as int, 0
  {
    var np := Add(pos, d);
    if Climbs(tm, pos, np) && tm[np] < 9 then set t | t in TrailSet(tm, np) :: [pos] + t
    else if Climbs(tm, pos, np) && tm[np] == 9 then {[pos, np]}
    else {}
  }

  /** Every trail `get_num_paths` walks from `pos`, as a set of paths. */
  function TrailSet(tm: HeightMap, pos: Pos): (r: set<seq<Pos>>)
    requires pos in tm
    ensures forall t :: t in r ==> |t| >= 2 && t[0] == pos
    decreases 10 - tm[pos] as int, 1
  {
    StepTrails(tm, pos, Dirs[0]) + StepTrails(tm, pos, Dirs[1]) +
    StepTrails(tm, pos, Dirs[2]) + StepTrails(tm, pos, Dirs[3])
  }

  lemma {:induction false} TrailSetSound(tm: HeightMap, pos: Pos, t: seq<Pos>)
    requires pos in tm && t in TrailSet(tm, pos)
    ensures Trail(tm, t)
    decreases 10 - tm[pos] as int
  {
    var k :| 0 <= k < 4 && t in StepTrails(tm, pos, Dirs[k]);
    var np := Add(pos, Dirs[k]);
    DirsAreSteps(pos, np);
    if Climbs(tm, pos, np) && tm[np] < 9 {
      var t' :| t' in TrailSet(tm, np) && t == [pos] + t';
      TrailSetSound(tm, np, t');
      assert t[1..] == t';
    }
  }

  lemma {:induction false} TrailSetComplete(tm: HeightMap, t: seq<Pos>)
    requires Trail(tm, t)
    ensures t[0] in tm && t in TrailSet(tm, t[0])
    decreases |t|
  {
    var pos, np := t[0], t[1];
    DirsAreSteps(pos, np);
    var k :| 0 <= k < 4 && np == Add(pos, Dirs[k]);
    TrailHeights(tm, t, 1);
    TrailHeights(tm, t, |t| - 1);
    if |t| == 2 {
      assert t == [pos, np];
      assert t in StepTrails(tm, pos, Dirs[k]);
    } else {
      TrailSetComplete(tm, t[1..]);
      assert t == [pos] + t[1..];
      assert t in StepTrails(tm, pos, Dirs[k]);
    }
    StepTrailsInTrailSet(tm, pos, k, t);
  }

  lemma StepTrailsInTrailSet(tm: HeightMap, pos: Pos, k: int, t: seq<Pos>)
    requires pos in tm && 0 <= k < 4 && t in StepTrails(tm, pos, Dirs[k])
    ensures t in TrailSet(tm, pos)
  {
    var s0, s1, s2, s3 := StepTrails(tm, pos, Dirs[0]), StepTrails(tm, pos, Dirs[1]),
                          StepTrails(tm, pos, Dirs[2]), StepTrails(tm, pos, Dirs[3]);
    assert TrailSet(tm, pos) == s0 + s1 + s2 + s3;
    assert t in s0 || t in s1 || t in s2 || t in s3 by {
      if k == 0 {} else if k == 1 {} else if k == 2 {} else {}
    }
  }

  /** The set holds exactly the hiking trails that start at `pos`. */
  lemma TrailSetIsTrails(tm: HeightMap, pos: Pos, t: seq<Pos>)
    requires pos in tm
    ensures t in TrailSet(tm, pos) <==> Trail(tm, t) && t[0] == pos
  {
    if t in TrailSet(tm, pos) {
      TrailSetSound(tm, pos, t);
    }
    if Trail(tm, t) && t[0] == pos {
      TrailSetComplete(tm, t);
    }
  }

  lemma {:induction false} PrependCount(pos: Pos, ts: set<seq<Pos>>)
    ensures |set t | t in ts :: [pos] + t| == |ts|
    decreases |ts|
  {
    if ts != {} {
      var x := Pick(ts);
      PrependCount(pos, ts - {x});
      var rest := set t | t in ts - {x} :: [pos] + t;
      assert (set t | t in ts :: [pos] + t) == rest + {[pos] + x};
      forall t | t in ts - {x} ensures [pos] + t != [pos] + x {
        assert ([pos] + t)[1..] == t && ([pos] + x)[1..] == x;
      }
    }
  }

  lemma StepTrailsCount(tm: HeightMap, pos: Pos, d: Pos)
    requires pos in tm
    requires Climbs(tm, pos, Add(pos, d)) && tm[Add(pos, d)] < 9 ==>
      |TrailSet(tm, Add(pos, d))| == NumPaths(tm, Add(pos, d))
    ensures |StepTrails(tm, pos, d)| == StepPaths(tm, pos, d)
  {
    var np := Add(pos, d);
    if Climbs(tm, pos, np) && tm[np] < 9 {
      PrependCount(pos, TrailSet(tm, np));
    }
  }

  /** `get_num_paths` counts distinct hiking trails: it equals the number of
      trails from `pos`. */
  lemma {:induction false} NumPathsCountsTrails(tm: HeightMap, pos: Pos)
    requires pos in tm
    ensures |TrailSet(tm, pos)| == NumPaths(tm, pos)
    decreases 10 - tm[pos] as int
  {
    forall k | 0 <= k < 4
      ensures |StepTrails(tm, pos, Dirs[k])| == StepPaths(tm, pos, Dirs[k])
    {
      var np := Add(pos, Dirs[k]);
      if Climbs(tm, pos, np) && tm[np] < 9 {
        NumPathsCountsTrails(tm, np);
      }
      StepTrailsCount(tm, pos, Dirs[k]);
    }
    var s0, s1, s2, s3 := StepTrails(tm, pos, Dirs[0]), StepTrails(tm, pos, Dirs[1]),
                          StepTrails(tm, pos, Dirs[2]), StepTrails(tm, pos, Dirs[3]);
    assert s0 * s1 == {};
    assert (s0 + s1) * s2 == {};
    assert (s0 + s1 + s2) * s3 == {};
  }

  // ---------------------------------------------------------------------
  // The answers

  /** What a map entry adds to the sum of `part_one`. */
  function ScoreTerm(tm: HeightMap, p: Pos): nat {
    if p in tm && tm[p] == 0 then TrailHeadScore(tm, p) else 0
  }

  /** What a map entry adds to the sum of `part_two`. */
  function RatingTerm(tm: HeightMap, p: Pos): nat {
    if p in tm && tm[p] == 0 then NumPaths(tm, p) else 0
  }

  /** `part_one`: the sum of the scores over the map entries, in no
      particular order. Only trailheads contribute. */
  ghost function PartOne(tm: HeightMap): (r: nat)
    ensures r == SetSum(TrailHeads(tm), p => ScoreTerm(tm, p))
  {
    SetSumZeroOutside(tm.Keys, TrailHeads(tm), p => ScoreTerm(tm, p));
    SetSum(tm.Keys, p => ScoreTerm(tm, p))
  }

  /** `part_two`: the same sum with the number of paths. */
  ghost function PartTwo(tm: HeightMap): (r: nat)
    ensures r == SetSum(TrailHeads(tm), p => RatingTerm(tm, p))
  {
    SetSumZeroOutside(tm.Keys, TrailHeads(tm), p => RatingTerm(tm, p));
    SetSum(tm.Keys, p => RatingTerm(tm, p))
  }

  /** The cells of height 0. */
  ghost function TrailHeads(tm: HeightMap): set<Pos> {
    set p | p in tm && tm[p] == 0
  }

  /** Part two's answer is never below part one's, and it is zero exactly
      when part one's is. */
  lemma PartTwoAtLeastPartOne(tm: HeightMap)
    ensures PartOne(tm) <= PartTwo(tm)
    ensures PartOne(tm) == 0 <==> PartTwo(tm) == 0
  {
    var f := p => ScoreTerm(tm, p);
    var g := p => RatingTerm(tm, p);
    forall p | p in tm.Keys ensures f(p) <= g(p) && (f(p) == 0 <==> g(p) == 0) {
    }
    SetSumMonotone(tm.Keys, f, g);
    SetSumZero(tm.Keys, f);
    SetSumZero(tm.Keys, g);
  }

  // ---------------------------------------------------------------------
  // The small map of the source's test

  function ExampleRows(): seq<string> {
    ["0123", "1234", "8765", "9876"]
  }

  lemma ExampleDigits()
    ensures DigitGrid(ExampleRows())
  {
    var rows := ExampleRows();
    forall y, x | 0 <= y < |rows| && 0 <= x < |rows[y]| ensures IsDigit(rows[y][x]) {
      assert y == 0 || y == 1 || y == 2 || y == 3;
    }
  }

  /** The map has one cell of height 0, (0, 0), and one of height 9, (0, 3). */
  lemma ExampleEnds()
    requires DigitGrid(ExampleRows())
    ensures var tm := ParseGrid(ExampleRows());
      (forall p :: p in tm && tm[p] == 0 ==> p == (0, 0)) &&
      (forall p :: p in tm && tm[p] == 9 ==> p == (0, 3))
  {
    var rows := ExampleRows();
    var tm := ParseGrid(rows);
    forall p | p in tm ensures tm[p] == 0 ==> p == (0, 0) ensures tm[p] == 9 ==> p == (0, 3) {
      var (x, y) := p;
      assert y == 0 || y == 1 || y == 2 || y == 3;
      assert x == 0 || x == 1 || x == 2 || x == 3;
    }
  }

  /** A path that climbs one step at a time from its first cell to a 9 is a
      trail: the converse of `TrailHeights`. */
  lemma {:induction false} ClimbIsTrail(tm: HeightMap, path: seq<Pos>)
    requires |path| >= 2
    requires forall i :: 0 <= i < |path| - 1 ==> Step(tm, path[i], path[i + 1])
    requires path[|path| - 1] in tm && tm[path[|path| - 1]] == 9
    ensures Trail(tm, path)
    decreases |path|
  {
    assert Step(tm, path[0], path[1]);
    if |path| > 2 {
      var rest := path[1..];
      forall i | 0 <= i < |rest| - 1 ensures Step(tm, rest[i], rest[i + 1]) {
        assert rest[i] == path[i + 1] && rest[i + 1] == path[i + 2];
      }
      ClimbIsTrail(tm, rest);
    }
  }

  /** 0 1 2 3 along the top row, 4 5 6 down the right column, 7 8 9 back
      along the bottom row. */
  const ExamplePath: seq<Pos> := [(0, 0), (1, 0), (2, 0), (3, 0), (3, 1), (3, 2), (3, 3), (2, 3), (1, 3), (0, 3)]

  /** The height `ParseGrid` gives a position of the text. */
  lemma HeightAt(lines: seq<string>, x: int, y: int)
    requires DigitGrid(lines) && 0 <= y < |lines| && 0 <= x < |lines[y]|
    ensures (x, y) in ParseGrid(lines) && ParseGrid(lines)[(x, y)] == DigitValue(lines[y][x])
  {
  }

  /** The heights along `ExamplePath` climb from 0 to 9. */
  predicate ExampleClimb(tm: HeightMap) {
    (0, 0) in tm && tm[(0, 0)] == 0 && (1, 0) in tm && tm[(1, 0)] == 1 &&
    (2, 0) in tm && tm[(2, 0)] == 2 && (3, 0) in tm && tm[(3, 0)] == 3 &&
    (3, 1) in tm && tm[(3, 1)] == 4 && (3, 2) in tm && tm[(3, 2)] == 5 &&
    (3, 3) in tm && tm[(3, 3)] == 6 && (2, 3) in tm && tm[(2, 3)] == 7 &&
    (1, 3) in tm && tm[(1, 3)] == 8 && (0, 3) in tm && tm[(0, 3)] == 9
  }

  lemma ExampleHeights()
    requires DigitGrid(ExampleRows())
    ensures ExampleClimb(ParseGrid(ExampleRows()))
  {
    var rows := ExampleRows();
    HeightAt(rows, 0, 0);
    HeightAt(rows, 1, 0);
    HeightAt(rows, 2, 0);
    HeightAt(rows, 3, 0);
    HeightAt(rows, 3, 1);
    HeightAt(rows, 3, 2);
    HeightAt(rows, 3, 3);
    HeightAt(rows, 2, 3);
    HeightAt(rows, 1, 3);
    HeightAt(rows, 0, 3);
  }

  lemma ExampleTrail(tm: HeightMap)
    requires ExampleClimb(tm)
    ensures Trail(tm, ExamplePath)
  {
    forall i | 0 <= i < |ExamplePath| - 1 ensures Step(tm, ExamplePath[i], ExamplePath[i + 1]) {
      assert i == 0 || i == 1 || i == 2 || i == 3 || i == 4 || i == 5 || i == 6 || i == 7 || i == 8;
    }
    ClimbIsTrail(tm, ExamplePath);
  }

  /** A map with a single trailhead, and a single peak that a trail from it
      reaches, has part one 1. */
  lemma SingleTrailHead(tm: HeightMap, head: Pos, peak: Pos, path: seq<Pos>)
    requires head in tm && tm[head] == 0
    requires forall p :: p in tm && tm[p] == 0 ==> p == head
    requires forall p :: p in tm && tm[p] == 9 ==> p == peak
    requires Trail(tm, path) && path[0] == head && path[|path| - 1] == peak
    ensures PartOne(tm) == 1
  {
    assert TrailHeads(tm) == {head};
    PeaksComplete(tm, path);
    assert Peaks(tm, head) == {peak};
    SetSumSingleton(head, p => ScoreTerm(tm, p));
  }

  /** `part_one` of the map 0123 / 1234 / 8765 / 9876 is 1: its only
      trailhead reaches its only peak. */
  lemma ExamplePartOne()
    ensures DigitGrid(ExampleRows())
    ensures PartOne(ParseGrid(ExampleRows())) == 1
  {
    ExampleDigits();
    ExampleEnds();
    ExampleHeights();
    ExampleScore(ParseGrid(ExampleRows()));
  }

  lemma ExampleScore(tm: HeightMap)
    requires ExampleClimb(tm)
    requires forall p :: p in tm && tm[p] == 0 ==> p == (0, 0)
    requires forall p :: p in tm && tm[p] == 9 ==> p == (0, 3)
    ensures PartOne(tm) == 1
  {
    ExampleTrail(tm);
    assert ExamplePath[0] == (0, 0) && ExamplePath[9] == (0, 3);
    SingleTrailHead(tm, (0, 0), (0, 3), ExamplePath);
  }
}
