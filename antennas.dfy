/** Antenna antinodes (src/bin/08.rs): antennas of the same frequency pair up,
    and each pair puts an antinode on the far side of each antenna, as far
    from it as the other antenna is. */
module Antennas {
  import opened Prelude

  datatype Tile = Empty | Antenna(frequency: char)

  /** (x, y), with y counting lines from the top. */
  type Pos = (int, int)

  /** '.' is empty ground; any other character is an antenna of that frequency. */
  function TileOf(c: char): (t: Tile)
    ensures t == Empty <==> c == '.'
    ensures t.Antenna? ==> t.frequency == c
  {
    if c == '.' then Empty else Antenna(c)
  }

  // ---------------------------------------------------------------------
  // Grid size

  /** `get_grid_size`: (characters on the first line, number of lines); the
      first line must exist. When all lines are equally long, the positions
      inside that size are exactly the characters of the text. */
  function GridSize(lines: seq<string>): (size: (int, int))
    requires |lines| >= 1
    ensures (forall y :: 0 <= y < |lines| ==> |lines[y]| == |lines[0]|) ==>
      forall p :: IsInsideGrid(p, size) <==> 0 <= p.1 < |lines| && 0 <= p.0 < |lines[p.1]|
  {
    (|lines[0]|, |lines|)
  }

  /** On a grid of rows written one per line, the size is the width of the
      first row and the number of rows. */
  lemma GridSizeOfRows(rows: seq<string>)
    requires |rows| >= 1
    requires forall i, j :: 0 <= i < |rows| && 0 <= j < |rows[i]| ==> rows[i][j] != '\n'
    ensures |Lines(Unlines(rows))| >= 1
    ensures GridSize(Lines(Unlines(rows))) == (|rows[0]|, |rows|)
  {
    LinesUnlines(rows);
  }

  /** `is_inside_grid`. */
  predicate IsInsideGrid(p: Pos, size: (int, int)) {
    0 <= p.0 < size.0 && 0 <= p.1 < size.1
  }

  // ---------------------------------------------------------------------
  // Grouping antennas by frequency

  /** The cells of line `y`, left to right. */
  function RowCells(line: string, y: int): (r: seq<(Tile, Pos)>)
    ensures |r| == |line|
    ensures forall x :: 0 <= x < |r| ==> r[x] == (TileOf(line[x]), (x, y))
  {
    seq(|line|, x requires 0 <= x < |line| => (TileOf(line[x]), (x, y)))
  }

  /** Every cell of the text, row by row: the `flat_map` of `get_tile_map`. */
  function Cells(lines: seq<string>): seq<(Tile, Pos)> {
    if lines == [] then [] else Cells(lines[..|lines| - 1]) + RowCells(lines[|lines| - 1], |lines| - 1)
  }

  /** The cells hold exactly the characters of the text, each at its own
      position. */
  lemma {:induction false} CellsContents(lines: seq<string>, t: Tile, p: Pos)
    ensures (t, p) in Cells(lines) <==>
      0 <= p.1 < |lines| && 0 <= p.0 < |lines[p.1]| && t == TileOf(lines[p.1][p.0])
  {
    if lines != [] {
      var init := lines[..|lines| - 1];
      CellsContents(init, t, p);
      if 0 <= p.1 < |init| {
        assert init[p.1] == lines[p.1];
      }
      if (t, p) in RowCells(lines[|lines| - 1], |lines| - 1) {
        var x :| 0 <= x < |lines[|lines| - 1]| && RowCells(lines[|lines| - 1], |lines| - 1)[x] == (t, p);
      }
      if p.1 == |lines| - 1 && 0 <= p.0 < |lines[p.1]| && t == TileOf(lines[p.1][p.0]) {
        assert RowCells(lines[|lines| - 1], |lines| - 1)[p.0] == (t, p);
      }
    }
  }

  /** Row-major order: top to bottom, and left to right within a row. */
  predicate Before(p: Pos, q: Pos) {
    p.1 < q.1 || (p.1 == q.1 && p.0 < q.0)
  }

  predicate RowMajor(ps: seq<Pos>) {
    forall i, j :: 0 <= i < j < |ps| ==> Before(ps[i], ps[j])
  }

  lemma {:induction false} CellsRowMajor(lines: seq<string>)
    ensures forall i, j :: 0 <= i < j < |Cells(lines)| ==> Before(Cells(lines)[i].1, Cells(lines)[j].1)
    ensures forall i :: 0 <= i < |Cells(lines)| ==> 0 <= Cells(lines)[i].1.1 < |lines|
  {
    if lines != [] {
      var init := lines[..|lines| - 1];
      CellsRowMajor(init);
    }
  }

  /** The positions holding tile `t`, in the order of `cells`. */
  function Positions(cells: seq<(Tile, Pos)>, t: Tile): seq<Pos> {
    if cells == [] then []
    else
      var last := cells[|cells| - 1];
      Positions(cells[..|cells| - 1], t) + (if last.0 == t then [last.1] else [])
  }

  /** The `fold` of `get_tile_map`: each cell's position is appended to the
      list of its tile, creating the list on first sight. */
  function Group(cells: seq<(Tile, Pos)>): map<Tile, seq<Pos>> {
    if cells == [] then map[]
    else
      var m := Group(cells[..|cells| - 1]);
      var (t, p) := cells[|cells| - 1];
      m[t := (if t in m then m[t] else []) + [p]]
  }

  /** The fold is a group-by: a tile is a key exactly when it occurs, and its
      list holds its positions in the order they were met. */
  lemma {:induction false} GroupIsGroupBy(cells: seq<(Tile, Pos)>, t: Tile)
    ensures t in Group(cells) <==> exists i :: 0 <= i < |cells| && cells[i].0 == t
    ensures t in Group(cells) ==> Group(cells)[t] == Positions(cells, t)
    ensures t !in Group(cells) ==> Positions(cells, t) == []
  {
    if cells != [] {
      var init := cells[..|cells| - 1];
      GroupIsGroupBy(init, t);
      if exists i :: 0 <= i < |init| && init[i].0 == t {
        var i :| 0 <= i < |init| && init[i].0 == t;
        assert cells[i].0 == t;
      }
      if exists i :: 0 <= i < |cells| && cells[i].0 == t {
        var i :| 0 <= i < |cells| && cells[i].0 == t;
        if i < |init| { assert init[i].0 == t; }
      }
    }
  }

  /** `get_tile_map`: the group-by with the `Empty` entry removed. Each
      frequency's list is in row-major order, so it repeats no position. */
  function TileMap(lines: seq<string>): (tm: map<Tile, seq<Pos>>)
    ensures Empty !in tm
    ensures forall t :: t in tm ==> RowMajor(tm[t])
  {
    var cells := Cells(lines);
    var tm := Group(cells) - {Empty};
    assert forall t :: t in tm ==> RowMajor(tm[t]) by {
      CellsRowMajor(lines);
      forall t | t in tm ensures RowMajor(tm[t]) {
        GroupIsGroupBy(cells, t);
        PositionsRowMajor(cells, t);
      }
    }
    tm
  }

  lemma {:induction false} PositionsMembers(cells: seq<(Tile, Pos)>, t: Tile, p: Pos)
    ensures p in Positions(cells, t) <==> (t, p) in cells
  {
    if cells != [] {
      PositionsMembers(cells[..|cells| - 1], t, p);
      assert cells == cells[..|cells| - 1] + [cells[|cells| - 1]];
    }
  }

  lemma {:induction false} PositionsRowMajor(cells: seq<(Tile, Pos)>, t: Tile)
    requires forall i, j :: 0 <= i < j < |cells| ==> Before(cells[i].1, cells[j].1)
    ensures RowMajor(Positions(cells, t))
  {
    if cells != [] {
      var init := cells[..|cells| - 1];
      PositionsRowMajor(init, t);
      forall p | p in Positions(init, t)
        ensures Before(p, cells[|cells| - 1].1)
      {
        PositionsMembers(init, t, p);
        var i :| 0 <= i < |init| && init[i] == (t, p);
      }
      var ps := Positions(cells, t);
      var front := Positions(init, t);
      forall i, j | 0 <= i < j < |ps| ensures Before(ps[i], ps[j]) {
        if j >= |front| {
          assert ps[i] in front;
        }
      }
    }
  }

  /** `get_tile_map` never has an `Empty` key; it has a key for every
      frequency in the text, and the list of that key holds exactly the
      positions of that character, in row-major order. */
  lemma TileMapIsGroupBy(lines: seq<string>, t: Tile)
    ensures Empty !in TileMap(lines)
    ensures t in TileMap(lines) <==> (t.Antenna? && t.frequency != '.' &&
      exists y, x :: 0 <= y < |lines| && 0 <= x < |lines[y]| && lines[y][x] == t.frequency)
    ensures t in TileMap(lines) ==>
      RowMajor(TileMap(lines)[t]) &&
      forall p :: p in TileMap(lines)[t] <==>
        0 <= p.1 < |lines| && 0 <= p.0 < |lines[p.1]| && lines[p.1][p.0] == t.frequency
  {
    var cells := Cells(lines);
    GroupIsGroupBy(cells, t);
    if t.Antenna? && t.frequency != '.' {
      if exists i :: 0 <= i < |cells| && cells[i].0 == t {
        var i :| 0 <= i < |cells| && cells[i].0 == t;
        CellsContents(lines, t, cells[i].1);
      }
      if exists y, x :: 0 <= y < |lines| && 0 <= x < |lines[y]| && lines[y][x] == t.frequency {
        var y, x :| 0 <= y < |lines| && 0 <= x < |lines[y]| && lines[y][x] == t.frequency;
        CellsContents(lines, t, (x, y));
        assert (t, (x, y)) in cells;
        var i :| 0 <= i < |cells| && cells[i] == (t, (x, y));
      }
      if t in TileMap(lines) {
        CellsRowMajor(lines);
        PositionsRowMajor(cells, t);
        forall p: Pos
          ensures p in TileMap(lines)[t] <==>
            0 <= p.1 < |lines| && 0 <= p.0 < |lines[p.1]| && lines[p.1][p.0] == t.frequency
        {
          PositionsMembers(cells, t, p);
          CellsContents(lines, t, p);
        }
      }
    } else if t.Antenna? && exists i :: 0 <= i < |cells| && cells[i].0 == t {
      var i :| 0 <= i < |cells| && cells[i].0 == t;
      assert (t, cells[i].1) in cells;
      CellsContents(lines, t, cells[i].1);
      assert false;
    }
  }

  // ---------------------------------------------------------------------
  // Antinodes

  /** `get_antenna_dist`: the vector from `b` to `a`. */
  function AntennaDist(a: Pos, b: Pos): Pos {
    (a.0 - b.0, a.1 - b.1)
  }

  /** `get_antenna_pair_antinodes`: one step past `a` away from `b`, and one
      step past `b` away from `a`. */
  function PairAntinodes(a: Pos, b: Pos): (r: set<Pos>)
    ensures r == {Reflect(b, a), Reflect(a, b)}
  {
    var (dx, dy) := AntennaDist(a, b);
    {(a.0 + dx, a.1 + dy), (b.0 - dx, b.1 - dy)}
  }

  /** `2a - b`: the point `b` reflected through `a`. */
  function Reflect(b: Pos, a: Pos): Pos {
    (2 * a.0 - b.0, 2 * a.1 - b.1)
  }

  /** Which antenna is called `a` does not matter. */
  lemma PairAntinodesReflect(a: Pos, b: Pos)
    ensures PairAntinodes(a, b) == PairAntinodes(b, a)
  {
  }

  /** Antinodes lie on the line through the pair, at twice the distance from
      one antenna as from the other. */
  lemma PairAntinodesCollinear(a: Pos, b: Pos, p: Pos)
    requires p in PairAntinodes(a, b)
    ensures (p.0 - a.0) * (b.1 - a.1) == (p.1 - a.1) * (b.0 - a.0)
    ensures AntennaDist(p, b) == (2 * (p.0 - a.0), 2 * (p.1 - a.1)) ||
            AntennaDist(p, a) == (2 * (p.0 - b.0), 2 * (p.1 - b.1))
  {
  }

  /** `get_all_antenna_antinodes`: the union over `combinations(2)`, the
      pairs of list entries i < j. There are antinodes exactly when there
      are at least two antennas. */
  function AllAntennaAntinodes(antennas: seq<Pos>): (r: set<Pos>)
    ensures r == {} <==> |antennas| < 2
  {
    var r := set i, j, p | 0 <= i < j < |antennas| && p in PairAntinodes(antennas[i], antennas[j]) :: p;
    assert |antennas| >= 2 ==> Reflect(antennas[1], antennas[0]) in r by {
      if |antennas| >= 2 {
        assert Reflect(antennas[1], antennas[0]) in PairAntinodes(antennas[0], antennas[1]);
      }
    }
    r
  }

  /** A point is an antinode of a list exactly when it is one entry reflected
      through another. */
  lemma AllAntennaAntinodesIff(antennas: seq<Pos>, p: Pos)
    ensures p in AllAntennaAntinodes(antennas) <==>
      exists i, j :: 0 <= i < |antennas| && 0 <= j < |antennas| && i != j && p == Reflect(antennas[j], antennas[i])
  {
    if p in AllAntennaAntinodes(antennas) {
      AntinodeIsReflection(antennas, p);
    }
    if exists i, j :: 0 <= i < |antennas| && 0 <= j < |antennas| && i != j && p == Reflect(antennas[j], antennas[i]) {
      var i, j :| 0 <= i < |antennas| && 0 <= j < |antennas| && i != j && p == Reflect(antennas[j], antennas[i]);
      ReflectionIsAntinode(antennas, i, j);
    }
  }

  lemma AntinodeIsReflection(antennas: seq<Pos>, p: Pos)
    requires p in AllAntennaAntinodes(antennas)
    ensures exists i, j :: 0 <= i < |antennas| && 0 <= j < |antennas| && i != j && p == Reflect(antennas[j], antennas[i])
  {
    var i, j :| 0 <= i < j < |antennas| && p in PairAntinodes(antennas[i], antennas[j]);
    if p == Reflect(antennas[j], antennas[i]) {
      assert 0 <= i < |antennas| && 0 <= j < |antennas| && i != j && p == Reflect(antennas[j], antennas[i]);
    } else {
      assert 0 <= j < |antennas| && 0 <= i < |antennas| && j != i && p == Reflect(antennas[i], antennas[j]);
    }
  }

  lemma ReflectionIsAntinode(antennas: seq<Pos>, i: int, j: int)
    requires 0 <= i < |antennas| && 0 <= j < |antennas| && i != j
    ensures Reflect(antennas[j], antennas[i]) in AllAntennaAntinodes(antennas)
  {
    if i < j {
      assert Reflect(antennas[j], antennas[i]) in PairAntinodes(antennas[i], antennas[j]);
    } else {
      assert Reflect(antennas[j], antennas[i]) in PairAntinodes(antennas[j], antennas[i]);
    }
  }


  // ---------------------------------------------------------------------
  // Part one

  /** The union, over every frequency's list, of its antinodes, kept only
      inside the grid. Every cell in it is one antenna reflected through
      another of the same frequency. */
  function InGridAntinodes(lines: seq<string>): (r: set<Pos>)
    requires |lines| >= 1
    ensures forall p :: p in r ==>
      IsInsideGrid(p, GridSize(lines)) && exists a, b :: SameFrequency(lines, a, b) && p == Reflect(b, a)
  {
    var tm := TileMap(lines);
    var r := set t, p | t in tm && p in AllAntennaAntinodes(tm[t]) && IsInsideGrid(p, GridSize(lines)) :: p;
    assert forall p :: p in r ==>
      IsInsideGrid(p, GridSize(lines)) && exists a, b :: SameFrequency(lines, a, b) && p == Reflect(b, a) by {
      forall p | p in r
        ensures IsInsideGrid(p, GridSize(lines)) && exists a, b :: SameFrequency(lines, a, b) && p == Reflect(b, a)
      {
        var t :| t in tm && p in AllAntennaAntinodes(tm[t]) && IsInsideGrid(p, GridSize(lines));
        FrequencyAntinode(lines, t, p);
      }
    }
    r
  }

  /** The in-grid cells that are an antenna reflected through another antenna
      of the same frequency: what part one counts, defined on the text. */
  ghost function Antinodes(lines: seq<string>): set<Pos>
    requires |lines| >= 1
  {
    set x, y | 0 <= x < |lines[0]| && 0 <= y < |lines| &&
      (exists a, b :: SameFrequency(lines, a, b) && (x, y) == Reflect(b, a)) :: (x, y)
  }

  /** `part_one`: the number of distinct in-grid antinodes. The text must
      have a line (`unwrap` in `get_grid_size`). */
  function PartOne(input: string): (r: Option<nat>)
    requires |Lines(input)| >= 1
    ensures r == Some(|Antinodes(Lines(input))|)
  {
    var lines := Lines(input);
    assert InGridAntinodes(lines) == Antinodes(lines) by {
      forall p ensures p in InGridAntinodes(lines) <==> p in Antinodes(lines) {
        InGridAntinodesIff(lines, p);
      }
    }
    Some(|InGridAntinodes(lines)|)
  }

  /** `part_two` is not solved and always answers `None`. */
  function PartTwo(input: string): (r: Option<nat>)
    ensures r == None
  {
    None
  }

  /** Two distinct cells holding the same frequency. */
  predicate SameFrequency(lines: seq<string>, a: Pos, b: Pos) {
    a != b &&
    0 <= a.1 < |lines| && 0 <= a.0 < |lines[a.1]| &&
    0 <= b.1 < |lines| && 0 <= b.0 < |lines[b.1]| &&
    lines[a.1][a.0] != '.' && lines[a.1][a.0] == lines[b.1][b.0]
  }

  /** Positions in a row-major list are distinct. */
  lemma RowMajorDistinct(ps: seq<Pos>, i: int, j: int)
    requires RowMajor(ps) && 0 <= i < |ps| && 0 <= j < |ps| && i != j
    ensures ps[i] != ps[j]
  {
  }

  /** An antinode of one frequency's list is one antenna reflected through
      another of that frequency. */
  lemma FrequencyAntinode(lines: seq<string>, t: Tile, p: Pos)
    requires t in TileMap(lines) && p in AllAntennaAntinodes(TileMap(lines)[t])
    ensures exists a, b :: SameFrequency(lines, a, b) && p == Reflect(b, a)
  {
    var tm := TileMap(lines);
    AllAntennaAntinodesIff(tm[t], p);
    var i, j :| 0 <= i < |tm[t]| && 0 <= j < |tm[t]| && i != j && p == Reflect(tm[t][j], tm[t][i]);
    TileMapIsGroupBy(lines, t);
    RowMajorDistinct(tm[t], i, j);
    assert tm[t][i] in tm[t] && tm[t][j] in tm[t];
    assert SameFrequency(lines, tm[t][i], tm[t][j]);
  }

  /** Every in-grid reflection of an antenna through another of the same
      frequency is counted. */
  lemma InGridAntinodesComplete(lines: seq<string>, a: Pos, b: Pos)
    requires |lines| >= 1
    requires SameFrequency(lines, a, b) && IsInsideGrid(Reflect(b, a), GridSize(lines))
    ensures Reflect(b, a) in InGridAntinodes(lines)
  {
    var tm := TileMap(lines);
    var p := Reflect(b, a);
    var t := Antenna(lines[a.1][a.0]);
    TileMapIsGroupBy(lines, t);
    assert t in tm;
    assert a in tm[t] && b in tm[t];
    var i :| 0 <= i < |tm[t]| && tm[t][i] == a;
    var j :| 0 <= j < |tm[t]| && tm[t][j] == b;
    AllAntennaAntinodesIff(tm[t], p);
    assert p in AllAntennaAntinodes(tm[t]);
  }

  /** A cell is counted exactly when it is inside the grid and some antenna,
      reflected through another antenna of the same frequency, lands on it;
      a cell hit by several pairs is counted once. */
  lemma InGridAntinodesIff(lines: seq<string>, p: Pos)
    requires |lines| >= 1
    ensures p in InGridAntinodes(lines) <==>
      IsInsideGrid(p, GridSize(lines)) &&
      exists a, b :: SameFrequency(lines, a, b) && p == Reflect(b, a)
  {
    if IsInsideGrid(p, GridSize(lines)) && exists a, b :: SameFrequency(lines, a, b) && p == Reflect(b, a) {
      var a, b :| SameFrequency(lines, a, b) && p == Reflect(b, a);
      InGridAntinodesComplete(lines, a, b);
    }
  }

  // ---------------------------------------------------------------------
  // The map of the source's test

  function ExampleRows(): seq<string> {
    ["..........", "..........", "..........", "....a.....", "........a.",
     ".....a....", "..........", "......A...", "..........", ".........."]
  }

  /** The character at (x, y) of the example: three antennas of frequency
      'a', one of frequency 'A', empty ground elsewhere. */
  function ExampleChar(x: int, y: int): char {
    if (x, y) == (4, 3) || (x, y) == (8, 4) || (x, y) == (5, 5) then 'a'
    else if (x, y) == (6, 7) then 'A'
    else '.'
  }

  /** A 10-by-10 text laid out as the example. */
  predicate ExampleLayout(lines: seq<string>) {
    |lines| == 10 &&
    forall y :: 0 <= y < 10 ==> |lines[y]| == 10 && forall x :: 0 <= x < 10 ==> lines[y][x] == ExampleChar(x, y)
  }

  lemma ExampleRowsLayout()
    ensures ExampleLayout(ExampleRows())
  {
    var rows := ExampleRows();
    forall y | 0 <= y < 10 ensures |rows[y]| == 10 && forall x :: 0 <= x < 10 ==> rows[y][x] == ExampleChar(x, y) {
      assert y == 0 || y == 1 || y == 2 || y == 3 || y == 4 || y == 5 || y == 6 || y == 7 || y == 8 || y == 9;
    }
  }

  /** The antinodes on the example: (0, 2), (3, 1), (6, 7) and (2, 6). */
  lemma ExampleAntinodes(lines: seq<string>)
    requires ExampleLayout(lines)
    ensures InGridAntinodes(lines) == {(0, 2), (3, 1), (6, 7), (2, 6)}
  {
    var expected: set<Pos> := {(0, 2), (3, 1), (6, 7), (2, 6)};
    var found := InGridAntinodes(lines);
    forall p ensures p in found <==> p in expected {
      ExampleMember(lines, p);
    }
    SameMembers(found, expected);
  }

  lemma SameMembers(a: set<Pos>, b: set<Pos>)
    requires forall p :: p in a <==> p in b
    ensures a == b
  {
  }

  lemma ExampleMember(lines: seq<string>, p: Pos)
    requires ExampleLayout(lines)
    ensures p in InGridAntinodes(lines) <==> p in {(0, 2), (3, 1), (6, 7), (2, 6)}
  {
    InGridAntinodesIff(lines, p);
    if p in {(0, 2), (3, 1), (6, 7), (2, 6)} {
      ExampleWitness(lines, p);
    }
    if p in InGridAntinodes(lines) {
      var a, b :| SameFrequency(lines, a, b) && p == Reflect(b, a);
      ExamplePairs(lines, a, b);
    }
  }

  lemma ExampleWitness(lines: seq<string>, p: Pos)
    requires ExampleLayout(lines) && p in {(0, 2), (3, 1), (6, 7), (2, 6)}
    ensures IsInsideGrid(p, GridSize(lines)) && exists a, b :: SameFrequency(lines, a, b) && p == Reflect(b, a)
  {
    if p == (0, 2) {
      assert SameFrequency(lines, (4, 3), (8, 4));
    } else if p == (3, 1) {
      assert SameFrequency(lines, (4, 3), (5, 5));
    } else if p == (6, 7) {
      assert SameFrequency(lines, (5, 5), (4, 3));
    } else {
      assert SameFrequency(lines, (5, 5), (8, 4));
    }
  }

  /** Only the three 'a' antennas pair up, and of their six mirror images
      four fall on the map. */
  lemma ExamplePairs(lines: seq<string>, a: Pos, b: Pos)
    requires ExampleLayout(lines) && SameFrequency(lines, a, b)
    ensures IsInsideGrid(Reflect(b, a), GridSize(lines)) ==> Reflect(b, a) in {(0, 2), (3, 1), (6, 7), (2, 6)}
  {
    assert lines[a.1][a.0] == ExampleChar(a.0, a.1) && lines[b.1][b.0] == ExampleChar(b.0, b.1);
  }

  /** `part_one` of the source's 10-by-10 test map, one row per line,
      answers 4. */
  lemma ExamplePartOne()
    ensures |Lines(Unlines(ExampleRows()))| >= 1
    ensures PartOne(Unlines(ExampleRows())) == Some(4)
  {
    ExampleRowsLayout();
    LayoutPartOne(ExampleRows());
  }

  lemma LayoutPartOne(rows: seq<string>)
    requires ExampleLayout(rows)
    ensures |Lines(Unlines(rows))| >= 1
    ensures PartOne(Unlines(rows)) == Some(4)
  {
    forall i, j | 0 <= i < |rows| && 0 <= j < |rows[i]| ensures rows[i][j] != '\n' {
      assert rows[i][j] == ExampleChar(j, i);
    }
    LinesUnlines(rows);
    ExampleAntinodes(rows);
    FourCells();
  }

  lemma FourCells()
    ensures |{(0, 2), (3, 1), (6, 7), (2, 6)}| == 4
  {
    var found: set<Pos> := {(0, 2), (3, 1), (6, 7), (2, 6)};
    assert |found| == 4;
  }
}
