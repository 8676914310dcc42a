/**
 * Day 3, Toboggan Trajectory: a grid of open squares and trees repeats to
 * the right forever.  Starting at the top-left square, a toboggan moves by
 * a fixed slope (right, down) until it has passed the bottom row, and the
 * trees on the squares it lands on are counted.
 */
module TobogganTrajectory {
  import opened Text

  /** A square: x is the row (counted downwards), y the column. */
  datatype Point = Point(x: int, y: int)

  /** The grid: its width and height and the squares holding a tree. */
  datatype Map = Map(width: nat, height: nat, trees: set<Point>)

  /** The squares of the rows that hold '#', as (row, column). */
  function TreeSquares(rows: seq<string>): (r: set<Point>)
    ensures forall p :: p in r <==> 0 <= p.x < |rows| && 0 <= p.y < |rows[p.x]| && rows[p.x][p.y] == '#'
  {
    set x, y | 0 <= x < |rows| && 0 <= y < |rows[x]| && rows[x][y] == '#' :: Point(x, y)
  }

  /** parse_map: the height is the number of lines, the width that of the
      first line; an input without lines has no first line. */
  function ParseMap(input: string): (r: Result<Map>)
    ensures r.Err? <==> Lines(input) == []
    ensures r.Ok? ==> (r.value.height == |Lines(input)| && r.value.width == |Lines(input)[0]|
      && r.value.trees == TreeSquares(Lines(input)))
  {
    var rows := Lines(input);
    if rows == [] then Err("called `Option::unwrap()` on a `None` value")
    else Ok(Map(|rows[0]|, |rows|, TreeSquares(rows)))
  }

  /** Rows written one per line parse to the grid of those rows. */
  lemma ParseMapRows(rows: seq<string>)
    requires |rows| >= 1
    requires forall i :: 0 <= i < |rows| ==> |rows[i]| > 0 && '\n' !in rows[i]
    ensures ParseMap(Join(rows, "\n")) == Ok(Map(|rows[0]|, |rows|, TreeSquares(rows)))
    ensures forall p :: p in ParseMap(Join(rows, "\n")).value.trees <==>
      0 <= p.x < |rows| && 0 <= p.y < |rows[p.x]| && rows[p.x][p.y] == '#'
  {
    LinesJoin(rows);
  }

  /** Text without lines has no first line to measure: the unwrap panics. */
  lemma ParseMapEmpty()
    ensures ParseMap("") == Err("called `Option::unwrap()` on a `None` value")
  {
  }

  /** The number of steps the walk takes: the first k with k * down at or
      past the height. */
  function Steps(height: nat, down: int): (n: nat)
    requires down > 0
    decreases height
  {
    if height == 0 then 0
    else if height <= down then 1
    else 1 + Steps(height - down, down)
  }

  /** The walk goes on exactly while the row k * down is inside the grid. */
  lemma {:induction false} StepsBound(height: nat, down: int, k: nat)
    requires down > 0
    ensures k * down < height <==> k < Steps(height, down)
    decreases height
  {
    if height > down && k > 0 {
      StepsBound(height - down, down, k - 1);
      assert k * down == (k - 1) * down + down;
    } else if k > 0 {
      MulAtLeast(down, k);
    }
  }

  /** The column after k steps to the right, reduced by Rust's % after
      every step. */
  function Column(k: nat, right: int, width: nat): int
    requires width > 0
  {
    TruncRem(k * right, width)
  }

  /** Reducing after each step lands on the same column as reducing once:
      a step from column Column(k) reaches Column(k + 1). */
  lemma ColumnStep(k: nat, right: int, width: nat)
    requires width > 0
    ensures TruncRem(Column(k, right, width) + right, width) == Column(k + 1, right, width)
  {
    var a := k * right;
    assert (k + 1) * right == a + right;
    if right >= 0 {
      assert a >= 0 by { NonNegativeProduct(k, right); }
      ModAddMod(a, right, width);
    } else {
      assert a <= 0 by { NonNegativeProduct(k, -right); }
      ModAddMod(-a, -right, width);
    }
  }

  lemma NonNegativeProduct(k: nat, m: int)
    requires m >= 0
    ensures k * m >= 0 && -(k * m) == k * -m
  {
  }

  lemma ModAddMod(x: nat, d: nat, w: nat)
    requires w > 0
    ensures (x % w + d) % w == (x + d) % w
  {
    var q, s := x / w, x % w;
    NatDivision(x, w);
    NatDivision(s + d, w);
    var q2, s2 := (s + d) / w, (s + d) % w;
    assert x + d == w * (q + q2) + s2;
    ModUnique(x + d, w, q + q2, s2);
  }

  /** For a slope that does not go left the column stays on the grid. */
  lemma ColumnInRange(k: nat, right: int, width: nat)
    requires width > 0 && right >= 0
    ensures 0 <= Column(k, right, width) < width
  {
    NonNegativeProduct(k, right);
  }

  /** The square the toboggan lands on at step k. */
  function Landing(k: nat, right: int, down: int, width: nat): Point
    requires width > 0
  {
    Point(k * down, Column(k, right, width))
  }

  /** The trees among the landings of steps 1 to k. */
  function HitsUpTo(grid: Map, right: int, down: int, k: nat): (n: nat)
    requires grid.width > 0 || k == 0
    ensures n <= k
  {
    if k == 0 then 0
    else HitsUpTo(grid, right, down, k - 1) + (if Landing(k, right, down, grid.width) in grid.trees then 1 else 0)
  }

  /** The outcome of traversing the grid: the trees hit on the landings of
      all the steps, or the remainder-by-zero panic of a grid of width zero
      that has rows to cross. */
  function TreesHit(grid: Map, right: int, down: int): (r: Result<nat>)
    requires down > 0
    ensures r.Err? <==> grid.height > 0 && grid.width == 0
    ensures r.Ok? ==> r.value <= Steps(grid.height, down)
  {
    if grid.height == 0 then Ok(0)
    else if grid.width == 0 then Err("attempt to calculate the remainder with a divisor of zero")
    else Ok(HitsUpTo(grid, right, down, Steps(grid.height, down)))
  }

  /** traverse: from (0, 0), step by (down, right), wrap the column and
      count a tree on the square reached, while the row is inside the grid. */
  method Traverse(grid: Map, right: int, down: int) returns (r: Result<nat>)
    requires down > 0
    ensures r == TreesHit(grid, right, down)
  {
    var location := Point(0, 0);
    var treesHit := 0;
    ghost var k: nat := 0;
    StepsBound(grid.height, down, 0);
    while location.x < grid.height
      invariant k <= Steps(grid.height, down)
      invariant location.x == k * down
      invariant location.x < grid.height <==> k < Steps(grid.height, down)
      invariant k == 0 ==> location.y == 0 && treesHit == 0
      invariant k > 0 ==> (grid.width > 0 && location.y == Column(k, right, grid.width)
        && treesHit == HitsUpTo(grid, right, down, k))
      decreases Steps(grid.height, down) - k
    {
      if grid.width == 0 {
        return Err("attempt to calculate the remainder with a divisor of zero");
      }
      ColumnStep(k, right, grid.width);
      NextRow(k, down);
      location := Point(location.x + down, location.y + right);
      location := Point(location.x, TruncRem(location.y, grid.width));
      k := k + 1;
      if location in grid.trees {
        treesHit := treesHit + 1;
      }
      StepsBound(grid.height, down, k);
    }
    return Ok(treesHit);
  }

  lemma NextRow(k: nat, down: int)
    ensures (k + 1) * down == k * down + down
  {
  }

  /** The starting square is never counted: a tree there changes nothing. */
  lemma {:induction false} StartNotCounted(grid: Map, right: int, down: int, k: nat)
    requires down > 0 && grid.width > 0
    ensures HitsUpTo(grid, right, down, k) == HitsUpTo(grid.(trees := grid.trees + {Point(0, 0)}), right, down, k)
  {
    if k > 0 {
      StartNotCounted(grid, right, down, k - 1);
      MulAtLeast(down, k);
      var grid2 := grid.(trees := grid.trees + {Point(0, 0)});
      assert Landing(k, right, down, grid.width) in grid.trees <==> Landing(k, right, down, grid.width) in grid2.trees;
    }
  }

  /** The rows of the small example map. */
  function SmallRows(): seq<string>
  {
    ["..##.......", "#...#...#..", ".#....#..#.", "..#.#...#.#"]
  }

  lemma SmallRowsJoin()
    ensures Join(SmallRows(), "\n") == "..##.......\n#...#...#..\n.#....#..#.\n..#.#...#.#"
  {
  }

  lemma SmallTrees()
    ensures TreeSquares(SmallRows()) == {
      Point(0, 2), Point(0, 3), Point(1, 0), Point(1, 4), Point(1, 8), Point(2, 1),
      Point(2, 6), Point(2, 9), Point(3, 2), Point(3, 4), Point(3, 8), Point(3, 10)}
  {
    var rows := SmallRows();
    forall p | p in TreeSquares(rows)
      ensures p in {
        Point(0, 2), Point(0, 3), Point(1, 0), Point(1, 4), Point(1, 8), Point(2, 1),
        Point(2, 6), Point(2, 9), Point(3, 2), Point(3, 4), Point(3, 8), Point(3, 10)}
    {
      assert p.x == 0 || p.x == 1 || p.x == 2 || p.x == 3;
    }
  }

  /** The small example parses to an 11 by 4 map with twelve trees. */
  lemma ParseMapExample()
    ensures ParseMap("..##.......\n#...#...#..\n.#....#..#.\n..#.#...#.#") == Ok(Map(11, 4, {
      Point(0, 2), Point(0, 3), Point(1, 0), Point(1, 4), Point(1, 8), Point(2, 1),
      Point(2, 6), Point(2, 9), Point(3, 2), Point(3, 4), Point(3, 8), Point(3, 10)}))
  {
    SmallRowsJoin();
    ParseMapRows(SmallRows());
    SmallTrees();
  }

  /** The rows of the full example map. */
  function ExampleRows(): seq<string>
  {
    ["..##.......", "#...#...#..", ".#....#..#.", "..#.#...#.#", ".#...##..#.", "..#.##.....",
     ".#.#.#....#", ".#........#", "#.##...#...", "#...##....#", ".#..#...#.#"]
  }

  /** The example rows joined by newlines parse to an 11 by 11 map. */
  lemma ExampleMapParses()
    ensures ParseMap(Join(ExampleRows(), "\n")) == Ok(Map(11, 11, TreeSquares(ExampleRows())))
  {
    var rows := ExampleRows();
    assert forall i :: 0 <= i < |rows| ==> |rows[i]| == 11 && '\n' !in rows[i];
    ParseMapRows(rows);
  }

  /** Slope right 3, down 1 on the example grid hits 7 trees. */
  lemma ExampleHits()
    ensures TreesHit(Map(11, 11, TreeSquares(ExampleRows())), 3, 1) == Ok(7)
  {
    var g := Map(11, 11, TreeSquares(ExampleRows()));
    assert Steps(11, 1) == 11;
    assert HitsUpTo(g, 3, 1, 11) == 7;
  }

  /** The example map, read with ParseMap from its rows joined by newlines:
      slope right 3, down 1 hits 7 trees. */
  lemma TraverseExample()
    ensures var m := ParseMap(Join(ExampleRows(), "\n"));
      m.Ok? && TreesHit(m.value, 3, 1) == Ok(7)
  {
    ExampleMapParses();
    ExampleHits();
  }

}
