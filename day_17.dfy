/**
 * Day 17, Conway Cubes: a three- or four-dimensional Game of Life over a
 * set of active points.  A point's neighbours are the points that differ
 * from it by at most one in every coordinate; one cycle keeps a point
 * active when exactly two or three of its neighbours are active and
 * activates an inactive point when exactly three are.
 *
 * Points are coordinate sequences, so one model covers the 3D and the 4D
 * instance of the source's generic code.
 */
module ConwayCubes {
  import opened Text

  /** The two spaces the puzzle is played in. */
  datatype Space = Space3D | Space4D

  function Dimension(space: Space): nat
  {
    match space
    case Space3D => 3
    case Space4D => 4
  }

  type Point = seq<int>
  type Cubes = set<Point>

  function Pow3(d: nat): (r: nat)
    ensures r >= 1
  {
    if d == 0 then 1 else 3 * Pow3(d - 1)
  }

  /** q lies within one step of p in every coordinate (p itself included). */
  predicate Near(p: Point, q: Point)
  {
    |q| == |p| && forall i :: 0 <= i < |p| ==> -1 <= q[i] - p[i] <= 1
  }

  /** q is a neighbour of p: near it, and a different point. */
  predicate Adjacent(p: Point, q: Point)
  {
    Near(p, q) && q != p
  }

  predicate Distinct(s: seq<Point>)
  {
    forall i, j :: 0 <= i < j < |s| ==> s[i] != s[j]
  }

  // ---------------------------------------------------------------------
  // Neighbours
  // ---------------------------------------------------------------------

  /** Each point of ps with c appended as a further coordinate. */
  function Extend(ps: seq<Point>, c: int): (r: seq<Point>)
    ensures |r| == |ps|
    ensures forall i :: 0 <= i < |r| ==> r[i] == ps[i] + [c]
  {
    seq(|ps|, i requires 0 <= i < |ps| => ps[i] + [c])
  }

  /** The 3^d points near p (p included), ordered so that the first
      coordinate varies fastest and each offset runs from -1 to 1, as the
      nested ranges of the source produce them. */
  function Around(p: Point): (r: seq<Point>)
    ensures |r| == Pow3(|p|)
    decreases |p|
  {
    if p == [] then [[]]
    else
      var c := p[|p| - 1];
      var inner := Around(p[..|p| - 1]);
      Extend(inner, c - 1) + Extend(inner, c) + Extend(inner, c + 1)
  }

  /** The elements of s other than x, in order. */
  function Without(s: seq<Point>, x: Point): (r: seq<Point>)
    ensures |r| <= |s|
  {
    if s == [] then []
    else (if s[0] == x then [] else [s[0]]) + Without(s[1..], x)
  }

  /** Point::neighbours: the points around p, except p itself. */
  function Neighbours(p: Point): seq<Point>
  {
    Without(Around(p), p)
  }

  lemma ExtendMembers(ps: seq<Point>, c: int, q: Point)
    ensures q in Extend(ps, c) <==> |q| > 0 && q[..|q| - 1] in ps && q[|q| - 1] == c
  {
    var r := Extend(ps, c);
    if q in r {
      var i :| 0 <= i < |r| && r[i] == q;
      assert q[..|q| - 1] == ps[i];
    }
    if |q| > 0 && q[..|q| - 1] in ps && q[|q| - 1] == c {
      var i :| 0 <= i < |ps| && ps[i] == q[..|q| - 1];
      assert r[i] == q;
    }
  }

  /** Nearness splits into nearness of all but the last coordinates and
      nearness of the last one. */
  lemma NearSnoc(p: Point, q: Point)
    requires |p| > 0 && |q| == |p|
    ensures Near(p, q) <==> Near(p[..|p| - 1], q[..|q| - 1]) && -1 <= q[|q| - 1] - p[|p| - 1] <= 1
  {
    var n := |p| - 1;
    var pi, qi := p[..n], q[..n];
    if Near(pi, qi) && -1 <= q[n] - p[n] <= 1 {
      forall i | 0 <= i < |p| ensures -1 <= q[i] - p[i] <= 1 {
        if i < n { assert q[i] == qi[i] && p[i] == pi[i]; }
      }
    }
    if Near(p, q) {
      forall i | 0 <= i < n ensures -1 <= qi[i] - pi[i] <= 1 {
        assert qi[i] == q[i] && pi[i] == p[i];
      }
    }
  }

  /** Around(p) holds exactly the points near p. */
  lemma {:induction false} AroundMembers(p: Point, q: Point)
    ensures q in Around(p) <==> Near(p, q)
    decreases |p|
  {
    if p == [] {
      assert Near(p, q) ==> q == [];
    } else {
      var n := |p| - 1;
      var c := p[n];
      var inner := Around(p[..n]);
      ExtendMembers(inner, c - 1, q);
      ExtendMembers(inner, c, q);
      ExtendMembers(inner, c + 1, q);
      if |q| > 0 {
        AroundMembers(p[..n], q[..|q| - 1]);
      }
      if |q| == |p| {
        NearSnoc(p, q);
      }
    }
  }

  /** Appending one coordinate keeps distinct points distinct. */
  lemma ExtendDistinct(ps: seq<Point>, c: int)
    requires Distinct(ps)
    ensures Distinct(Extend(ps, c))
  {
    var r := Extend(ps, c);
    forall i, j | 0 <= i < j < |r| ensures r[i] != r[j] {
      assert r[i][..|r[i]| - 1] == ps[i];
      assert r[j][..|r[j]| - 1] == ps[j];
    }
  }

  /** Two lists without repeats and without common elements concatenate
      to a list without repeats. */
  lemma DistinctConcat(a: seq<Point>, b: seq<Point>)
    requires Distinct(a) && Distinct(b)
    requires forall i, j :: 0 <= i < |a| && 0 <= j < |b| ==> a[i] != b[j]
    ensures Distinct(a + b)
  {
    var r := a + b;
    forall i, j | 0 <= i < j < |r| ensures r[i] != r[j] {
      if j < |a| {
        assert r[i] == a[i] && r[j] == a[j];
      } else if i < |a| {
        assert r[i] == a[i] && r[j] == b[j - |a|];
      } else {
        assert r[i] == b[i - |a|] && r[j] == b[j - |a|];
      }
    }
  }

  /** Points extended by different last coordinates differ. */
  lemma ExtendApart(ps: seq<Point>, qs: seq<Point>, c: int, e: int)
    requires c != e
    ensures forall i, j :: 0 <= i < |ps| && 0 <= j < |qs| ==> Extend(ps, c)[i] != Extend(qs, e)[j]
  {
    forall i, j | 0 <= i < |ps| && 0 <= j < |qs| ensures Extend(ps, c)[i] != Extend(qs, e)[j] {
      var x, y := Extend(ps, c)[i], Extend(qs, e)[j];
      assert x[|x| - 1] == c && y[|y| - 1] == e;
    }
  }

  /** No point is listed twice around p. */
  lemma {:induction false} AroundDistinct(p: Point)
    ensures Distinct(Around(p))
    decreases |p|
  {
    if p != [] {
      var c := p[|p| - 1];
      var inner := Around(p[..|p| - 1]);
      AroundDistinct(p[..|p| - 1]);
      var a, b, d := Extend(inner, c - 1), Extend(inner, c), Extend(inner, c + 1);
      ExtendDistinct(inner, c - 1);
      ExtendDistinct(inner, c);
      ExtendDistinct(inner, c + 1);
      ExtendApart(inner, inner, c - 1, c);
      DistinctConcat(a, b);
      ExtendApart(inner, inner, c - 1, c + 1);
      ExtendApart(inner, inner, c, c + 1);
      var ab := a + b;
      assert forall i, j :: 0 <= i < |ab| && 0 <= j < |d| ==> ab[i] != d[j] by {
        forall i, j | 0 <= i < |ab| && 0 <= j < |d| ensures ab[i] != d[j] {
          if i < |a| { assert ab[i] == a[i]; } else { assert ab[i] == b[i - |a|]; }
        }
      }
      DistinctConcat(ab, d);
    }
  }

  lemma {:induction false} WithoutMembers(s: seq<Point>, x: Point, q: Point)
    ensures q in Without(s, x) <==> q in s && q != x
    decreases |s|
  {
    if s != [] {
      WithoutMembers(s[1..], x, q);
      assert s == [s[0]] + s[1..];
    }
  }

  /** Removing an element that occurs once from a list without repeats
      shortens it by one and keeps it free of repeats. */
  lemma {:induction false} WithoutDistinct(s: seq<Point>, x: Point)
    requires Distinct(s)
    ensures Distinct(Without(s, x))
    ensures |Without(s, x)| == if x in s then |s| - 1 else |s|
    decreases |s|
  {
    if s != [] {
      var t := s[1..];
      assert Distinct(t) by {
        forall i, j | 0 <= i < j < |t| ensures t[i] != t[j] {
          assert t[i] == s[i + 1] && t[j] == s[j + 1];
        }
      }
      WithoutDistinct(t, x);
      assert s == [s[0]] + t;
      assert s[0] !in t by {
        forall k | 0 <= k < |t| ensures t[k] != s[0] {
          assert t[k] == s[k + 1];
        }
      }
      assert x in s <==> x == s[0] || x in t;
      var r := Without(s, x);
      assert r == (if s[0] == x then [] else [s[0]]) + Without(t, x);
      if s[0] != x {
        WithoutMembers(t, x, s[0]);
        forall i, j | 0 <= i < j < |r| ensures r[i] != r[j] {
          if i == 0 {
            assert r[j] == Without(t, x)[j - 1];
            assert r[j] in Without(t, x);
          } else {
            assert r[i] == Without(t, x)[i - 1] && r[j] == Without(t, x)[j - 1];
          }
        }
      }
    }
  }

  /** neighbours lists every neighbour of p exactly once: 3^d - 1 distinct
      points, each within one step in every coordinate and different from p,
      and no other point. */
  lemma NeighboursSpec(p: Point)
    ensures |Neighbours(p)| == Pow3(|p|) - 1
    ensures Distinct(Neighbours(p))
    ensures forall q :: q in Neighbours(p) <==> Adjacent(p, q)
  {
    AroundDistinct(p);
    AroundMembers(p, p);
    WithoutDistinct(Around(p), p);
    forall q ensures q in Neighbours(p) <==> Adjacent(p, q) {
      WithoutMembers(Around(p), p, q);
      AroundMembers(p, q);
    }
  }

  /** A point of 3D space has 26 neighbours, one of 4D space 80. */
  lemma NeighbourCounts3D4D(p: Point)
    ensures |p| == 3 ==> |Neighbours(p)| == 26
    ensures |p| == 4 ==> |Neighbours(p)| == 80
  {
    NeighboursSpec(p);
  }

  // ---------------------------------------------------------------------
  // Neighbour counts and one cycle
  // ---------------------------------------------------------------------

  /** The number of active cubes that have q as a neighbour. */
  function ActiveNeighbours(cubes: Cubes, q: Point): nat
  {
    |set p | p in cubes && Adjacent(p, q)|
  }

  /** q is a neighbour of some active cube. */
  predicate Reached(cubes: Cubes, q: Point)
  {
    exists p :: p in cubes && Adjacent(p, q)
  }

  lemma ReachedCount(cubes: Cubes, q: Point)
    ensures Reached(cubes, q) <==> ActiveNeighbours(cubes, q) > 0
  {
    var s := set p | p in cubes && Adjacent(p, q);
    if Reached(cubes, q) {
      var p :| p in cubes && Adjacent(p, q);
      assert p in s;
    }
    if |s| > 0 {
      var p :| p in s;
    }
  }

  /** Activating one more cube adds one to the count of each of its
      neighbours and changes no other count. */
  lemma CountInsert(done: Cubes, p: Point, q: Point)
    requires p !in done
    ensures ActiveNeighbours(done + {p}, q) == ActiveNeighbours(done, q) + (if Adjacent(p, q) then 1 else 0)
    ensures Reached(done + {p}, q) <==> Reached(done, q) || Adjacent(p, q)
  {
    var before := set r | r in done && Adjacent(r, q);
    var after := set r | r in done + {p} && Adjacent(r, q);
    if Adjacent(p, q) {
      assert after == before + {p};
    } else {
      assert after == before;
    }
  }

  /** get_neighbour_counts: walks the active cubes in some order and bumps
      a counter for each of their neighbours.  The map holds exactly the
      neighbours of active cubes, each with its number of active
      neighbours. */
  method NeighbourCounts(cubes: Cubes) returns (counts: map<Point, nat>)
    ensures forall q :: q in counts <==> Reached(cubes, q)
    ensures forall q :: q in counts ==> counts[q] == ActiveNeighbours(cubes, q)
  {
    counts := map[];
    var pending := cubes;
    ghost var done: Cubes := {};
    while pending != {}
      invariant pending <= cubes && done == cubes - pending
      invariant forall q :: q in counts <==> Reached(done, q)
      invariant forall q :: q in counts ==> counts[q] == ActiveNeighbours(done, q)
      decreases |pending|
    {
      var p :| p in pending;
      var ns := Neighbours(p);
      NeighboursSpec(p);
      for j := 0 to |ns|
        invariant forall q :: q in counts <==> Reached(done, q) || q in ns[..j]
        invariant forall q :: q in counts ==> counts[q] == ActiveNeighbours(done, q) + (if q in ns[..j] then 1 else 0)
      {
        var q := ns[j];
        assert q !in ns[..j];
        assert ns[..j + 1] == ns[..j] + [q];
        counts := counts[q := (if q in counts then counts[q] else 0) + 1];
      }
      assert ns[..|ns|] == ns;
      forall q ensures ActiveNeighbours(done + {p}, q) == ActiveNeighbours(done, q) + (if Adjacent(p, q) then 1 else 0)
        && (Reached(done + {p}, q) <==> Reached(done, q) || Adjacent(p, q))
      {
        CountInsert(done, p, q);
      }
      done := done + {p};
      pending := pending - {p};
    }
    assert done == cubes;
  }

  /** The rule of one cycle: with exactly three active neighbours a point
      is active next, with exactly two it stays as it is, otherwise it is
      inactive. */
  predicate ActiveNext(cubes: Cubes, q: Point)
  {
    var n := ActiveNeighbours(cubes, q);
    n == 3 || (n == 2 && q in cubes)
  }

  /** Every neighbour of an active cube. */
  function Candidates(cubes: Cubes): set<Point>
  {
    set p, q | p in cubes && q in Neighbours(p) :: q
  }

  /** The cubes active after one cycle. */
  function Next(cubes: Cubes): Cubes
  {
    set q | q in Candidates(cubes) && ActiveNext(cubes, q)
  }

  /** A point is active after a cycle exactly when the rule says so. */
  lemma NextMembers(cubes: Cubes, q: Point)
    ensures q in Next(cubes) <==> ActiveNext(cubes, q)
  {
    if ActiveNext(cubes, q) {
      ReachedCount(cubes, q);
      var p :| p in cubes && Adjacent(p, q);
      NeighboursSpec(p);
      assert q in Candidates(cubes);
    }
  }

  /** Every cube active after a cycle is a neighbour of a cube active
      before it, so nothing comes to life out of empty space. */
  lemma NextNeighbours(cubes: Cubes, q: Point)
    requires q in Next(cubes)
    ensures exists p :: p in cubes && Adjacent(p, q)
  {
    NextMembers(cubes, q);
    ReachedCount(cubes, q);
  }

  /** An empty pocket dimension stays empty. */
  lemma NextEmpty(cubes: Cubes)
    requires cubes == {}
    ensures Next(cubes) == {}
  {
    if q :| q in Next(cubes) {
      NextNeighbours(cubes, q);
    }
  }

  /** iterate: counts the neighbours, then keeps the points counted three
      times and the active points counted twice. */
  method Iterate(cubes: Cubes) returns (next: Cubes)
    ensures next == Next(cubes)
    ensures forall q :: q in next <==> ActiveNext(cubes, q)
  {
    var counts := NeighbourCounts(cubes);
    next := set q | q in counts && (counts[q] == 3 || (counts[q] == 2 && q in cubes));
    forall q ensures q in next <==> ActiveNext(cubes, q) {
      ReachedCount(cubes, q);
    }
    forall q ensures q in next <==> q in Next(cubes) {
      NextMembers(cubes, q);
    }
  }

  // ---------------------------------------------------------------------
  // Parsing
  // ---------------------------------------------------------------------

  /** Point::new: a point of the plane at z (and w) zero. */
  function New(space: Space, x: int, y: int): (p: Point)
    ensures |p| == Dimension(space)
  {
    match space
    case Space3D => [x, y, 0]
    case Space4D => [x, y, 0, 0]
  }

  /** The active cubes of one row x, reading from column y on. */
  function RowCubes(space: Space, line: string, x: int, y: int): Cubes
    decreases |line|
  {
    if line == [] then {}
    else (if line[0] == '#' then {New(space, x, y)} else {}) + RowCubes(space, line[1..], x, y + 1)
  }

  /** The active cubes of the rows from row x on. */
  function GridCubes(space: Space, lines: seq<string>, x: int): Cubes
    decreases |lines|
  {
    if lines == [] then {}
    else RowCubes(space, lines[0], x, 0) + GridCubes(space, lines[1..], x + 1)
  }

  /** parse_cubes: every '#' of the drawing becomes an active cube at its
      (row, column) in the plane z = 0 (and w = 0). */
  function ParseCubes(input: string, space: Space): Cubes
  {
    GridCubes(space, Lines(input), 0)
  }

  lemma {:induction false} RowMembers(space: Space, line: string, x: int, y: int, p: Point)
    ensures p in RowCubes(space, line, x, y) <==>
      exists col :: 0 <= col < |line| && line[col] == '#' && p == New(space, x, y + col)
    decreases |line|
  {
    if line != [] {
      RowMembers(space, line[1..], x, y + 1, p);
      if p in RowCubes(space, line[1..], x, y + 1) {
        var col :| 0 <= col < |line[1..]| && line[1..][col] == '#' && p == New(space, x, y + 1 + col);
        assert line[col + 1] == '#' && p == New(space, x, y + (col + 1));
      }
      if exists col :: 0 <= col < |line| && line[col] == '#' && p == New(space, x, y + col) {
        var col :| 0 <= col < |line| && line[col] == '#' && p == New(space, x, y + col);
        if col > 0 {
          assert line[1..][col - 1] == '#' && p == New(space, x, y + 1 + (col - 1));
        }
      }
    }
  }

  /** Row row of lines holds a '#' in column col. */
  predicate ActiveCell(lines: seq<string>, row: int, col: int)
  {
    0 <= row < |lines| && 0 <= col < |lines[row]| && lines[row][col] == '#'
  }

  lemma {:induction false} GridMembers(space: Space, lines: seq<string>, x: int, p: Point)
    ensures p in GridCubes(space, lines, x) <==>
      exists row, col :: ActiveCell(lines, row, col) && p == New(space, x + row, col)
    decreases |lines|
  {
    if lines != [] {
      RowMembers(space, lines[0], x, 0, p);
      GridMembers(space, lines[1..], x + 1, p);
      if p in RowCubes(space, lines[0], x, 0) {
        var col :| 0 <= col < |lines[0]| && lines[0][col] == '#' && p == New(space, x, 0 + col);
        assert ActiveCell(lines, 0, col) && p == New(space, x + 0, col);
      }
      if p in GridCubes(space, lines[1..], x + 1) {
        var row, col :| ActiveCell(lines[1..], row, col) && p == New(space, x + 1 + row, col);
        assert lines[row + 1] == lines[1..][row];
        assert ActiveCell(lines, row + 1, col) && p == New(space, x + (row + 1), col);
      }
      if exists row, col :: ActiveCell(lines, row, col) && p == New(space, x + row, col) {
        var row, col :| ActiveCell(lines, row, col) && p == New(space, x + row, col);
        if row == 0 {
          assert p == New(space, x, 0 + col);
        } else {
          assert lines[1..][row - 1] == lines[row];
          assert ActiveCell(lines[1..], row - 1, col) && p == New(space, x + 1 + (row - 1), col);
        }
      }
    }
  }

  /** The parsed cubes are exactly the '#' cells, each at (row, column)
      with the remaining coordinates zero. */
  lemma ParseMembers(input: string, space: Space, p: Point)
    ensures p in ParseCubes(input, space) <==>
      exists row, col :: ActiveCell(Lines(input), row, col) && p == New(space, row, col)
  {
    GridMembersFromZero(space, Lines(input), p);
  }

  lemma GridMembersFromZero(space: Space, lines: seq<string>, p: Point)
    ensures p in GridCubes(space, lines, 0) <==>
      exists row, col :: ActiveCell(lines, row, col) && p == New(space, row, col)
  {
    GridMembers(space, lines, 0, p);
    if p in GridCubes(space, lines, 0) {
      var row, col :| ActiveCell(lines, row, col) && p == New(space, 0 + row, col);
      assert p == New(space, row, col);
    }
    if exists row, col :: ActiveCell(lines, row, col) && p == New(space, row, col) {
      var row, col :| ActiveCell(lines, row, col) && p == New(space, row, col);
      assert p == New(space, 0 + row, col);
    }
  }

  // ---------------------------------------------------------------------
  // The examples of the tests
  // ---------------------------------------------------------------------

  lemma WithoutAbsent(s: seq<Point>, x: Point)
    requires x !in s
    ensures Without(s, x) == s
  {
    if s != [] {
      WithoutAbsent(s[1..], x);
      assert s == [s[0]] + s[1..];
    }
  }

  lemma {:induction false} WithoutAppend(a: seq<Point>, b: seq<Point>, x: Point)
    ensures Without(a + b, x) == Without(a, x) + Without(b, x)
    decreases |a|
  {
    if a != [] {
      WithoutAppend(a[1..], b, x);
      assert (a + b)[1..] == a[1..] + b;
    } else {
      assert a + b == b;
    }
  }

  lemma AroundSnoc(p: Point, c: int)
    ensures Around(p + [c]) == Extend(Around(p), c - 1) + Extend(Around(p), c) + Extend(Around(p), c + 1)
  {
    assert (p + [c])[..|p|] == p;
  }

  /** Extending a list of points one coordinate further, element by element. */
  lemma ExtendThree(ps: seq<Point>, c: int, a: seq<Point>, b: seq<Point>, d: seq<Point>)
    requires |ps| == |a| + |b| + |d|
    requires forall i :: 0 <= i < |a| ==> a[i] == ps[i] + [c]
    requires forall i :: 0 <= i < |b| ==> b[i] == ps[|a| + i] + [c]
    requires forall i :: 0 <= i < |d| ==> d[i] == ps[|a| + |b| + i] + [c]
    ensures Extend(ps, c) == a + b + d
  {
  }

  lemma ExtendOne(ps: seq<Point>, c: int)
    requires |ps| == 1
    ensures Extend(ps, c) == [ps[0] + [c]]
  {
  }

  lemma AroundOrigin1()
    ensures Around([0]) == [[-1], [0], [1]]
  {
    var none: Point := [];
    AroundSnoc(none, 0);
    assert none + [0] == [0];
    var ps: seq<Point> := [none];
    assert Around(none) == ps;
    ExtendOne(ps, -1);
    ExtendOne(ps, 0);
    ExtendOne(ps, 1);
    assert none + [-1] == [-1] && none + [0] == [0] && none + [1] == [1];
  }

  lemma ExtendRow(ps: seq<Point>, c: int)
    requires ps == [[-1], [0], [1]]
    ensures Extend(ps, c) == [[-1, c], [0, c], [1, c]]
  {
    ExtendThree(ps, c, [[-1, c]], [[0, c]], [[1, c]]);
  }

  lemma AroundOrigin2(p: Point, r: seq<Point>)
    requires p == [0, 0]
    requires r == [[-1, -1], [0, -1], [1, -1], [-1, 0], [0, 0], [1, 0], [-1, 1], [0, 1], [1, 1]]
    ensures Around(p) == r
  {
    var q: Point := [0];
    var ps: seq<Point> := [[-1], [0], [1]];
    AroundOrigin1();
    assert Around(q) == ps;
    AroundSnoc(q, 0);
    assert q + [0] == p;
    ExtendRow(ps, -1);
    ExtendRow(ps, 0);
    ExtendRow(ps, 1);
    assert Around(p) == Extend(ps, -1) + Extend(ps, 0) + Extend(ps, 1);
  }

  lemma ExtendPlane(ps: seq<Point>, c: int)
    requires ps == [[-1, -1], [0, -1], [1, -1], [-1, 0], [0, 0], [1, 0], [-1, 1], [0, 1], [1, 1]]
    ensures Extend(ps, c) == [[-1, -1, c], [0, -1, c], [1, -1, c], [-1, 0, c], [0, 0, c], [1, 0, c],
                              [-1, 1, c], [0, 1, c], [1, 1, c]]
  {
    ExtendThree(ps, c, [[-1, -1, c], [0, -1, c], [1, -1, c]], [[-1, 0, c], [0, 0, c], [1, 0, c]],
                [[-1, 1, c], [0, 1, c], [1, 1, c]]);
  }

  lemma AroundOrigin3(p: Point, below: seq<Point>, level: seq<Point>, above: seq<Point>)
    requires p == [0, 0, 0]
    requires below == [[-1, -1, -1], [0, -1, -1], [1, -1, -1], [-1, 0, -1], [0, 0, -1], [1, 0, -1],
                       [-1, 1, -1], [0, 1, -1], [1, 1, -1]]
    requires level == [[-1, -1, 0], [0, -1, 0], [1, -1, 0], [-1, 0, 0], [0, 0, 0], [1, 0, 0],
                       [-1, 1, 0], [0, 1, 0], [1, 1, 0]]
    requires above == [[-1, -1, 1], [0, -1, 1], [1, -1, 1], [-1, 0, 1], [0, 0, 1], [1, 0, 1],
                       [-1, 1, 1], [0, 1, 1], [1, 1, 1]]
    ensures Around(p) == below + level + above
  {
    var q: Point := [0, 0];
    var ps: seq<Point> := [[-1, -1], [0, -1], [1, -1], [-1, 0], [0, 0], [1, 0], [-1, 1], [0, 1], [1, 1]];
    AroundOrigin2(q, ps);
    AroundSnoc(q, 0);
    assert q + [0] == p;
    ExtendPlane(ps, -1);
    ExtendPlane(ps, 0);
    ExtendPlane(ps, 1);
    assert Around(p) == Extend(ps, -1) + Extend(ps, 0) + Extend(ps, 1);
  }

  /** Dropping the one occurrence of x. */
  lemma WithoutOnce(a: seq<Point>, x: Point, b: seq<Point>)
    requires x !in a && x !in b
    ensures Without(a + [x] + b, x) == a + b
  {
    var ax := a + [x];
    WithoutAppend(ax, b, x);
    WithoutAppend(a, [x], x);
    WithoutAbsent(a, x);
    WithoutAbsent(b, x);
    WithoutSingle(x);
    assert Without(ax, x) == a by {
      assert a + [] == a;
    }
  }

  lemma WithoutSingle(x: Point)
    ensures Without([x], x) == []
  {
    assert [x][1..] == [];
  }

  lemma OriginAbsent(origin: Point, front: seq<Point>, back: seq<Point>)
    requires origin == [0, 0, 0]
    requires front == [[-1, -1, -1], [0, -1, -1], [1, -1, -1], [-1, 0, -1], [0, 0, -1], [1, 0, -1],
                       [-1, 1, -1], [0, 1, -1], [1, 1, -1], [-1, -1, 0], [0, -1, 0], [1, -1, 0], [-1, 0, 0]]
    requires back == [[1, 0, 0], [-1, 1, 0], [0, 1, 0], [1, 1, 0], [-1, -1, 1], [0, -1, 1], [1, -1, 1],
                      [-1, 0, 1], [0, 0, 1], [1, 0, 1], [-1, 1, 1], [0, 1, 1], [1, 1, 1]]
    ensures origin !in front && origin !in back
  {
    forall i | 0 <= i < |front| ensures front[i] != origin {
      assert front[i][0] != 0 || front[i][1] != 0 || front[i][2] != 0;
    }
    forall i | 0 <= i < |back| ensures back[i] != origin {
      assert back[i][0] != 0 || back[i][1] != 0 || back[i][2] != 0;
    }
  }

  /** The neighbours of the origin in 3D, in the order the test lists them. */
  lemma NeighboursExample(origin: Point, expected: seq<Point>)
    requires origin == [0, 0, 0]
    requires expected == [
      [-1, -1, -1], [0, -1, -1], [1, -1, -1], [-1, 0, -1], [0, 0, -1], [1, 0, -1],
      [-1, 1, -1], [0, 1, -1], [1, 1, -1],
      [-1, -1, 0], [0, -1, 0], [1, -1, 0], [-1, 0, 0], [1, 0, 0],
      [-1, 1, 0], [0, 1, 0], [1, 1, 0],
      [-1, -1, 1], [0, -1, 1], [1, -1, 1], [-1, 0, 1], [0, 0, 1], [1, 0, 1],
      [-1, 1, 1], [0, 1, 1], [1, 1, 1]]
    ensures Neighbours(origin) == expected
  {
    var front: seq<Point> := [[-1, -1, -1], [0, -1, -1], [1, -1, -1], [-1, 0, -1], [0, 0, -1], [1, 0, -1],
                              [-1, 1, -1], [0, 1, -1], [1, 1, -1], [-1, -1, 0], [0, -1, 0], [1, -1, 0], [-1, 0, 0]];
    var back: seq<Point> := [[1, 0, 0], [-1, 1, 0], [0, 1, 0], [1, 1, 0], [-1, -1, 1], [0, -1, 1], [1, -1, 1],
                             [-1, 0, 1], [0, 0, 1], [1, 0, 1], [-1, 1, 1], [0, 1, 1], [1, 1, 1]];
    AroundOriginSplit(origin, front, back);
    OriginAbsent(origin, front, back);
    WithoutOnce(front, origin, back);
    var joined := front + back;
    assert |joined| == |expected|;
    forall i | 0 <= i < |joined| ensures joined[i] == expected[i] { }
  }

  /** The points around the origin, with the origin itself in the middle. */
  lemma AroundOriginSplit(origin: Point, front: seq<Point>, back: seq<Point>)
    requires origin == [0, 0, 0]
    requires front == [[-1, -1, -1], [0, -1, -1], [1, -1, -1], [-1, 0, -1], [0, 0, -1], [1, 0, -1],
                       [-1, 1, -1], [0, 1, -1], [1, 1, -1], [-1, -1, 0], [0, -1, 0], [1, -1, 0], [-1, 0, 0]]
    requires back == [[1, 0, 0], [-1, 1, 0], [0, 1, 0], [1, 1, 0], [-1, -1, 1], [0, -1, 1], [1, -1, 1],
                      [-1, 0, 1], [0, 0, 1], [1, 0, 1], [-1, 1, 1], [0, 1, 1], [1, 1, 1]]
    ensures Around(origin) == front + [origin] + back
  {
    var below: seq<Point> := [[-1, -1, -1], [0, -1, -1], [1, -1, -1], [-1, 0, -1], [0, 0, -1], [1, 0, -1],
                              [-1, 1, -1], [0, 1, -1], [1, 1, -1]];
    var left: seq<Point> := [[-1, -1, 0], [0, -1, 0], [1, -1, 0], [-1, 0, 0]];
    var right: seq<Point> := [[1, 0, 0], [-1, 1, 0], [0, 1, 0], [1, 1, 0]];
    var above: seq<Point> := [[-1, -1, 1], [0, -1, 1], [1, -1, 1], [-1, 0, 1], [0, 0, 1], [1, 0, 1],
                              [-1, 1, 1], [0, 1, 1], [1, 1, 1]];
    var level := left + [origin] + right;
    forall i | 0 <= i < |level| ensures level[i] == [[-1, -1, 0], [0, -1, 0], [1, -1, 0], [-1, 0, 0], [0, 0, 0], [1, 0, 0],
                                                   [-1, 1, 0], [0, 1, 0], [1, 1, 0]][i] { }
    AroundOrigin3(origin, below, level, above);
    forall i | 0 <= i < |front| ensures front[i] == (below + left)[i] { }
    forall i | 0 <= i < |back| ensures back[i] == (right + above)[i] { }
    assert below + level + above == (below + left) + [origin] + (right + above);
  }

  lemma RowFirst(space: Space, line: string, x: int, y: int)
    requires line != []
    ensures RowCubes(space, line, x, y) ==
      (if line[0] == '#' then {New(space, x, y)} else {}) + RowCubes(space, line[1..], x, y + 1)
  {
  }

  /** A row of three cells with its active columns. */
  lemma RowThree(space: Space, line: string, x: int, a: bool, b: bool, c: bool)
    requires |line| == 3 && (line[0] == '#' <==> a) && (line[1] == '#' <==> b) && (line[2] == '#' <==> c)
    ensures RowCubes(space, line, x, 0) ==
      (if a then {New(space, x, 0)} else {}) + (if b then {New(space, x, 1)} else {})
        + (if c then {New(space, x, 2)} else {})
  {
    RowFirst(space, line, x, 0);
    RowFirst(space, line[1..], x, 1);
    RowFirst(space, line[2..], x, 2);
    assert line[1..][1..] == line[2..];
    assert line[2..][1..] == [];
  }

  lemma ExampleLines(input: string, a: string, b: string, c: string)
    requires input == ".#.\n..#\n###" && a == ".#." && b == "..#" && c == "###"
    ensures Lines(input) == [a, b, c]
  {
    var lines := [a, b, c];
    assert lines[2..] == [c];
    JoinCons(b, lines[2..], "\n");
    assert lines[1..] == [b] + lines[2..];
    JoinCons(a, lines[1..], "\n");
    assert lines == [a] + lines[1..];
    assert b + "\n" + c == "..#\n###" by { assert b + "\n" == "..#\n"; }
    assert a + "\n" + (b + "\n" + c) == input by { assert a + "\n" == ".#.\n"; }
    forall i | 0 <= i < |lines| ensures |lines[i]| > 0 && '\n' !in lines[i] {
      assert lines[i] == a || lines[i] == b || lines[i] == c;
    }
    LinesJoin(lines);
  }

  /** The initial cubes of the example, written as points. */
  function ExampleCubes(): Cubes
  {
    {[0, 1, 0], [1, 2, 0], [2, 0, 0], [2, 1, 0], [2, 2, 0]}
  }

  /** The test drawing parses to its five active cubes. */
  lemma ParseExample(input: string)
    requires input == ".#.\n..#\n###"
    ensures ParseCubes(input, Space3D) == ExampleCubes()
  {
    var a, b, c := ".#.", "..#", "###";
    ExampleLines(input, a, b, c);
    var lines := [a, b, c];
    RowThree(Space3D, a, 0, false, true, false);
    RowThree(Space3D, b, 1, false, false, true);
    RowThree(Space3D, c, 2, true, true, true);
    var none: seq<string> := [];
    assert GridCubes(Space3D, none, 3) == {};
    assert GridCubes(Space3D, [c], 2) == RowCubes(Space3D, c, 2, 0) by { assert [c][1..] == none; }
    assert GridCubes(Space3D, [b, c], 1) == RowCubes(Space3D, b, 1, 0) + GridCubes(Space3D, [c], 2) by {
      assert [b, c][1..] == [c];
    }
    assert GridCubes(Space3D, lines, 0) == RowCubes(Space3D, a, 0, 0) + GridCubes(Space3D, [b, c], 1) by {
      assert lines[1..] == [b, c];
    }
  }

  /** The cubes active after one cycle of the example, as the test lists them. */
  function ExampleNextCubes(): Cubes
  {
    {[1, 0, -1], [2, 2, -1], [3, 1, -1],
     [1, 0, 0], [1, 2, 0], [2, 1, 0], [2, 2, 0], [3, 1, 0],
     [1, 0, 1], [2, 2, 1], [3, 1, 1]}
  }

  /** 1 when an offset reaches a neighbour, else 0. */
  function Touch(dx: int, dy: int, dz: int): nat
  {
    if -1 <= dx <= 1 && -1 <= dy <= 1 && -1 <= dz <= 1 && !(dx == 0 && dy == 0 && dz == 0) then 1 else 0
  }

  lemma PointThree(q: Point, a: int, b: int, c: int)
    requires |q| == 3
    ensures q == [a, b, c] <==> q[0] == a && q[1] == b && q[2] == c
  {
    if q[0] == a && q[1] == b && q[2] == c {
      assert q == [a, b, c];
    }
  }

  /** Adjacency of two points of 3D space, coordinate by coordinate. */
  lemma AdjacentThree(p: Point, q: Point)
    requires |p| == 3 && |q| == 3
    ensures (if Adjacent(p, q) then 1 else 0) == Touch(q[0] - p[0], q[1] - p[1], q[2] - p[2])
  {
    PointThree(q, p[0], p[1], p[2]);
    assert p == [p[0], p[1], p[2]];
  }

  /** The number of active neighbours among five distinct cubes. */
  lemma CountFive(cubes: Cubes, a: Point, b: Point, c: Point, d: Point, e: Point, q: Point)
    requires cubes == {a, b, c, d, e}
    requires a != b && a != c && a != d && a != e && b != c && b != d && b != e && c != d && c != e && d != e
    ensures ActiveNeighbours(cubes, q) ==
      (if Adjacent(a, q) then 1 else 0) + (if Adjacent(b, q) then 1 else 0) + (if Adjacent(c, q) then 1 else 0)
        + (if Adjacent(d, q) then 1 else 0) + (if Adjacent(e, q) then 1 else 0)
  {
    var none: Cubes := {};
    assert (set p | p in none && Adjacent(p, q)) == {};
    CountInsert(none, a, q);
    CountInsert(none + {a}, b, q);
    CountInsert(none + {a} + {b}, c, q);
    CountInsert(none + {a} + {b} + {c}, d, q);
    CountInsert(none + {a} + {b} + {c} + {d}, e, q);
    assert none + {a} + {b} + {c} + {d} + {e} == cubes;
  }

  /** The rule of the cycle on the example, as arithmetic on coordinates. */
  lemma CellArithmetic(x: int, y: int, z: int)
    ensures var n := Touch(x, y - 1, z) + Touch(x - 1, y - 2, z) + Touch(x - 2, y, z)
                     + Touch(x - 2, y - 1, z) + Touch(x - 2, y - 2, z);
            var active := z == 0 && ((x == 0 && y == 1) || (x == 1 && y == 2) || (x == 2 && 0 <= y <= 2));
            (n == 3 || (n == 2 && active)) <==>
              ((z == -1 || z == 1) && ((x == 1 && y == 0) || (x == 2 && y == 2) || (x == 3 && y == 1)))
              || (z == 0 && ((x == 1 && y == 0) || (x == 1 && y == 2) || (x == 2 && y == 1)
                             || (x == 2 && y == 2) || (x == 3 && y == 1)))
  {
  }

  lemma InExampleCubes(q: Point)
    requires |q| == 3
    ensures q in ExampleCubes() <==>
      (q[2] == 0 && ((q[0] == 0 && q[1] == 1) || (q[0] == 1 && q[1] == 2) || (q[0] == 2 && 0 <= q[1] <= 2)))
  {
    PointThree(q, 0, 1, 0);
    PointThree(q, 1, 2, 0);
    PointThree(q, 2, 0, 0);
    PointThree(q, 2, 1, 0);
    PointThree(q, 2, 2, 0);
  }

  lemma InExampleNext(q: Point)
    requires |q| == 3
    ensures q in ExampleNextCubes() <==>
      ((q[2] == -1 || q[2] == 1) && ((q[0] == 1 && q[1] == 0) || (q[0] == 2 && q[1] == 2) || (q[0] == 3 && q[1] == 1)))
      || (q[2] == 0 && ((q[0] == 1 && q[1] == 0) || (q[0] == 1 && q[1] == 2) || (q[0] == 2 && q[1] == 1)
                        || (q[0] == 2 && q[1] == 2) || (q[0] == 3 && q[1] == 1)))
  {
    PointThree(q, 1, 0, -1);
    PointThree(q, 2, 2, -1);
    PointThree(q, 3, 1, -1);
    PointThree(q, 1, 0, 0);
    PointThree(q, 2, 2, 0);
    PointThree(q, 3, 1, 0);
    PointThree(q, 1, 0, 1);
    PointThree(q, 2, 2, 1);
    PointThree(q, 3, 1, 1);
    PointThree(q, 1, 2, 0);
    PointThree(q, 2, 1, 0);
  }

  /** One point of the example's first cycle. */
  lemma ExampleCell(q: Point)
    ensures ActiveNext(ExampleCubes(), q) <==> q in ExampleNextCubes()
  {
    var a, b, c, d, e: Point := [0, 1, 0], [1, 2, 0], [2, 0, 0], [2, 1, 0], [2, 2, 0];
    CountFive(ExampleCubes(), a, b, c, d, e, q);
    if |q| == 3 {
      AdjacentThree(a, q);
      AdjacentThree(b, q);
      AdjacentThree(c, q);
      AdjacentThree(d, q);
      AdjacentThree(e, q);
      InExampleCubes(q);
      InExampleNext(q);
      CellArithmetic(q[0], q[1], q[2]);
    } else {
      assert forall p :: p in ExampleNextCubes() ==> |p| == 3;
    }
  }

  /** One cycle of the 3D example gives the eleven cubes of the test. */
  lemma IterateExample()
    ensures Next(ExampleCubes()) == ExampleNextCubes()
  {
    forall q ensures q in Next(ExampleCubes()) <==> q in ExampleNextCubes() {
      NextMembers(ExampleCubes(), q);
      ExampleCell(q);
    }
  }
}
