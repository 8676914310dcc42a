/**
 * Day 11, Seating System: the ferry's waiting area as a grid of seats.
 * Each round an empty seat with no occupied neighbour fills up and an
 * occupied seat with four or more occupied neighbours empties; the layout
 * is replaced all at once.  Floor cells are simply absent from the map.
 */
module SeatingSystem {
  import opened Text

  /** (row, column) of a cell. */
  type Location = (int, int)

  datatype Seat = Empty | Occupied

  type Seats = map<Location, Seat>

  datatype MinMax = MinMax(min: int, max: int)

  datatype Bounds = Bounds(x: MinMax, y: MinMax)

  /** n is one of the eight cells around l. */
  predicate Adjacent(l: Location, n: Location)
  {
    n != l && -1 <= n.0 - l.0 <= 1 && -1 <= n.1 - l.1 <= 1
  }

  /** Seating::direct_neighbours: the eight cells around l, row by row. */
  function DirectNeighbours(l: Location): seq<Location>
  {
    var (x, y) := l;
    [(x - 1, y - 1), (x - 1, y), (x - 1, y + 1), (x, y - 1), (x, y + 1), (x + 1, y - 1), (x + 1, y), (x + 1, y + 1)]
  }

  /** The eight direct neighbours are distinct and are exactly the cells
      adjacent to l. */
  lemma DirectNeighboursSpec(l: Location)
    ensures |DirectNeighbours(l)| == 8
    ensures forall i, j :: 0 <= i < j < 8 ==> DirectNeighbours(l)[i] != DirectNeighbours(l)[j]
    ensures forall n :: n in DirectNeighbours(l) <==> Adjacent(l, n)
  {
    var ns := DirectNeighbours(l);
    forall n ensures n in ns <==> Adjacent(l, n) {
      if Adjacent(l, n) {
        var dx, dy := n.0 - l.0, n.1 - l.1;
        assert n == (l.0 + dx, l.1 + dy);
      }
    }
  }

  // ---------------------------------------------------------------------
  // Bounds
  // ---------------------------------------------------------------------

  /** b holds the smallest and largest row and column of the locations. */
  predicate IsBounds(locations: set<Location>, b: Bounds)
  {
    && (forall l :: l in locations ==> b.x.min <= l.0 <= b.x.max && b.y.min <= l.1 <= b.y.max)
    && (exists l :: l in locations && l.0 == b.x.min)
    && (exists l :: l in locations && l.0 == b.x.max)
    && (exists l :: l in locations && l.1 == b.y.min)
    && (exists l :: l in locations && l.1 == b.y.max)
  }

  /** The bounds of a set of locations are determined by it. */
  lemma BoundsUnique(locations: set<Location>, b: Bounds, c: Bounds)
    requires IsBounds(locations, b) && IsBounds(locations, c)
    ensures b == c
  {
    var l1 :| l1 in locations && l1.0 == b.x.min;
    var l2 :| l2 in locations && l2.0 == c.x.min;
    var l3 :| l3 in locations && l3.0 == b.x.max;
    var l4 :| l4 in locations && l4.0 == c.x.max;
    var l5 :| l5 in locations && l5.1 == b.y.min;
    var l6 :| l6 in locations && l6.1 == c.y.min;
    var l7 :| l7 in locations && l7.1 == b.y.max;
    var l8 :| l8 in locations && l8.1 == c.y.max;
  }

  /** Bounds of a set widened to take in one more location. */
  lemma WidenBounds(seen: set<Location>, b: Bounds, l: Location, b': Bounds)
    requires IsBounds(seen, b)
    requires b'.x == MinMax(if l.0 < b.x.min then l.0 else b.x.min, if l.0 > b.x.max then l.0 else b.x.max)
    requires b'.y == MinMax(if l.1 < b.y.min then l.1 else b.y.min, if l.1 > b.y.max then l.1 else b.y.max)
    ensures IsBounds(seen + {l}, b')
  {
    var a1 :| a1 in seen && a1.0 == b.x.min;
    var a2 :| a2 in seen && a2.0 == b.x.max;
    var a3 :| a3 in seen && a3.1 == b.y.min;
    var a4 :| a4 in seen && a4.1 == b.y.max;
    assert (if l.0 < b.x.min then l else a1).0 == b'.x.min;
    assert (if l.0 > b.x.max then l else a2).0 == b'.x.max;
    assert (if l.1 < b.y.min then l else a3).1 == b'.y.min;
    assert (if l.1 > b.y.max then l else a4).1 == b'.y.max;
  }

  /** Seating::get_bounds: the row and column ranges of the seats, found
      in one walk over the locations; there are none for an empty layout,
      where the source panics. */
  method GetBounds(seats: Seats) returns (r: Option<Bounds>)
    ensures r.None? <==> seats.Keys == {}
    ensures r.Some? ==> IsBounds(seats.Keys, r.value)
  {
    if seats.Keys == {} {
      return None;
    }
    var first :| first in seats.Keys;
    var b := Bounds(MinMax(first.0, first.0), MinMax(first.1, first.1));
    var pending := seats.Keys - {first};
    while pending != {}
      invariant pending <= seats.Keys && first !in pending
      invariant IsBounds(seats.Keys - pending, b)
      decreases |pending|
    {
      var l :| l in pending;
      ghost var seen := seats.Keys - pending;
      var xs := MinMax(if l.0 < b.x.min then l.0 else b.x.min, if l.0 > b.x.max then l.0 else b.x.max);
      var ys := MinMax(if l.1 < b.y.min then l.1 else b.y.min, if l.1 > b.y.max then l.1 else b.y.max);
      var b' := Bounds(xs, ys);
      WidenBounds(seen, b, l, b');
      b := b';
      pending := pending - {l};
      assert seats.Keys - pending == seen + {l};
    }
    assert seats.Keys - pending == seats.Keys;
    return Some(b);
  }

  // ---------------------------------------------------------------------
  // One round
  // ---------------------------------------------------------------------

  /** The locations of the occupied seats. */
  function OccupiedSet(seats: Seats): set<Location>
  {
    set l | l in seats && seats[l] == Occupied
  }

  /** The number of locations of occupied that are adjacent to l. */
  function CountAround(occupied: set<Location>, l: Location): nat
  {
    |set o | o in occupied && Adjacent(o, l)|
  }

  /** The number of occupied seats around l. */
  function OccupiedAround(seats: Seats, l: Location): nat
  {
    CountAround(OccupiedSet(seats), l)
  }

  /** A cell has at most eight neighbours to count. */
  lemma CountAtMostEight(occupied: set<Location>, l: Location)
    ensures CountAround(occupied, l) <= 8
  {
    DirectNeighboursSpec(l);
    var ns := DirectNeighbours(l);
    var around := set o | o in occupied && Adjacent(o, l);
    var all := set i | 0 <= i < 8 :: ns[i];
    forall o | o in around ensures o in all {
      assert Adjacent(l, o);
      var i :| 0 <= i < 8 && ns[i] == o;
    }
    assert |all| <= 8 by { CardImage(ns); }
    SubsetCard(around, all);
  }

  lemma {:induction false} SubsetCard(a: set<Location>, b: set<Location>)
    requires a <= b
    ensures |a| <= |b|
    decreases |a|
  {
    if a != {} {
      var x :| x in a;
      SubsetCard(a - {x}, b - {x});
    }
  }

  /** The set of elements of a sequence is no larger than the sequence. */
  lemma {:induction false} CardImage(s: seq<Location>)
    ensures |set i | 0 <= i < |s| :: s[i]| <= |s|
    decreases |s|
  {
    if s != [] {
      var init := s[..|s| - 1];
      CardImage(init);
      var a := set i | 0 <= i < |init| :: init[i];
      var b := set i | 0 <= i < |s| :: s[i];
      assert b == a + {s[|s| - 1]} by {
        forall x | x in b ensures x in a + {s[|s| - 1]} {
          var i :| 0 <= i < |s| && s[i] == x;
          if i < |init| { assert init[i] == x; }
        }
        forall x | x in a ensures x in b {
          var i :| 0 <= i < |init| && init[i] == x;
          assert s[i] == x;
        }
      }
    }
  }

  /** Occupying one more seat adds one to the count of the cells around it
      and leaves the other counts alone. */
  lemma CountInsert(done: set<Location>, o: Location, l: Location)
    requires o !in done
    ensures CountAround(done + {o}, l) == CountAround(done, l) + (if Adjacent(o, l) then 1 else 0)
  {
    var before := set p | p in done && Adjacent(p, l);
    var after := set p | p in done + {o} && Adjacent(p, l);
    if Adjacent(o, l) {
      assert after == before + {o};
    } else {
      assert after == before;
    }
  }

  /** The rules of a round in direct mode. */
  function NextSeat(seat: Seat, occupiedAround: nat): Seat
  {
    match seat
    case Empty => if occupiedAround > 0 then Empty else Occupied
    case Occupied => if occupiedAround >= 4 then Empty else Occupied
  }

  /** The layout after one round: every seat decides from the old layout. */
  function Round(seats: Seats): (r: Seats)
    ensures r.Keys == seats.Keys
  {
    map l | l in seats :: NextSeat(seats[l], OccupiedAround(seats, l))
  }

  /** An empty seat fills up exactly when none of the seats around it is
      occupied. */
  lemma EmptySeatRule(seats: Seats, l: Location)
    requires l in seats && seats[l] == Empty
    ensures Round(seats)[l] == Occupied <==>
      forall n :: n in seats && seats[n] == Occupied ==> !Adjacent(n, l)
  {
    var around := set o | o in OccupiedSet(seats) && Adjacent(o, l);
    if around != {} {
      var o :| o in around;
      assert o in seats && seats[o] == Occupied && Adjacent(o, l);
    }
    if exists n :: n in seats && seats[n] == Occupied && Adjacent(n, l) {
      var n :| n in seats && seats[n] == Occupied && Adjacent(n, l);
      assert n in around;
    }
  }

  /** An occupied seat empties exactly when four or more of the seats
      around it are occupied. */
  lemma OccupiedSeatRule(seats: Seats, l: Location)
    requires l in seats && seats[l] == Occupied
    ensures Round(seats)[l] == Empty <==> OccupiedAround(seats, l) >= 4
  {
  }

  /** The first round of a layout of empty seats fills every seat. */
  lemma AllEmptyRound(seats: Seats)
    requires forall l :: l in seats ==> seats[l] == Empty
    ensures Round(seats) == map l | l in seats :: Occupied
  {
    forall l | l in seats ensures Round(seats)[l] == Occupied {
      assert (set o | o in OccupiedSet(seats) && Adjacent(o, l)) == {};
    }
  }

  /** r is counts with one added for every seat adjacent to o: seats that
      were not counted yet enter with 1, and no other location enters. */
  ghost predicate Bumped(seats: Seats, counts: map<Location, nat>, o: Location, r: map<Location, nat>)
  {
    && (forall l :: l in r <==> l in counts || (l in seats && Adjacent(o, l)))
    && (forall l :: l in r ==> r[l] == (if l in counts then counts[l] else 0) + (if l in seats && Adjacent(o, l) then 1 else 0))
  }

  /** The inner fold of get_neighbour_counts for one occupied seat o: each
      neighbouring location that holds a seat gets one more. */
  method CountNeighbours(seats: Seats, counts: map<Location, nat>, o: Location) returns (r: map<Location, nat>)
    ensures Bumped(seats, counts, o, r)
  {
    r := counts;
    var ns := DirectNeighbours(o);
    DirectNeighboursSpec(o);
    for j := 0 to 8
      invariant forall l :: l in r <==> l in counts || (l in seats && l in ns[..j])
      invariant forall l :: l in r ==> r[l] == (if l in counts then counts[l] else 0) + (if l in seats && l in ns[..j] then 1 else 0)
    {
      var n := ns[j];
      assert n !in ns[..j];
      assert ns[..j + 1] == ns[..j] + [n];
      if n in seats {
        r := r[n := (if n in r then r[n] else 0) + 1];
      }
    }
    assert ns[..8] == ns;
  }

  /** counts holds exactly the seats next to some location of done, each
      with the number of such locations. */
  ghost predicate CountsOf(seats: Seats, done: set<Location>, counts: map<Location, nat>)
  {
    && (forall l :: l in counts <==> l in seats && CountAround(done, l) > 0)
    && (forall l :: l in counts ==> counts[l] == CountAround(done, l))
  }

  lemma CountsOfNone(seats: Seats)
    ensures CountsOf(seats, {}, map[])
  {
    forall l ensures CountAround({}, l) == 0 {
      assert (set o | o in {} && Adjacent(o, l)) == {};
    }
  }

  lemma CountsOfOccupied(seats: Seats, counts: map<Location, nat>)
    requires CountsOf(seats, OccupiedSet(seats), counts)
    ensures forall l :: l in counts <==> l in seats && OccupiedAround(seats, l) > 0
    ensures forall l :: l in counts ==> counts[l] == OccupiedAround(seats, l)
  {
  }

  /** One occupied seat's contribution keeps the counts right. */
  lemma CountStep(seats: Seats, done: set<Location>, o: Location, counts: map<Location, nat>, r: map<Location, nat>)
    requires o !in done
    requires CountsOf(seats, done, counts)
    requires Bumped(seats, counts, o, r)
    ensures CountsOf(seats, done + {o}, r)
  {
    forall l ensures CountAround(done + {o}, l) == CountAround(done, l) + (if Adjacent(o, l) then 1 else 0) {
      CountInsert(done, o, l);
    }
  }

  /** The seating area: the seats and their bounds. */
  class Seating {
    var seats: Seats
    var bounds: Bounds

    constructor (seats: Seats, bounds: Bounds)
      ensures this.seats == seats && this.bounds == bounds
    {
      this.seats := seats;
      this.bounds := bounds;
    }

    /** Seating::get_neighbour_counts: for each occupied seat, bumps a counter
        for each neighbouring location that holds a seat.  The map holds
        exactly the seats with an occupied neighbour, each with the number
        of its occupied neighbours. */
    method NeighbourCounts() returns (counts: map<Location, nat>)
      ensures forall l :: l in counts <==> l in seats && OccupiedAround(seats, l) > 0
      ensures forall l :: l in counts ==> counts[l] == OccupiedAround(seats, l)
    {
      counts := map[];
      var layout := seats;
      var occupied := OccupiedSet(layout);
      var pending := occupied;
      ghost var done: set<Location> := {};
      CountsOfNone(layout);
      while pending != {}
        invariant pending <= occupied && done == occupied - pending
        invariant CountsOf(layout, done, counts)
        decreases |pending|
      {
        var o :| o in pending;
        var next := CountNeighbours(layout, counts, o);
        CountStep(layout, done, o, counts, next);
        counts := next;
        done := done + {o};
        pending := pending - {o};
      }
      assert done == occupied;
      CountsOfOccupied(layout, counts);
    }

    /** Seating::next_round: computes the whole next layout from the old one;
        when nothing changes it keeps the layout and answers false,
        otherwise it installs the new layout and answers true. */
    method NextRound() returns (changed: bool)
      modifies this
      ensures seats == Round(old(seats))
      ensures bounds == old(bounds)
      ensures changed <==> Round(old(seats)) != old(seats)
    {
      var counts := NeighbourCounts();
      var newSeats := map l | l in seats ::
        match seats[l]
        case Empty => if l in counts && counts[l] > 0 then Empty else Occupied
        case Occupied => if l in counts && counts[l] >= 4 then Empty else Occupied;
      assert newSeats == Round(seats);
      if newSeats == seats {
        return false;
      }
      seats := newSeats;
      return true;
    }
  }

  /** Seating::new: a seating area over the given seats and their bounds;
      there is none for an empty layout, whose bounds do not exist. */
  method NewSeating(seats: Seats) returns (r: Option<Seating>)
    ensures r.None? <==> seats.Keys == {}
    ensures r.Some? ==> fresh(r.value) && r.value.seats == seats && IsBounds(seats.Keys, r.value.bounds)
  {
    var bounds := GetBounds(seats);
    match bounds
    case None =>
      r := None;
    case Some(b) =>
      var seating := new Seating(seats, b);
      r := Some(seating);
  }

  // ---------------------------------------------------------------------
  // Parsing
  // ---------------------------------------------------------------------

  /** The seats of one row x, reading from column y on. */
  function RowSeats(line: string, x: int, y: int): Seats
    decreases |line|
  {
    if line == [] then map[]
    else (if line[0] == 'L' then map[(x, y) := Empty] else map[]) + RowSeats(line[1..], x, y + 1)
  }

  /** The seats of the rows from row x on. */
  function GridSeats(lines: seq<string>, x: int): Seats
    decreases |lines|
  {
    if lines == [] then map[]
    else RowSeats(lines[0], x, 0) + GridSeats(lines[1..], x + 1)
  }

  /** load_seats: every 'L' of the drawing is an empty seat at its
      (row, column); every other character is floor. */
  function LoadSeats(input: string): Seats
  {
    GridSeats(Lines(input), 0)
  }

  /** Row row of lines holds an 'L' in column col. */
  predicate SeatCell(lines: seq<string>, row: int, col: int)
  {
    0 <= row < |lines| && 0 <= col < |lines[row]| && lines[row][col] == 'L'
  }

  lemma {:induction false} RowSeatsMembers(line: string, x: int, y: int, l: Location)
    ensures l in RowSeats(line, x, y) <==> l.0 == x && y <= l.1 < y + |line| && line[l.1 - y] == 'L'
    ensures l in RowSeats(line, x, y) ==> RowSeats(line, x, y)[l] == Empty
    decreases |line|
  {
    if line != [] {
      RowSeatsMembers(line[1..], x, y + 1, l);
      if l.0 == x && y + 1 <= l.1 < y + |line| {
        assert line[1..][l.1 - (y + 1)] == line[l.1 - y];
      }
    }
  }

  lemma {:induction false} GridSeatsMembers(lines: seq<string>, x: int, l: Location)
    ensures l in GridSeats(lines, x) <==> SeatCell(lines, l.0 - x, l.1)
    ensures l in GridSeats(lines, x) ==> GridSeats(lines, x)[l] == Empty
    decreases |lines|
  {
    if lines != [] {
      RowSeatsMembers(lines[0], x, 0, l);
      GridSeatsMembers(lines[1..], x + 1, l);
      if 1 <= l.0 - x < |lines| {
        assert lines[1..][l.0 - (x + 1)] == lines[l.0 - x];
      }
    }
  }

  /** The loaded seats are exactly the 'L' cells, all of them empty. */
  lemma LoadSeatsMembers(input: string, l: Location)
    ensures l in LoadSeats(input) <==> SeatCell(Lines(input), l.0, l.1)
    ensures l in LoadSeats(input) ==> LoadSeats(input)[l] == Empty
  {
    GridSeatsMembers(Lines(input), 0, l);
  }

  // ---------------------------------------------------------------------
  // A small layout
  // ---------------------------------------------------------------------

  /** No cell has more occupied neighbours than there are other occupied seats. */
  lemma CountAtMostOthers(occupied: set<Location>, l: Location)
    ensures CountAround(occupied, l) <= |occupied - {l}|
  {
    var around := set o | o in occupied && Adjacent(o, l);
    SubsetCard(around, occupied - {l});
  }

  /** A full layout of at most four seats is stable: no seat can have four
      occupied neighbours. */
  lemma SmallFullStable(seats: Seats)
    requires forall l :: l in seats ==> seats[l] == Occupied
    requires |seats.Keys| <= 4
    ensures Round(seats) == seats
  {
    assert OccupiedSet(seats) == seats.Keys;
    forall l | l in seats ensures Round(seats)[l] == seats[l] {
      CountAtMostOthers(seats.Keys, l);
      assert |seats.Keys - {l}| == |seats.Keys| - 1;
    }
  }

  lemma SmallLines(input: string, a: string, b: string)
    requires input == "L.L\nLL." && a == "L.L" && b == "LL."
    ensures Lines(input) == [a, b]
  {
    var lines := [a, b];
    assert lines[1..] == [b];
    JoinCons(a, lines[1..], "\n");
    assert lines == [a] + lines[1..];
    assert a + "\n" + b == input by { assert a + "\n" == "L.L\n"; }
    forall i | 0 <= i < |lines| ensures |lines[i]| > 0 && '\n' !in lines[i] {
      assert lines[i] == a || lines[i] == b;
    }
    LinesJoin(lines);
  }

  /** The small drawing loads to its four empty seats. */
  lemma LoadSmall(input: string)
    requires input == "L.L\nLL."
    ensures LoadSeats(input) == map[(0, 0) := Empty, (0, 2) := Empty, (1, 0) := Empty, (1, 1) := Empty]
  {
    var a, b := "L.L", "LL.";
    SmallLines(input, a, b);
    var expected := map[(0, 0) := Empty, (0, 2) := Empty, (1, 0) := Empty, (1, 1) := Empty];
    forall l ensures l in LoadSeats(input) <==> l in expected {
      LoadSeatsMembers(input, l);
    }
    forall l | l in LoadSeats(input) ensures LoadSeats(input)[l] == expected[l] {
      LoadSeatsMembers(input, l);
    }
  }

  /** The rounds of the small layout: all four seats fill, and then stay. */
  lemma SmallRounds(layout: Seats, full: Seats)
    requires layout == map[(0, 0) := Empty, (0, 2) := Empty, (1, 0) := Empty, (1, 1) := Empty]
    requires full == map[(0, 0) := Occupied, (0, 2) := Occupied, (1, 0) := Occupied, (1, 1) := Occupied]
    ensures Round(layout) == full && full != layout && Round(full) == full
  {
    AllEmptyRound(layout);
    assert layout[(0, 0)] != full[(0, 0)];
    assert full.Keys == {(0, 0), (0, 2), (1, 0), (1, 1)};
    SmallFullStable(full);
  }

  /** Seating the small drawing: the first round fills all four seats, the
      second changes nothing, and the layout stays full. */
  method SmallExample() returns (first: bool, second: bool, result: Seats)
    ensures first && !second
    ensures result == map[(0, 0) := Occupied, (0, 2) := Occupied, (1, 0) := Occupied, (1, 1) := Occupied]
  {
    var input := "L.L\nLL.";
    var layout := LoadSeats(input);
    LoadSmall(input);
    var full := map[(0, 0) := Occupied, (0, 2) := Occupied, (1, 0) := Occupied, (1, 1) := Occupied];
    SmallRounds(layout, full);
    var created := NewSeating(layout);
    assert (0, 0) in layout.Keys;
    var seating := created.value;
    first := seating.NextRound();
    second := seating.NextRound();
    result := seating.seats;
  }
}
