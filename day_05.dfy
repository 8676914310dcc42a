/**
 * Day 5, Binary Boarding: a boarding pass is a binary number written with
 * F and L for 0 and B and R for 1; the seat ID is that number.  The missing
 * seat is the gap of exactly one in the sorted list of IDs.
 */
module BinaryBoarding {
  import opened Text

  /** The bit a boarding pass letter stands for. */
  function Bit(c: char): (r: Option<nat>)
    ensures r.Some? <==> c == 'F' || c == 'B' || c == 'L' || c == 'R'
    ensures r.Some? ==> (r.value == 1 <==> c == 'B' || c == 'R') && r.value < 2
  {
    if c == 'F' || c == 'L' then Some(0)
    else if c == 'B' || c == 'R' then Some(1)
    else None
  }

  predicate IsPassLetter(c: char)
  {
    c == 'F' || c == 'B' || c == 'L' || c == 'R'
  }

  /** The value of a pass read as an unbounded binary number. */
  function BinaryValue(pass: string): nat
  {
    if pass == [] then 0
    else 2 * BinaryValue(pass[..|pass| - 1]) + (if pass[|pass| - 1] in {'B', 'R'} then 1 else 0)
  }

  function Pow2(n: nat): (r: nat)
    ensures r >= 1
  {
    if n == 0 then 1 else 2 * Pow2(n - 1)
  }

  /** convert_to_seat_id: each letter shifts the 16-bit ID left (dropping the
      top bit) and adds the letter's bit; an unknown letter is an error. */
  function SeatId(pass: string): (r: Result<nat>)
    ensures r.Ok? <==> forall i :: 0 <= i < |pass| ==> IsPassLetter(pass[i])
    ensures r.Err? ==> r.error == "Unknown character in boarding pass"
    ensures r.Ok? ==> r.value <= U16_MAX
  {
    if pass == [] then Ok(0)
    else
      match SeatId(pass[..|pass| - 1])
      case Err(e) => Err(e)
      case Ok(v) =>
        match Bit(pass[|pass| - 1])
        case None => Err("Unknown character in boarding pass")
        case Some(b) => Ok((v * 2) % 0x1_0000 + b)
  }

  /** A pass of at most sixteen letters never loses a bit: its ID is its
      binary value, below 2 to the number of letters. */
  lemma {:induction false} SeatIdBinary(pass: string)
    requires |pass| <= 16
    requires forall i :: 0 <= i < |pass| ==> IsPassLetter(pass[i])
    ensures SeatId(pass) == Ok(BinaryValue(pass))
    ensures BinaryValue(pass) < Pow2(|pass|)
  {
    if pass != [] {
      var init := pass[..|pass| - 1];
      var c := pass[|pass| - 1];
      SeatIdBinary(init);
      var v := BinaryValue(init);
      assert Pow2(|pass|) == 2 * Pow2(|init|);
      Pow2Monotone(|pass|, 16);
      Pow2Sixteen();
      ShiftNoLoss(v);
      assert SeatId(pass) == Ok((v * 2) % 0x1_0000 + Bit(c).value);
      assert BinaryValue(pass) == 2 * v + (if c in {'B', 'R'} then 1 else 0);
    }
  }

  /** A value below 2^15 shifts left within 16 bits. */
  lemma ShiftNoLoss(v: nat)
    requires v < 0x8000
    ensures (v * 2) % 0x1_0000 == v * 2
  {
  }

  lemma {:induction false} Pow2Add(m: nat, n: nat)
    ensures Pow2(m + n) == Pow2(m) * Pow2(n)
    decreases n
  {
    if n > 0 {
      Pow2Add(m, n - 1);
      assert Pow2(m + n) == 2 * Pow2(m + n - 1);
    }
  }

  lemma Pow2Sixteen()
    ensures Pow2(16) == 0x1_0000
  {
    assert Pow2(2) == 4;
    Pow2Add(2, 2);
    Pow2Add(4, 4);
    Pow2Add(8, 8);
  }

  lemma {:induction false} Pow2Monotone(m: nat, n: nat)
    requires m <= n
    ensures Pow2(m) <= Pow2(n)
    decreases n
  {
    if m < n {
      Pow2Monotone(m, n - 1);
    }
  }

  /** The n letters that write x in binary, lo standing for 0 and hi for 1. */
  function Letters(x: nat, n: nat, lo: char, hi: char): (r: string)
    ensures |r| == n && forall i :: 0 <= i < n ==> r[i] in {lo, hi}
  {
    if n == 0 then [] else Letters(x / 2, n - 1, lo, hi) + [if x % 2 == 0 then lo else hi]
  }

  lemma {:induction false} LettersValue(x: nat, n: nat, lo: char, hi: char)
    requires x < Pow2(n)
    requires lo in {'F', 'L'} && hi in {'B', 'R'}
    ensures BinaryValue(Letters(x, n, lo, hi)) == x
  {
    if n > 0 {
      var s := Letters(x, n, lo, hi);
      LettersValue(x / 2, n - 1, lo, hi);
      assert s[..n - 1] == Letters(x / 2, n - 1, lo, hi);
    }
  }

  /** The pass of a seat: the row in seven F/B letters, then the column in
      three L/R letters. */
  function BoardingPass(row: nat, column: nat): (r: string)
    ensures |r| == 10
  {
    Letters(row, 7, 'F', 'B') + Letters(column, 3, 'L', 'R')
  }

  lemma {:induction false} BinaryValueAppend(a: string, b: string)
    ensures BinaryValue(a + b) == BinaryValue(a) * Pow2(|b|) + BinaryValue(b)
    decreases |b|
  {
    if b == [] {
      assert a + b == a;
    } else {
      var b' := b[..|b| - 1];
      var bit := if b[|b| - 1] in {'B', 'R'} then 1 else 0;
      assert (a + b)[..|a + b| - 1] == a + b';
      assert (a + b)[|a + b| - 1] == b[|b| - 1];
      assert BinaryValue(a + b) == 2 * BinaryValue(a + b') + bit;
      assert BinaryValue(b) == 2 * BinaryValue(b') + bit;
      BinaryValueAppend(a, b');
      var x, y, z := BinaryValue(a), Pow2(|b'|), BinaryValue(b');
      assert Pow2(|b|) == 2 * y;
      Double(x, y, z);
    }
  }

  lemma Double(x: nat, y: nat, z: nat)
    ensures 2 * (x * y + z) == x * (2 * y) + 2 * z
  {
  }

  /** The ID of a seat's pass is row * 8 + column. */
  lemma SeatIdOfPass(row: nat, column: nat)
    requires row < 128 && column < 8
    ensures SeatId(BoardingPass(row, column)) == Ok(row * 8 + column)
  {
    assert Pow2(3) == 8 && Pow2(7) == 128;
    var r := Letters(row, 7, 'F', 'B');
    var c := Letters(column, 3, 'L', 'R');
    LettersValue(row, 7, 'F', 'B');
    LettersValue(column, 3, 'L', 'R');
    BinaryValueAppend(r, c);
    assert forall i :: 0 <= i < |r + c| ==> IsPassLetter((r + c)[i]);
    SeatIdBinary(r + c);
  }

  lemma SeatIdExample1()
    ensures SeatId("BFFFBBFRRR") == Ok(567)
  {
    assert BoardingPass(70, 7) == "BFFFBBFRRR";
    SeatIdOfPass(70, 7);
  }

  lemma SeatIdExample2()
    ensures SeatId("FFFBBBFRRR") == Ok(119)
  {
    assert BoardingPass(14, 7) == "FFFBBBFRRR";
    SeatIdOfPass(14, 7);
  }

  lemma SeatIdExample3()
    ensures SeatId("BBFFBBFRLL") == Ok(820)
  {
    assert BoardingPass(102, 4) == "BBFFBBFRLL";
    SeatIdOfPass(102, 4);
  }

  /** No neighbours before position i differ by two. */
  predicate NoGapBefore(ids: seq<nat>, i: nat)
    requires i < |ids|
  {
    forall j :: 0 <= j < i ==> ids[j] + 2 != ids[j + 1]
  }

  /** The position of the first pair of neighbours that differ by two. */
  function FirstGap(ids: seq<nat>): (r: Option<nat>)
    ensures r.None? <==> forall i :: 0 <= i < |ids| - 1 ==> ids[i] + 2 != ids[i + 1]
    ensures r.Some? ==> (r.value < |ids| - 1 && ids[r.value] + 2 == ids[r.value + 1]
      && forall j :: 0 <= j < r.value ==> ids[j] + 2 != ids[j + 1])
  {
    if |ids| < 2 then None
    else if ids[0] + 2 == ids[1] then Some(0)
    else
      assert forall k :: 0 < k < |ids| - 1 ==> ids[1..][k - 1] == ids[k];
      match FirstGap(ids[1..])
      case None => None
      case Some(k) => Some(k + 1)
  }

  /** find_gap: the middle of the first pair of neighbours that differ by
      exactly two. */
  function FindGap(ids: seq<nat>): (r: Option<nat>)
    ensures r.None? <==> forall i :: 0 <= i < |ids| - 1 ==> ids[i] + 2 != ids[i + 1]
    ensures r.Some? ==> exists i ::
      0 <= i < |ids| - 1 && ids[i] + 2 == ids[i + 1] && r.value == ids[i] + 1 && NoGapBefore(ids, i)
  {
    var g := FirstGap(ids);
    if g.None? then None else Some(ids[g.value] + 1)
  }

  predicate StrictlyIncreasing(ids: seq<nat>)
  {
    forall i, j :: 0 <= i < j < |ids| ==> ids[i] < ids[j]
  }

  /** In a sorted list of distinct IDs the gap found is a missing ID whose
      two neighbours are present. */
  lemma GapIsMissingSeat(ids: seq<nat>)
    requires StrictlyIncreasing(ids)
    requires FindGap(ids).Some?
    ensures FindGap(ids).value !in ids
    ensures FindGap(ids).value - 1 in ids && FindGap(ids).value + 1 in ids
  {
    var i := FirstGap(ids).value;
    var g := ids[i] + 1;
    assert FindGap(ids).value == g;
    assert ids[i] in ids && ids[i + 1] in ids;
    forall k | 0 <= k < |ids| ensures ids[k] != g {
      if k <= i {
        assert ids[k] <= ids[i];
      } else {
        assert ids[i + 1] <= ids[k];
      }
    }
  }

  lemma FindGapExample()
    ensures FindGap([5, 6, 8, 9]) == Some(7)
  {
  }
}
