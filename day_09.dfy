/**
 * Day 9, Encoding Error: in XMAS data every number after the preamble must be
 * the sum of two of the preamble-size numbers just before it.  The weakness
 * is the first number that is not.
 */
module EncodingError {
  import opened Text

  /** Some two entries of the window, at different positions, add up to n. */
  predicate IsPairSum(window: seq<nat>, n: nat)
  {
    exists i, j :: 0 <= i < j < |window| && window[i] + window[j] == n
  }

  /** x plus some entry of rest is n. */
  function AnyWith(x: nat, rest: seq<nat>, n: nat): bool
  {
    if rest == [] then false else x + rest[0] == n || AnyWith(x, rest[1..], n)
  }

  /** The pairs of the window in the order combinations(2) lists them,
      searched for one that adds up to n. */
  function HasPairSum(window: seq<nat>, n: nat): bool
  {
    if |window| < 2 then false else AnyWith(window[0], window[1..], n) || HasPairSum(window[1..], n)
  }

  lemma {:induction false} AnyWithSpec(x: nat, rest: seq<nat>, n: nat)
    ensures AnyWith(x, rest, n) <==> exists j :: 0 <= j < |rest| && x + rest[j] == n
  {
    if rest != [] {
      AnyWithSpec(x, rest[1..], n);
      if exists j :: 0 <= j < |rest| && x + rest[j] == n {
        var j :| 0 <= j < |rest| && x + rest[j] == n;
        if j > 0 { assert rest[1..][j - 1] == rest[j]; }
      }
    }
  }

  /** The search over pairs succeeds exactly when some pair adds up to n. */
  lemma {:induction false} HasPairSumSpec(window: seq<nat>, n: nat)
    ensures HasPairSum(window, n) <==> IsPairSum(window, n)
  {
    if |window| >= 2 {
      var tail := window[1..];
      AnyWithSpec(window[0], tail, n);
      HasPairSumSpec(tail, n);
      if HasPairSum(window, n) {
        if AnyWith(window[0], tail, n) {
          var j :| 0 <= j < |tail| && window[0] + tail[j] == n;
          assert window[0] + window[j + 1] == n;
        } else {
          var i, j :| 0 <= i < j < |tail| && tail[i] + tail[j] == n;
          assert window[i + 1] + window[j + 1] == n;
        }
      }
      if IsPairSum(window, n) {
        var i, j :| 0 <= i < j < |window| && window[i] + window[j] == n;
        if i == 0 {
          assert window[0] + tail[j - 1] == n;
        } else {
          assert tail[i - 1] + tail[j - 1] == n;
        }
      }
    }
  }

  /** The number at index is valid: it is a pair sum of the preamble_size
      entries immediately before it. */
  predicate IsValid(data: seq<nat>, preambleSize: nat, index: nat)
    requires preambleSize <= index < |data|
  {
    IsPairSum(data[index - preambleSize..index], data[index])
  }

  /** The first invalid number at an index from `from` on. */
  function FirstInvalid(data: seq<nat>, preambleSize: nat, from: nat): Option<nat>
    requires preambleSize <= from
    decreases |data| - from
  {
    if from >= |data| then None
    else if !HasPairSum(data[from - preambleSize..from], data[from]) then Some(data[from])
    else FirstInvalid(data, preambleSize, from + 1)
  }

  /** FirstInvalid finds an invalid number exactly when there is one from
      `from` on, and then it is the first. */
  lemma {:induction false} FirstInvalidSpec(data: seq<nat>, preambleSize: nat, from: nat)
    requires preambleSize <= from
    ensures FirstInvalid(data, preambleSize, from).None? <==>
      forall k :: from <= k < |data| ==> IsValid(data, preambleSize, k)
    ensures FirstInvalid(data, preambleSize, from).Some? ==> exists index ::
      from <= index < |data| && FirstInvalid(data, preambleSize, from).value == data[index]
      && !IsValid(data, preambleSize, index)
      && forall k :: from <= k < index ==> IsValid(data, preambleSize, k)
    decreases |data| - from
  {
    if from < |data| {
      HasPairSumSpec(data[from - preambleSize..from], data[from]);
      if IsValid(data, preambleSize, from) {
        FirstInvalidSpec(data, preambleSize, from + 1);
      }
    }
  }

  /** find_invalid_number: walks the indices from preamble_size on and
      returns the first number that is not a pair sum of its window. */
  method FindInvalidNumber(data: seq<nat>, preambleSize: nat) returns (r: Option<nat>)
    ensures r == FirstInvalid(data, preambleSize, preambleSize)
    ensures r.None? <==> forall k :: preambleSize <= k < |data| ==> IsValid(data, preambleSize, k)
    ensures r.Some? ==> exists index ::
      preambleSize <= index < |data| && r.value == data[index] && !IsValid(data, preambleSize, index)
      && forall k :: preambleSize <= k < index ==> IsValid(data, preambleSize, k)
  {
    FirstInvalidSpec(data, preambleSize, preambleSize);
    var index := preambleSize;
    while index < |data|
      invariant preambleSize <= index
      invariant FirstInvalid(data, preambleSize, index) == FirstInvalid(data, preambleSize, preambleSize)
      decreases |data| - index
    {
      var number := data[index];
      if !HasPairSum(data[index - preambleSize..index], number) {
        return Some(number);
      }
      index := index + 1;
    }
    return None;
  }

  /** parse_xmas_data: the lines that read as 64-bit unsigned numbers, in
      order; the other lines are dropped. */
  function ParseXmasData(input: string): (r: seq<nat>)
    ensures forall x :: x in r ==> x <= U64_MAX
    ensures |r| <= |Lines(input)|
  {
    ParseNats(Lines(input), U64_MAX)
  }

  /** Data written one number per line reads back unchanged. */
  lemma ParseXmasDataRoundTrip(data: seq<nat>)
    requires forall x :: x in data ==> x <= U64_MAX
    ensures ParseXmasData(Join(ShowNats(data), "\n")) == data
  {
    ParseNumberLines(data, U64_MAX);
  }

  function ExampleData(): seq<nat>
  {
    [35, 20, 15, 25, 47, 40, 62, 55, 65, 95, 102, 117, 150, 182, 127, 219, 299, 277, 309, 576]
  }

  /** A number that is a pair sum of its window passes the search on. */
  lemma ValidStep(data: seq<nat>, preambleSize: nat, index: nat, i: nat, j: nat)
    requires preambleSize <= index < |data|
    requires index - preambleSize <= i < j < index && data[i] + data[j] == data[index]
    ensures FirstInvalid(data, preambleSize, index) == FirstInvalid(data, preambleSize, index + 1)
  {
    var window := data[index - preambleSize..index];
    HasPairSumSpec(window, data[index]);
    assert window[i - (index - preambleSize)] + window[j - (index - preambleSize)] == data[index];
  }

  lemma NoPairFor127()
    ensures !HasPairSum([95, 102, 117, 150, 182], 127)
  {
  }

  /** The example values the two step lemmas below need. */
  predicate ExampleWindowValues(d: seq<nat>)
  {
    |d| == 20 && d[2] == 15 && d[3] == 25 && d[4] == 47 && d[5] == 40 && d[6] == 62 && d[7] == 55
    && d[8] == 65 && d[9] == 95 && d[10] == 102 && d[11] == 117 && d[12] == 150 && d[13] == 182
  }

  lemma ExampleFirstSteps(d: seq<nat>)
    requires ExampleWindowValues(d)
    ensures FirstInvalid(d, 5, 5) == FirstInvalid(d, 5, 10)
  {
    ValidStep(d, 5, 5, 2, 3);
    ValidStep(d, 5, 6, 2, 4);
    ValidStep(d, 5, 7, 2, 5);
    ValidStep(d, 5, 8, 3, 5);
    ValidStep(d, 5, 9, 5, 7);
  }

  lemma ExampleLastSteps(d: seq<nat>)
    requires ExampleWindowValues(d)
    ensures FirstInvalid(d, 5, 10) == FirstInvalid(d, 5, 14)
  {
    ValidStep(d, 5, 10, 5, 6);
    ValidStep(d, 5, 11, 6, 7);
    ValidStep(d, 5, 12, 7, 9);
    ValidStep(d, 5, 13, 8, 11);
  }

  lemma ExampleValues(d: seq<nat>)
    requires d == ExampleData()
    ensures ExampleWindowValues(d) && d[9..14] == [95, 102, 117, 150, 182] && d[14] == 127
  {
  }

  lemma ExampleInvalid(d: seq<nat>)
    requires ExampleWindowValues(d) && d[9..14] == [95, 102, 117, 150, 182] && d[14] == 127
    ensures FirstInvalid(d, 5, 5) == Some(127)
  {
    ExampleFirstSteps(d);
    ExampleLastSteps(d);
    NoPairFor127();
  }

  /** With a preamble of five the example's weakness is 127. */
  lemma FindInvalidExample(d: seq<nat>)
    requires d == ExampleData()
    ensures FirstInvalid(d, 5, 5) == Some(127)
  {
    ExampleValues(d);
    ExampleInvalid(d);
  }
}
