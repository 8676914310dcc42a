/**
 * Day 1, Report Repair: find the entries of an expense report whose sum is
 * a target.  The search walks the k-element combinations of report
 * positions in lexicographic order and returns the entries of the first
 * combination that sums to the target.
 */
module ReportRepair {
  import opened Text

  /** Positions listed in strictly increasing order. */
  predicate Increasing(c: seq<nat>)
  {
    forall i, j :: 0 <= i < j < |c| ==> c[i] < c[j]
  }

  /** A choice of k distinct positions from [lo, n), in increasing order. */
  predicate IsCombination(c: seq<nat>, lo: nat, n: nat, k: nat)
  {
    |c| == k && Increasing(c) && forall i :: 0 <= i < |c| ==> lo <= c[i] < n
  }

  /** Lexicographic order on position lists. */
  predicate LexLess(a: seq<nat>, b: seq<nat>)
  {
    exists i :: 0 <= i < |a| && i < |b| && a[..i] == b[..i] && a[i] < b[i]
  }

  /** Each list with x put in front. */
  function Prepend(x: nat, cs: seq<seq<nat>>): (r: seq<seq<nat>>)
    ensures |r| == |cs| && forall i :: 0 <= i < |cs| ==> r[i] == [x] + cs[i]
  {
    if cs == [] then [] else [[x] + cs[0]] + Prepend(x, cs[1..])
  }

  /** The k-combinations of [lo, n) in the order they are generated:
      those that start with lo first, then those that do not. */
  function Combinations(lo: nat, n: nat, k: nat): (r: seq<seq<nat>>)
    ensures forall c :: c in r ==> IsCombination(c, lo, n, k)
    decreases n - lo
  {
    if k == 0 then [[]]
    else if lo >= n then []
    else
      var tails := Combinations(lo + 1, n, k - 1);
      var heads := Prepend(lo, tails);
      assert forall c :: c in heads ==> IsCombination(c, lo, n, k) by {
        forall c | c in heads ensures IsCombination(c, lo, n, k) {
          var i :| 0 <= i < |tails| && c == heads[i];
          assert IsCombination(tails[i], lo + 1, n, k - 1);
        }
      }
      heads + Combinations(lo + 1, n, k)
  }

  /** Every combination is generated. */
  lemma {:induction false} CombinationsComplete(lo: nat, n: nat, k: nat, c: seq<nat>)
    requires IsCombination(c, lo, n, k)
    ensures c in Combinations(lo, n, k)
    decreases n - lo
  {
    if k == 0 {
      assert c == [];
    } else {
      assert lo <= c[0] < n;
      var tails := Combinations(lo + 1, n, k - 1);
      var rest := Combinations(lo + 1, n, k);
      assert Combinations(lo, n, k) == Prepend(lo, tails) + rest;
      if c[0] == lo {
        TailCombination(c, lo, n, k);
        CombinationsComplete(lo + 1, n, k - 1, c[1..]);
        InPrepend(lo, tails, c[1..]);
        assert c == [lo] + c[1..];
      } else {
        RaiseCombination(c, lo, n, k);
        CombinationsComplete(lo + 1, n, k, c);
      }
    }
  }

  lemma TailCombination(c: seq<nat>, lo: nat, n: nat, k: nat)
    requires IsCombination(c, lo, n, k) && k > 0
    ensures IsCombination(c[1..], lo + 1, n, k - 1)
  {
    forall i | 0 <= i < |c[1..]| ensures lo + 1 <= c[1..][i] {
      assert c[0] < c[i + 1];
    }
  }

  lemma RaiseCombination(c: seq<nat>, lo: nat, n: nat, k: nat)
    requires IsCombination(c, lo, n, k) && k > 0 && c[0] != lo
    ensures IsCombination(c, lo + 1, n, k)
  {
    forall i | 0 <= i < |c| ensures lo + 1 <= c[i] {
      if i > 0 { assert c[0] < c[i]; }
    }
  }

  lemma InPrepend(x: nat, cs: seq<seq<nat>>, t: seq<nat>)
    requires t in cs
    ensures [x] + t in Prepend(x, cs)
  {
    var i :| 0 <= i < |cs| && cs[i] == t;
    assert Prepend(x, cs)[i] == [x] + t;
  }

  predicate SortedLex(cs: seq<seq<nat>>)
  {
    forall i, j :: 0 <= i < j < |cs| ==> LexLess(cs[i], cs[j])
  }

  lemma PrependLexLess(x: nat, a: seq<nat>, b: seq<nat>)
    requires LexLess(a, b)
    ensures LexLess([x] + a, [x] + b)
  {
    var m :| 0 <= m < |a| && m < |b| && a[..m] == b[..m] && a[m] < b[m];
    assert ([x] + a)[..m + 1] == [x] + a[..m];
    assert ([x] + b)[..m + 1] == [x] + b[..m];
  }

  lemma PrependSorted(x: nat, cs: seq<seq<nat>>)
    requires SortedLex(cs)
    ensures SortedLex(Prepend(x, cs))
  {
    var ps := Prepend(x, cs);
    forall i, j | 0 <= i < j < |ps| ensures LexLess(ps[i], ps[j]) {
      PrependLexLess(x, cs[i], cs[j]);
    }
  }

  /** The combinations come out in strictly increasing lexicographic order. */
  lemma {:induction false} CombinationsSorted(lo: nat, n: nat, k: nat)
    ensures SortedLex(Combinations(lo, n, k))
    decreases n - lo
  {
    if k > 0 && lo < n {
      var tails := Combinations(lo + 1, n, k - 1);
      var heads := Prepend(lo, tails);
      var rest := Combinations(lo + 1, n, k);
      var cs := heads + rest;
      assert Combinations(lo, n, k) == cs;
      CombinationsSorted(lo + 1, n, k - 1);
      CombinationsSorted(lo + 1, n, k);
      PrependSorted(lo, tails);
      forall i, j | 0 <= i < j < |cs| ensures LexLess(cs[i], cs[j]) {
        if j < |heads| {
          assert cs[i] == heads[i] && cs[j] == heads[j];
        } else if i < |heads| {
          assert rest[j - |heads|] in rest;
          assert cs[i] == [lo] + tails[i];
          assert cs[j][0] > lo;
          assert cs[i][..0] == cs[j][..0];
        } else {
          assert cs[i] == rest[i - |heads|] && cs[j] == rest[j - |heads|];
        }
      }
    }
  }

  lemma LexLessAsymmetric(a: seq<nat>, b: seq<nat>)
    requires LexLess(a, b)
    ensures !LexLess(b, a) && a != b
  {
    var i :| 0 <= i < |a| && i < |b| && a[..i] == b[..i] && a[i] < b[i];
    forall j | 0 <= j < |b| && j < |a| ensures b[..j] != a[..j] || b[j] >= a[j] {
      if j < i {
        assert a[..i][j] == b[..i][j];
      } else if i < j {
        assert b[..j][i] != a[..j][i];
      }
    }
    assert a[i] != b[i];
  }

  /** The report entries at the chosen positions. */
  function Pick(report: seq<nat>, c: seq<nat>): (r: seq<nat>)
    requires forall i :: 0 <= i < |c| ==> c[i] < |report|
    ensures |r| == |c| && forall i :: 0 <= i < |c| ==> r[i] == report[c[i]]
  {
    seq(|c|, i requires 0 <= i < |c| => report[c[i]])
  }

  predicate Within(cs: seq<seq<nat>>, n: nat)
  {
    forall c, i :: c in cs && 0 <= i < |c| ==> c[i] < n
  }

  /** The entries of the first listed combination summing to target. */
  function Search(report: seq<nat>, target: nat, cs: seq<seq<nat>>): (r: Result<seq<nat>>)
    requires Within(cs, |report|)
    ensures r.Err? <==> forall c :: c in cs ==> Sum(Pick(report, c)) != target
    ensures r.Err? ==> r.error == "No sum found"
    ensures r.Ok? ==> exists i :: (0 <= i < |cs| && r.value == Pick(report, cs[i]) && Sum(r.value) == target
      && forall j :: 0 <= j < i ==> Sum(Pick(report, cs[j])) != target)
  {
    if cs == [] then Err("No sum found")
    else if Sum(Pick(report, cs[0])) == target then Ok(Pick(report, cs[0]))
    else
      var r := Search(report, target, cs[1..]);
      SearchTail(report, target, cs);
      if r.Ok? then
        FoundInTail(report, target, cs, r.value);
        r
      else r
  }

  /** The first match of the tail, after a first entry that misses, is the
      first match of the whole list. */
  lemma FoundInTail(report: seq<nat>, target: nat, cs: seq<seq<nat>>, v: seq<nat>)
    requires cs != [] && Within(cs, |report|) && Sum(Pick(report, cs[0])) != target
    requires exists i :: (0 <= i < |cs[1..]| && v == Pick(report, cs[1..][i]) && Sum(v) == target
      && forall j :: 0 <= j < i ==> Sum(Pick(report, cs[1..][j])) != target)
    ensures exists i :: (0 <= i < |cs| && v == Pick(report, cs[i]) && Sum(v) == target
      && forall j :: 0 <= j < i ==> Sum(Pick(report, cs[j])) != target)
  {
    var i :| 0 <= i < |cs[1..]| && v == Pick(report, cs[1..][i]) && Sum(v) == target
      && forall j :: 0 <= j < i ==> Sum(Pick(report, cs[1..][j])) != target;
    ShiftMisses(report, target, cs, i);
  }

  /** The combinations of a non-empty list are its first one and its tail's. */
  lemma SearchTail(report: seq<nat>, target: nat, cs: seq<seq<nat>>)
    requires cs != [] && Within(cs, |report|)
    ensures Within(cs[1..], |report|)
    ensures forall c :: c in cs ==> c == cs[0] || c in cs[1..]
  {
  }

  /** A first miss followed by i misses in the tail is i + 1 misses. */
  lemma ShiftMisses(report: seq<nat>, target: nat, cs: seq<seq<nat>>, i: nat)
    requires cs != [] && Within(cs, |report|) && Sum(Pick(report, cs[0])) != target
    requires i < |cs| - 1 && forall j :: 0 <= j < i ==> Sum(Pick(report, cs[1..][j])) != target
    ensures cs[1..][i] == cs[i + 1]
    ensures forall j :: 0 <= j < i + 1 ==> Sum(Pick(report, cs[j])) != target
  {
    forall j | 0 <= j < i + 1 ensures Sum(Pick(report, cs[j])) != target {
      if j > 0 { assert cs[j] == cs[1..][j - 1]; }
    }
  }

  /** find_sum: the entries of the first k-combination of the report, in
      lexicographic order of positions, whose sum is target; an error when
      there is none. */
  function FindSum(report: seq<nat>, target: nat, k: nat): Result<seq<nat>>
  {
    var cs := Combinations(0, |report|, k);
    assert Within(cs, |report|) by {
      forall c, i | c in cs && 0 <= i < |c| ensures c[i] < |report| {
        assert IsCombination(c, 0, |report|, k);
      }
    }
    Search(report, target, cs)
  }

  lemma CombinationsWithin(report: seq<nat>, k: nat)
    ensures Within(Combinations(0, |report|, k), |report|)
  {
    var cs := Combinations(0, |report|, k);
    forall c, i | c in cs && 0 <= i < |c| ensures c[i] < |report| {
      assert IsCombination(c, 0, |report|, k);
    }
  }

  /** find_sum fails exactly when no k entries at distinct positions sum to
      the target. */
  lemma FindSumFails(report: seq<nat>, target: nat, k: nat)
    ensures FindSum(report, target, k).Err? <==>
      forall c :: IsCombination(c, 0, |report|, k) ==> Sum(Pick(report, c)) != target
  {
    var cs := Combinations(0, |report|, k);
    CombinationsWithin(report, k);
    forall c | IsCombination(c, 0, |report|, k) ensures c in cs {
      CombinationsComplete(0, |report|, k, c);
    }
  }

  /** In a lexicographically sorted list, whatever sorts before the first
      match does not match. */
  lemma FirstInSorted(report: seq<nat>, target: nat, cs: seq<seq<nat>>, i: nat, d: seq<nat>)
    requires Within(cs, |report|) && SortedLex(cs)
    requires i < |cs| && forall j :: 0 <= j < i ==> Sum(Pick(report, cs[j])) != target
    requires d in cs && LexLess(d, cs[i])
    ensures Sum(Pick(report, d)) != target
  {
    var j :| 0 <= j < |cs| && cs[j] == d;
    LexLessAsymmetric(d, cs[i]);
  }

  /** When find_sum succeeds it returns the k entries at some increasing
      positions that sum to the target, and no lexicographically earlier
      choice of positions sums to it. */
  lemma FindSumFirst(report: seq<nat>, target: nat, k: nat)
    requires FindSum(report, target, k).Ok?
    ensures exists c :: (IsCombination(c, 0, |report|, k) && FindSum(report, target, k).value == Pick(report, c)
      && |Pick(report, c)| == k && Sum(Pick(report, c)) == target
      && forall d :: IsCombination(d, 0, |report|, k) && LexLess(d, c) ==> Sum(Pick(report, d)) != target)
  {
    var cs := Combinations(0, |report|, k);
    CombinationsWithin(report, k);
    CombinationsSorted(0, |report|, k);
    var r := Search(report, target, cs);
    var i :| 0 <= i < |cs| && r.value == Pick(report, cs[i]) && Sum(r.value) == target
      && forall j :: 0 <= j < i ==> Sum(Pick(report, cs[j])) != target;
    var c := cs[i];
    assert IsCombination(c, 0, |report|, k);
    forall d | IsCombination(d, 0, |report|, k) && LexLess(d, c) ensures Sum(Pick(report, d)) != target {
      CombinationsComplete(0, |report|, k, d);
      FirstInSorted(report, target, cs, i, d);
    }
  }

  /** parse_to_ints: the lines that read as 32-bit unsigned numbers. */
  function ParseToInts(input: string): (r: seq<nat>)
    ensures forall x :: x in r ==> x <= U32_MAX
  {
    ParseNats(Lines(input), U32_MAX)
  }

  /** Lines that are not u32 numbers are dropped; the others keep their
      order. */
  lemma ParseToIntsKeepsNumbers(input: string)
    ensures FilterMapped(Lines(input), ParserUpTo(U32_MAX), ParseToInts(input))
  {
    ParseNatsFilterMapped(Lines(input), U32_MAX);
  }

  /** A report written one entry per line reads back unchanged. */
  lemma ParseToIntsRoundTrip(report: seq<nat>)
    requires forall x :: x in report ==> x <= U32_MAX
    ensures ParseToInts(Join(ShowNats(report), "\n")) == report
  {
    ParseNumberLines(report, U32_MAX);
  }

  // ---------------------------------------------------------------------
  // The examples of the source's unit tests

  /** Two different lists of the same length are ordered one way or the
      other. */
  lemma {:induction false} LexTotal(a: seq<nat>, b: seq<nat>)
    requires |a| == |b| && a != b
    ensures LexLess(a, b) || LexLess(b, a)
    decreases |a|
  {
    if a[0] != b[0] {
      assert a[..0] == b[..0];
    } else {
      assert a == [a[0]] + a[1..] && b == [b[0]] + b[1..];
      LexTotal(a[1..], b[1..]);
      if LexLess(a[1..], b[1..]) {
        var i :| 0 <= i < |a| - 1 && a[1..][..i] == b[1..][..i] && a[1..][i] < b[1..][i];
        assert a[..i + 1] == [a[0]] + a[1..][..i] && b[..i + 1] == [b[0]] + b[1..][..i];
      } else {
        var i :| 0 <= i < |a| - 1 && b[1..][..i] == a[1..][..i] && b[1..][i] < a[1..][i];
        assert a[..i + 1] == [a[0]] + a[1..][..i] && b[..i + 1] == [b[0]] + b[1..][..i];
      }
    }
  }

  /** The first matching combination decides the result: when c sums to
      the target and no earlier combination does, find_sum returns the
      entries at c. */
  lemma FindSumIs(report: seq<nat>, target: nat, k: nat, c: seq<nat>)
    requires IsCombination(c, 0, |report|, k) && Sum(Pick(report, c)) == target
    requires forall d :: IsCombination(d, 0, |report|, k) && LexLess(d, c) ==> Sum(Pick(report, d)) != target
    ensures FindSum(report, target, k) == Ok(Pick(report, c))
  {
    FindSumFails(report, target, k);
    FindSumFirst(report, target, k);
    var c' :| IsCombination(c', 0, |report|, k) && FindSum(report, target, k).value == Pick(report, c')
      && Sum(Pick(report, c')) == target
      && forall d :: IsCombination(d, 0, |report|, k) && LexLess(d, c') ==> Sum(Pick(report, d)) != target;
    if c' != c {
      LexTotal(c', c);
    }
  }

  lemma SumSmall(a: nat, b: nat, c: nat)
    ensures Sum([a, b]) == a + b && Sum([a, b, c]) == a + b + c
  {
    var two: seq<int>, three: seq<int> := [a, b], [a, b, c];
    assert Sum(two[1..][1..]) == 0 && Sum(three[1..][1..][1..]) == 0;
    assert Sum(two[1..]) == b;
    assert Sum(three[1..][1..]) == c;
  }

  function SortedExample(): seq<nat>
  {
    [299, 366, 675, 979, 1456, 1721]
  }

  /** The pairs before (0, 5) start at 0 and end before 5. */
  lemma PairsBefore(d: seq<nat>)
    requires IsCombination(d, 0, 6, 2) && LexLess(d, [0, 5])
    ensures d[0] == 0 && 1 <= d[1] < 5
  {
    var i :| 0 <= i < 2 && d[..i] == [0, 5][..i] && d[i] < [0, 5][i];
    if i == 1 { assert d[..1] == [d[0]]; }
  }

  /** test_find_sum_with_2: on the sorted example report, the pair is 299
      and 1721. */
  lemma FindSumWithTwo(report: seq<nat>)
    requires report == SortedExample()
    ensures FindSum(report, 2020, 2) == Ok([299, 1721])
  {
    var c := [0, 5];
    assert Pick(report, c) == [299, 1721];
    forall d | IsCombination(d, 0, |report|, 2) && LexLess(d, c) ensures Sum(Pick(report, d)) != 2020 {
      PairsBefore(d);
      assert Pick(report, d) == [299, report[d[1]]];
      SumSmall(299, report[d[1]], 0);
    }
    SumSmall(299, 1721, 0);
    FindSumIs(report, 2020, 2, c);
  }

  /** The triples before (1, 2, 3) start at 0. */
  lemma TriplesBefore(d: seq<nat>)
    requires IsCombination(d, 0, 6, 3) && LexLess(d, [1, 2, 3])
    ensures d[0] == 0 && 1 <= d[1] < d[2] < 6
  {
    var i :| 0 <= i < 3 && d[..i] == [1, 2, 3][..i] && d[i] < [1, 2, 3][i];
    if i == 1 { assert d[..1] == [d[0]]; }
    if i == 2 { assert d[..2] == [d[0], d[1]]; }
  }

  /** No two entries after the first sum to 2020 - 299. */
  lemma NoPairAfterFirst(report: seq<nat>, a: nat, b: nat)
    requires report == SortedExample() && 1 <= a < b < 6
    ensures report[a] + report[b] != 1721
  {
  }

  /** test_find_sum_with_3: on the sorted example report, the triple is
      366, 675 and 979. */
  lemma FindSumWithThree(report: seq<nat>)
    requires report == SortedExample()
    ensures FindSum(report, 2020, 3) == Ok([366, 675, 979])
  {
    var c := [1, 2, 3];
    assert Pick(report, c) == [366, 675, 979];
    forall d | IsCombination(d, 0, |report|, 3) && LexLess(d, c) ensures Sum(Pick(report, d)) != 2020 {
      TriplesBefore(d);
      NoPairAfterFirst(report, d[1], d[2]);
      assert Pick(report, d) == [299, report[d[1]], report[d[2]]];
      SumSmall(299, report[d[1]], report[d[2]]);
    }
    SumSmall(366, 675, 979);
    FindSumIs(report, 2020, 3, c);
  }
}
