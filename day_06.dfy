/**
 * Day 6, Custom Customs: groups of passengers separated by blank lines,
 * one line of answered questions (letters a to z) per passenger.  For each
 * group the questions anyone answered are the union of its members' sets,
 * and the answer is the sum of the sizes of those unions.
 */
module CustomCustoms {
  import opened Text

  /** The 26 questions, a to z. */
  const Alphabet: string := "abcdefghijklmnopqrstuvwxyz"
  const Questions: set<char> := set c | 'a' <= c <= 'z'

  /** The questions a passenger answered: the letters a to z on the line. */
  function Answers(line: string): (r: set<char>)
    ensures forall c :: c in r <==> c in line && 'a' <= c <= 'z'
    ensures r <= Questions
  {
    set c | c in line && 'a' <= c <= 'z'
  }

  /** One answer set per line. */
  function LineAnswers(lines: seq<string>): (r: seq<set<char>>)
    ensures |r| == |lines| && forall j :: 0 <= j < |r| ==> r[j] == Answers(lines[j])
  {
    seq(|lines|, j requires 0 <= j < |lines| => Answers(lines[j]))
  }

  /** A group's lines, one answer set per line. */
  function GroupAnswers(group: string): seq<set<char>>
  {
    LineAnswers(Lines(group))
  }

  /** load_groups_answers: the input split on blank lines into groups. */
  function LoadGroupsAnswers(input: string): (r: seq<seq<set<char>>>)
    ensures |r| == |SplitOn(input, "\n\n")|
    ensures forall k :: 0 <= k < |r| ==> r[k] == GroupAnswers(SplitOn(input, "\n\n")[k])
  {
    var groups := SplitOn(input, "\n\n");
    seq(|groups|, k requires 0 <= k < |groups| => GroupAnswers(groups[k]))
  }

  /** Folding union over the remaining sets, starting from acc. */
  function UnionFold(acc: set<char>, rest: seq<set<char>>): (r: set<char>)
    ensures forall c :: c in r <==> c in acc || exists i :: 0 <= i < |rest| && c in rest[i]
    decreases |rest|
  {
    if rest == [] then acc
    else
      var r := UnionFold(acc + rest[0], rest[1..]);
      assert forall c :: (exists i :: 0 <= i < |rest| && c in rest[i]) <==>
        c in rest[0] || exists i :: 0 <= i < |rest[1..]| && c in rest[1..][i] by {
        forall c | c in rest[0] || exists i :: 0 <= i < |rest[1..]| && c in rest[1..][i]
          ensures exists i :: 0 <= i < |rest| && c in rest[i]
        {
          if c !in rest[0] {
            var i :| 0 <= i < |rest[1..]| && c in rest[1..][i];
            assert c in rest[i + 1];
          }
        }
        forall c | exists i :: 0 <= i < |rest| && c in rest[i]
          ensures c in rest[0] || exists i :: 0 <= i < |rest[1..]| && c in rest[1..][i]
        {
          var i :| 0 <= i < |rest| && c in rest[i];
          if i > 0 { assert rest[1..][i - 1] == rest[i]; }
        }
      }
      r
  }

  /** The questions anyone in the group answered: the first set unioned
      with all the others, and nothing for an empty group. */
  function AnyoneAnswered(group: seq<set<char>>): (r: set<char>)
    ensures forall c :: c in r <==> exists i :: 0 <= i < |group| && c in group[i]
    ensures forall i :: 0 <= i < |group| ==> group[i] <= r
  {
    if group == [] then {}
    else
      var r := UnionFold(group[0], group[1..]);
      assert forall c :: (exists i :: 0 <= i < |group| && c in group[i]) ==>
        c in group[0] || exists i :: 0 <= i < |group[1..]| && c in group[1..][i] by {
        forall c | exists i :: 0 <= i < |group| && c in group[i]
          ensures c in group[0] || exists i :: 0 <= i < |group[1..]| && c in group[1..][i]
        {
          var i :| 0 <= i < |group| && c in group[i];
          if i > 0 { assert group[1..][i - 1] == group[i]; }
        }
      }
      assert forall c :: c in group[0] || (exists i :: 0 <= i < |group[1..]| && c in group[1..][i]) ==>
        exists i :: 0 <= i < |group| && c in group[i] by {
        forall c | c in group[0] || exists i :: 0 <= i < |group[1..]| && c in group[1..][i]
          ensures exists i :: 0 <= i < |group| && c in group[i]
        {
          if c !in group[0] {
            var i :| 0 <= i < |group[1..]| && c in group[1..][i];
            assert c in group[i + 1];
          }
        }
      }
      r
  }

  /** A parsed group's union holds only questions, so at most 26 of them. */
  lemma AnyoneAnsweredBound(group: string)
    ensures AnyoneAnswered(GroupAnswers(group)) <= Questions
    ensures |AnyoneAnswered(GroupAnswers(group))| <= 26
  {
    QuestionsBound(AnyoneAnswered(GroupAnswers(group)));
  }

  /** Every question is a letter of the alphabet. */
  lemma InAlphabet(c: char)
    requires 'a' <= c <= 'z'
    ensures c in Alphabet
  {
    var k := (c as int) - ('a' as int);
    assert Alphabet[k] == c;
  }

  /** A set of questions has at most 26 elements. */
  lemma QuestionsBound(s: set<char>)
    requires s <= Questions
    ensures |s| <= 26
  {
    forall c | c in s ensures c in Alphabet {
      InAlphabet(c);
    }
    CardinalityBySeq(s, Alphabet);
  }

  lemma {:induction false} CardinalityBySeq(s: set<char>, q: string)
    requires forall c :: c in s ==> c in q
    ensures |s| <= |q|
    decreases |q|
  {
    if q != [] {
      var s' := s - {q[0]};
      forall c | c in s' ensures c in q[1..] {
        var k :| 0 <= k < |q| && q[k] == c;
        assert k > 0 && q[1..][k - 1] == c;
      }
      CardinalityBySeq(s', q[1..]);
    } else {
      assert s == {};
    }
  }

  /** The sum over all groups of the number of questions anyone answered. */
  function AnyoneSum(groups: seq<seq<set<char>>>): nat
  {
    if groups == [] then 0 else |AnyoneAnswered(groups[0])| + AnyoneSum(groups[1..])
  }

  /** Each group adds at most 26, so the sum is at most 26 per group. */
  lemma {:induction false} AnyoneSumBound(groups: seq<seq<set<char>>>)
    requires forall k :: 0 <= k < |groups| ==> forall j :: 0 <= j < |groups[k]| ==> groups[k][j] <= Questions
    ensures AnyoneSum(groups) <= 26 * |groups|
  {
    if groups != [] {
      var first := AnyoneAnswered(groups[0]);
      QuestionsBound(first);
      assert forall k :: 0 <= k < |groups[1..]| ==> groups[1..][k] == groups[k + 1];
      AnyoneSumBound(groups[1..]);
    }
  }

  /** The answer for an input is at most 26 per group of it. */
  lemma LoadedSumBound(input: string)
    ensures AnyoneSum(LoadGroupsAnswers(input)) <= 26 * |SplitOn(input, "\n\n")|
  {
    AnyoneSumBound(LoadGroupsAnswers(input));
  }

  // ---------------------------------------------------------------------
  // Reading back written groups

  /** The text of groups of answer lines: lines joined by newlines, groups
      by blank lines. */
  function ShowGroups(groups: seq<seq<string>>): string
  {
    Join(seq(|groups|, k requires 0 <= k < |groups| => Join(groups[k], "\n")), "\n\n")
  }

  function AllAnswers(groups: seq<seq<string>>): (r: seq<seq<set<char>>>)
    ensures |r| == |groups| && forall k :: 0 <= k < |r| ==> r[k] == LineAnswers(groups[k])
  {
    seq(|groups|, k requires 0 <= k < |groups| => LineAnswers(groups[k]))
  }

  /** Written groups load back line by line, each line as the set of its
      letters. */
  lemma LoadShownGroups(groups: seq<seq<string>>)
    requires |groups| >= 1 && forall k :: 0 <= k < |groups| ==> GoodLines(groups[k])
    ensures LoadGroupsAnswers(ShowGroups(groups)) == AllAnswers(groups)
    ensures |LoadGroupsAnswers(ShowGroups(groups))| == |groups|
    ensures forall k :: 0 <= k < |groups| ==> |LoadGroupsAnswers(ShowGroups(groups))[k]| == |groups[k]|
    ensures forall k, j :: 0 <= k < |groups| && 0 <= j < |groups[k]| ==>
      LoadGroupsAnswers(ShowGroups(groups))[k][j] == Answers(groups[k][j])
  {
    var texts := seq(|groups|, k requires 0 <= k < |groups| => Join(groups[k], "\n"));
    forall k | 0 <= k < |texts| ensures BlankFree(texts[k]) && Lines(texts[k]) == groups[k] {
      JoinLinesBlankFree(groups[k]);
      LinesJoin(groups[k]);
    }
    SplitBlankJoined(texts);
  }

  /** The example input. */
  const ExampleInput: string := "abc\n\na\nb\nc\n\nab\nac\n\na\na\na\na\n\nb"

  function ExampleGroups(): seq<seq<string>>
  {
    [["abc"], ["a", "b", "c"], ["ab", "ac"], ["a", "a", "a", "a"], ["b"]]
  }

  lemma ExampleShown()
    ensures ShowGroups(ExampleGroups()) == ExampleInput
  {
    var t0, t1, t2, t3, t4 := "abc", "a\nb\nc", "ab\nac", "a\na\na\na", "b";
    ExampleTexts(ExampleGroups(), [t0, t1, t2, t3, t4]);
    JoinFive(t0, t1, t2, t3, t4, "\n\n");
    ExampleInputParts(t0, t1, t2, t3, t4, "\n\n");
  }

  lemma ExampleTexts(g: seq<seq<string>>, texts: seq<string>)
    requires g == ExampleGroups() && texts == ["abc", "a\nb\nc", "ab\nac", "a\na\na\na", "b"]
    ensures seq(|g|, k requires 0 <= k < |g| => Join(g[k], "\n")) == texts
  {
    assert Join(g[1], "\n") == "a\nb\nc";
    assert Join(g[2], "\n") == "ab\nac";
    assert Join(g[3], "\n") == "a\na\na\na";
  }

  lemma JoinFive(t0: string, t1: string, t2: string, t3: string, t4: string, sep: string)
    ensures Join([t0, t1, t2, t3, t4], sep) == t0 + sep + (t1 + sep + (t2 + sep + (t3 + sep + t4)))
  {
    JoinCons(t3, [t4], sep);
    JoinCons(t2, [t3, t4], sep);
    assert [t2] + [t3, t4] == [t2, t3, t4];
    JoinCons(t1, [t2, t3, t4], sep);
    assert [t1] + [t2, t3, t4] == [t1, t2, t3, t4];
    JoinCons(t0, [t1, t2, t3, t4], sep);
    assert [t0] + [t1, t2, t3, t4] == [t0, t1, t2, t3, t4];
  }

  lemma ExampleInputParts(t0: string, t1: string, t2: string, t3: string, t4: string, sep: string)
    requires t0 == "abc" && t1 == "a\nb\nc" && t2 == "ab\nac" && t3 == "a\na\na\na" && t4 == "b" && sep == "\n\n"
    ensures ExampleInput == t0 + sep + (t1 + sep + (t2 + sep + (t3 + sep + t4)))
  {
  }

  lemma ExampleLetters()
    ensures Answers("abc") == {'a', 'b', 'c'} && Answers("a") == {'a'} && Answers("b") == {'b'}
    ensures Answers("c") == {'c'} && Answers("ab") == {'a', 'b'} && Answers("ac") == {'a', 'c'}
  {
  }

  lemma ExampleGood()
    ensures forall k :: 0 <= k < |ExampleGroups()| ==> GoodLines(ExampleGroups()[k])
  {
  }

  /** The answer sets of the example groups, line by line. */
  function ExampleAnswers(): seq<seq<set<char>>>
  {
    [[{'a', 'b', 'c'}], [{'a'}, {'b'}, {'c'}], [{'a', 'b'}, {'a', 'c'}], [{'a'}, {'a'}, {'a'}, {'a'}], [{'b'}]]
  }

  lemma ExampleSets()
    ensures AllAnswers(ExampleGroups()) == ExampleAnswers()
  {
    ExampleLetters();
    var g := ExampleGroups();
    var r := AllAnswers(g);
    assert r[0] == [{'a', 'b', 'c'}];
    assert r[1] == [{'a'}, {'b'}, {'c'}];
    assert r[2] == [{'a', 'b'}, {'a', 'c'}];
    assert r[3] == [{'a'}, {'a'}, {'a'}, {'a'}];
    assert r[4] == [{'b'}];
  }

  /** The example loads to the five groups of the worked example. */
  lemma LoadExample()
    ensures LoadGroupsAnswers(ExampleInput) == ExampleAnswers()
  {
    ExampleShown();
    ExampleGood();
    LoadShownGroups(ExampleGroups());
    ExampleSets();
  }

  lemma UnionExamples()
    ensures AnyoneAnswered([{'a', 'b', 'c'}]) == {'a', 'b', 'c'}
    ensures AnyoneAnswered([{'a'}, {'b'}, {'c'}]) == {'a', 'b', 'c'}
    ensures AnyoneAnswered([{'a', 'b'}, {'a', 'c'}]) == {'a', 'b', 'c'}
    ensures AnyoneAnswered([{'a'}, {'a'}, {'a'}, {'a'}]) == {'a'}
    ensures AnyoneAnswered([{'b'}]) == {'b'}
  {
  }

  lemma AnyoneSumCons(g: seq<set<char>>, gs: seq<seq<set<char>>>)
    ensures AnyoneSum([g] + gs) == |AnyoneAnswered(g)| + AnyoneSum(gs)
  {
    assert ([g] + gs)[1..] == gs;
  }

  lemma ExampleAnswersSum()
    ensures AnyoneSum(ExampleAnswers()) == 11
  {
    UnionExamples();
    var g0, g1, g2, g3, g4 := [{'a', 'b', 'c'}], [{'a'}, {'b'}, {'c'}], [{'a', 'b'}, {'a', 'c'}], [{'a'}, {'a'}, {'a'}, {'a'}], [{'b'}];
    assert |{'a', 'b', 'c'}| == 3;
    AnyoneSumCons(g4, []);
    AnyoneSumCons(g3, [g4]);
    AnyoneSumCons(g2, [g3, g4]);
    AnyoneSumCons(g1, [g2, g3, g4]);
    AnyoneSumCons(g0, [g1, g2, g3, g4]);
    assert ExampleAnswers() == [g0] + [g1, g2, g3, g4];
  }

  /** Their unions have 3, 3, 3, 1 and 1 questions, 11 in all. */
  lemma SumExample()
    ensures AnyoneSum(LoadGroupsAnswers(ExampleInput)) == 11
  {
    LoadExample();
    ExampleAnswersSum();
  }
}
