/**
 * Day 2, Password Philosophy: each line of the database is a policy and a
 * password, written "min-max letter: password".  The sled rental policy
 * wants the letter to occur between min and max times; the toboggan policy
 * wants it at exactly one of the (one-based) positions min and max.
 */
module PasswordPhilosophy {
  import opened Text

  datatype Policy = Policy(min: nat, max: nat, letter: char)
  datatype Password = Password(policy: Policy, password: string)

  /** How often c occurs in s, counted letter by letter. */
  function Occurrences(s: string, c: char): (r: nat)
    ensures r == multiset(s)[c]
  {
    if s == [] then 0
    else
      assert s == [s[0]] + s[1..];
      (if s[0] == c then 1 else 0) + Occurrences(s[1..], c)
  }

  predicate CountValid(p: Password)
  {
    p.policy.min <= Occurrences(p.password, p.policy.letter) <= p.policy.max
  }

  /** find_valid_passwords: the passwords whose letter count lies within
      their policy's bounds, in their original order. */
  function FindValidPasswords(ps: seq<Password>): (r: seq<Password>)
    ensures forall i :: 0 <= i < |r| ==> r[i] in ps && CountValid(r[i])
    ensures forall i :: 0 <= i < |ps| && CountValid(ps[i]) ==> ps[i] in r
  {
    Filter(ps, CountValid)
  }

  /** Position k (one-based) of s holds c. */
  predicate At(s: string, c: char, k: nat)
  {
    1 <= k <= |s| && s[k - 1] == c
  }

  /** The positions from i on that are one of a and b (one-based) and hold c,
      counted as the enumerate-and-filter chain of the source does. */
  function PositionHits(s: string, c: char, a: nat, b: nat, i: nat): (r: nat)
    decreases |s| - i
  {
    if i >= |s| then 0
    else (if (i + 1 == a || i + 1 == b) && s[i] == c then 1 else 0) + PositionHits(s, c, a, b, i + 1)
  }

  /** Each of the two positions counts once, and a position past the end
      of the password does not count. */
  lemma {:induction false} PositionHitsCount(s: string, c: char, a: nat, b: nat, i: nat)
    ensures PositionHits(s, c, a, b, i)
      == (if a > i && At(s, c, a) then 1 else 0) + (if b != a && b > i && At(s, c, b) then 1 else 0)
    decreases |s| - i
  {
    if i < |s| {
      PositionHitsCount(s, c, a, b, i + 1);
    }
  }

  predicate TobogganValid(p: Password)
  {
    PositionHits(p.password, p.policy.letter, p.policy.min, p.policy.max, 0) == 1
  }

  /** The toboggan policy holds exactly when one of the two positions holds
      the letter; when both positions are the same one, that position must. */
  lemma TobogganValidIff(p: Password)
    ensures TobogganValid(p) <==>
      var (s, c, a, b) := (p.password, p.policy.letter, p.policy.min, p.policy.max);
      if a == b then At(s, c, a) else At(s, c, a) != At(s, c, b)
  {
    PositionHitsCount(p.password, p.policy.letter, p.policy.min, p.policy.max, 0);
  }

  /** find_valid_toboggan_passwords: the passwords valid under the toboggan
      policy, in their original order. */
  function FindValidTobogganPasswords(ps: seq<Password>): (r: seq<Password>)
    ensures forall i :: 0 <= i < |r| ==> r[i] in ps && TobogganValid(r[i])
    ensures forall i :: 0 <= i < |ps| && TobogganValid(ps[i]) ==> ps[i] in r
  {
    Filter(ps, TobogganValid)
  }

  /** Both filters keep relative order: filtering two lists one after the
      other gives the two filtered lists one after the other. */
  lemma FindValidAppend(ps: seq<Password>, qs: seq<Password>)
    ensures FindValidPasswords(ps + qs) == FindValidPasswords(ps) + FindValidPasswords(qs)
    ensures FindValidTobogganPasswords(ps + qs) == FindValidTobogganPasswords(ps) + FindValidTobogganPasswords(qs)
  {
    FilterAppend(ps, qs, CountValid);
    FilterAppend(ps, qs, TobogganValid);
  }

  /** The four groups captured by ([0-9]+)-([0-9]+) (.): (.*). */
  datatype Captures = Captures(min: string, max: string, letter: char, password: string)

  /** The text a match covers. */
  function MatchText(m: Captures): string
  {
    m.min + "-" + m.max + " " + [m.letter] + ": " + m.password
  }

  /** The shape of a match of the pattern at position p of s: a digit run,
      '-', a digit run, ' ', any letter but a newline, ": ", and the rest
      of the line. */
  predicate IsMatch(s: string, p: nat, m: Captures)
  {
    var q := p + |m.min|;
    var t := q + 1 + |m.max|;
    var e := t + 4 + |m.password|;
    |m.min| > 0 && AllDigits(m.min) && |m.max| > 0 && AllDigits(m.max)
    && m.letter != '\n' && '\n' !in m.password && e <= |s|
    && s[p..q] == m.min && s[q] == '-' && s[q + 1..t] == m.max && s[t] == ' '
    && s[t + 1] == m.letter && s[t + 2] == ':' && s[t + 3] == ' ' && s[t + 4..e] == m.password
    && (e == |s| || s[e] == '\n')
  }

  /** The length of the run of digits starting at p. */
  function DigitRun(s: string, p: nat): (n: nat)
    requires p <= |s|
    ensures p + n <= |s| && AllDigits(s[p..p + n])
    ensures p + n == |s| || !IsDigit(s[p + n])
    decreases |s| - p
  {
    if p < |s| && IsDigit(s[p]) then
      var n := 1 + DigitRun(s, p + 1);
      assert s[p..p + n] == [s[p]] + s[p + 1..p + n];
      n
    else 0
  }

  /** The position of the first newline at or after i, or the end. */
  function LineEnd(s: string, i: nat): (e: nat)
    requires i <= |s|
    ensures i <= e <= |s| && (e == |s| || s[e] == '\n')
    ensures forall k :: i <= k < e ==> s[k] != '\n'
    decreases |s| - i
  {
    if i == |s| || s[i] == '\n' then i else LineEnd(s, i + 1)
  }

  lemma {:induction false} LineEndOf(s: string, i: nat, e: nat)
    requires i <= e <= |s| && (e == |s| || s[e] == '\n')
    requires forall k :: i <= k < e ==> s[k] != '\n'
    ensures LineEnd(s, i) == e
    decreases e - i
  {
    if i < e {
      LineEndOf(s, i + 1, e);
    }
  }

  /** The match of the pattern that starts at position p, if any; the
      greedy groups take the longest digit runs and the rest of the line. */
  function MatchAt(s: string, p: nat): (r: Option<Captures>)
    requires p <= |s|
  {
    var q := p + DigitRun(s, p);
    if q == p || q >= |s| || s[q] != '-' then None
    else MatchAfterDash(s, p, q)
  }

  /** The rest of a match whose first group is s[p..q] and whose dash is
      at q. */
  function MatchAfterDash(s: string, p: nat, q: nat): (r: Option<Captures>)
    requires p <= q < |s|
  {
    var t := q + 1 + DigitRun(s, q + 1);
    if t == q + 1 || t + 3 >= |s| || s[t] != ' ' || s[t + 1] == '\n' || s[t + 2] != ':' || s[t + 3] != ' ' then None
    else Some(Captures(s[p..q], s[q + 1..t], s[t + 1], s[t + 4..LineEnd(s, t + 4)]))
  }

  /** What MatchAt finds is a match of the pattern. */
  lemma MatchAtSound(s: string, p: nat)
    requires p <= |s| && MatchAt(s, p).Some?
    ensures IsMatch(s, p, MatchAt(s, p).value)
  {
    var m := MatchAt(s, p).value;
    var t := p + |m.min| + 1 + |m.max|;
    assert '\n' !in m.password by {
      forall k | 0 <= k < |m.password| ensures m.password[k] != '\n' {
        assert m.password[k] == s[t + 4 + k];
      }
    }
  }

  lemma DigitRunOf(s: string, p: nat, d: string)
    requires p + |d| < |s| && s[p..p + |d|] == d && AllDigits(d) && !IsDigit(s[p + |d|])
    ensures DigitRun(s, p) == |d|
    decreases |d|
  {
    if d != [] {
      assert s[p + 1..p + |d|] == d[1..];
      DigitRunOf(s, p + 1, d[1..]);
    }
  }

  /** A match of the pattern at p is the one MatchAt finds there. */
  lemma MatchAtComplete(s: string, p: nat, m: Captures)
    requires IsMatch(s, p, m)
    ensures MatchAt(s, p) == Some(m)
  {
    var q := p + |m.min|;
    DigitRunOf(s, p, m.min);
    MatchAfterDashComplete(s, p, m);
  }

  lemma MatchAfterDashComplete(s: string, p: nat, m: Captures)
    requires IsMatch(s, p, m)
    ensures MatchAfterDash(s, p, p + |m.min|) == Some(m)
  {
    var q := p + |m.min|;
    var t := q + 1 + |m.max|;
    assert t + 3 < |s| && s[t] == ' ' && s[t + 1] != '\n' && s[t + 2] == ':' && s[t + 3] == ' ';
    DigitRunOf(s, q + 1, m.max);
    LineEndAfter(s, t + 4, m.password);
  }

  /** A line whose text from i on is rest ends right after rest. */
  lemma LineEndAfter(s: string, i: nat, rest: string)
    requires i + |rest| <= |s| && s[i..i + |rest|] == rest && '\n' !in rest
    requires i + |rest| == |s| || s[i + |rest|] == '\n'
    ensures LineEnd(s, i) == i + |rest|
  {
    var e := i + |rest|;
    forall k | i <= k < e ensures s[k] != '\n' {
      assert s[k] == rest[k - i];
    }
    LineEndOf(s, i, e);
  }

  lemma ConcatSlices(a: string, b: string)
    ensures (a + b)[..|a|] == a && (a + b)[|a|..] == b
  {
  }

  /** The text of every match is a match at the start of that text. */
  lemma MatchTextIsMatch(m: Captures)
    requires |m.min| > 0 && AllDigits(m.min) && |m.max| > 0 && AllDigits(m.max)
    requires m.letter != '\n' && '\n' !in m.password
    ensures IsMatch(MatchText(m), 0, m)
  {
    var s := MatchText(m);
    var q := |m.min|;
    var t := q + 1 + |m.max|;
    var head := m.min + "-" + m.max + " " + [m.letter] + ": ";
    assert s == head + m.password;
    ConcatSlices(head, m.password);
    assert |head| == t + 4;
    var mid := "-" + m.max + " " + [m.letter] + ": ";
    assert head == m.min + mid;
    ConcatSlices(m.min, mid);
    assert s[..q] == head[..q];
    assert s[q..t + 4] == mid;
    assert mid[1..|m.max| + 1] == m.max;
  }

  /** The leftmost position from p on where the pattern matches. */
  function FirstMatchAt(s: string, p: nat): (r: Option<nat>)
    requires p <= |s|
    ensures r.None? <==> forall q :: p <= q <= |s| ==> MatchAt(s, q).None?
    ensures r.Some? ==> (p <= r.value <= |s| && MatchAt(s, r.value).Some?
      && forall q :: p <= q < r.value ==> MatchAt(s, q).None?)
    decreases |s| - p
  {
    if MatchAt(s, p).Some? then Some(p)
    else if p == |s| then None
    else FirstMatchAt(s, p + 1)
  }

  /** convert_to_password: the leftmost match of the pattern, with both
      bounds read as 64-bit unsigned numbers; a line without a match, or
      with a bound too large to read, gives nothing. */
  function ConvertToPassword(line: string): (r: Option<Password>)
    ensures r.Some? ==> r.value.policy.min <= U64_MAX && r.value.policy.max <= U64_MAX
  {
    match FirstMatchAt(line, 0)
    case None => None
    case Some(p) =>
      var m := MatchAt(line, p).value;
      var min := ParseNat(m.min, U64_MAX);
      var max := ParseNat(m.max, U64_MAX);
      if min.Some? && max.Some? then Some(Password(Policy(min.value, max.value, m.letter), m.password))
      else None
  }

  /** A password line as the database writes it. */
  function ShowPassword(p: Password): string
  {
    ShowNat(p.policy.min) + "-" + ShowNat(p.policy.max) + " " + [p.policy.letter] + ": " + p.password
  }

  predicate Showable(p: Password)
  {
    p.policy.min <= U64_MAX && p.policy.max <= U64_MAX && p.policy.letter != '\n' && '\n' !in p.password
  }

  /** A written password line reads back as the same password. */
  lemma ConvertShowPassword(p: Password)
    requires Showable(p)
    ensures ConvertToPassword(ShowPassword(p)) == Some(p)
  {
    var s := ShowPassword(p);
    var m := Captures(ShowNat(p.policy.min), ShowNat(p.policy.max), p.policy.letter, p.password);
    assert MatchText(m) == s;
    MatchTextIsMatch(m);
    MatchAtComplete(s, 0, m);
    ParseShowNat(p.policy.min, U64_MAX);
    ParseShowNat(p.policy.max, U64_MAX);
  }

  function ConvertLines(lines: seq<string>): seq<Password>
  {
    if lines == [] then []
    else
      (match ConvertToPassword(lines[0]) case Some(p) => [p] case None => []) + ConvertLines(lines[1..])
  }

  /** Lines that do not convert are dropped; the others keep their order. */
  lemma {:induction false} ConvertLinesKeepsPasswords(lines: seq<string>)
    ensures FilterMapped(lines, ConvertToPassword, ConvertLines(lines))
    decreases |lines|
  {
    if lines == [] {
      assert Filter(lines, (x: string) => ConvertToPassword(x).Some?) == [];
    } else {
      ConvertLinesKeepsPasswords(lines[1..]);
      FilterMappedCons(lines[0], lines[1..], ConvertToPassword, ConvertLines(lines[1..]));
      assert [lines[0]] + lines[1..] == lines;
    }
  }

  /** parse_passwords: the lines that convert, in order. */
  function ParsePasswords(input: string): (r: seq<Password>)
  {
    ConvertLines(Lines(input))
  }

  function ShowPasswords(ps: seq<Password>): (r: seq<string>)
    ensures |r| == |ps| && forall i :: 0 <= i < |ps| ==> r[i] == ShowPassword(ps[i])
  {
    seq(|ps|, i requires 0 <= i < |ps| => ShowPassword(ps[i]))
  }

  lemma {:induction false} ConvertShown(ps: seq<Password>)
    requires forall i :: 0 <= i < |ps| ==> Showable(ps[i])
    ensures ConvertLines(ShowPasswords(ps)) == ps
    decreases |ps|
  {
    if ps != [] {
      assert forall i :: 0 <= i < |ps[1..]| ==> ps[1..][i] == ps[i + 1];
      ConvertShown(ps[1..]);
      ConvertShownStep(ps);
    }
  }

  lemma ConvertShownStep(ps: seq<Password>)
    requires ps != [] && Showable(ps[0])
    requires ConvertLines(ShowPasswords(ps[1..])) == ps[1..]
    ensures ConvertLines(ShowPasswords(ps)) == ps
  {
    var ls := ShowPasswords(ps);
    ShowPasswordsTail(ps);
    ConvertShowPassword(ps[0]);
    ConvertLinesCons(ls, ps[0]);
    assert ps == [ps[0]] + ps[1..];
  }

  lemma ShowPasswordsTail(ps: seq<Password>)
    requires ps != []
    ensures ShowPasswords(ps)[0] == ShowPassword(ps[0])
    ensures ShowPasswords(ps)[1..] == ShowPasswords(ps[1..])
  {
  }

  /** A first line that converts contributes its password in front. */
  lemma ConvertLinesCons(lines: seq<string>, p: Password)
    requires lines != [] && ConvertToPassword(lines[0]) == Some(p)
    ensures ConvertLines(lines) == [p] + ConvertLines(lines[1..])
  {
  }

  /** A database written one password per line reads back unchanged. */
  lemma ParseShowPasswords(ps: seq<Password>)
    requires forall i :: 0 <= i < |ps| ==> Showable(ps[i])
    ensures ParsePasswords(Join(ShowPasswords(ps), "\n")) == ps
  {
    var ls := ShowPasswords(ps);
    forall i | 0 <= i < |ls| ensures |ls[i]| > 0 && '\n' !in ls[i] {
      var p := ps[i];
      DigitsAvoid(ShowNat(p.policy.min), {'\n'});
      DigitsAvoid(ShowNat(p.policy.max), {'\n'});
      assert ls[i] == ShowNat(p.policy.min) + "-" + ShowNat(p.policy.max) + " " + [p.policy.letter] + ": " + p.password;
    }
    LinesJoin(ls);
    ConvertShown(ps);
  }

  function ExamplePasswords(): seq<Password>
  {
    [Password(Policy(1, 3, 'a'), "abcde"), Password(Policy(1, 3, 'b'), "cdefg"), Password(Policy(2, 9, 'c'), "ccccccccc")]
  }

  lemma ShowExample()
    ensures ShowPasswords(ExamplePasswords()) == ["1-3 a: abcde", "1-3 b: cdefg", "2-9 c: ccccccccc"]
  {
    var ps := ExamplePasswords();
    assert ShowNat(1) == "1" && ShowNat(3) == "3" && ShowNat(2) == "2" && ShowNat(9) == "9";
    assert ShowPassword(ps[0]) == "1-3 a: abcde";
    assert ShowPassword(ps[1]) == "1-3 b: cdefg";
    assert ShowPassword(ps[2]) == "2-9 c: ccccccccc";
  }

  lemma JoinExample()
    ensures Join(["1-3 a: abcde", "1-3 b: cdefg", "2-9 c: ccccccccc"], "\n")
      == "1-3 a: abcde\n1-3 b: cdefg\n2-9 c: ccccccccc"
  {
    var a, b, c := "1-3 a: abcde", "1-3 b: cdefg", "2-9 c: ccccccccc";
    assert "1-3 a: abcde\n1-3 b: cdefg\n2-9 c: ccccccccc" == a + "\n" + (b + "\n" + c);
    assert Join([b, c], "\n") == b + "\n" + c;
    assert Join([a, b, c], "\n") == a + "\n" + (b + "\n" + c);
  }

  lemma ShowableExample()
    ensures forall i :: 0 <= i < |ExamplePasswords()| ==> Showable(ExamplePasswords()[i])
  {
    var ps := ExamplePasswords();
    assert Showable(ps[0]) && Showable(ps[1]) && Showable(ps[2]);
  }

  /** The database of the puzzle's example reads as three passwords. */
  lemma ParseExample()
    ensures ParsePasswords("1-3 a: abcde\n1-3 b: cdefg\n2-9 c: ccccccccc") == ExamplePasswords()
  {
    ShowExample();
    JoinExample();
    ShowableExample();
    ParseShowPasswords(ExamplePasswords());
  }

  lemma CountExamples()
    ensures CountValid(Password(Policy(1, 3, 'a'), "abcde"))
    ensures !CountValid(Password(Policy(1, 3, 'b'), "cdefg"))
    ensures CountValid(Password(Policy(2, 9, 'c'), "ccccccccc"))
  {
    assert multiset("abcde")['a'] == 1;
    assert multiset("cdefg")['b'] == 0;
    assert multiset("ccccccccc")['c'] == 9;
  }

  lemma FilterOfThree(a: Password, b: Password, c: Password, keep: Password -> bool)
    requires keep(a) && !keep(b) && keep(c)
    ensures Filter([a, b, c], keep) == [a, c]
  {
    assert [a, b, c] == [a] + ([b] + [c]);
    FilterCons(c, [], keep);
    FilterCons(b, [c], keep);
    FilterCons(a, [b] + [c], keep);
    assert [c] + [] == [c];
  }

  /** Of the three, the first and the last satisfy the count policy. */
  lemma FilterExample()
    ensures FindValidPasswords(ExamplePasswords()) == [ExamplePasswords()[0], ExamplePasswords()[2]]
  {
    var ps := ExamplePasswords();
    CountExamples();
    FilterOfThree(ps[0], ps[1], ps[2], CountValid);
  }

  /** Only the first satisfies the toboggan policy. */
  lemma TobogganExample()
    ensures FindValidTobogganPasswords(ExamplePasswords()) == [ExamplePasswords()[0]]
  {
  }
}
