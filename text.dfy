/** Text handling shared by every puzzle: the optional and fallible result
    types that stand for Rust's Option and for panics, splitting strings the
    way Rust's str::split, str::lines and str::split_whitespace do, and
    Rust's integer FromStr. */
module Text {

  datatype Option<T> = None | Some(value: T)

  /** An operation that either produces a value or stops with the message
      the Rust code panics with. */
  datatype Result<T> = Ok(value: T) | Err(error: string)

  // ---------------------------------------------------------------------
  // Digits and decimal numbers

  predicate IsDigit(c: char) { '0' <= c <= '9' }

  function DigitValue(c: char): (d: nat)
    requires IsDigit(c)
    ensures d < 10
  {
    (c as int) - ('0' as int)
  }

  function DigitChar(d: nat): (c: char)
    requires d < 10
    ensures IsDigit(c) && DigitValue(c) == d
  {
    (('0' as int) + d) as char
  }

  predicate AllDigits(s: string) { forall i :: 0 <= i < |s| ==> IsDigit(s[i]) }

  /** The value of a run of decimal digits, most significant first. */
  function DigitsValue(s: string): nat
    requires AllDigits(s)
    decreases |s|
  {
    if s == [] then 0 else DigitsValue(s[..|s| - 1]) * 10 + DigitValue(s[|s| - 1])
  }

  /** The shortest decimal rendering of n. */
  function ShowNat(n: nat): (s: string)
    ensures |s| > 0 && AllDigits(s)
    decreases n
  {
    if n < 10 then [DigitChar(n)] else ShowNat(n / 10) + [DigitChar(n % 10)]
  }

  lemma {:induction false} ShowNatValue(n: nat)
    ensures DigitsValue(ShowNat(n)) == n
    decreases n
  {
    if n >= 10 {
      ShowNatValue(n / 10);
      var s := ShowNat(n);
      assert s[..|s| - 1] == ShowNat(n / 10);
    }
  }

  /** Rust's FromStr for an unsigned integer type whose largest value is
      max: an optional '+', then one or more decimal digits, and no overflow. */
  function ParseNat(s: string, max: nat): (r: Option<nat>)
    ensures r.Some? ==> r.value <= max
    ensures r.Some? <==>
      var body := if |s| > 0 && s[0] == '+' then s[1..] else s;
      |body| > 0 && AllDigits(body) && DigitsValue(body) <= max
  {
    var body := if |s| > 0 && s[0] == '+' then s[1..] else s;
    if |body| > 0 && AllDigits(body) && DigitsValue(body) <= max then Some(DigitsValue(body)) else None
  }

  lemma ParseShowNat(n: nat, max: nat)
    requires n <= max
    ensures ParseNat(ShowNat(n), max) == Some(n)
  {
    ShowNatValue(n);
  }

  /** Rust's FromStr for a signed integer type with range [min, max]: an
      optional '+' or '-', then one or more decimal digits, and no overflow. */
  function ParseInt(s: string, min: int, max: int): (r: Option<int>)
    ensures r.Some? ==> min <= r.value <= max
  {
    var negative := |s| > 0 && s[0] == '-';
    var body := if |s| > 0 && (s[0] == '+' || s[0] == '-') then s[1..] else s;
    if |body| > 0 && AllDigits(body) then
      var v: int := if negative then 0 - (DigitsValue(body) as int) else DigitsValue(body);
      if min <= v <= max then Some(v) else None
    else None
  }

  /** The rendering of an integer with a mandatory sign, as in "+4" and "-99". */
  function ShowSigned(v: int): string
  {
    if v < 0 then "-" + ShowNat(-v) else "+" + ShowNat(v)
  }

  lemma ParseShowSigned(v: int, min: int, max: int)
    requires min <= v <= max
    ensures ParseInt(ShowSigned(v), min, max) == Some(v)
  {
    if v < 0 { ShowNatValue(-v); } else { ShowNatValue(v); }
    var s := ShowSigned(v);
    assert s[1..] == ShowNat(if v < 0 then -v else v);
  }

  // Rust's u16, u32, u64, i32 and usize (64-bit) bounds.
  const U16_MAX: nat := 0xFFFF
  const U32_MAX: nat := 0xFFFF_FFFF
  const U64_MAX: nat := 0xFFFF_FFFF_FFFF_FFFF
  const I32_MIN: int := -0x8000_0000
  const I32_MAX: int := 0x7FFF_FFFF

  function Abs(a: int): nat { if a < 0 then -a else a }

  /** Rust's / on signed integers: the quotient rounds toward zero. */
  function TruncDiv(a: int, b: int): (q: int)
    requires b != 0
    ensures Abs(q) == Abs(a) / Abs(b)
  {
    var x, y := Abs(a), Abs(b);
    NatDivision(x, y);
    var m: int := x / y;
    if (a >= 0) == (b > 0) then m else -m
  }

  /** Rust's % on signed integers: the remainder takes the sign of the
      dividend and a == b * TruncDiv(a, b) + TruncRem(a, b). */
  function TruncRem(a: int, b: int): (r: int)
    requires b != 0
    ensures Abs(r) < Abs(b) && (a >= 0 ==> r >= 0) && (a <= 0 ==> r <= 0)
    ensures a == b * TruncDiv(a, b) + r
  {
    var x, y := Abs(a), Abs(b);
    NatDivision(x, y);
    var m: int := x % y;
    SignTimes(a, b, x / y);
    if a >= 0 then m else -m
  }

  lemma NatDivision(x: nat, y: nat)
    requires y > 0
    ensures 0 <= x / y && 0 <= x % y < y && x == y * (x / y) + x % y
  {
  }

  lemma SignTimes(a: int, b: int, m: int)
    requires b != 0
    ensures b * (if (a >= 0) == (b > 0) then m else -m) == (if a >= 0 then 1 else -1) * (Abs(b) * m)
  {
  }

  /** Quotient and remainder are determined by the division identity. */
  lemma ModUnique(n: int, w: int, q: int, s: int)
    requires w > 0 && n == w * q + s && 0 <= s < w
    ensures n % w == s && n / w == q
  {
    var q', s' := n / w, n % w;
    assert n == w * q' + s';
    if q > q' {
      MulAtLeast(w, q - q');
    } else if q < q' {
      MulAtLeast(w, q' - q);
    }
  }

  lemma MulAtLeast(w: int, d: int)
    requires w > 0 && d >= 1
    ensures w * d >= w
  {
  }

  // ---------------------------------------------------------------------
  // Splitting and joining

  /** The pieces of s between the characters in seps, like Rust's
      str::split with a character predicate: always at least one piece, and
      k separators give k + 1 pieces. */
  function SplitAny(s: string, seps: set<char>): (r: seq<string>)
    ensures |r| >= 1
    ensures forall i, j :: 0 <= i < |r| && 0 <= j < |r[i]| ==> r[i][j] !in seps
    decreases |s|
  {
    if s == [] then [""]
    else
      var rest := SplitAny(s[1..], seps);
      if s[0] in seps then [""] + rest
      else [[s[0]] + rest[0]] + rest[1..]
  }

  function Split(s: string, sep: char): (r: seq<string>)
    ensures |r| >= 1
    ensures forall i :: 0 <= i < |r| ==> sep !in r[i]
  {
    var r := SplitAny(s, {sep});
    assert forall i :: 0 <= i < |r| ==> sep !in r[i] by {
      forall i | 0 <= i < |r| ensures sep !in r[i] {
        assert forall j :: 0 <= j < |r[i]| ==> r[i][j] != sep;
      }
    }
    r
  }

  /** The pieces joined back together with sep between neighbours. */
  function Join(parts: seq<string>, sep: string): string
    decreases |parts|
  {
    if parts == [] then ""
    else if |parts| == 1 then parts[0]
    else parts[0] + sep + Join(parts[1..], sep)
  }

  /** Splitting loses nothing: joining the pieces with a separator gives
      back the input. */
  lemma {:induction false} JoinSplitAny(s: string, seps: set<char>, sep: char)
    requires seps == {sep}
    ensures Join(SplitAny(s, seps), [sep]) == s
    decreases |s|
  {
    if s != [] {
      JoinSplitAny(s[1..], seps, sep);
      var rest := SplitAny(s[1..], seps);
      if s[0] in seps {
        assert s == [sep] + s[1..];
      } else {
        if |rest| == 1 {
          assert Join(rest, [sep]) == rest[0];
        } else {
          assert Join(rest, [sep]) == rest[0] + [sep] + Join(rest[1..], [sep]);
        }
        assert s == [s[0]] + s[1..];
      }
    }
  }

  lemma JoinSplit(s: string, sep: char)
    ensures Join(Split(s, sep), [sep]) == s
  {
    JoinSplitAny(s, {sep}, sep);
  }

  /** Splitting a join of separator-free pieces gives the pieces back. */
  lemma {:induction false} SplitAnyJoin(parts: seq<string>, seps: set<char>, sep: char)
    requires |parts| >= 1 && sep in seps
    requires forall i, j :: 0 <= i < |parts| && 0 <= j < |parts[i]| ==> parts[i][j] !in seps
    ensures SplitAny(Join(parts, [sep]), seps) == parts
    decreases |parts|, |parts[0]|
  {
    if parts[0] == [] {
      if |parts| == 1 {
        assert Join(parts, [sep]) == "";
      } else {
        var s := Join(parts, [sep]);
        assert s == [sep] + Join(parts[1..], [sep]);
        assert s[1..] == Join(parts[1..], [sep]);
        SplitAnyJoin(parts[1..], seps, sep);
        assert parts == [""] + parts[1..];
      }
    } else {
      var shorter := [parts[0][1..]] + parts[1..];
      assert forall i, j :: 0 <= i < |shorter| && 0 <= j < |shorter[i]| ==> shorter[i][j] !in seps by {
        forall i, j | 0 <= i < |shorter| && 0 <= j < |shorter[i]| ensures shorter[i][j] !in seps {
          if i == 0 { assert shorter[0][j] == parts[0][j + 1]; } else { assert shorter[i] == parts[i]; }
        }
      }
      SplitAnyJoin(shorter, seps, sep);
      var s := Join(parts, [sep]);
      if |parts| == 1 {
        assert s == parts[0];
        assert Join(shorter, [sep]) == parts[0][1..];
      } else {
        assert s == parts[0] + [sep] + Join(parts[1..], [sep]);
        assert Join(shorter, [sep]) == parts[0][1..] + [sep] + Join(parts[1..], [sep]);
      }
      assert s[1..] == Join(shorter, [sep]);
      assert s[0] == parts[0][0] && s[0] !in seps;
      assert SplitAny(s, seps) == [[s[0]] + shorter[0]] + shorter[1..];
      assert parts[0] == [s[0]] + parts[0][1..];
      assert parts == [[s[0]] + shorter[0]] + shorter[1..];
    }
  }

  /** The pieces of s between non-overlapping occurrences of pat, found
      from the left, like Rust's str::split with a string pattern. */
  function SplitOn(s: string, pat: string): (r: seq<string>)
    requires |pat| > 0
    ensures |r| >= 1
    decreases |s|
  {
    if |pat| <= |s| && s[..|pat|] == pat then [""] + SplitOn(s[|pat|..], pat)
    else if s == [] then [""]
    else
      var rest := SplitOn(s[1..], pat);
      [[s[0]] + rest[0]] + rest[1..]
  }

  lemma {:induction false} JoinSplitOn(s: string, pat: string)
    requires |pat| > 0
    ensures Join(SplitOn(s, pat), pat) == s
    decreases |s|
  {
    if |pat| <= |s| && s[..|pat|] == pat {
      JoinSplitOn(s[|pat|..], pat);
      JoinSplitOnMatch(s, pat);
    } else if s != [] {
      JoinSplitOn(s[1..], pat);
      JoinSplitOnOther(s, pat);
    }
  }

  lemma JoinSplitOnMatch(s: string, pat: string)
    requires |pat| > 0 && |pat| <= |s| && s[..|pat|] == pat
    requires Join(SplitOn(s[|pat|..], pat), pat) == s[|pat|..]
    ensures Join(SplitOn(s, pat), pat) == s
  {
    var tail := s[|pat|..];
    var rest := SplitOn(tail, pat);
    assert SplitOn(s, pat) == [""] + rest;
    JoinCons("", rest, pat);
    PrefixSplit(s, pat);
  }

  lemma PrefixSplit(s: string, pat: string)
    requires |pat| <= |s| && s[..|pat|] == pat
    ensures s == pat + s[|pat|..]
  {
  }

  lemma JoinSplitOnOther(s: string, pat: string)
    requires |pat| > 0 && s != [] && !(|pat| <= |s| && s[..|pat|] == pat)
    requires Join(SplitOn(s[1..], pat), pat) == s[1..]
    ensures Join(SplitOn(s, pat), pat) == s
  {
    SplitOnOther(s, pat);
    JoinAfterHead(s, SplitOn(s[1..], pat), pat);
  }

  /** Pieces that join to all of s but its first character: putting that
      character in front of the first piece gives s. */
  lemma JoinAfterHead(s: string, rest: seq<string>, sep: string)
    requires s != [] && |rest| >= 1 && Join(rest, sep) == s[1..]
    ensures Join([[s[0]] + rest[0]] + rest[1..], sep) == s
  {
    JoinHead(rest, [s[0]], sep);
    assert [s[0]] + s[1..] == s;
  }

  /** A string that does not start with pat: its first character joins
      the first piece of the rest. */
  lemma SplitOnOther(s: string, pat: string)
    requires |pat| > 0 && s != [] && !(|pat| <= |s| && s[..|pat|] == pat)
    ensures SplitOn(s, pat) == [[s[0]] + SplitOn(s[1..], pat)[0]] + SplitOn(s[1..], pat)[1..]
  {
  }


  lemma JoinCons(first: string, parts: seq<string>, sep: string)
    requires |parts| >= 1
    ensures Join([first] + parts, sep) == first + sep + Join(parts, sep)
  {
    assert ([first] + parts)[1..] == parts;
  }

  /** Extending the first piece extends the joined string at the front. */
  lemma JoinHead(parts: seq<string>, prefix: string, sep: string)
    requires |parts| >= 1
    ensures Join([prefix + parts[0]] + parts[1..], sep) == prefix + Join(parts, sep)
  {
    var q := [prefix + parts[0]] + parts[1..];
    if |parts| > 1 {
      assert q[1..] == parts[1..];
    }
  }

  /** Rust's str::lines for text with '\n' line endings: the pieces between
      newlines, without an empty piece after a final newline. */
  function Lines(s: string): (r: seq<string>)
    ensures forall i :: 0 <= i < |r| ==> '\n' !in r[i]
    ensures Join(r, "\n") == s || Join(r, "\n") + "\n" == s
  {
    var parts := Split(s, '\n');
    JoinSplit(s, '\n');
    if parts[|parts| - 1] == "" then
      var r := parts[..|parts| - 1];
      assert |parts| == 1 ==> s == "";
      assert |parts| > 1 ==> Join(parts, "\n") == Join(r, "\n") + "\n" by {
        if |parts| > 1 { JoinSnoc(r, "", "\n"); assert r + [""] == parts; }
      }
      r
    else parts
  }

  lemma {:induction false} JoinSnoc(parts: seq<string>, last: string, sep: string)
    requires |parts| >= 1
    ensures Join(parts + [last], sep) == Join(parts, sep) + sep + last
    decreases |parts|
  {
    if |parts| == 1 {
      assert (parts + [last])[1..] == [last];
    } else {
      JoinSnoc(parts[1..], last, sep);
      assert (parts + [last])[1..] == parts[1..] + [last];
    }
  }

  /** The characters Rust's str::split_whitespace separates on: those with
      the Unicode White_Space property. */
  const Whitespace: set<char> := {
    '\t', '\n', '\U{B}', '\U{C}', '\r', ' ', '\U{85}', '\U{A0}', '\U{1680}',
    '\U{2000}', '\U{2001}', '\U{2002}', '\U{2003}', '\U{2004}', '\U{2005}', '\U{2006}',
    '\U{2007}', '\U{2008}', '\U{2009}', '\U{200A}', '\U{2028}', '\U{2029}', '\U{202F}',
    '\U{205F}', '\U{3000}'}

  function NonEmptyPieces(parts: seq<string>): (r: seq<string>)
    ensures forall i :: 0 <= i < |r| ==> |r[i]| > 0
    ensures forall i :: 0 <= i < |r| ==> r[i] in parts
  {
    if parts == [] then []
    else if parts[0] == "" then NonEmptyPieces(parts[1..])
    else [parts[0]] + NonEmptyPieces(parts[1..])
  }

  /** The maximal runs of non-whitespace characters, in order. */
  function SplitWhitespace(s: string): (r: seq<string>)
    ensures forall i :: 0 <= i < |r| ==> |r[i]| > 0
    ensures forall i, j :: 0 <= i < |r| && 0 <= j < |r[i]| ==> r[i][j] !in Whitespace
  {
    var parts := SplitAny(s, Whitespace);
    var r := NonEmptyPieces(parts);
    assert forall i, j :: 0 <= i < |r| && 0 <= j < |r[i]| ==> r[i][j] !in Whitespace by {
      forall i, j | 0 <= i < |r| && 0 <= j < |r[i]| ensures r[i][j] !in Whitespace {
        var k :| 0 <= k < |parts| && parts[k] == r[i];
      }
    }
    r
  }

  lemma {:induction false} NonEmptyPiecesId(parts: seq<string>)
    requires forall i :: 0 <= i < |parts| ==> |parts[i]| > 0
    ensures NonEmptyPieces(parts) == parts
    decreases |parts|
  {
    if parts != [] { NonEmptyPiecesId(parts[1..]); }
  }

  /** Tokens written out with single spaces between them split back into
      the same tokens. */
  lemma SplitWhitespaceJoin(tokens: seq<string>)
    requires |tokens| >= 1
    requires forall i :: 0 <= i < |tokens| ==> |tokens[i]| > 0
    requires forall i, j :: 0 <= i < |tokens| && 0 <= j < |tokens[i]| ==> tokens[i][j] !in Whitespace
    ensures SplitWhitespace(Join(tokens, " ")) == tokens
  {
    SplitAnyJoin(tokens, Whitespace, ' ');
    NonEmptyPiecesId(tokens);
  }

  /** Rust's str::trim_matches with a single character: c removed from
      both ends. */
  function TrimMatches(s: string, c: char): (r: string)
    ensures |r| <= |s|
    ensures |r| > 0 ==> r[0] != c && r[|r| - 1] != c
    decreases |s|
  {
    if |s| > 0 && s[0] == c then TrimMatches(s[1..], c)
    else if |s| > 0 && s[|s| - 1] == c then TrimMatches(s[..|s| - 1], c)
    else s
  }

  function Sum(xs: seq<int>): int
  {
    if xs == [] then 0 else xs[0] + Sum(xs[1..])
  }

  lemma {:induction false} SumAppend(xs: seq<int>, ys: seq<int>)
    ensures Sum(xs + ys) == Sum(xs) + Sum(ys)
    decreases |xs|
  {
    if xs == [] {
      assert xs + ys == ys;
    } else {
      SumAppend(xs[1..], ys);
      assert (xs + ys)[0] == xs[0];
      assert (xs + ys)[1..] == xs[1..] + ys;
    }
  }

  predicate StartsWith(s: string, pat: string)
  {
    |pat| <= |s| && s[..|pat|] == pat
  }

  /** pat does not occur anywhere in s. */
  predicate NoOccurrence(s: string, pat: string)
  {
    forall i :: 0 <= i <= |s| ==> !StartsWith(s[i..], pat)
  }

  lemma {:induction false} SplitOnNoOccurrence(s: string, pat: string)
    requires |pat| > 0 && NoOccurrence(s, pat)
    ensures SplitOn(s, pat) == [s]
    decreases |s|
  {
    assert s[0..] == s;
    if s != [] {
      assert NoOccurrence(s[1..], pat) by {
        forall i | 0 <= i <= |s[1..]| ensures !StartsWith(s[1..][i..], pat) {
          assert s[1..][i..] == s[i + 1..];
        }
      }
      SplitOnNoOccurrence(s[1..], pat);
      assert [s[0]] + s[1..] == s;
    }
  }

  /** A text without the first character of pat cannot hold pat. */
  lemma NoOccurrenceByFirst(s: string, pat: string)
    requires |pat| > 0 && forall i :: 0 <= i < |s| ==> s[i] != pat[0]
    ensures NoOccurrence(s, pat)
  {
    forall i | 0 <= i <= |s| ensures !StartsWith(s[i..], pat) {
      if i < |s| {
        assert s[i..][0] == s[i];
      }
    }
  }

  /** A leading run that cannot start pat joins the first piece. */
  lemma {:induction false} SplitOnPrefix(a: string, t: string, pat: string)
    requires |pat| > 0 && forall i :: 0 <= i < |a| ==> a[i] != pat[0]
    ensures SplitOn(a + t, pat) == [a + SplitOn(t, pat)[0]] + SplitOn(t, pat)[1..]
    decreases |a|
  {
    var r := SplitOn(t, pat);
    if a == [] {
      assert a + t == t;
      assert a + r[0] == r[0];
      assert [r[0]] + r[1..] == r;
    } else {
      var s := a + t;
      assert s[0] == a[0];
      if |pat| <= |s| {
        assert s[..|pat|][0] == a[0];
      }
      assert s[1..] == a[1..] + t;
      SplitOnPrefix(a[1..], t, pat);
      assert [a[0]] + (a[1..] + r[0]) == a + r[0];
    }
  }

  /** A line "a<pat>b" with pat in neither part and a free of pat's first
      character splits into a and b. */
  lemma SplitOnPair(a: string, b: string, pat: string)
    requires |pat| > 0 && (forall i :: 0 <= i < |a| ==> a[i] != pat[0]) && NoOccurrence(b, pat)
    ensures SplitOn(a + pat + b, pat) == [a, b]
  {
    var t := pat + b;
    SplitOnPrefix(a, t, pat);
    SplitOnLeading(b, pat);
    SplitOnNoOccurrence(b, pat);
    var r := SplitOn(t, pat);
    assert r == ["", b];
    assert a + r[0] == a;
    assert a + pat + b == a + t;
  }

  lemma SplitOnLeading(b: string, pat: string)
    requires |pat| > 0
    ensures SplitOn(pat + b, pat) == [""] + SplitOn(b, pat)
  {
    var t := pat + b;
    assert t[..|pat|] == pat;
    assert t[|pat|..] == b;
  }

  /** A first piece inside which no occurrence of pat starts splits off
      whole. */
  lemma {:induction false} SplitOnCons(a: string, t: string, pat: string)
    requires |pat| > 0
    requires forall i :: 0 <= i < |a| ==> !StartsWith((a + pat + t)[i..], pat)
    ensures SplitOn(a + pat + t, pat) == [a] + SplitOn(t, pat)
    decreases |a|
  {
    var s := a + pat + t;
    if a == [] {
      assert s == pat + t;
      SplitOnLeading(t, pat);
    } else {
      assert s[0..] == s;
      assert !StartsWith(s, pat);
      var s' := a[1..] + pat + t;
      assert s[1..] == s';
      forall i | 0 <= i < |a[1..]| ensures !StartsWith(s'[i..], pat) {
        assert s'[i..] == s[i + 1..];
      }
      SplitOnCons(a[1..], t, pat);
      assert [s[0]] + a[1..] == a;
    }
  }

  lemma {:induction false} SplitAnySnoc(s: string, seps: set<char>, c: char)
    requires c in seps
    ensures SplitAny(s + [c], seps) == SplitAny(s, seps) + [""]
    decreases |s|
  {
    if s == [] {
      assert [] + [c] == [c];
      assert [c][1..] == [];
    } else {
      assert (s + [c])[1..] == s[1..] + [c];
      assert (s + [c])[0] == s[0];
      SplitAnySnoc(s[1..], seps, c);
    }
  }

  /** A separator between two texts splits exactly there. */
  lemma {:induction false} SplitAnyConcat(a: string, c: char, b: string, seps: set<char>)
    requires c in seps
    ensures SplitAny(a + [c] + b, seps) == SplitAny(a, seps) + SplitAny(b, seps)
    decreases |a|
  {
    var s := a + [c] + b;
    if a == [] {
      assert s == [c] + b && s[1..] == b;
    } else {
      assert s[0] == a[0] && s[1..] == a[1..] + [c] + b;
      SplitAnyConcat(a[1..], c, b, seps);
      var rest := SplitAny(a[1..], seps);
      if a[0] !in seps {
        assert (rest + SplitAny(b, seps))[0] == rest[0];
        assert (rest + SplitAny(b, seps))[1..] == rest[1..] + SplitAny(b, seps);
      }
    }
  }

  /** The words of two texts with whitespace between them are the words of
      the first and then those of the second. */
  lemma SplitWhitespaceConcat(a: string, c: char, b: string)
    requires c in Whitespace
    ensures SplitWhitespace(a + [c] + b) == SplitWhitespace(a) + SplitWhitespace(b)
  {
    SplitAnyConcat(a, c, b, Whitespace);
    NonEmptyPiecesAppend(SplitAny(a, Whitespace), SplitAny(b, Whitespace));
  }

  lemma {:induction false} NonEmptyPiecesAppend(a: seq<string>, b: seq<string>)
    ensures NonEmptyPieces(a + b) == NonEmptyPieces(a) + NonEmptyPieces(b)
    decreases |a|
  {
    if a == [] {
      assert a + b == b;
    } else {
      assert (a + b)[0] == a[0];
      assert (a + b)[1..] == a[1..] + b;
      NonEmptyPiecesAppend(a[1..], b);
    }
  }

  /** Whitespace around a text does not change its words. */
  lemma SplitWhitespacePadded(s: string, left: bool, right: bool)
    ensures SplitWhitespace((if left then " " else "") + s + (if right then " " else "")) == SplitWhitespace(s)
  {
    var pre, post := (if left then " " else ""), (if right then " " else "");
    var t := s + post;
    if right { SplitWhitespacePadRight(s); } else { assert t == s; }
    if left { SplitWhitespacePadLeft(t); } else { assert pre + t == t; }
    assert pre + s + post == pre + t;
  }

  lemma SplitWhitespacePadRight(s: string)
    ensures SplitWhitespace(s + " ") == SplitWhitespace(s)
  {
    SplitAnySnoc(s, Whitespace, ' ');
    NonEmptyPiecesAppend(SplitAny(s, Whitespace), [""]);
    assert NonEmptyPieces([""]) == [];
  }

  lemma SplitWhitespacePadLeft(s: string)
    ensures SplitWhitespace(" " + s) == SplitWhitespace(s)
  {
    var u := " " + s;
    assert u[1..] == s;
    assert SplitAny(u, Whitespace) == [""] + SplitAny(s, Whitespace);
  }

  /** No blank line inside: no two newlines in a row and no newline at
      the end. */
  predicate BlankFree(a: string)
  {
    (forall i :: 0 <= i < |a| - 1 ==> !(a[i] == '\n' && a[i + 1] == '\n'))
    && (a != [] ==> a[|a| - 1] != '\n')
  }

  lemma BlankFreeDetached(a: string, t: string)
    requires BlankFree(a)
    ensures forall i :: 0 <= i < |a| ==> !StartsWith((a + "\n\n" + t)[i..], "\n\n")
  {
    var s := a + "\n\n" + t;
    forall i | 0 <= i < |a| ensures !StartsWith(s[i..], "\n\n") {
      assert s[i..][..2][0] == a[i];
      if i + 1 < |a| {
        assert s[i..][..2][1] == a[i + 1];
      }
    }
  }

  lemma BlankFreeNoOccurrence(a: string)
    requires BlankFree(a)
    ensures NoOccurrence(a, "\n\n")
  {
    forall i | 0 <= i <= |a| ensures !StartsWith(a[i..], "\n\n") {
      if i + 1 < |a| {
        assert a[i..][..2][0] == a[i] && a[i..][..2][1] == a[i + 1];
      }
    }
  }

  /** Blank-free texts split back from their blank-line join. */
  lemma {:induction false} SplitBlankJoined(texts: seq<string>)
    requires |texts| >= 1 && forall k :: 0 <= k < |texts| ==> BlankFree(texts[k])
    ensures SplitOn(Join(texts, "\n\n"), "\n\n") == texts
    decreases |texts|
  {
    if |texts| == 1 {
      BlankFreeNoOccurrence(texts[0]);
      SplitOnNoOccurrence(texts[0], "\n\n");
    } else {
      var tail := Join(texts[1..], "\n\n");
      assert Join(texts, "\n\n") == texts[0] + "\n\n" + tail;
      BlankFreeDetached(texts[0], tail);
      SplitOnCons(texts[0], tail, "\n\n");
      SplitBlankJoined(texts[1..]);
      assert [texts[0]] + texts[1..] == texts;
    }
  }

  /** Non-empty lines without newlines. */
  predicate GoodLines(lines: seq<string>)
  {
    forall j :: 0 <= j < |lines| ==> |lines[j]| > 0 && '\n' !in lines[j]
  }

  /** Non-empty lines joined by newlines never hold a blank line. */
  lemma {:induction false} JoinLinesBlankFree(lines: seq<string>)
    requires GoodLines(lines)
    ensures BlankFree(Join(lines, "\n"))
    ensures |lines| > 0 ==> |Join(lines, "\n")| > 0 && Join(lines, "\n")[0] == lines[0][0]
    decreases |lines|
  {
    if |lines| == 1 {
      assert Join(lines, "\n") == lines[0];
      forall i | 0 <= i < |lines[0]| ensures lines[0][i] != '\n' {
        assert lines[0][i] in lines[0];
      }
    } else if |lines| > 1 {
      var l0 := lines[0];
      var rest := Join(lines[1..], "\n");
      assert GoodLines(lines[1..]) by {
        forall j | 0 <= j < |lines[1..]| ensures |lines[1..][j]| > 0 && '\n' !in lines[1..][j] {
          assert lines[1..][j] == lines[j + 1];
        }
      }
      JoinLinesBlankFree(lines[1..]);
      var s := l0 + "\n" + rest;
      assert Join(lines, "\n") == s;
      forall i | 0 <= i < |l0| ensures l0[i] != '\n' {
        assert l0[i] in l0;
      }
      forall i | 0 <= i < |s| - 1 ensures !(s[i] == '\n' && s[i + 1] == '\n') {
        if i < |l0| {
          assert s[i] == l0[i];
        } else if i == |l0| {
          assert s[i + 1] == rest[0];
        } else {
          assert s[i] == rest[i - |l0| - 1] && s[i + 1] == rest[i - |l0|];
        }
      }
      assert s[|s| - 1] == rest[|rest| - 1];
    }
  }

  /** Joining newline-free, non-empty lines and splitting them into lines
      again gives the same lines. */
  lemma LinesJoin(lines: seq<string>)
    requires forall i :: 0 <= i < |lines| ==> |lines[i]| > 0 && '\n' !in lines[i]
    ensures Lines(Join(lines, "\n")) == lines
  {
    if lines == [] {
      assert Split("", '\n') == [""];
    } else {
      forall i, j | 0 <= i < |lines| && 0 <= j < |lines[i]| ensures lines[i][j] !in {'\n'} {
        assert lines[i][j] in lines[i];
      }
      SplitAnyJoin(lines, {'\n'}, '\n');
      assert Split(Join(lines, "\n"), '\n') == lines;
    }
  }

  /** No character of s is in bad. */
  predicate Avoids(s: string, bad: set<char>)
  {
    forall i :: 0 <= i < |s| ==> s[i] !in bad
  }

  lemma AvoidsConcat(a: string, b: string, bad: set<char>)
    ensures Avoids(a + b, bad) <==> Avoids(a, bad) && Avoids(b, bad)
  {
    if Avoids(a, bad) && Avoids(b, bad) {
      forall i | 0 <= i < |a + b| ensures (a + b)[i] !in bad {
        if i < |a| { assert (a + b)[i] == a[i]; } else { assert (a + b)[i] == b[i - |a|]; }
      }
    }
    if Avoids(a + b, bad) {
      forall i | 0 <= i < |a| ensures a[i] !in bad { assert (a + b)[i] == a[i]; }
      forall i | 0 <= i < |b| ensures b[i] !in bad { assert (a + b)[i + |a|] == b[i]; }
    }
  }

  lemma {:induction false} JoinAvoids(parts: seq<string>, sep: string, bad: set<char>)
    requires Avoids(sep, bad) && forall i :: 0 <= i < |parts| ==> Avoids(parts[i], bad)
    ensures Avoids(Join(parts, sep), bad)
    decreases |parts|
  {
    if |parts| > 1 {
      JoinAvoids(parts[1..], sep, bad);
      AvoidsConcat(parts[0], sep, bad);
      AvoidsConcat(parts[0] + sep, Join(parts[1..], sep), bad);
    }
  }

  /** Decimal digits are none of the punctuation the puzzle formats use. */
  lemma DigitsAvoid(s: string, bad: set<char>)
    requires AllDigits(s) && forall c :: c in bad ==> !IsDigit(c)
    ensures Avoids(s, bad)
  {
  }

  /** The tokens that parse as unsigned numbers up to max, in order; the
      others are dropped, as a filter_map over str::parse does. */
  function ParseNats(tokens: seq<string>, max: nat): (r: seq<nat>)
    ensures forall x :: x in r ==> x <= max
    ensures |r| <= |tokens|
  {
    if tokens == [] then []
    else (match ParseNat(tokens[0], max) case Some(n) => [n] case None => []) + ParseNats(tokens[1..], max)
  }

  function ShowNats(xs: seq<nat>): (r: seq<string>)
    ensures |r| == |xs|
    ensures forall i :: 0 <= i < |r| ==> |r[i]| > 0 && AllDigits(r[i])
  {
    seq(|xs|, i requires 0 <= i < |xs| => ShowNat(xs[i]))
  }

  lemma {:induction false} ParseShowNats(xs: seq<nat>, max: nat)
    requires forall x :: x in xs ==> x <= max
    ensures ParseNats(ShowNats(xs), max) == xs
    decreases |xs|
  {
    if xs != [] {
      assert xs[0] in xs;
      ParseShowNat(xs[0], max);
      assert ShowNats(xs)[1..] == ShowNats(xs[1..]);
      assert forall x :: x in xs[1..] ==> x in xs;
      ParseShowNats(xs[1..], max);
    }
  }

  /** Numbers written one per line read back as the same numbers. */
  lemma ParseNumberLines(xs: seq<nat>, max: nat)
    requires forall x :: x in xs ==> x <= max
    ensures ParseNats(Lines(Join(ShowNats(xs), "\n")), max) == xs
  {
    var ls := ShowNats(xs);
    forall i | 0 <= i < |ls| ensures |ls[i]| > 0 && '\n' !in ls[i] {
      DigitsAvoid(ls[i], {'\n'});
    }
    LinesJoin(ls);
    ParseShowNats(xs, max);
  }

  /** The elements that pass keep, in their original order. */
  function Filter<T>(xs: seq<T>, keep: T -> bool): (r: seq<T>)
    ensures forall i :: 0 <= i < |r| ==> r[i] in xs && keep(r[i])
    ensures forall i :: 0 <= i < |xs| && keep(xs[i]) ==> xs[i] in r
    ensures |r| <= |xs|
  {
    if xs == [] then []
    else
      assert forall i :: 1 <= i < |xs| ==> xs[i] == xs[1..][i - 1];
      (if keep(xs[0]) then [xs[0]] else []) + Filter(xs[1..], keep)
  }

  lemma FilterCons<T>(x: T, xs: seq<T>, keep: T -> bool)
    ensures Filter([x] + xs, keep) == (if keep(x) then [x] else []) + Filter(xs, keep)
  {
    assert ([x] + xs)[1..] == xs;
  }

  /** The values of elements that all map to Some. */
  function Values<T, U>(xs: seq<T>, f: T -> Option<U>): (r: seq<U>)
    requires forall i :: 0 <= i < |xs| ==> f(xs[i]).Some?
    ensures |r| == |xs|
    ensures forall i :: 0 <= i < |r| ==> f(xs[i]) == Some(r[i])
  {
    seq(|xs|, i requires 0 <= i < |xs| => f(xs[i]).value)
  }

  /** r is what Rust's filter_map(f) yields on xs: the values of exactly
      the elements f maps to Some, in their original order; every element
      f maps to None is dropped. */
  ghost predicate FilterMapped<T, U>(xs: seq<T>, f: T -> Option<U>, r: seq<U>)
  {
    var kept := Filter(xs, x => f(x).Some?);
    r == Values(kept, f)
  }

  /** filter_map on one more leading element: its value, if any, comes
      first. */
  lemma FilterMappedCons<T, U>(x: T, xs: seq<T>, f: T -> Option<U>, r: seq<U>)
    requires FilterMapped(xs, f, r)
    ensures FilterMapped([x] + xs, f, (match f(x) case Some(v) => [v] case None => []) + r)
  {
    FilterCons(x, xs, y => f(y).Some?);
  }

  /** str::parse into an unsigned type whose largest value is max. */
  function ParserUpTo(max: nat): string -> Option<nat>
  {
    t => ParseNat(t, max)
  }

  /** ParseNats is filter_map over ParseNat: the tokens that do not parse
      (or exceed max) are dropped, the others keep their order. */
  lemma {:induction false} ParseNatsFilterMapped(tokens: seq<string>, max: nat)
    ensures FilterMapped(tokens, ParserUpTo(max), ParseNats(tokens, max))
    decreases |tokens|
  {
    if tokens == [] {
      assert Filter(tokens, (x: string) => ParserUpTo(max)(x).Some?) == [];
    } else {
      ParseNatsFilterMapped(tokens[1..], max);
      FilterMappedCons(tokens[0], tokens[1..], ParserUpTo(max), ParseNats(tokens[1..], max));
      assert [tokens[0]] + tokens[1..] == tokens;
    }
  }

  /** Filtering a concatenation filters each part and keeps them in order. */
  lemma {:induction false} FilterAppend<T>(xs: seq<T>, ys: seq<T>, keep: T -> bool)
    ensures Filter(xs + ys, keep) == Filter(xs, keep) + Filter(ys, keep)
    decreases |xs|
  {
    if xs == [] {
      assert xs + ys == ys;
    } else {
      assert (xs + ys)[1..] == xs[1..] + ys;
      FilterAppend(xs[1..], ys, keep);
    }
  }
}
