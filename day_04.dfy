/**
 * Day 4, Passport Processing: passports are blank-line separated blocks of
 * whitespace separated `code:value` entries.  A passport is valid when the
 * seven required fields are present (cid is optional) and, with data
 * validation, when each of their values passes the field's own rule.
 */
module PassportProcessing {
  import opened Text

  datatype Field = BirthYear | IssueYear | ExpirationYear | Height | HairColor | EyeColor | PassportID | CountryID

  type Passport = map<Field, string>

  /** The three-letter code of a field. */
  function Code(f: Field): (c: string)
    ensures |c| == 3
  {
    match f
    case BirthYear => "byr"
    case IssueYear => "iyr"
    case ExpirationYear => "eyr"
    case Height => "hgt"
    case HairColor => "hcl"
    case EyeColor => "ecl"
    case PassportID => "pid"
    case CountryID => "cid"
  }

  const UnknownCode := "Unknown code found"

  /** Field::from_code: the field with this code; any other text is an
      error. */
  function FromCode(code: string): (r: Result<Field>)
    ensures r.Err? ==> r.error == UnknownCode
  {
    if code == "byr" then Ok(BirthYear)
    else if code == "iyr" then Ok(IssueYear)
    else if code == "eyr" then Ok(ExpirationYear)
    else if code == "hgt" then Ok(Height)
    else if code == "hcl" then Ok(HairColor)
    else if code == "ecl" then Ok(EyeColor)
    else if code == "pid" then Ok(PassportID)
    else if code == "cid" then Ok(CountryID)
    else Err(UnknownCode)
  }

  /** Codes and fields correspond one to one. */
  lemma CodeRoundTrip(f: Field, code: string)
    ensures FromCode(Code(f)) == Ok(f)
    ensures FromCode(code).Ok? ==> Code(FromCode(code).value) == code
  {
  }

  // Reading a passport

  /** The message of the failed assertion that the code is followed by ':'. */
  const ColonMissing := "assertion `left == right` failed"

  /** One entry: the first three characters name the field, the fourth
      must be ':', the rest is the value. */
  function EntryOf(entry: string): (r: Result<(Field, string)>)
    ensures r.Ok? <==> |entry| >= 4 && FromCode(entry[..3]).Ok? && entry[3] == ':'
    ensures r.Ok? ==> Code(r.value.0) == entry[..3] && r.value.1 == entry[4..]
    ensures (|entry| < 3 || FromCode(entry[..3]).Err?) ==> r == Err(UnknownCode)
    ensures r.Err? ==> r.error in {UnknownCode, ColonMissing}
  {
    var code := if |entry| < 3 then entry else entry[..3];
    match FromCode(code)
    case Err(e) => Err(e)
    case Ok(field) =>
      CodeRoundTrip(field, code);
      if |entry| < 4 || entry[3] != ':' then Err(ColonMissing) else Ok((field, entry[4..]))
  }

  /** The passport the entries build when inserted in order, a later entry
      for a field replacing an earlier one; the first bad entry stops it. */
  function PassportOf(entries: seq<string>): Result<Passport>
    decreases |entries|
  {
    if entries == [] then Ok(map[])
    else
      match PassportOf(entries[..|entries| - 1])
      case Err(e) => Err(e)
      case Ok(p) =>
        match EntryOf(entries[|entries| - 1])
        case Err(e) => Err(e)
        case Ok(fv) => Ok(p[fv.0 := fv.1])
  }

  /** Entry i is well formed and names field f. */
  predicate EntryFor(entries: seq<string>, i: nat, f: Field)
    requires i < |entries|
  {
    EntryOf(entries[i]).Ok? && EntryOf(entries[i]).value.0 == f
  }

  /** A passport is read exactly when every entry is well formed. */
  lemma {:induction false} PassportOfOk(entries: seq<string>)
    ensures PassportOf(entries).Ok? <==> forall i :: 0 <= i < |entries| ==> EntryOf(entries[i]).Ok?
    decreases |entries|
  {
    if entries != [] {
      var n := |entries| - 1;
      PassportOfOk(entries[..n]);
      assert forall i :: 0 <= i < n ==> entries[..n][i] == entries[i];
    }
  }

  /** A passport holds exactly the fields its entries name. */
  lemma {:induction false} PassportOfFields(entries: seq<string>)
    requires PassportOf(entries).Ok?
    ensures forall f :: f in PassportOf(entries).value <==> exists i :: 0 <= i < |entries| && EntryFor(entries, i, f)
    decreases |entries|
  {
    if entries != [] {
      var n := |entries| - 1;
      var init := entries[..n];
      PassportOfFields(init);
      assert forall i :: 0 <= i < n ==> init[i] == entries[i];
      var p, q := PassportOf(entries).value, PassportOf(init).value;
      var fv := EntryOf(entries[n]).value;
      assert p == q[fv.0 := fv.1];
      assert EntryFor(entries, n, fv.0);
      forall f ensures f in p <==> exists i :: 0 <= i < |entries| && EntryFor(entries, i, f) {
        if f in p && f != fv.0 {
          var i :| 0 <= i < n && EntryFor(init, i, f);
          assert EntryFor(entries, i, f);
        }
        if exists i :: 0 <= i < |entries| && EntryFor(entries, i, f) {
          var i :| 0 <= i < |entries| && EntryFor(entries, i, f);
          if i < n { assert EntryFor(init, i, f); }
        }
      }
    }
  }

  /** Each field holds the value of the last entry that names it. */
  lemma {:induction false} PassportOfValue(entries: seq<string>, f: Field)
    requires PassportOf(entries).Ok? && f in PassportOf(entries).value
    ensures exists i :: (0 <= i < |entries| && EntryOf(entries[i]) == Ok((f, PassportOf(entries).value[f]))
      && forall j :: i < j < |entries| ==> !EntryFor(entries, j, f))
    decreases |entries|
  {
    var n := |entries| - 1;
    var init := entries[..n];
    var p, q := PassportOf(entries).value, PassportOf(init).value;
    var fv := EntryOf(entries[n]).value;
    assert p == q[fv.0 := fv.1];
    if f == fv.0 {
      assert EntryOf(entries[n]) == Ok((f, p[f]));
    } else {
      PassportOfValue(init, f);
      var i :| 0 <= i < n && EntryOf(init[i]) == Ok((f, q[f]))
        && forall j :: i < j < n ==> !EntryFor(init, j, f);
      assert entries[i] == init[i];
      forall j | i < j < |entries| ensures !EntryFor(entries, j, f) {
        if j < n { assert !EntryFor(init, j, f) && init[j] == entries[j]; }
      }
    }
  }

  /** Once an entry fails, later entries change nothing. */
  lemma {:induction false} PassportOfErrStays(entries: seq<string>, i: nat)
    requires i <= |entries| && PassportOf(entries[..i]).Err?
    ensures PassportOf(entries) == PassportOf(entries[..i])
    decreases |entries| - i
  {
    if i < |entries| {
      assert entries[..i + 1][..i] == entries[..i];
      PassportOfErrStays(entries, i + 1);
    } else {
      assert entries[..i] == entries;
    }
  }

  /** One more entry: inserted when well formed, else its error. */
  lemma PassportOfStep(entries: seq<string>, i: nat, p: Passport)
    requires i < |entries| && PassportOf(entries[..i]) == Ok(p)
    ensures PassportOf(entries[..i + 1]) ==
      match EntryOf(entries[i]) case Err(e) => Err(e) case Ok(fv) => Ok(p[fv.0 := fv.1])
  {
    assert entries[..i + 1][..i] == entries[..i];
  }

  /** convert_to_passport: the entries of the block inserted one by one
      into an initially empty passport. */
  method ConvertToPassport(block: string) returns (r: Result<Passport>)
    ensures r == BlockPassport(block)
  {
    var entries := SplitWhitespace(block);
    var passport: Passport := map[];
    var i := 0;
    while i < |entries|
      invariant 0 <= i <= |entries|
      invariant PassportOf(entries[..i]) == Ok(passport)
    {
      var entry := entries[i];
      var code := if |entry| < 3 then entry else entry[..3];
      var field := FromCode(code);
      PassportOfStep(entries, i, passport);
      if field.Err? {
        PassportOfErrStays(entries, i + 1);
        return Err(field.error);
      }
      if |entry| < 4 || entry[3] != ':' {
        PassportOfErrStays(entries, i + 1);
        return Err(ColonMissing);
      }
      passport := passport[field.value := entry[4..]];
      i := i + 1;
    }
    assert entries[..i] == entries;
    return Ok(passport);
  }

  /** The passport of one block. */
  function BlockPassport(block: string): Result<Passport>
  {
    PassportOf(SplitWhitespace(block))
  }

  /** The passports of the blocks in order; the first bad block is the
      error. */
  function ParseBlocks(blocks: seq<string>): (r: Result<seq<Passport>>)
    ensures r.Ok? <==> forall i :: 0 <= i < |blocks| ==> BlockPassport(blocks[i]).Ok?
    ensures r.Ok? ==> |r.value| == |blocks|
    ensures r.Ok? ==> forall i :: 0 <= i < |blocks| ==> r.value[i] == BlockPassport(blocks[i]).value
  {
    if blocks == [] then Ok([])
    else
      assert forall i :: 0 < i < |blocks| ==> blocks[1..][i - 1] == blocks[i];
      match BlockPassport(blocks[0])
      case Err(e) => Err(e)
      case Ok(p) =>
        match ParseBlocks(blocks[1..])
        case Err(e) => Err(e)
        case Ok(ps) => Ok([p] + ps)
  }

  /** parse_passports: one passport per blank-line separated block. */
  function ParsePassports(input: string): Result<seq<Passport>>
  {
    ParseBlocks(SplitOn(input, "\n\n"))
  }

  // Validation

  const RequiredFields: seq<Field> := [BirthYear, IssueYear, ExpirationYear, Height, HairColor, EyeColor, PassportID]

  /** valid_year: the value must read as a u16, else the source panics;
      then it must lie in [min, max]. */
  function ValidYear(year: string, min: nat, max: nat): (r: Result<bool>)
    ensures r.Err? <==> ParseNat(year, U16_MAX).None?
    ensures r.Err? ==> r.error == "Year was not a number"
    ensures r.Ok? ==> (r.value <==> min <= ParseNat(year, U16_MAX).value <= max)
  {
    match ParseNat(year, U16_MAX)
    case None => Err("Year was not a number")
    case Some(n) => Ok(min <= n <= max)
  }

  /** valid_height: one or more digits, then "cm" for 150 to 193 or "in"
      for 59 to 76; digits past a u16 fail. */
  function ValidHeight(height: string): (r: bool)
    ensures r <==> (|height| >= 3 && AllDigits(height[..|height| - 2])
      && ((height[|height| - 2..] == "cm" && 150 <= DigitsValue(height[..|height| - 2]) <= 193)
        || (height[|height| - 2..] == "in" && 59 <= DigitsValue(height[..|height| - 2]) <= 76)))
  {
    if |height| < 3 then false
    else
      var number, unit := height[..|height| - 2], height[|height| - 2..];
      if !AllDigits(number) || (unit != "cm" && unit != "in") then false
      else
        match ParseNat(number, U16_MAX)
        case None => false
        case Some(n) => if unit == "cm" then 150 <= n <= 193 else 59 <= n <= 76
  }

  predicate IsLowerHex(c: char)
  {
    '0' <= c <= '9' || 'a' <= c <= 'f'
  }

  /** The anchored regex tail "[class]{k}$" matched from position i: k
      characters of the class, one after another, and then the end of the
      text. */
  function ClassRunToEnd(s: string, i: nat, k: nat, inClass: char -> bool): (r: bool)
    ensures r <==> |s| == i + k && forall j :: i <= j < |s| ==> inClass(s[j])
    decreases k
  {
    if k == 0 then i == |s|
    else i < |s| && inClass(s[i]) && ClassRunToEnd(s, i + 1, k - 1, inClass)
  }

  /** valid_hair_color: the regex ^#[0-9a-f]{6}$, matched from the start. */
  function ValidHairColor(color: string): (r: bool)
    ensures r <==> |color| == 7 && color[0] == '#' && forall i :: 1 <= i < 7 ==> IsLowerHex(color[i])
  {
    |color| > 0 && color[0] == '#' && ClassRunToEnd(color, 1, 6, IsLowerHex)
  }

  const EyeColors: set<string> := {"amb", "blu", "brn", "gry", "grn", "hzl", "oth"}

  /** valid_eye_color: membership in the set of the seven colour codes. */
  function ValidEyeColor(color: string): (r: bool)
    ensures r <==> (color == "amb" || color == "blu" || color == "brn" || color == "gry"
                    || color == "grn" || color == "hzl" || color == "oth")
    ensures r ==> |color| == 3
  {
    color in EyeColors
  }

  /** valid_passport_id: the regex ^[0-9]{9}$, matched from the start. */
  function ValidPassportId(id: string): (r: bool)
    ensures r <==> |id| == 9 && AllDigits(id)
  {
    ClassRunToEnd(id, 0, 9, IsDigit)
  }

  /** The last k decimal digits of n, most significant first, with leading
      zeroes. */
  function Padded(n: nat, k: nat): (s: string)
    ensures |s| == k && AllDigits(s)
  {
    if k == 0 then [] else Padded(n / 10, k - 1) + [DigitChar(n % 10)]
  }

  function Pow10(k: nat): (r: nat)
    ensures r >= 1
  {
    if k == 0 then 1 else 10 * Pow10(k - 1)
  }

  /** k digits hold the numbers below 10^k. */
  lemma {:induction false} DigitsBelow(s: string)
    requires AllDigits(s)
    ensures DigitsValue(s) < Pow10(|s|)
    decreases |s|
  {
    if s != [] {
      DigitsBelow(s[..|s| - 1]);
    }
  }

  /** A run of digits is the padded form of its value. */
  lemma {:induction false} PaddedDigits(s: string)
    requires AllDigits(s)
    ensures Padded(DigitsValue(s), |s|) == s
    decreases |s|
  {
    if s != [] {
      var init, last := s[..|s| - 1], s[|s| - 1];
      var n := DigitsValue(s);
      assert n == DigitsValue(init) * 10 + DigitValue(last);
      assert n / 10 == DigitsValue(init) && n % 10 == DigitValue(last);
      PaddedDigits(init);
      assert DigitChar(DigitValue(last)) == last;
      assert s == init + [last];
    }
  }

  /** A passport ID is valid exactly when it is some number below 10^9
      written with nine digits, leading zeroes included. */
  lemma PassportIdIsPaddedNumber(id: string)
    ensures ValidPassportId(id) <==> exists n :: n < 1000000000 && id == Padded(n, 9)
  {
    if ValidPassportId(id) {
      DigitsBelow(id);
      PaddedDigits(id);
      assert Pow10(9) == 1000000000;
      assert DigitsValue(id) < 1000000000 && id == Padded(DigitsValue(id), 9);
    }
  }

  /** The validator required_validations pairs with each field; cid has
      none. */
  function Validate(f: Field, value: string): (r: Result<bool>)
    ensures r.Err? ==> f in {BirthYear, IssueYear, ExpirationYear} && ParseNat(value, U16_MAX).None?
  {
    match f
    case BirthYear => ValidYear(value, 1920, 2002)
    case IssueYear => ValidYear(value, 2010, 2020)
    case ExpirationYear => ValidYear(value, 2020, 2030)
    case Height => Ok(ValidHeight(value))
    case HairColor => Ok(ValidHairColor(value))
    case EyeColor => Ok(ValidEyeColor(value))
    case PassportID => Ok(ValidPassportId(value))
    case CountryID => Ok(true)
  }

  /** The fields checked in order, stopping at the first that fails:
      present, and with data validation also passing its validator. */
  function CheckFields(p: Passport, fields: seq<Field>, validateData: bool): Result<bool>
  {
    if fields == [] then Ok(true)
    else if fields[0] !in p then Ok(false)
    else if !validateData then CheckFields(p, fields[1..], validateData)
    else
      match Validate(fields[0], p[fields[0]])
      case Err(e) => Err(e)
      case Ok(ok) => if ok then CheckFields(p, fields[1..], validateData) else Ok(false)
  }

  /** valid_passport. */
  function ValidPassport(p: Passport, validateData: bool): Result<bool>
  {
    CheckFields(p, RequiredFields, validateData)
  }

  lemma {:induction false} CheckPresence(p: Passport, fields: seq<Field>)
    ensures CheckFields(p, fields, false) == Ok(forall i :: 0 <= i < |fields| ==> fields[i] in p)
  {
    if fields != [] {
      CheckPresence(p, fields[1..]);
      assert forall i :: 0 < i < |fields| ==> fields[1..][i - 1] == fields[i];
    }
  }

  /** Without data validation a passport is valid exactly when byr, iyr,
      eyr, hgt, hcl, ecl and pid are all present. */
  lemma PresenceValidity(p: Passport)
    ensures ValidPassport(p, false) == Ok(BirthYear in p && IssueYear in p && ExpirationYear in p
      && Height in p && HairColor in p && EyeColor in p && PassportID in p)
  {
    CheckPresence(p, RequiredFields);
    var r := RequiredFields;
    assert r[0] == BirthYear && r[1] == IssueYear && r[2] == ExpirationYear && r[3] == Height;
    assert r[4] == HairColor && r[5] == EyeColor && r[6] == PassportID;
  }

  lemma {:induction false} CheckData(p: Passport, fields: seq<Field>)
    ensures CheckFields(p, fields, true) == Ok(true) <==>
      forall i :: 0 <= i < |fields| ==> fields[i] in p && Validate(fields[i], p[fields[i]]) == Ok(true)
  {
    if fields != [] {
      CheckData(p, fields[1..]);
      assert forall i :: 0 < i < |fields| ==> fields[1..][i - 1] == fields[i];
    }
  }

  /** With data validation a passport is valid exactly when every required
      field is present and passes its validator; so a data-valid passport
      is also valid by presence. */
  lemma DataValidity(p: Passport)
    ensures ValidPassport(p, true) == Ok(true) <==>
      forall i :: 0 <= i < |RequiredFields| ==> (RequiredFields[i] in p
        && Validate(RequiredFields[i], p[RequiredFields[i]]) == Ok(true))
    ensures ValidPassport(p, true) == Ok(true) ==> ValidPassport(p, false) == Ok(true)
  {
    CheckData(p, RequiredFields);
    CheckPresence(p, RequiredFields);
  }

  lemma {:induction false} CheckError(p: Passport, fields: seq<Field>, validateData: bool)
    ensures CheckFields(p, fields, validateData).Err? ==> validateData && exists i ::
      0 <= i < |fields| && fields[i] in p && fields[i] in {BirthYear, IssueYear, ExpirationYear}
        && ParseNat(p[fields[i]], U16_MAX).None?
  {
    if fields != [] {
      CheckError(p, fields[1..], validateData);
      if CheckFields(p, fields, validateData).Err? && Validate(fields[0], p[fields[0]]).Ok? {
        var i :| 0 <= i < |fields[1..]| && fields[1..][i] in p
          && fields[1..][i] in {BirthYear, IssueYear, ExpirationYear} && ParseNat(p[fields[1..][i]], U16_MAX).None?;
        assert fields[i + 1] == fields[1..][i];
      }
    }
  }

  /** The validation fails only with data validation, on a year field whose
      value is not a u16 number. */
  lemma ValidPassportError(p: Passport, validateData: bool)
    ensures ValidPassport(p, validateData).Err? ==> validateData && exists f ::
      f in {BirthYear, IssueYear, ExpirationYear} && f in p && ParseNat(p[f], U16_MAX).None?
  {
    CheckError(p, RequiredFields, validateData);
  }

  lemma {:induction false} CheckAgree(p: Passport, q: Passport, fields: seq<Field>, validateData: bool)
    requires forall f :: f in fields ==> (f in p <==> f in q) && (f in p ==> p[f] == q[f])
    ensures CheckFields(p, fields, validateData) == CheckFields(q, fields, validateData)
  {
    if fields != [] {
      assert forall f :: f in fields[1..] ==> f in fields;
      CheckAgree(p, q, fields[1..], validateData);
    }
  }

  /** cid is never required: adding or removing it changes no verdict. */
  lemma CountryIdIgnored(p: Passport, value: string, validateData: bool)
    ensures ValidPassport(p[CountryID := value], validateData) == ValidPassport(p, validateData)
    ensures ValidPassport(p - {CountryID}, validateData) == ValidPassport(p, validateData)
  {
    CheckAgree(p[CountryID := value], p, RequiredFields, validateData);
    CheckAgree(p - {CountryID}, p, RequiredFields, validateData);
  }

  /** A year written in decimal reads back: within u16 the check is the
      range test on that number, and past u16 it is the parse panic. */
  lemma ValidYearOfNumber(n: nat, min: nat, max: nat)
    ensures ValidYear(ShowNat(n), min, max) ==
      if n <= U16_MAX then Ok(min <= n <= max) else Err("Year was not a number")
  {
    ShowNatValue(n);
  }

  /** A character other than a digit, or than the one leading sign, makes
      the year panic whatever its bounds. */
  lemma ValidYearNonDigit(year: string, min: nat, max: nat, i: nat)
    requires i < |year| && !IsDigit(year[i]) && (i > 0 || year[i] != '+')
    ensures ValidYear(year, min, max) == Err("Year was not a number")
  {
    if year[0] == '+' {
      assert year[1..][i - 1] == year[i];
    }
  }

  // The puzzle's validator examples

  lemma YearExamples()
    ensures ValidYear("2002", 1920, 2002) == Ok(true)
    ensures ValidYear("2003", 1920, 2002) == Ok(false)
  {
    assert "2002"[..3] == "200" && "200"[..2] == "20" && "20"[..1] == "2";
    assert DigitsValue("2002") == 2002;
    assert "2003"[..3] == "200";
    assert DigitsValue("2003") == 2003;
  }

  lemma HeightExamples()
    ensures ValidHeight("60in") && ValidHeight("190cm")
    ensures !ValidHeight("190in") && !ValidHeight("190")
  {
    assert "60in"[..2] == "60" && "60in"[2..] == "in" && DigitsValue("60") == 60;
    assert "190cm"[..3] == "190" && "190cm"[3..] == "cm" && DigitsValue("190") == 190;
    assert "190in"[..3] == "190" && "190in"[3..] == "in";
    assert "190"[1..] == "90";
  }

  lemma ColorAndIdExamples()
    ensures ValidHairColor("#123abc") && !ValidHairColor("#123abz") && !ValidHairColor("123abc")
    ensures ValidEyeColor("brn") && !ValidEyeColor("wat")
    ensures ValidPassportId("000000001") && !ValidPassportId("0123456789")
  {
    assert !IsLowerHex("#123abz"[6]);
  }

  // Reading back written passports

  /** A value that fits in an entry: no whitespace. */
  predicate Plain(v: string)
  {
    forall j :: 0 <= j < |v| ==> v[j] !in Whitespace
  }

  function ShowEntry(entry: (Field, string)): string
  {
    Code(entry.0) + ":" + entry.1
  }

  function ShowEntries(entries: seq<(Field, string)>): (r: seq<string>)
    ensures |r| == |entries|
  {
    seq(|entries|, i requires 0 <= i < |entries| => ShowEntry(entries[i]))
  }

  /** A block written as lines of space separated entries. */
  function ShowBlock(lines: seq<seq<(Field, string)>>): string
  {
    Join(seq(|lines|, i requires 0 <= i < |lines| => Join(ShowEntries(lines[i]), " ")), "\n")
  }

  function Flatten(lines: seq<seq<(Field, string)>>): seq<(Field, string)>
  {
    if lines == [] then [] else lines[0] + Flatten(lines[1..])
  }

  /** The map the pairs build when inserted in order. */
  function MapOf(entries: seq<(Field, string)>): Passport
  {
    if entries == [] then map[] else MapOf(entries[..|entries| - 1])[entries[|entries| - 1].0 := entries[|entries| - 1].1]
  }

  lemma MapOfSnoc(entries: seq<(Field, string)>, e: (Field, string))
    ensures MapOf(entries + [e]) == MapOf(entries)[e.0 := e.1]
  {
    assert (entries + [e])[..|entries|] == entries;
  }

  predicate GoodBlock(lines: seq<seq<(Field, string)>>)
  {
    |lines| > 0 && forall i :: 0 <= i < |lines| ==> |lines[i]| > 0 && forall j :: 0 <= j < |lines[i]| ==> Plain(lines[i][j].1)
  }

  lemma EntryOfShown(entry: (Field, string))
    ensures EntryOf(ShowEntry(entry)) == Ok(entry)
  {
    var e := ShowEntry(entry);
    assert e[..3] == Code(entry.0) && e[3] == ':' && e[4..] == entry.1;
    CodeRoundTrip(entry.0, e[..3]);
  }

  lemma {:induction false} PassportOfShown(entries: seq<(Field, string)>)
    ensures PassportOf(ShowEntries(entries)) == Ok(MapOf(entries))
    decreases |entries|
  {
    if entries != [] {
      var n := |entries| - 1;
      assert ShowEntries(entries)[..n] == ShowEntries(entries[..n]);
      PassportOfShown(entries[..n]);
      EntryOfShown(entries[n]);
    }
  }

  /** Written entries contain no whitespace. */
  lemma ShownEntryPlain(entry: (Field, string))
    requires Plain(entry.1)
    ensures |ShowEntry(entry)| > 0 && Plain(ShowEntry(entry))
  {
    var e := ShowEntry(entry);
    forall j | 0 <= j < |e| ensures e[j] !in Whitespace {
      if j >= 4 { assert e[j] == entry.1[j - 4]; }
    }
  }

  lemma SplitShownLine(line: seq<(Field, string)>)
    requires |line| > 0 && forall j :: 0 <= j < |line| ==> Plain(line[j].1)
    ensures SplitWhitespace(Join(ShowEntries(line), " ")) == ShowEntries(line)
  {
    var ts := ShowEntries(line);
    forall i | 0 <= i < |ts| ensures |ts[i]| > 0 && Plain(ts[i]) {
      ShownEntryPlain(line[i]);
    }
    SplitWhitespaceJoin(ts);
  }

  lemma ShowEntriesAppend(a: seq<(Field, string)>, b: seq<(Field, string)>)
    ensures ShowEntries(a + b) == ShowEntries(a) + ShowEntries(b)
  {
  }

  /** The words of a written block are its entries, line after line. */
  lemma {:induction false} SplitShownBlock(lines: seq<seq<(Field, string)>>)
    requires GoodBlock(lines)
    ensures SplitWhitespace(ShowBlock(lines)) == ShowEntries(Flatten(lines))
    decreases |lines|
  {
    var first := Join(ShowEntries(lines[0]), " ");
    SplitShownLine(lines[0]);
    if |lines| == 1 {
      assert ShowBlock(lines) == first;
      assert Flatten(lines) == lines[0] + [];
    } else {
      var rest := lines[1..];
      assert GoodBlock(rest) by {
        forall i | 0 <= i < |rest| ensures |rest[i]| > 0 && forall j :: 0 <= j < |rest[i]| ==> Plain(rest[i][j].1) {
          assert rest[i] == lines[i + 1];
        }
      }
      SplitShownBlock(rest);
      var texts := seq(|lines|, i requires 0 <= i < |lines| => Join(ShowEntries(lines[i]), " "));
      assert texts[1..] == seq(|rest|, i requires 0 <= i < |rest| => Join(ShowEntries(rest[i]), " "));
      assert ShowBlock(lines) == first + "\n" + ShowBlock(rest);
      SplitWhitespaceConcat(first, '\n', ShowBlock(rest));
      ShowEntriesAppend(lines[0], Flatten(rest));
    }
  }

  /** A written block holds no blank line. */
  lemma ShownBlockBlankFree(lines: seq<seq<(Field, string)>>)
    requires GoodBlock(lines)
    ensures BlankFree(ShowBlock(lines))
  {
    var texts := seq(|lines|, i requires 0 <= i < |lines| => Join(ShowEntries(lines[i]), " "));
    forall i | 0 <= i < |texts| ensures |texts[i]| > 0 && '\n' !in texts[i] {
      SplitShownLine(lines[i]);
      var ts := ShowEntries(lines[i]);
      forall k | 0 <= k < |ts| ensures |ts[k]| > 0 && Plain(ts[k]) { ShownEntryPlain(lines[i][k]); }
      JoinPlain(ts);
    }
    JoinLinesBlankFree(texts);
  }

  /** Plain words joined by spaces: non-empty and without a newline. */
  lemma {:induction false} JoinPlain(ts: seq<string>)
    requires |ts| > 0 && forall k :: 0 <= k < |ts| ==> |ts[k]| > 0 && Plain(ts[k])
    ensures |Join(ts, " ")| > 0 && '\n' !in Join(ts, " ")
    decreases |ts|
  {
    if |ts| > 1 {
      assert forall k :: 0 <= k < |ts| - 1 ==> ts[1..][k] == ts[k + 1];
      JoinPlain(ts[1..]);
    }
  }

  /** The passports written out as blocks. */
  function ShowPassports(blocks: seq<seq<seq<(Field, string)>>>): string
  {
    Join(seq(|blocks|, i requires 0 <= i < |blocks| => ShowBlock(blocks[i])), "\n\n")
  }

  /** Passports written as blank-line separated blocks of entries read
      back as the maps their entries build. */
  lemma ParseShownPassports(blocks: seq<seq<seq<(Field, string)>>>)
    requires |blocks| > 0 && forall i :: 0 <= i < |blocks| ==> GoodBlock(blocks[i])
    ensures ParsePassports(ShowPassports(blocks)).Ok?
    ensures |ParsePassports(ShowPassports(blocks)).value| == |blocks|
    ensures forall i :: 0 <= i < |blocks| ==> ParsePassports(ShowPassports(blocks)).value[i] == MapOf(Flatten(blocks[i]))
  {
    var texts := seq(|blocks|, i requires 0 <= i < |blocks| => ShowBlock(blocks[i]));
    forall i | 0 <= i < |texts| ensures BlankFree(texts[i]) && BlockPassport(texts[i]) == Ok(MapOf(Flatten(blocks[i]))) {
      ShownBlockBlankFree(blocks[i]);
      SplitShownBlock(blocks[i]);
      PassportOfShown(Flatten(blocks[i]));
    }
    SplitBlankJoined(texts);
  }

  // The passports of the puzzle's example

  function ExamplePassports(): seq<Passport>
  {
    [
      map[EyeColor := "gry", PassportID := "860033327", ExpirationYear := "2020", HairColor := "#fffffd", BirthYear := "1937", IssueYear := "2017", CountryID := "147", Height := "183cm"],
      map[IssueYear := "2013", EyeColor := "amb", CountryID := "350", ExpirationYear := "2023", PassportID := "028048884", HairColor := "#cfa07d", BirthYear := "1929"],
      map[HairColor := "#ae17e1", IssueYear := "2013", ExpirationYear := "2024", EyeColor := "brn", PassportID := "760753108", BirthYear := "1931", Height := "179cm"]
    ]
  }

  /** The example's three blocks, line by line, entry by entry. */
  function ExampleBlocks(): seq<seq<seq<(Field, string)>>>
  {
    [
      [[(EyeColor, "gry"), (PassportID, "860033327"), (ExpirationYear, "2020"), (HairColor, "#fffffd")],
       [(BirthYear, "1937"), (IssueYear, "2017"), (CountryID, "147"), (Height, "183cm")]],
      [[(IssueYear, "2013"), (EyeColor, "amb"), (CountryID, "350"), (ExpirationYear, "2023"), (PassportID, "028048884")],
       [(HairColor, "#cfa07d"), (BirthYear, "1929")]],
      [[(HairColor, "#ae17e1"), (IssueYear, "2013")],
       [(ExpirationYear, "2024")],
       [(EyeColor, "brn"), (PassportID, "760753108"), (BirthYear, "1931")],
       [(Height, "179cm")]]
    ]
  }

  lemma MapOfPrefix(entries: seq<(Field, string)>, k: nat)
    requires 0 < k <= |entries|
    ensures MapOf(entries[..k]) == MapOf(entries[..k - 1])[entries[k - 1].0 := entries[k - 1].1]
  {
    assert entries[..k][..k - 1] == entries[..k - 1];
  }

  /** Entries inserted in order: a later key overrides an earlier one. */
  lemma {:induction false} MapOfAppend(xs: seq<(Field, string)>, ys: seq<(Field, string)>)
    ensures MapOf(xs + ys) == MapOf(xs) + MapOf(ys)
    decreases |ys|
  {
    if ys == [] {
      assert xs + ys == xs;
    } else {
      var init, e := ys[..|ys| - 1], ys[|ys| - 1];
      assert ys == init + [e];
      assert xs + ys == (xs + init) + [e];
      MapOfSnoc(xs + init, e);
      MapOfSnoc(init, e);
      MapOfAppend(xs, init);
    }
  }

  lemma MapOfFour(a: (Field, string), b: (Field, string), c: (Field, string), d: (Field, string))
    ensures MapOf([a, b, c, d]) == map[a.0 := a.1][b.0 := b.1][c.0 := c.1][d.0 := d.1]
  {
    MapOfPrefix([a, b, c, d], 4);
    MapOfPrefix([a, b, c, d], 3);
    MapOfPrefix([a, b, c, d], 2);
    MapOfPrefix([a, b, c, d], 1);
    assert [a, b, c, d][..0] == [];
  }

  lemma MapOfThree(a: (Field, string), b: (Field, string), c: (Field, string))
    ensures MapOf([a, b, c]) == map[a.0 := a.1][b.0 := b.1][c.0 := c.1]
  {
    MapOfPrefix([a, b, c], 3);
    MapOfPrefix([a, b, c], 2);
    MapOfPrefix([a, b, c], 1);
    assert [a, b, c][..0] == [];
  }

  /** Printable ASCII other than the space is never whitespace. */
  lemma VisiblePlain(v: string)
    requires forall j :: 0 <= j < |v| ==> '!' <= v[j] <= '~'
    ensures Plain(v)
  {
    assert forall c :: c in Whitespace ==> !('!' <= c <= '~');
  }

  lemma ExampleBlockOneGood()
    ensures GoodBlock(ExampleBlocks()[0])
  {
    var b: seq<seq<(Field, string)>> := ExampleBlocks()[0];
    forall i, j | 0 <= i < |b| && 0 <= j < |b[i]| ensures Plain(b[i][j].1) {
      VisiblePlain(b[i][j].1);
    }
  }

  lemma ExampleBlockOneFlat()
    ensures Flatten(ExampleBlocks()[0]) == [(EyeColor, "gry"), (PassportID, "860033327"), (ExpirationYear, "2020"), (HairColor, "#fffffd"), (BirthYear, "1937"), (IssueYear, "2017"), (CountryID, "147"), (Height, "183cm")]
  {
    var b := ExampleBlocks()[0];
    assert Flatten(b[1..]) == b[1];
  }

  lemma ExampleBlockOneMap()
    ensures MapOf([(EyeColor, "gry"), (PassportID, "860033327"), (ExpirationYear, "2020"), (HairColor, "#fffffd"), (BirthYear, "1937"), (IssueYear, "2017"), (CountryID, "147"), (Height, "183cm")]) == ExamplePassports()[0]
  {
    var xs := [(EyeColor, "gry"), (PassportID, "860033327"), (ExpirationYear, "2020"), (HairColor, "#fffffd")];
    var ys := [(BirthYear, "1937"), (IssueYear, "2017"), (CountryID, "147"), (Height, "183cm")];
    MapOfAppend(xs, ys);
    MapOfFour(xs[0], xs[1], xs[2], xs[3]);
    MapOfFour(ys[0], ys[1], ys[2], ys[3]);
    assert xs + ys == [(EyeColor, "gry"), (PassportID, "860033327"), (ExpirationYear, "2020"), (HairColor, "#fffffd"), (BirthYear, "1937"), (IssueYear, "2017"), (CountryID, "147"), (Height, "183cm")];
    var m := MapOf(xs) + MapOf(ys);
    assert m.Keys == ExamplePassports()[0].Keys;
    assert forall f :: f in m ==> m[f] == ExamplePassports()[0][f];
  }

  /** Block 1 of the example is well formed and builds passport 1. */
  lemma ExampleBlockOne()
    ensures GoodBlock(ExampleBlocks()[0])
    ensures MapOf(Flatten(ExampleBlocks()[0])) == ExamplePassports()[0]
  {
    ExampleBlockOneGood();
    ExampleBlockOneFlat();
    ExampleBlockOneMap();
  }

  lemma ExampleBlockTwoGood()
    ensures GoodBlock(ExampleBlocks()[1])
  {
    var b: seq<seq<(Field, string)>> := ExampleBlocks()[1];
    forall i, j | 0 <= i < |b| && 0 <= j < |b[i]| ensures Plain(b[i][j].1) {
      VisiblePlain(b[i][j].1);
    }
  }

  lemma ExampleBlockTwoFlat()
    ensures Flatten(ExampleBlocks()[1]) == [(IssueYear, "2013"), (EyeColor, "amb"), (CountryID, "350"), (ExpirationYear, "2023"), (PassportID, "028048884"), (HairColor, "#cfa07d"), (BirthYear, "1929")]
  {
    var b := ExampleBlocks()[1];
    assert Flatten(b[1..]) == b[1];
  }

  lemma ExampleBlockTwoMap()
    ensures MapOf([(IssueYear, "2013"), (EyeColor, "amb"), (CountryID, "350"), (ExpirationYear, "2023"), (PassportID, "028048884"), (HairColor, "#cfa07d"), (BirthYear, "1929")]) == ExamplePassports()[1]
  {
    var xs := [(IssueYear, "2013"), (EyeColor, "amb"), (CountryID, "350"), (ExpirationYear, "2023")];
    var ys := [(PassportID, "028048884"), (HairColor, "#cfa07d"), (BirthYear, "1929")];
    MapOfAppend(xs, ys);
    MapOfFour(xs[0], xs[1], xs[2], xs[3]);
    MapOfThree(ys[0], ys[1], ys[2]);
    assert xs + ys == [(IssueYear, "2013"), (EyeColor, "amb"), (CountryID, "350"), (ExpirationYear, "2023"), (PassportID, "028048884"), (HairColor, "#cfa07d"), (BirthYear, "1929")];
    var m := MapOf(xs) + MapOf(ys);
    assert m.Keys == ExamplePassports()[1].Keys;
    assert forall f :: f in m ==> m[f] == ExamplePassports()[1][f];
  }

  /** Block 2 of the example is well formed and builds passport 2. */
  lemma ExampleBlockTwo()
    ensures GoodBlock(ExampleBlocks()[1])
    ensures MapOf(Flatten(ExampleBlocks()[1])) == ExamplePassports()[1]
  {
    ExampleBlockTwoGood();
    ExampleBlockTwoFlat();
    ExampleBlockTwoMap();
  }

  lemma ExampleBlockThreeGood()
    ensures GoodBlock(ExampleBlocks()[2])
  {
    var b: seq<seq<(Field, string)>> := ExampleBlocks()[2];
    forall i, j | 0 <= i < |b| && 0 <= j < |b[i]| ensures Plain(b[i][j].1) {
      VisiblePlain(b[i][j].1);
    }
  }

  lemma ExampleBlockThreeFlat()
    ensures Flatten(ExampleBlocks()[2]) == [(HairColor, "#ae17e1"), (IssueYear, "2013"), (ExpirationYear, "2024"), (EyeColor, "brn"), (PassportID, "760753108"), (BirthYear, "1931"), (Height, "179cm")]
  {
    var b := ExampleBlocks()[2];
    assert Flatten(b[3..]) == b[3];
    assert Flatten(b[2..]) == b[2] + b[3];
    assert Flatten(b[1..]) == b[1] + b[2] + b[3];
  }

  lemma ExampleBlockThreeMap()
    ensures MapOf([(HairColor, "#ae17e1"), (IssueYear, "2013"), (ExpirationYear, "2024"), (EyeColor, "brn"), (PassportID, "760753108"), (BirthYear, "1931"), (Height, "179cm")]) == ExamplePassports()[2]
  {
    var xs := [(HairColor, "#ae17e1"), (IssueYear, "2013"), (ExpirationYear, "2024"), (EyeColor, "brn")];
    var ys := [(PassportID, "760753108"), (BirthYear, "1931"), (Height, "179cm")];
    MapOfAppend(xs, ys);
    MapOfFour(xs[0], xs[1], xs[2], xs[3]);
    MapOfThree(ys[0], ys[1], ys[2]);
    assert xs + ys == [(HairColor, "#ae17e1"), (IssueYear, "2013"), (ExpirationYear, "2024"), (EyeColor, "brn"), (PassportID, "760753108"), (BirthYear, "1931"), (Height, "179cm")];
    var m := MapOf(xs) + MapOf(ys);
    assert m.Keys == ExamplePassports()[2].Keys;
    assert forall f :: f in m ==> m[f] == ExamplePassports()[2][f];
  }

  /** Block 3 of the example is well formed and builds passport 3. */
  lemma ExampleBlockThree()
    ensures GoodBlock(ExampleBlocks()[2])
    ensures MapOf(Flatten(ExampleBlocks()[2])) == ExamplePassports()[2]
  {
    ExampleBlockThreeGood();
    ExampleBlockThreeFlat();
    ExampleBlockThreeMap();
  }

  /** The example's blocks, written with spaces, newlines and blank lines,
      parse into the three example passports. */
  lemma ParseExample()
    ensures ParsePassports(ShowPassports(ExampleBlocks())) == Ok(ExamplePassports())
  {
    var blocks := ExampleBlocks();
    ExampleBlockOne();
    ExampleBlockTwo();
    ExampleBlockThree();
    assert forall i :: 0 <= i < |blocks| ==> GoodBlock(blocks[i]) && MapOf(Flatten(blocks[i])) == ExamplePassports()[i];
    ParseShownPassports(blocks);
    var ps := ParsePassports(ShowPassports(blocks)).value;
    assert |ps| == |ExamplePassports()| == 3;
    assert forall i :: 0 <= i < |ps| ==> ps[i] == ExamplePassports()[i];
    assert ps == ExamplePassports();
  }

  /** The first and third example passports hold every required field; the
      second lacks a height. */
  lemma PresenceExamples(ps: seq<Passport>)
    requires ps == ExamplePassports()
    ensures ValidPassport(ps[0], false) == Ok(true)
    ensures ValidPassport(ps[1], false) == Ok(false)
    ensures ValidPassport(ps[2], false) == Ok(true)
  {
    PresenceValidity(ps[0]);
    PresenceValidity(ps[1]);
    PresenceValidity(ps[2]);
  }

  lemma DataExampleYears(p: Passport)
    requires p == map[PassportID := "087499704", Height := "74in", EyeColor := "grn", IssueYear := "2012",
      ExpirationYear := "2030", BirthYear := "1980", HairColor := "#623a2f"]
    ensures Validate(BirthYear, p[BirthYear]) == Ok(true)
    ensures Validate(IssueYear, p[IssueYear]) == Ok(true)
    ensures Validate(ExpirationYear, p[ExpirationYear]) == Ok(true)
  {
    assert "2012"[..3] == "201" && "201"[..2] == "20" && "20"[..1] == "2";
    assert DigitsValue("2012") == 2012;
    assert "2030"[..3] == "203" && "203"[..2] == "20";
    assert DigitsValue("2030") == 2030;
    assert "1980"[..3] == "198" && "198"[..2] == "19" && "19"[..1] == "1";
    assert DigitsValue("1980") == 1980;
  }

  lemma DataExampleOthers(p: Passport)
    requires p == map[PassportID := "087499704", Height := "74in", EyeColor := "grn", IssueYear := "2012",
      ExpirationYear := "2030", BirthYear := "1980", HairColor := "#623a2f"]
    ensures Validate(Height, p[Height]) == Ok(true)
    ensures Validate(HairColor, p[HairColor]) == Ok(true)
    ensures Validate(EyeColor, p[EyeColor]) == Ok(true)
    ensures Validate(PassportID, p[PassportID]) == Ok(true)
  {
    assert "74in"[..2] == "74" && "74in"[2..] == "in" && "74"[..1] == "7";
    assert DigitsValue("74") == 74;
  }

  /** A passport whose every field passes its rule is valid with data
      validation on. */
  lemma DataExampleValid(p: Passport)
    requires p == map[PassportID := "087499704", Height := "74in", EyeColor := "grn", IssueYear := "2012",
      ExpirationYear := "2030", BirthYear := "1980", HairColor := "#623a2f"]
    ensures ValidPassport(p, true) == Ok(true)
  {
    DataExampleYears(p);
    DataExampleOthers(p);
    DataValidity(p);
    var r := RequiredFields;
    assert r[0] == BirthYear && r[1] == IssueYear && r[2] == ExpirationYear && r[3] == Height;
    assert r[4] == HairColor && r[5] == EyeColor && r[6] == PassportID;
  }

  /** A passport with a birth year of 2007 fails data validation. */
  lemma DataExampleInvalid(p: Passport)
    requires p == map[Height := "59cm", EyeColor := "zzz", ExpirationYear := "2038", HairColor := "74454a",
      IssueYear := "2023", PassportID := "3556412378", BirthYear := "2007"]
    ensures ValidPassport(p, true) == Ok(false)
  {
    assert "2007"[..3] == "200" && "200"[..2] == "20" && "20"[..1] == "2";
    assert DigitsValue("2007") == 2007;
    assert Validate(BirthYear, p[BirthYear]) == Ok(false);
  }
}
