/**
 * The normalisation of a player's infobox texts: the name list (`_find_name`), the height in
 * centimetres (`_transform_height`) and the birth date as a Unix timestamp (`_transform_birth`),
 * with the calendar arithmetic that `datetime` performs.
 */
module Normalise {
  import opened Wrappers
  import opened Text
  import opened Document

  // ---------------------------------------------------------------- name

  /** `s.rsplit(c, 1)`: the text before and after the last `c`, or the whole text when there is none. */
  function RSplitOnce(s: string, c: char): (parts: seq<string>)
    ensures 1 <= |parts| <= 2
    ensures |parts| == 1 <==> c !in s
    ensures |parts| == 1 ==> parts[0] == s
    ensures |parts| == 2 ==> s == parts[0] + [c] + parts[1] && c !in parts[1]
  {
    match RFind(s, c)
    case None => [s]
    case Some(k) => assert s == s[..k] + [c] + s[k + 1..]; [s[..k], s[k + 1..]]
  }

  /** The name text up to its last "(", unless that bracket opens the text (lines 86-88). */
  function CutAtBracket(t: string): (r: string)
    ensures StartsWith(t, r)
    ensures '(' !in t ==> r == t
  {
    match RFind(t, '(')
    case Some(b) => if b > 0 then t[..b] else t
    case None => t
  }

  /** Strip every part and put them in reverse order: family name first. */
  function FamilyFirst(parts: seq<string>): (r: seq<string>)
    requires 1 <= |parts| <= 2
    ensures |r| == |parts|
  {
    if |parts| == 1 then [Strip(parts[0])] else [Strip(parts[1]), Strip(parts[0])]
  }

  /** The parts come back in reverse order, each stripped: family name first. */
  lemma FamilyFirstReversed(parts: seq<string>)
    requires 1 <= |parts| <= 2
    ensures forall i :: 0 <= i < |parts| ==> FamilyFirst(parts)[i] == Strip(parts[|parts| - 1 - i])
  {
    forall i | 0 <= i < |parts|
      ensures FamilyFirst(parts)[i] == Strip(parts[|parts| - 1 - i])
    {
      var j := |parts| - 1 - i;
      if |parts| == 1 {
        assert j == 0;
      } else if i == 0 {
        assert j == 1;
      } else {
        assert j == 0;
      }
    }
  }

  /** `_find_name` as written: the cut text is split at its last space before any stripping. */
  function NameAsWritten(t: string): seq<string>
  {
    FamilyFirst(RSplitOnce(CutAtBracket(t), ' '))
  }

  /** `_find_name` as evidently intended: the cut text is stripped before it is split. */
  function Name(t: string): seq<string>
  {
    FamilyFirst(RSplitOnce(Strip(CutAtBracket(t)), ' '))
  }

  /** A bracketed note after a text is cut off together with the bracket, but not the space before it. */
  lemma CutBeforeNote(s: string, note: string)
    requires '(' !in s && '(' !in note
    ensures CutAtBracket(s + " (" + note) == s + " "
  {
    var t := s + " (" + note;
    assert t[|s| + 1] == '(' && t[|s| + 2..] == note;
    assert RFind(t, '(') == Some(|s| + 1);
    assert t[..|s| + 1] == s + " ";
  }

  /**
   * As written, a name followed by a bracketed note keeps the space before the bracket, the
   * split happens on that space, and the family name comes out empty with the whole name
   * in second place.
   */
  lemma NameAsWrittenLosesSurname(s: string, note: string)
    requires '(' !in s && '(' !in note
    ensures NameAsWritten(s + " (" + note) == ["", Strip(s)]
  {
    CutBeforeNote(s, note);
    assert RSplitOnce(s + " ", ' ') == [s, ""] by {
      assert (s + " ")[..|s|] == s;
    }
  }

  /** A text with no spaces at either end. */
  predicate Trimmed(s: string)
  {
    s != [] && !IsSpace(s[0]) && !IsSpace(s[|s| - 1])
  }

  /** Splitting given names and a family name at the last space, and reordering them. */
  lemma FamilyFirstOfFullName(given: string, family: string)
    requires Trimmed(given) && Trimmed(family) && ' ' !in family
    ensures FamilyFirst(RSplitOnce(given + " " + family, ' ')) == [family, given]
  {
    RSplitAtLastSpace(given, family);
    StripStable(given);
    StripStable(family);
    assert FamilyFirst([given, family]) == [family, given];
  }

  lemma RSplitAtLastSpace(given: string, family: string)
    requires ' ' !in family
    ensures RSplitOnce(given + " " + family, ' ') == [given, family]
  {
    var s := given + " " + family;
    assert s[|given|] == ' ' && s[|given| + 1..] == family;
    assert RFind(s, ' ') == Some(|given|);
    assert s[..|given|] == given;
  }

  /**
   * The corrected name: given names (possibly several words) and a family name without
   * spaces come back family name first, with or without a bracketed note after them.
   */
  lemma NameRoundTrip(given: string, family: string, note: string)
    requires Trimmed(given) && Trimmed(family)
    requires '(' !in given && '(' !in family && '(' !in note && ' ' !in family
    ensures Name(given + " " + family) == [family, given]
    ensures Name(given + " " + family + " (" + note) == [family, given]
  {
    var core := given + " " + family;
    assert Trimmed(core) && '(' !in core by {
      assert core[0] == given[0] && core[|core| - 1] == family[|family| - 1];
    }
    StripStable(core);
    FamilyFirstOfFullName(given, family);
    CutBeforeNote(core, note);
    StripTrailingSpace(core);
  }

  /**
   * Every disambiguated name with a family name shows the discrepancy: the code as written
   * puts the whole name second behind an empty family name, while the corrected reading
   * gives the family name first.
   */
  lemma NameAsWrittenDiffers(given: string, family: string, note: string)
    requires Trimmed(given) && Trimmed(family)
    requires '(' !in given && '(' !in family && '(' !in note && ' ' !in family
    ensures NameAsWritten(given + " " + family + " (" + note) == ["", given + " " + family]
    ensures Name(given + " " + family + " (" + note) == [family, given]
  {
    var core := given + " " + family;
    assert '(' !in core && core[0] == given[0] && core[|core| - 1] == family[|family| - 1];
    NameAsWrittenLosesSurname(core, note);
    StripStable(core);
    NameRoundTrip(given, family, note);
  }

  /** Where nothing surrounds the cut text with spaces, the code as written already gives the corrected name. */
  lemma NameAgreesWhenTrimmed(t: string)
    requires Strip(CutAtBracket(t)) == CutAtBracket(t)
    ensures NameAsWritten(t) == Name(t)
  {
  }

  // ---------------------------------------------------------------- height

  /** The longest suffix of ASCII digits. */
  function DigitSuffix(s: string): (r: string)
    ensures |r| <= |s| && r == s[|s| - |r|..]
    ensures forall i :: 0 <= i < |r| ==> IsDigit(r[i])
    ensures |r| < |s| ==> !IsDigit(s[|s| - |r| - 1])
  {
    if s != [] && IsDigit(s[|s| - 1]) then DigitSuffix(s[..|s| - 1]) + [s[|s| - 1]] else []
  }

  /**
   * `run` is a maximal run of digits of `s` ending at index `e` (exclusive), and no digit
   * follows it: the last element of `re.findall("[0-9]+", s)`.
   */
  ghost predicate LastRunAt(s: string, run: string, e: nat)
  {
    && 0 < |run| <= e <= |s| && s[e - |run|..e] == run
    && (e == |run| || !IsDigit(s[e - |run| - 1]))
    && forall i :: e <= i < |s| ==> !IsDigit(s[i])
  }

  /** `re.findall("[0-9]+", s)[-1]`: the last maximal run of ASCII digits, if any. */
  function LastDigitRun(s: string): (r: Option<string>)
    ensures r.None? <==> forall i :: 0 <= i < |s| ==> !IsDigit(s[i])
    ensures r.Some? ==> IsDigits(r.value) && exists e: nat :: LastRunAt(s, r.value, e)
  {
    if s == [] then None
    else if IsDigit(s[|s| - 1]) then
      var d := DigitSuffix(s);
      assert LastRunAt(s, d, |s|);
      Some(d)
    else
      var r := LastDigitRun(s[..|s| - 1]);
      assert forall i :: 0 <= i < |s| - 1 ==> s[..|s| - 1][i] == s[i];
      if r.Some? then
        assert s[..|s| - 1] + [s[|s| - 1]] == s;
        LastRunGrows(s[..|s| - 1], s[|s| - 1], r.value);
        r
      else r
  }

  /** A last run of the text before a non-digit is still the last run once that character is added. */
  lemma LastRunGrows(s: string, c: char, run: string)
    requires !IsDigit(c) && exists e: nat :: LastRunAt(s, run, e)
    ensures exists e: nat :: LastRunAt(s + [c], run, e)
  {
    var e: nat :| LastRunAt(s, run, e);
    assert (s + [c])[e - |run|..e] == s[e - |run|..e];
    assert LastRunAt(s + [c], run, e);
  }

  /**
   * `_transform_height`, lines 101-102: the text up to the first "[" or space on its line, then
   * the last run of digits in it. A text with neither delimiter, or with no digits before one, fails.
   */
  function Height(text: string): (r: Result<int, Error>)
    ensures r.Ok? ==> r.value >= 0
    ensures (forall i :: 0 <= i < |text| ==> text[i] != '[' && text[i] != ' ') ==> r == Err(BadHeight(text))
  {
    match LazyMatch(text, {'[', ' '})
    case None => Err(BadHeight(text))
    case Some(m) =>
      match LastDigitRun(m)
      case None => Err(BadHeight(text))
      case Some(d) => Ok(DigitsValue(d))
  }

  lemma DigitSuffixAll(s: string)
    requires forall i :: 0 <= i < |s| ==> IsDigit(s[i])
    ensures DigitSuffix(s) == s
  {
  }

  /**
   * A height written as a number followed by a space (before the unit) or by a footnote mark
   * reads back as that number.
   */
  lemma HeightOfNumber(h: nat, delimiter: char, rest: string)
    requires delimiter == ' ' || delimiter == '['
    ensures Height(Decimal(h) + [delimiter] + rest) == Ok(h)
  {
    var d := Decimal(h);
    assert forall i :: 0 <= i < |d| ==> IsDigit(d[i]);
    LazyMatchAt(d, delimiter, rest, {'[', ' '});
    DigitSuffixAll(d);
    DecimalRoundTrip(h);
  }

  // ---------------------------------------------------------------- calendar

  datatype Date = Date(year: int, month: int, day: int)

  predicate IsLeap(y: int)
  {
    y % 4 == 0 && (y % 100 != 0 || y % 400 == 0)
  }

  function DaysIn(y: int, m: int): (n: int)
    requires 1 <= m <= 12
    ensures 28 <= n <= 31
  {
    if m == 2 then (if IsLeap(y) then 29 else 28)
    else if m == 4 || m == 6 || m == 9 || m == 11 then 30
    else 31
  }

  /** The dates `datetime` accepts: years 1 to 9999, a real month, a day that month has. */
  predicate Valid(dt: Date)
  {
    1 <= dt.year <= 9999 && 1 <= dt.month <= 12 && 1 <= dt.day <= DaysIn(dt.year, dt.month)
  }

  /** Days in the months of year `y` before month `m`. */
  function DaysBeforeMonth(y: int, m: int): (n: int)
    requires 1 <= m <= 13
    ensures n >= 0
  {
    if m == 1 then 0 else DaysBeforeMonth(y, m - 1) + DaysIn(y, m - 1)
  }

  /** Days in the proleptic Gregorian years before year `y`. */
  function DaysBeforeYear(y: int): int
  {
    var p := y - 1;
    365 * p + p / 4 - p / 100 + p / 400
  }

  /** `date.toordinal()`: 1 January of year 1 is day 1. */
  function Ordinal(dt: Date): int
    requires Valid(dt)
  {
    DaysBeforeYear(dt.year) + DaysBeforeMonth(dt.year, dt.month) + dt.day
  }

  const EpochOrdinal: int := 719163

  /** `datetime.timestamp()` of midnight at the start of the date, taken as UTC. */
  function Epoch(dt: Date): int
    requires Valid(dt)
  {
    (Ordinal(dt) - EpochOrdinal) * 86400
  }

  /** The calendar day after a valid date. */
  function NextDay(dt: Date): (r: Date)
    requires Valid(dt) && (dt.year < 9999 || dt.month < 12 || dt.day < 31)
    ensures Valid(r)
  {
    if dt.day < DaysIn(dt.year, dt.month) then Date(dt.year, dt.month, dt.day + 1)
    else if dt.month < 12 then Date(dt.year, dt.month + 1, 1)
    else Date(dt.year + 1, 1, 1)
  }

  lemma YearLength(y: int)
    ensures DaysBeforeMonth(y, 13) == if IsLeap(y) then 366 else 365
  {
    var feb := if IsLeap(y) then 29 else 28;
    assert DaysBeforeMonth(y, 2) == 31;
    assert DaysBeforeMonth(y, 3) == 31 + feb;
    assert DaysBeforeMonth(y, 4) == 62 + feb;
    assert DaysBeforeMonth(y, 5) == 92 + feb;
    assert DaysBeforeMonth(y, 6) == 123 + feb;
    assert DaysBeforeMonth(y, 7) == 153 + feb;
    assert DaysBeforeMonth(y, 8) == 184 + feb;
    assert DaysBeforeMonth(y, 9) == 215 + feb;
    assert DaysBeforeMonth(y, 10) == 245 + feb;
    assert DaysBeforeMonth(y, 11) == 276 + feb;
    assert DaysBeforeMonth(y, 12) == 306 + feb;
  }

  lemma DaysBeforeNextYear(y: int)
    requires y >= 1
    ensures DaysBeforeYear(y + 1) == DaysBeforeYear(y) + (if IsLeap(y) then 366 else 365)
  {
    var p := y - 1;
    assert (p + 1) / 4 == p / 4 + (if y % 4 == 0 then 1 else 0);
    assert (p + 1) / 100 == p / 100 + (if y % 100 == 0 then 1 else 0);
    assert (p + 1) / 400 == p / 400 + (if y % 400 == 0 then 1 else 0);
  }

  /** Consecutive days are exactly 86400 seconds apart, across month and year ends and leap days. */
  lemma NextDayEpoch(dt: Date)
    requires Valid(dt) && (dt.year < 9999 || dt.month < 12 || dt.day < 31)
    ensures Epoch(NextDay(dt)) == Epoch(dt) + 86400
  {
    if dt.day == DaysIn(dt.year, dt.month) && dt.month == 12 {
      YearLength(dt.year);
      DaysBeforeNextYear(dt.year);
    }
  }

  lemma EpochExamples()
    ensures Epoch(Date(1970, 1, 1)) == 0
    ensures Epoch(Date(1990, 3, 5)) == 636595200
  {
    assert DaysBeforeMonth(1990, 3) == 59;
  }

  // ---------------------------------------------------------------- strptime("%d %m %Y")

  /** The longest prefix of ASCII digits. */
  function DigitPrefix(s: string): (r: string)
    ensures |r| <= |s| && r == s[..|r|]
    ensures forall i :: 0 <= i < |r| ==> IsDigit(r[i])
    ensures |r| < |s| ==> !IsDigit(s[|r|])
  {
    if s != [] && IsDigit(s[0]) then [s[0]] + DigitPrefix(s[1..]) else []
  }

  /** The length of the leading run of whitespace (`\s+`). */
  function SpaceCount(s: string): (n: nat)
    ensures n <= |s|
    ensures forall i :: 0 <= i < n ==> IsSpace(s[i])
    ensures n < |s| ==> !IsSpace(s[n])
  {
    if s != [] && IsSpace(s[0]) then 1 + SpaceCount(s[1..]) else 0
  }

  /** A run of digits, the length of the whitespace after it, and the text after both. */
  datatype Lead = Lead(digits: string, gap: nat, rest: string)

  function LeadOf(s: string): (t: Lead)
    ensures |t.digits| <= |s| && t.digits == s[..|t.digits|]
  {
    var d := DigitPrefix(s);
    var g := SpaceCount(s[|d|..]);
    Lead(d, g, s[|d|..][g..])
  }

  /**
   * The match of `(?P<d>..)\s+(?P<m>..)\s+(?P<Y>\d\d\d\d)` against the whole text: a day and a
   * month of one or two digits (each pattern takes at most two digits and must be followed by
   * whitespace), whitespace, and exactly four digits up to the end.
   */
  function DateFields(s: string): (r: Option<Date>)
  {
    var day := LeadOf(s);
    var month := LeadOf(day.rest);
    var y := month.rest;
    if 1 <= |day.digits| <= 2 && day.gap > 0 && 1 <= |month.digits| <= 2 && month.gap > 0 && |y| == 4 && IsDigits(y)
    then Some(Date(DigitsValue(y), DigitsValue(month.digits), DigitsValue(day.digits)))
    else None
  }

  /**
   * `datetime.strptime(s, "%d %m %Y")` then `timestamp()`: the day and month patterns admit only
   * 1-31 and 1-12, and the date must exist; every failure is the same `ValueError`.
   */
  function ParseDate(s: string): (r: Result<int, Error>)
    ensures r.Err? ==> r.error == BadDate(s)
    ensures r.Ok? ==> exists dt :: DateFields(s) == Some(dt) && Valid(dt) && r.value == Epoch(dt)
  {
    match DateFields(s)
    case Some(dt) => if Valid(dt) then Ok(Epoch(dt)) else Err(BadDate(s))
    case None => Err(BadDate(s))
  }

  /** Two-digit zero-padded month number, as the month table writes it. */
  function Pad2(n: nat): (s: string)
    requires 1 <= n <= 99
  {
    if n < 10 then "0" + Decimal(n) else Decimal(n)
  }

  // ---------------------------------------------------------------- birth

  /** The genitive month names of the table at lines 221-234, in its order. */
  function MonthName(m: nat): (s: string)
    requires 1 <= m <= 12
    ensures |s| >= 3 && forall i :: 0 <= i < |s| ==> IsLetter(s[i])
  {
    match m
    case 1 => "января"
    case 2 => "февраля"
    case 3 => "марта"
    case 4 => "апреля"
    case 5 => "мая"
    case 6 => "июня"
    case 7 => "июля"
    case 8 => "августа"
    case 9 => "сентября"
    case 10 => "октября"
    case 11 => "ноября"
    case 12 => "декабря"
  }

  /** Lower-case Cyrillic letters: no digit and no whitespace is one. */
  predicate IsLetter(c: char)
  {
    '\U{430}' <= c <= '\U{44f}'
  }

  /** The table's replacement for month `m`: "01" to "12". */
  function MonthCode(m: nat): (s: string)
    requires 1 <= m <= 12
    ensures |s| == 2 && IsDigits(s) && DigitsValue(s) == m
  {
    DecimalRoundTrip(m);
    Pad2(m)
  }

  /** The text after the first `k` replacements of the loop at lines 235-236. */
  function ReplaceMonths(s: string, k: nat): string
    requires k <= 12
  {
    if k == 0 then s else Replace(ReplaceMonths(s, k - 1), MonthName(k), MonthCode(k))
  }

  /** Line 220: the text before any "(" and then before any "[", stripped. */
  function BirthText(raw: string): (r: string)
    ensures '(' !in r && '[' !in r
  {
    Strip(Before(Before(raw, '('), '['))
  }

  /** `_transform_birth`: the timestamp of the birth date, or the `ValueError` of `strptime`. */
  function Birth(raw: string): Result<int, Error>
  {
    ParseDate(ReplaceMonths(BirthText(raw), 12))
  }

  /** `_transform_birth`, lines 219-238. */
  method TransformBirth(raw: string) returns (r: Result<int, Error>)
    ensures r == Birth(raw)
  {
    var ln := ReplaceMonthNames(BirthText(raw));
    r := ParseDate(ln);
  }

  /** The loop at lines 235-236: every month name in the text replaced by its number, in table order. */
  method ReplaceMonthNames(s: string) returns (t: string)
    ensures t == ReplaceMonths(s, 12)
  {
    t := s;
    var k := 0;
    while k < 12
      invariant k <= 12 && t == ReplaceMonths(s, k)
    {
      k := k + 1;
      t := Replace(t, MonthName(k), MonthCode(k));
    }
  }

  /**
   * No month name occurs inside a later one: for each earlier name, the index of a letter the
   * later name does not have.
   */
  lemma EarlierMonthLetter(k: nat, m: nat) returns (j: nat)
    requires 1 <= k < m <= 12
    ensures j < |MonthName(k)| && MonthName(k)[j] !in MonthName(m)
  {
    if m <= 5 {
      j := EarlyMonthLetter(k, m);
    } else if m <= 8 {
      j := MiddleMonthLetter(k, m);
    } else if m <= 10 {
      j := LateMonthLetter(k, m);
    } else {
      j := LastMonthLetter(k, m);
    }
  }

  /** The letter of `EarlierMonthLetter` for later months 2 to 5. */
  lemma EarlyMonthLetter(k: nat, m: nat) returns (j: nat)
    requires 1 <= k < m && 2 <= m <= 5
    ensures j < |MonthName(k)| && MonthName(k)[j] !in MonthName(m)
  {
    j :=
      if k == 1 && m == 2 then 1 else
      if k == 1 && m == 3 then 0 else
      if k == 2 && m == 3 then 0 else
      if k == 1 && m == 4 then 1 else
      if k == 2 && m == 4 then 0 else
      if k == 3 && m == 4 then 0 else
      if k == 1 && m == 5 then 1 else
      if k == 2 && m == 5 then 0 else
      if k == 3 && m == 5 then 2 else
      1;
  }

  /** The letter of `EarlierMonthLetter` for later months 6 to 8. */
  lemma MiddleMonthLetter(k: nat, m: nat) returns (j: nat)
    requires 1 <= k < m && 6 <= m <= 8
    ensures j < |MonthName(k)| && MonthName(k)[j] !in MonthName(m)
  {
    j :=
      if k == 1 && m == 6 then 2 else
      if k == 2 && m == 6 then 0 else
      if k == 3 && m == 6 then 0 else
      if k == 4 && m == 6 then 0 else
      if k == 5 && m == 6 then 0 else
      if k == 1 && m == 7 then 1 else
      if k == 2 && m == 7 then 0 else
      if k == 3 && m == 7 then 0 else
      if k == 4 && m == 7 then 0 else
      if k == 5 && m == 7 then 0 else
      if k == 6 && m == 7 then 2 else
      if k == 1 && m == 8 then 0 else
      if k == 2 && m == 8 then 0 else
      if k == 3 && m == 8 then 0 else
      if k == 4 && m == 8 then 1 else
      if k == 5 && m == 8 then 0 else
      if k == 6 && m == 8 then 0 else
      0;
  }

  /** The letter of `EarlierMonthLetter` for later months 9 to 10. */
  lemma LateMonthLetter(k: nat, m: nat) returns (j: nat)
    requires 1 <= k < m && 9 <= m <= 10
    ensures j < |MonthName(k)| && MonthName(k)[j] !in MonthName(m)
  {
    j :=
      if k == 1 && m == 9 then 2 else
      if k == 2 && m == 9 then 0 else
      if k == 3 && m == 9 then 0 else
      if k == 4 && m == 9 then 0 else
      if k == 5 && m == 9 then 0 else
      if k == 6 && m == 9 then 0 else
      if k == 7 && m == 9 then 0 else
      if k == 8 && m == 9 then 0 else
      if k == 1 && m == 10 then 1 else
      if k == 2 && m == 10 then 0 else
      if k == 3 && m == 10 then 0 else
      if k == 4 && m == 10 then 0 else
      if k == 5 && m == 10 then 0 else
      if k == 6 && m == 10 then 0 else
      if k == 7 && m == 10 then 0 else
      if k == 8 && m == 10 then 0 else
      0;
  }

  /** The letter of `EarlierMonthLetter` for later months 11 to 12. */
  lemma LastMonthLetter(k: nat, m: nat) returns (j: nat)
    requires 1 <= k < m && 11 <= m <= 12
    ensures j < |MonthName(k)| && MonthName(k)[j] !in MonthName(m)
  {
    j :=
      if k == 1 && m == 11 then 2 else
      if k == 2 && m == 11 then 0 else
      if k == 3 && m == 11 then 0 else
      if k == 4 && m == 11 then 0 else
      if k == 5 && m == 11 then 0 else
      if k == 6 && m == 11 then 0 else
      if k == 7 && m == 11 then 0 else
      if k == 8 && m == 11 then 0 else
      if k == 9 && m == 11 then 0 else
      if k == 10 && m == 11 then 1 else
      if k == 1 && m == 12 then 1 else
      if k == 2 && m == 12 then 0 else
      if k == 3 && m == 12 then 0 else
      if k == 4 && m == 12 then 1 else
      if k == 5 && m == 12 then 0 else
      if k == 6 && m == 12 then 0 else
      if k == 7 && m == 12 then 0 else
      if k == 8 && m == 12 then 1 else
      if k == 9 && m == 12 then 0 else
      if k == 10 && m == 12 then 0 else
      0;
  }

  // ---------------------------------------------------------------- birth round trip

  /** A birth date as the infobox writes it: day, genitive month name, year. */
  function DateText(dt: Date): string
    requires Valid(dt)
  {
    Decimal(dt.day) + " " + MonthName(dt.month) + " " + Decimal(dt.year)
  }

  /** The same date after the month table: day, two-digit month number, year. */
  function NumericDate(dt: Date): string
    requires Valid(dt)
  {
    Decimal(dt.day) + " " + MonthCode(dt.month) + " " + Decimal(dt.year)
  }

  /** Digits and spaces only: no month name can occur. */
  predicate NoLetters(s: string)
  {
    forall i :: 0 <= i < |s| ==> !IsLetter(s[i])
  }

  lemma DecimalNoLetters(n: nat)
    ensures NoLetters(Decimal(n))
  {
    var d := Decimal(n);
    assert forall i :: 0 <= i < |d| ==> IsDigit(d[i]);
  }

  lemma ReplaceNoLetters(s: string, k: nat)
    requires NoLetters(s) && 1 <= k <= 12
    ensures Replace(s, MonthName(k), MonthCode(k)) == s
  {
    var p := MonthName(k);
    assert IsLetter(p[0]);
    AbsentByChar(s, p, 0);
    ReplaceAbsent(s, p, MonthCode(k));
  }

  /** The month names before month `m` in the table leave its date text alone. */
  lemma EarlierMonthsAbsent(dt: Date, k: nat)
    requires Valid(dt) && k < dt.month
    ensures ReplaceMonths(DateText(dt), k) == DateText(dt)
  {
    if k > 0 {
      EarlierMonthsAbsent(dt, k - 1);
      var s := DateText(dt);
      var p := MonthName(k);
      var j := EarlierMonthLetter(k, dt.month);
      DecimalNoLetters(dt.day);
      DecimalNoLetters(dt.year);
      assert IsLetter(p[j]);
      assert p[j] !in s;
      AbsentByChar(s, p, j);
      ReplaceAbsent(s, p, MonthCode(k));
    }
  }

  /** The month names after month `m` find only digits and spaces. */
  lemma LaterMonthsAbsent(dt: Date, k: nat)
    requires Valid(dt) && dt.month <= k <= 12
    ensures ReplaceMonths(DateText(dt), k) == NumericDate(dt)
  {
    if k == dt.month {
      MonthReplaced(dt);
    } else {
      LaterMonthsAbsent(dt, k - 1);
      NumericDateNoLetters(dt);
      ReplaceNoLetters(NumericDate(dt), k);
    }
  }

  /** Once its month is a number, a date has no letters left. */
  lemma NumericDateNoLetters(dt: Date)
    requires Valid(dt)
    ensures NoLetters(NumericDate(dt))
  {
    var d, c, y := Decimal(dt.day), MonthCode(dt.month), Decimal(dt.year);
    var n := NumericDate(dt);
    assert n == d + " " + c + " " + y;
    forall i | 0 <= i < |n|
      ensures !IsLetter(n[i])
    {
      if i < |d| {
        assert n[i] == d[i];
      } else if |d| < i < |d| + 1 + |c| {
        assert n[i] == c[i - |d| - 1];
      } else if |d| + 1 + |c| < i {
        assert n[i] == y[i - |d| - 2 - |c|];
      }
    }
  }

  /** The replacement for the date's own month turns its name into its number. */
  lemma MonthReplaced(dt: Date)
    requires Valid(dt)
    ensures ReplaceMonths(DateText(dt), dt.month) == NumericDate(dt)
  {
    var m := dt.month;
    EarlierMonthsAbsent(dt, m - 1);
    OwnMonthReplaced(Decimal(dt.day), m, Decimal(dt.year));
    LastMonthStep(DateText(dt), m, NumericDate(dt));
  }

  lemma LastMonthStep(s: string, k: nat, t: string)
    requires 1 <= k <= 12 && ReplaceMonths(s, k - 1) == s && Replace(s, MonthName(k), MonthCode(k)) == t
    ensures ReplaceMonths(s, k) == t
  {
  }

  lemma OwnMonthReplaced(d: string, m: nat, y: string)
    requires 1 <= m <= 12 && NoLetters(d) && NoLetters(y)
    ensures Replace(d + " " + MonthName(m) + " " + y, MonthName(m), MonthCode(m)) == d + " " + MonthCode(m) + " " + y
  {
    var a := d + " ";
    var p := MonthName(m);
    var c := " " + y;
    assert d + " " + p + " " + y == a + p + c;
    assert IsLetter(p[0]);
    assert forall i :: 0 <= i < |a| ==> a[i] != p[0];
    ReplaceFirst(a, p, MonthCode(m), c);
    assert NoLetters(c);
    ReplaceNoLetters(c, m);
    assert a + MonthCode(m) + c == d + " " + MonthCode(m) + " " + y;
  }

  /** The loop over the month table turns a written date into its numeric form. */
  lemma MonthsRoundTrip(dt: Date)
    requires Valid(dt)
    ensures ReplaceMonths(DateText(dt), 12) == NumericDate(dt)
  {
    LaterMonthsAbsent(dt, 12);
  }

  lemma {:induction false} DecimalLength(n: nat)
    ensures n < 10 ==> |Decimal(n)| == 1
    ensures 10 <= n < 100 ==> |Decimal(n)| == 2
    ensures 100 <= n < 1000 ==> |Decimal(n)| == 3
    ensures 1000 <= n < 10000 ==> |Decimal(n)| == 4
  {
    if n >= 10 {
      DecimalLength(n / 10);
    }
  }

  lemma {:induction false} DigitPrefixAt(a: string, b: string)
    requires forall i :: 0 <= i < |a| ==> IsDigit(a[i])
    requires b == [] || !IsDigit(b[0])
    ensures DigitPrefix(a + b) == a
  {
    if a != [] {
      assert (a + b)[0] == a[0] && (a + b)[1..] == a[1..] + b;
      DigitPrefixAt(a[1..], b);
      assert [a[0]] + a[1..] == a;
    } else {
      assert a + b == b;
    }
  }

  /** Digits, one space, then a text that starts with neither a digit nor whitespace. */
  lemma LeadOfField(a: string, b: string)
    requires forall i :: 0 <= i < |a| ==> IsDigit(a[i])
    requires b != [] && !IsSpace(b[0])
    ensures LeadOf(a + " " + b) == Lead(a, 1, b)
  {
    var s := a + " " + b;
    DigitPrefixAt(a, " " + b);
    assert s == a + (" " + b);
    assert s[|a|..] == " " + b;
    assert (" " + b)[1..] == b;
  }

  /** `strptime` reads back the numeric form of any date with a four-digit year. */
  lemma ParseNumericDate(dt: Date)
    requires Valid(dt) && dt.year >= 1000
    ensures ParseDate(NumericDate(dt)) == Ok(Epoch(dt))
  {
    var d, c, y := Decimal(dt.day), MonthCode(dt.month), Decimal(dt.year);
    DecimalLength(dt.day);
    DecimalLength(dt.year);
    DecimalRoundTrip(dt.day);
    DecimalRoundTrip(dt.year);
    FieldsOfNumericDate(d, c, y);
    assert DateFields(NumericDate(dt)) == Some(dt);
  }

  /** The match of the `strptime` pattern against day, month and year digits separated by single spaces. */
  lemma FieldsOfNumericDate(d: string, c: string, y: string)
    requires 1 <= |d| <= 2 && IsDigits(d) && 1 <= |c| <= 2 && IsDigits(c) && |y| == 4 && IsDigits(y)
    ensures DateFields(d + " " + c + " " + y) == Some(Date(DigitsValue(y), DigitsValue(c), DigitsValue(d)))
  {
    var rest := c + " " + y;
    SpacedFields(d, c, y);
    LeadOfField(d, rest);
    LeadOfField(c, y);
    FieldsOfLeads(d + " " + c + " " + y, d, rest, c, y);
  }

  lemma SpacedFields(d: string, c: string, y: string)
    ensures d + " " + c + " " + y == d + " " + (c + " " + y)
  {
  }

  lemma FieldsOfLeads(s: string, d: string, rest: string, c: string, y: string)
    requires 1 <= |d| <= 2 && IsDigits(d) && 1 <= |c| <= 2 && IsDigits(c) && |y| == 4 && IsDigits(y)
    requires LeadOf(s) == Lead(d, 1, rest) && LeadOf(rest) == Lead(c, 1, y)
    ensures DateFields(s) == Some(Date(DigitsValue(y), DigitsValue(c), DigitsValue(d)))
  {
  }

  /** Digits in the shape of the pattern that name no existing day, such as 30 February, are rejected. */
  lemma ImpossibleDateRejected(d: string, c: string, y: string)
    requires 1 <= |d| <= 2 && IsDigits(d) && 1 <= |c| <= 2 && IsDigits(c) && |y| == 4 && IsDigits(y)
    requires !Valid(Date(DigitsValue(y), DigitsValue(c), DigitsValue(d)))
    ensures ParseDate(d + " " + c + " " + y) == Err(BadDate(d + " " + c + " " + y))
  {
    FieldsOfNumericDate(d, c, y);
  }

  /** 30 February 1990 does not exist. */
  lemma FebruaryThirtieth()
    ensures ParseDate("30 02 1990") == Err(BadDate("30 02 1990"))
  {
    assert "30 02 1990" == "30" + " " + "02" + " " + "1990";
    assert DigitsValue("3") == 3 && DigitsValue("0") == 0;
    assert "30"[..1] == "3" && "02"[..1] == "0";
    assert DigitsValue("30") == 30 && DigitsValue("02") == 2;
    ImpossibleDateRejected("30", "02", "1990");
  }

  /** A written date has no brackets and no whitespace at its ends. */
  lemma DateTextShape(dt: Date)
    requires Valid(dt)
    ensures Trimmed(DateText(dt)) && '(' !in DateText(dt) && '[' !in DateText(dt)
  {
    var d, m, y := Decimal(dt.day), MonthName(dt.month), Decimal(dt.year);
    var s := DateText(dt);
    assert s == d + " " + m + " " + y;
    forall i | 0 <= i < |s|
      ensures s[i] != '(' && s[i] != '['
    {
      if i < |d| {
        assert s[i] == d[i];
      } else if |d| < i < |d| + 1 + |m| {
        assert s[i] == m[i - |d| - 1];
      } else if |d| + 1 + |m| < i {
        assert s[i] == y[i - |d| - 2 - |m|];
      }
    }
    assert s[0] == d[0] && s[|s| - 1] == y[|y| - 1];
  }

  /** Line 220 leaves a trimmed text without brackets as it is, and cuts a bracketed note after it. */
  lemma BirthTextOfPlain(s: string, note: string)
    requires Trimmed(s) && '(' !in s && '[' !in s
    ensures BirthText(s) == s
    ensures BirthText(s + " (" + note) == s
  {
    StripStable(s);
    assert s + " (" + note == (s + " ") + ['('] + note;
    BeforeAt(s + " ", '(', note);
    assert '[' !in s + " ";
    StripTrailingSpace(s);
  }

  /** Line 220 leaves a written date as it is, and cuts a bracketed note such as the age after it. */
  lemma BirthTextOfDate(dt: Date, note: string)
    requires Valid(dt)
    ensures BirthText(DateText(dt)) == DateText(dt)
    ensures BirthText(DateText(dt) + " (" + note) == DateText(dt)
  {
    DateTextShape(dt);
    BirthTextOfPlain(DateText(dt), note);
  }

  /**
   * `_transform_birth` reads an infobox birth date, with or without the bracketed age after it,
   * as the timestamp of that day.
   */
  lemma BirthRoundTrip(dt: Date, note: string)
    requires Valid(dt) && dt.year >= 1000
    ensures Birth(DateText(dt)) == Ok(Epoch(dt))
    ensures Birth(DateText(dt) + " (" + note) == Ok(Epoch(dt))
  {
    BirthTextOfDate(dt, note);
    MonthsRoundTrip(dt);
    ParseNumericDate(dt);
  }

  lemma BirthExample()
    ensures Birth(DateText(Date(1990, 3, 5)) + " (" + "34 года)") == Ok(636595200)
  {
    BirthRoundTrip(Date(1990, 3, 5), "34 года)");
    EpochExamples();
  }
}
