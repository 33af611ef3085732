/**
 * Career statistics of a player page: the "caps(goals)" cell parser, the club row scan
 * (path A), the club summary-table walk (path B), the national-team row scan, and the
 * reconciliation of their totals into caps, goals scored and goals conceded.
 */
module Stats {
  import opened Wrappers
  import opened Text
  import opened Document

  const ClubCareer: string := "Клубная карьера"
  const NationalTeam: string := "Национальная сборная"
  /** Rows whose team cell holds this token (youth sides, "до 21") are skipped by the national scan. */
  const Pending: string := "до"
  const ClubLabel: string := "Клуб"
  const Minus: char := '\U{2212}'
  const EnDash: char := '\U{2013}'

  /** Caps and signed goals; a negative goal total stands for goals conceded. */
  datatype Tally = Tally(caps: int, goals: int)

  /** The reconciled statistic of one kind, as stored in the player record. */
  datatype Totals = Totals(caps: int, scored: int, conceded: int)

  function Add(t: Tally, r: Result<Tally, Error>): Result<Tally, Error>
  {
    match r
    case Ok(u) => Ok(Tally(t.caps + u.caps, t.goals + u.goals))
    case Err(e) => Err(e)
  }

  /** A "caps(goals)" cell split into the caps text and the normalised goals text. */
  datatype Cell = Cell(caps: string, goals: string)

  /**
   * Lines 117-121 (and 193-197): strip, split on "(" into exactly two parts, keep the goals text
   * up to the first ")" or "/", turn U+2212 and U+2013 into "-", and read any "?" as "0".
   */
  function SplitCell(text: string): (r: Result<Cell, Error>)
    ensures r.Ok? ==> StartsWith(Strip(text), r.value.caps + "(") && '(' !in r.value.caps
    ensures r.Ok? ==> r.value.goals == "0" || ('?' !in r.value.goals && Minus !in r.value.goals && EnDash !in r.value.goals)
    ensures r.Err? ==> r.error == MalformedCell(text)
  {
    match SplitPair(Strip(text), '(')
    case None => Err(MalformedCell(text))
    case Some((ln, sc)) =>
      match LazyMatch(sc, {')', '/'})
      case None => Err(MalformedCell(text))
      case Some(g) =>
        BracketPrefix(Strip(text), ln, sc);
        Ok(Cell(ln, NormalGoals(g)))
  }

  /**
   * A cell reads exactly when its stripped text has one opening bracket and a closing bracket or
   * a slash somewhere after it; anything else is the `AttributeError` of line 119.
   */
  lemma SplitCellDefined(text: string)
    ensures SplitCell(text).Ok? <==> match SplitPair(Strip(text), '(')
                                    case None => false
                                    case Some((_, sc)) => ')' in sc || '/' in sc
  {
    match SplitPair(Strip(text), '(')
    case None =>
    case Some((ln, sc)) =>
      assert LazyMatch(sc, {')', '/'}).Some? <==> (')' in sc || '/' in sc);
  }

  lemma BracketPrefix(t: string, ln: string, sc: string)
    requires t == ln + ['('] + sc
    ensures StartsWith(t, ln + "(")
  {
    assert t[..|ln| + 1] == ln + "(";
  }

  /** Lines 120-121: both typographic dashes become "-", and a goals text with a "?" reads as "0". */
  function NormalGoals(g: string): (r: string)
    ensures '?' in g ==> r == "0"
    ensures '?' !in g ==> |r| == |g| && forall i :: 0 <= i < |g| ==> r[i] == (if g[i] == Minus || g[i] == EnDash then '-' else g[i])
    ensures r == "0" || ('?' !in r && Minus !in r && EnDash !in r)
    ensures '?' !in g && Minus !in g && EnDash !in g ==> r == g
  {
    var g' := MapChars(g, {Minus, EnDash}, '-');
    assert forall i :: 0 <= i < |g| ==> (g'[i] == '?' <==> g[i] == '?');
    if '?' in g' then "0" else g'
  }

  /** Path A, one row: caps and goals count only when the caps text is all digits. */
  function ClubCellTally(text: string): (r: Result<Tally, Error>)
    ensures r.Ok? ==> r.value.caps >= 0
  {
    match SplitCell(text)
    case Err(e) => Err(e)
    case Ok(c) =>
      if IsDigits(Strip(c.caps)) then
        match ParseInt(c.goals)
        case None => Err(MalformedCell(text))
        case Some(g) => Ok(Tally(DigitsValue(Strip(c.caps)), g))
      else Ok(Tally(0, 0))
  }

  /** National scan, one row: caps count only when all digits, but goals always count. */
  function NationalCellTally(text: string): (r: Result<Tally, Error>)
    ensures r.Ok? ==> r.value.caps >= 0
  {
    match SplitCell(text)
    case Err(e) => Err(e)
    case Ok(c) =>
      match ParseInt(c.goals)
      case None => Err(MalformedCell(text))
      case Some(g) => Ok(Tally(if IsDigits(Strip(c.caps)) then DigitsValue(Strip(c.caps)) else 0, g))
  }

  /** How the source tables write a tally: caps, a space, then goals in brackets with a typographic minus. */
  function FormatCell(caps: string, goals: int): string
  {
    caps + " (" + TypesetGoals(goals) + ")"
  }

  /** A goal count as the tables print it: a typographic minus before conceded goals. */
  function TypesetGoals(goals: int): (s: string)
    ensures forall i :: 0 <= i < |s| ==> s[i] == Minus || IsDigit(s[i])
  {
    if goals < 0 then [Minus] + Decimal(-goals) else Decimal(goals)
  }

  lemma MapDecimal(n: nat, from: set<char>)
    requires forall c :: c in from ==> !IsDigit(c)
    ensures MapChars(Decimal(n), from, '-') == Decimal(n)
  {
    var d := Decimal(n);
    var m := MapChars(d, from, '-');
    assert forall i :: 0 <= i < |d| ==> m[i] == d[i];
  }

  /** The cell parser, step by step: strip, split on the bracket, lazy match, normalise. */
  lemma SplitCellSteps(t: string, ln: string, sc: string, g: string)
    requires Strip(t) == t && SplitPair(t, '(') == Some((ln, sc)) && LazyMatch(sc, {')', '/'}) == Some(g)
    ensures SplitCell(t) == Ok(Cell(ln, NormalGoals(g)))
  {
  }

  lemma FormattedStrip(caps: string, goals: int)
    requires caps != [] && !IsSpace(caps[0])
    ensures Strip(FormatCell(caps, goals)) == FormatCell(caps, goals)
  {
    var t := FormatCell(caps, goals);
    assert t[0] == caps[0] && t[|t| - 1] == ')';
    StripStable(t);
  }

  /** Normalising the typeset goals gives the signed decimal `int()` reads. */
  lemma NormalisedGoals(goals: int, from: set<char>)
    requires Minus in from && forall c :: c in from ==> !IsDigit(c)
    ensures MapChars(TypesetGoals(goals), from, '-') == SignedDecimal(goals)
  {
    var g := TypesetGoals(goals);
    var d := Decimal(if goals < 0 then -goals else goals);
    MapDecimal(if goals < 0 then -goals else goals, from);
    if goals < 0 {
      assert MapChars(g, from, '-')[1..] == MapChars(d, from, '-');
    }
  }

  /**
   * Reading a formatted cell back: the goals come back signed whatever the caps text is, and the
   * cell parser leaves the caps text as written.
   */
  lemma SplitFormatted(caps: string, goals: int)
    requires caps != [] && !IsSpace(caps[0]) && '(' !in caps
    ensures SplitCell(FormatCell(caps, goals)) == Ok(Cell(caps + " ", SignedDecimal(goals)))
  {
    var g := TypesetGoals(goals);
    assert '(' !in g && '\n' !in g && ')' !in g && '/' !in g;
    var t := FormatCell(caps, goals);
    assert t == (caps + " ") + ['('] + (g + [')'] + []);
    SplitPairAt(caps + " ", '(', g + [')'] + []);
    LazyMatchAt(g, ')', [], {')', '/'});
    TypesetGoalsNormal(goals);
    FormattedStrip(caps, goals);
    SplitCellSteps(t, caps + " ", g + [')'] + [], g);
  }

  /** The cell parser's goal normalisation turns typeset goals into the signed decimal. */
  lemma TypesetGoalsNormal(goals: int)
    ensures NormalGoals(TypesetGoals(goals)) == SignedDecimal(goals)
  {
    NormalisedGoals(goals, {Minus, EnDash});
    var d := SignedDecimal(goals);
    assert forall i :: 0 <= i < |d| ==> d[i] == '-' || IsDigit(d[i]);
  }

  /** Path A reads back a formatted club cell: its caps and its signed goals. */
  lemma ClubCellRoundTrip(caps: nat, goals: int)
    ensures ClubCellTally(FormatCell(Decimal(caps), goals)) == Ok(Tally(caps, goals))
  {
    var d := Decimal(caps);
    SplitFormatted(d, goals);
    CapsText(caps);
    SignedDecimalRoundTrip(goals);
    ClubCellOfDigits(FormatCell(d, goals), Cell(d + " ", SignedDecimal(goals)), goals);
  }

  /** The caps text the cell parser leaves, once stripped, reads back as the caps. */
  lemma CapsText(caps: nat)
    ensures Strip(Decimal(caps) + " ") == Decimal(caps) && DigitsValue(Decimal(caps)) == caps
  {
    var d := Decimal(caps);
    assert IsDigit(d[0]) && IsDigit(d[|d| - 1]);
    StripTrailingSpace(d);
    DecimalRoundTrip(caps);
  }

  lemma ClubCellOfDigits(text: string, c: Cell, g: int)
    requires SplitCell(text) == Ok(c) && IsDigits(Strip(c.caps)) && ParseInt(c.goals) == Some(g)
    ensures ClubCellTally(text) == Ok(Tally(DigitsValue(Strip(c.caps)), g))
  {
  }

  /**
   * Non-numeric caps (a dash, a question mark): path A drops the row's goals, the national scan
   * still adds them.
   */
  lemma NonNumericCaps(caps: string, goals: int)
    requires caps != [] && !IsSpace(caps[0]) && !IsSpace(caps[|caps| - 1]) && '(' !in caps && !IsDigit(caps[0])
    ensures ClubCellTally(FormatCell(caps, goals)) == Ok(Tally(0, 0))
    ensures NationalCellTally(FormatCell(caps, goals)) == Ok(Tally(0, goals))
  {
    SplitFormatted(caps, goals);
    StripTrailingSpace(caps);
    SignedDecimalRoundTrip(goals);
  }

  /** A cell written with an en dash before the goals reads them as negative, like the minus sign. */
  lemma EnDashCell(caps: string, n: nat)
    requires caps != [] && !IsSpace(caps[0]) && '(' !in caps
    ensures SplitCell(caps + " (" + ([EnDash] + Decimal(n)) + ")") == Ok(Cell(caps + " ", "-" + Decimal(n)))
  {
    var g := [EnDash] + Decimal(n);
    EnDashGoals(n);
    var t := caps + " (" + ([EnDash] + Decimal(n)) + ")";
    assert t == (caps + " ") + ['('] + (g + [')'] + []);
    SplitPairAt(caps + " ", '(', g + [')'] + []);
    LazyMatchAt(g, ')', [], {')', '/'});
    EnDashStrip(caps, g);
    SplitCellSteps(t, caps + " ", g + [')'] + [], g);
  }

  lemma EnDashGoals(n: nat)
    ensures var g := [EnDash] + Decimal(n);
      '(' !in g && ')' !in g && '/' !in g && '\n' !in g && NormalGoals(g) == "-" + Decimal(n)
  {
    var d := Decimal(n);
    var g := [EnDash] + d;
    assert forall i :: 0 <= i < |g| ==> g[i] == EnDash || IsDigit(g[i]);
    assert '?' !in g;
    var r := NormalGoals(g);
    assert |r| == |"-" + d|;
    assert forall i :: 0 <= i < |r| ==> r[i] == ("-" + d)[i];
  }

  lemma EnDashStrip(caps: string, g: string)
    requires caps != [] && !IsSpace(caps[0])
    ensures Strip(caps + " (" + g + ")") == caps + " (" + g + ")"
  {
    var t := caps + " (" + g + ")";
    assert t[0] == caps[0] && t[|t| - 1] == ')';
    StripStable(t);
  }

  /**
   * Path A on a cell whose caps are a decimal number: the caps and the goals `int()` reads are
   * added; with `EnDashCell` and `NegativeDecimal` this covers en-dash goals.
   */
  lemma DecimalCapsTally(text: string, caps: nat, goals: string, g: int)
    requires SplitCell(text) == Ok(Cell(Decimal(caps) + " ", goals)) && ParseInt(goals) == Some(g)
    ensures ClubCellTally(text) == Ok(Tally(caps, g))
  {
    CapsText(caps);
    ClubCellOfDigits(text, Cell(Decimal(caps) + " ", goals), g);
  }

  // ---------------------------------------------------------------- path A

  /** Index of the first row, from `i` on, whose text contains `marker`. */
  function FindRow(rows: seq<Row>, marker: string, i: nat): (r: Option<nat>)
    ensures r.Some? ==> i <= r.value < |rows| && Contains(RowText(rows[r.value]), marker)
    ensures r.Some? ==> forall k :: i <= k < r.value ==> !Contains(RowText(rows[k]), marker)
    ensures r.None? <==> forall k :: i <= k < |rows| ==> !Contains(RowText(rows[k]), marker)
    decreases |rows| - i
  {
    if i >= |rows| then None
    else if Contains(RowText(rows[i]), marker) then Some(i)
    else FindRow(rows, marker, i + 1)
  }

  /** What one row contributes to a scan: it ends the scan, is skipped, or adds a tally (or fails). */
  datatype Step = Stop | Skip | Counted(tally: Result<Tally, Error>)

  /**
   * The scan shared by path A and the national rows: from row `j` on, add up what each row
   * contributes until a row stops the scan or the rows run out; the first failure is the result.
   */
  function Run(step: Row -> Step, rows: seq<Row>, j: nat): (r: Result<Tally, Error>)
    decreases |rows| - j
  {
    if j >= |rows| then Ok(Tally(0, 0))
    else match step(rows[j])
      case Stop => Ok(Tally(0, 0))
      case Skip => Run(step, rows, j + 1)
      case Counted(Err(e)) => Err(e)
      case Counted(Ok(t)) => Add(t, Run(step, rows, j + 1))
  }

  /** A step never contributes negative caps. */
  ghost predicate CapsNonNegative(step: Row -> Step)
  {
    forall row :: step(row).Counted? && step(row).tally.Ok? ==> step(row).tally.value.caps >= 0
  }

  /** A scan whose rows never contribute negative caps has a non-negative caps total. */
  lemma {:induction false} RunCapsNonNegative(step: Row -> Step, rows: seq<Row>, j: nat)
    requires CapsNonNegative(step)
    ensures Run(step, rows, j).Ok? ==> Run(step, rows, j).value.caps >= 0
    decreases |rows| - j
  {
    if j < |rows| && !step(rows[j]).Stop? {
      RunCapsNonNegative(step, rows, j + 1);
    }
  }

  /** Rows after the first one that stops the scan are never read. */
  lemma {:induction false} RunStops(step: Row -> Step, rows: seq<Row>, j: nat, k: nat, extra: seq<Row>)
    requires j <= k < |rows| && step(rows[k]).Stop?
    ensures Run(step, rows, j) == Run(step, rows[..k + 1] + extra, j)
    decreases k - j
  {
    var rows' := rows[..k + 1] + extra;
    assert rows'[j] == rows[j];
    if j < k {
      RunStops(step, rows, j + 1, k, extra);
    }
  }

  /** Path A, one row: it stops the scan when it has no third `td`. */
  function ClubStep(row: Row): Step
  {
    match NthTd(row, 3)
    case None => Stop
    case Some(k) => Counted(ClubCellTally(row.children[k].text))
  }

  lemma ClubStepCaps()
    ensures CapsNonNegative(ClubStep)
  {
  }

  /**
   * Path A: the rows after the "club career" row. A page without that row, or with it as the
   * last row, fails like the index past the end in the source.
   */
  function ClubRowTally(rows: seq<Row>): (r: Result<Tally, Error>)
    ensures r.Ok? ==> r.value.caps >= 0
  {
    match FindRow(rows, ClubCareer, 0)
    case None => Err(MissingSection(ClubCareer))
    case Some(m) =>
      if m + 1 >= |rows| then Err(MissingSection(ClubCareer))
      else ClubStepCaps(); RunCapsNonNegative(ClubStep, rows, m + 1); Run(ClubStep, rows, m + 1)
  }

  /** Without a "club career" row, path A fails. */
  lemma ClubMarkerMissing(rows: seq<Row>)
    requires forall k :: 0 <= k < |rows| ==> !Contains(RowText(rows[k]), ClubCareer)
    ensures ClubRowTally(rows) == Err(MissingSection(ClubCareer))
  {
    assert FindRow(rows, ClubCareer, 0).None?;
  }

  /** With the "club career" row as the last row, the row after it does not exist: path A fails. */
  lemma ClubMarkerLast(rows: seq<Row>)
    requires rows != [] && Contains(RowText(rows[|rows| - 1]), ClubCareer)
    requires forall k :: 0 <= k < |rows| - 1 ==> !Contains(RowText(rows[k]), ClubCareer)
    ensures ClubRowTally(rows) == Err(MissingSection(ClubCareer))
  {
    assert FindRow(rows, ClubCareer, 0) == Some(|rows| - 1);
  }

  /** `_find_club_caps`, lines 105-129: the marker search and the accumulating scan. */
  method ScanClubRows(rows: seq<Row>) returns (r: Result<Tally, Error>)
    ensures r == ClubRowTally(rows)
  {
    var i := 0;
    while i < |rows| && !Contains(RowText(rows[i]), ClubCareer)
      invariant i <= |rows|
      invariant FindRow(rows, ClubCareer, 0) == FindRow(rows, ClubCareer, i)
    {
      i := i + 1;
    }
    if i == |rows| {
      return Err(MissingSection(ClubCareer));
    }
    i := i + 1;
    if i >= |rows| {
      return Err(MissingSection(ClubCareer));
    }
    r := ScanRun(ClubStep, rows, i);
  }

  /**
   * The accumulating loop shared by lines 115-129 and 190-205: from row `start` on, ask each
   * row what it contributes, stop at the first row that ends the scan, skip the rows to skip,
   * and return at the first failure.
   */
  method ScanRun(step: Row -> Step, rows: seq<Row>, start: nat) returns (r: Result<Tally, Error>)
    ensures r == Run(step, rows, start)
  {
    var caps, goals := 0, 0;
    var i := start;
    while i < |rows|
      invariant Run(step, rows, start).Ok? == Run(step, rows, i).Ok?
      invariant Run(step, rows, start).Err? ==> Run(step, rows, start) == Run(step, rows, i)
      invariant Run(step, rows, start).Ok? ==> Run(step, rows, start).value.caps == caps + Run(step, rows, i).value.caps
      invariant Run(step, rows, start).Ok? ==> Run(step, rows, start).value.goals == goals + Run(step, rows, i).value.goals
      decreases |rows| - i
    {
      var s := step(rows[i]);
      if s.Stop? {
        break;
      }
      if s.Counted? {
        if s.tally.Err? {
          return Err(s.tally.error);
        }
        caps, goals := caps + s.tally.value.caps, goals + s.tally.value.goals;
      }
      i := i + 1;
    }
    r := Ok(Tally(caps, goals));
  }

  // ---------------------------------------------------------------- path B

  /** The texts of the `th` children of a row: `row.select("th")`. */
  function HeaderTexts(ns: seq<Node>): (hs: seq<string>)
    ensures |hs| <= |ns|
    ensures forall i :: 0 <= i < |hs| ==> Elem("th", hs[i]) in ns
    ensures (forall k :: 0 <= k < |ns| ==> !(ns[k].Elem? && ns[k].tag == "th")) ==> hs == []
  {
    if ns == [] then []
    else HeaderTexts(ns[..|ns| - 1]) + (if ns[|ns| - 1].Elem? && ns[|ns| - 1].tag == "th" then [ns[|ns| - 1].text] else [])
  }

  /** The headers of a row are those of its first part followed by those of the rest. */
  lemma {:induction false} HeaderTextsAppend(a: seq<Node>, b: seq<Node>)
    ensures HeaderTexts(a + b) == HeaderTexts(a) + HeaderTexts(b)
  {
    if b == [] {
      assert a + b == a;
    } else {
      assert (a + b)[..|a + b| - 1] == a + b[..|b| - 1];
      HeaderTextsAppend(a, b[..|b| - 1]);
    }
  }

  /** A header row with "Клуб" (after stripping) as its first or second header cell. */
  predicate IsClubHeader(r: Row)
  {
    var hs := HeaderTexts(r.children);
    |hs| >= 2 && (Strip(hs[0]) == ClubLabel || Strip(hs[1]) == ClubLabel)
  }

  /** Some row of the table is a club header row. */
  predicate HasClubHeader(rows: seq<Row>)
  {
    rows != [] && (IsClubHeader(rows[0]) || HasClubHeader(rows[1..]))
  }

  /** Index of the last element child. */
  function LastElement(ns: seq<Node>): (r: Option<nat>)
    ensures r.Some? ==> r.value < |ns| && ns[r.value].Elem?
    ensures r.Some? ==> forall i :: r.value < i < |ns| ==> ns[i].Str?
    ensures r.None? ==> forall i :: 0 <= i < |ns| ==> ns[i].Str?
  {
    if ns == [] then None
    else if ns[|ns| - 1].Elem? then Some(|ns| - 1)
    else LastElement(ns[..|ns| - 1])
  }

  /** `select_one("th:last-child")`, falling back to `select_one("td:last-child")`. */
  function LastCell(r: Row): (k: Option<nat>)
    ensures k.Some? ==> k.value < |r.children| && r.children[k.value].Elem?
    ensures k.Some? ==> r.children[k.value].tag == "th" || r.children[k.value].tag == "td"
    ensures k.Some? ==> forall i :: k.value < i < |r.children| ==> r.children[i].Str?
    ensures k.None? <==> (|| (forall i :: 0 <= i < |r.children| ==> r.children[i].Str?)
                          || exists i :: && 0 <= i < |r.children| && r.children[i].Elem?
                                         && r.children[i].tag != "th" && r.children[i].tag != "td"
                                         && forall j :: i < j < |r.children| ==> r.children[j].Str?)
  {
    match LastElement(r.children)
    case None => None
    case Some(k) => if r.children[k].tag == "th" || r.children[k].tag == "td" then Some(k) else None
  }

  /** `t = t.previous_sibling`, and once more if that was a text node; `None` when the chain ends. */
  function StepBack(ns: seq<Node>, i: nat): (r: Option<nat>)
    requires i < |ns|
    ensures r.Some? ==> r.value < i
    ensures i >= 1 && ns[i - 1].Elem? ==> r == Some(i - 1)
    ensures i >= 2 && ns[i - 1].Str? ==> r == Some(i - 2)
    ensures i == 0 || (i == 1 && ns[0].Str?) ==> r == None
  {
    if i == 0 then None
    else if ns[i - 1].Elem? then Some(i - 1)
    else if i == 1 then None
    else Some(i - 2)
  }

  /** `t = t.next_sibling`, and once more if that was a text node. */
  function StepForward(ns: seq<Node>, i: nat): (r: Option<nat>)
    requires i < |ns|
    ensures r.Some? ==> i < r.value < |ns|
    ensures i + 1 < |ns| && ns[i + 1].Elem? ==> r == Some(i + 1)
    ensures i + 2 < |ns| && ns[i + 1].Str? ==> r == Some(i + 2)
    ensures i + 1 == |ns| || (i + 2 == |ns| && ns[i + 1].Str?) ==> r == None
  {
    if i + 1 >= |ns| then None
    else if ns[i + 1].Elem? then Some(i + 1)
    else if i + 2 >= |ns| then None
    else Some(i + 2)
  }

  /** Index of the caps cell: the element before the last cell, or one further back when that one holds a dash. */
  function CapsCellIndex(ns: seq<Node>, last: nat): (r: Option<nat>)
    requires last < |ns|
    ensures r.Some? ==> r.value < last
    ensures StepBack(ns, last).None? ==> r.None?
    ensures forall p :: StepBack(ns, last) == Some(p) && Minus !in ns[p].text && '-' !in ns[p].text ==> r == Some(p)
    ensures forall p :: StepBack(ns, last) == Some(p) && (Minus in ns[p].text || '-' in ns[p].text) ==> r == StepBack(ns, p)
  {
    match StepBack(ns, last)
    case None => None
    case Some(p) => if Minus in ns[p].text || '-' in ns[p].text then StepBack(ns, p) else Some(p)
  }

  /** Lines 141-160: caps and goals of the summary (last) row of the club table. */
  function SummaryTally(r: Row): (t: Result<Tally, Error>)
    ensures LastCell(r).None? ==> t == Err(MissingField("last cell"))
    ensures t.Ok? ==> && LastCell(r).Some? && CapsCellIndex(r.children, LastCell(r).value).Some?
                      && StepForward(r.children, CapsCellIndex(r.children, LastCell(r).value).value).Some?
    ensures t.Err? ==> t.error == MissingField("last cell") || t.error == MissingSibling || t.error.MalformedCell?
  {
    var ns := r.children;
    match LastCell(r)
    case None => Err(MissingField("last cell"))
    case Some(last) =>
      match CapsCellIndex(ns, last)
      case None => Err(MissingSibling)
      case Some(c) =>
        match (if '?' in ns[c].text then Some(0) else ParseInt(Strip(ns[c].text)))
        case None => Err(MalformedCell(ns[c].text))
        case Some(caps) =>
          match StepForward(ns, c)
          case None => Err(MissingSibling)
          case Some(g) =>
            if '?' in ns[g].text then Ok(Tally(caps, 0))
            else match ParseInt(MapChars(Strip(ns[g].text), {Minus, '-'}, '-'))
              case None => Err(MalformedCell(ns[g].text))
              case Some(goals) => Ok(Tally(caps, goals))
  }

  /** Path B: the summary row of the first table with a club header row; zeros when there is none. */
  function ClubSummary(tables: seq<seq<Row>>): (r: Result<Tally, Error>)
  {
    if tables == [] then Ok(Tally(0, 0))
    else if HasClubHeader(tables[0]) then SummaryTally(tables[0][|tables[0]| - 1])
    else ClubSummary(tables[1..])
  }

  /** A career summary row: a label, then caps and goals cells, with whitespace text between them. */
  function SummaryRow(heading: string, caps: nat, goals: int): Row
  {
    Row([Elem("th", heading), Str("\n"), Elem("td", Decimal(caps)), Str("\n"), Elem("td", TypesetGoals(goals))])
  }

  /**
   * Path B reads back a summary row: the caps from the cell before the last (the text nodes
   * between cells are stepped over) and the signed goals from the last cell.
   */
  lemma SummaryRoundTrip(heading: string, caps: nat, goals: int)
    ensures SummaryTally(SummaryRow(heading, caps, goals)) == Ok(Tally(caps, goals))
  {
    var r := SummaryRow(heading, caps, goals);
    var ns := r.children;
    CapsCellReads(caps);
    assert LastCell(r) == Some(4);
    assert CapsCellIndex(ns, 4) == Some(2);
    assert StepForward(ns, 2) == Some(4);
    GoalsCellReads(goals);
    SummaryTallySteps(r, 4, 2, 4, caps, goals);
  }

  /** A summary row with one more column after the goals, as tables with a goal difference have. */
  function DashSummaryRow(heading: string, caps: nat, goals: int, extra: string): Row
  {
    Row([Elem("th", heading), Str("\n"), Elem("td", Decimal(caps)), Str("\n"),
         Elem("td", TypesetGoals(goals)), Str("\n"), Elem("td", extra)])
  }

  /**
   * When the goals are conceded (written with a typographic minus) and another column follows,
   * the dash sends path B one cell further back, so it still reads the caps and the signed goals.
   */
  lemma SummaryDashColumn(heading: string, caps: nat, goals: int, extra: string)
    requires goals < 0
    ensures SummaryTally(DashSummaryRow(heading, caps, goals, extra)) == Ok(Tally(caps, goals))
  {
    var r := DashSummaryRow(heading, caps, goals, extra);
    var ns := r.children;
    CapsCellReads(caps);
    assert LastCell(r) == Some(6);
    assert ns[4].text[0] == Minus;
    assert CapsCellIndex(ns, 6) == Some(2);
    assert StepForward(ns, 2) == Some(4);
    GoalsCellReads(goals);
    SummaryTallySteps(r, 6, 2, 4, caps, goals);
  }

  /** A summary row with "?" for both caps and goals reads as zero caps and zero goals. */
  lemma SummaryUnknown(heading: string)
    ensures SummaryTally(Row([Elem("th", heading), Str("\n"), Elem("td", "?"), Str("\n"), Elem("td", "?")])) == Ok(Tally(0, 0))
  {
    var r := Row([Elem("th", heading), Str("\n"), Elem("td", "?"), Str("\n"), Elem("td", "?")]);
    var ns := r.children;
    assert LastCell(r) == Some(4);
    assert CapsCellIndex(ns, 4) == Some(2);
    assert StepForward(ns, 2) == Some(4);
  }

  lemma CapsCellReads(caps: nat)
    ensures var d := Decimal(caps); Minus !in d && '-' !in d && '?' !in d && ParseInt(Strip(d)) == Some(caps)
  {
    var d := Decimal(caps);
    assert Minus !in d && '-' !in d && '?' !in d by {
      assert forall i :: 0 <= i < |d| ==> IsDigit(d[i]);
    }
    SignedDecimalRoundTrip(caps);
    ParseIntStrip(d);
  }

  lemma GoalsCellReads(goals: int)
    ensures '?' !in TypesetGoals(goals)
    ensures ParseInt(MapChars(Strip(TypesetGoals(goals)), {Minus, '-'}, '-')) == Some(goals)
  {
    GoalsStrip(goals);
    NormalisedGoals(goals, {Minus, '-'});
    SignedDecimalRoundTrip(goals);
  }

  lemma GoalsStrip(goals: int)
    ensures '?' !in TypesetGoals(goals)
    ensures Strip(TypesetGoals(goals)) == TypesetGoals(goals)
  {
    var g := TypesetGoals(goals);
    assert !IsSpace(g[0]) && !IsSpace(g[|g| - 1]);
    StripStable(g);
  }

  /** The summary-row reader, step by step. */
  lemma SummaryTallySteps(r: Row, last: nat, c: nat, g: nat, caps: int, goals: int)
    requires LastCell(r) == Some(last) && CapsCellIndex(r.children, last) == Some(c)
    requires '?' !in r.children[c].text && ParseInt(Strip(r.children[c].text)) == Some(caps)
    requires StepForward(r.children, c) == Some(g) && '?' !in r.children[g].text
    requires ParseInt(MapChars(Strip(r.children[g].text), {Minus, '-'}, '-')) == Some(goals)
    ensures SummaryTally(r) == Ok(Tally(caps, goals))
  {
  }

  /** `for t in tables` of lines 134-161: the first row that is a club header decides. */
  method FindClubSummary(tables: seq<seq<Row>>) returns (r: Result<Tally, Error>)
    ensures r == ClubSummary(tables)
  {
    for ti := 0 to |tables|
      invariant ClubSummary(tables) == ClubSummary(tables[ti..])
    {
      var rows := tables[ti];
      for ri := 0 to |rows|
        invariant HasClubHeader(rows) == HasClubHeader(rows[ri..])
      {
        assert rows[ri..][1..] == rows[ri + 1..];
        if IsClubHeader(rows[ri]) {
          return SummaryTally(rows[|rows| - 1]);
        }
      }
      assert rows[|rows|..] == [];
      assert tables[ti..][1..] == tables[ti + 1..];
    }
    assert tables[|tables|..] == [];
    r := Ok(Tally(0, 0));
  }

  /** `HasClubHeader` holds exactly when some row of the table is a club header. */
  lemma {:induction false} HasClubHeaderSpec(rows: seq<Row>)
    ensures HasClubHeader(rows) <==> exists i :: 0 <= i < |rows| && IsClubHeader(rows[i])
  {
    if rows != [] {
      HasClubHeaderSpec(rows[1..]);
      assert forall i :: 1 <= i < |rows| ==> rows[i] == rows[1..][i - 1];
    }
  }

  /** Path B finds nothing when no table has a club header row: the zeros it starts from. */
  lemma {:induction false} ClubSummaryNoHeader(tables: seq<seq<Row>>)
    requires forall i :: 0 <= i < |tables| ==> !HasClubHeader(tables[i])
    ensures ClubSummary(tables) == Ok(Tally(0, 0))
  {
    if tables != [] {
      ClubSummaryNoHeader(tables[1..]);
    }
  }

  /** The first table with a club header row decides: path B reads that table's last row. */
  lemma ClubSummaryFirst(tables: seq<seq<Row>>, i: nat)
    requires i < |tables| && HasClubHeader(tables[i])
    requires forall j :: 0 <= j < i ==> !HasClubHeader(tables[j])
    ensures tables[i] != [] && ClubSummary(tables) == SummaryTally(tables[i][|tables[i]| - 1])
  {
    ClubSummarySkip(tables, i);
    ClubSummaryHead(tables[i..]);
  }

  lemma ClubSummaryHead(tables: seq<seq<Row>>)
    requires tables != [] && HasClubHeader(tables[0])
    ensures tables[0] != [] && ClubSummary(tables) == SummaryTally(tables[0][|tables[0]| - 1])
  {
  }

  /** Tables without a club header row are passed over. */
  lemma {:induction false} ClubSummarySkip(tables: seq<seq<Row>>, i: nat)
    requires i <= |tables|
    requires forall j :: 0 <= j < i ==> !HasClubHeader(tables[j])
    ensures ClubSummary(tables) == ClubSummary(tables[i..])
  {
    if i > 0 {
      ClubSummarySkip(tables[1..], i - 1);
      assert tables[1..][i - 1..] == tables[i..];
    }
  }

  // ---------------------------------------------------------------- national team

  /**
   * National scan, one row: it stops the scan when it has no second `td`, is skipped when that
   * cell holds "до", and otherwise reads the element after the second cell.
   */
  function NationalStep(row: Row): Step
  {
    match NthTd(row, 2)
    case None => Stop
    case Some(k) =>
      if Contains(row.children[k].text, Pending) then Skip
      else match StepForward(row.children, k)
        case None => Counted(Err(MissingSibling))
        case Some(n) => Counted(NationalCellTally(row.children[n].text))
  }

  lemma NationalStepCaps()
    ensures CapsNonNegative(NationalStep)
  {
  }

  /**
   * `_find_national_caps`: an empty infobox fails (the source reads the first row before the
   * search); a page without the national-team row has all zeros.
   */
  function NationalRowTally(rows: seq<Row>): (r: Result<Tally, Error>)
    ensures r.Ok? ==> r.value.caps >= 0
    ensures rows == [] ==> r == Err(MissingSection(NationalTeam))
  {
    if rows == [] then Err(MissingSection(NationalTeam))
    else match FindRow(rows, NationalTeam, 0)
      case None => Ok(Tally(0, 0))
      case Some(m) =>
        if m + 1 >= |rows| then Err(MissingSection(NationalTeam))
        else NationalStepCaps(); RunCapsNonNegative(NationalStep, rows, m + 1); Run(NationalStep, rows, m + 1)
  }

  /** A page with rows but no "national team" row has played no international matches. */
  lemma NationalMarkerMissing(rows: seq<Row>)
    requires rows != [] && forall k :: 0 <= k < |rows| ==> !Contains(RowText(rows[k]), NationalTeam)
    ensures NationalRowTally(rows) == Ok(Tally(0, 0))
  {
    assert FindRow(rows, NationalTeam, 0).None?;
  }

  /** With the "national team" row as the last row, the row after it does not exist: the scan fails. */
  lemma NationalMarkerLast(rows: seq<Row>)
    requires rows != [] && Contains(RowText(rows[|rows| - 1]), NationalTeam)
    requires forall k :: 0 <= k < |rows| - 1 ==> !Contains(RowText(rows[k]), NationalTeam)
    ensures NationalRowTally(rows) == Err(MissingSection(NationalTeam))
  {
    assert FindRow(rows, NationalTeam, 0) == Some(|rows| - 1);
  }

  /** A row whose second cell holds "до" (a youth side) adds nothing, and the scan goes on after it. */
  lemma NationalSkipsPending(rows: seq<Row>, j: nat, k: nat)
    requires j < |rows| && NthTd(rows[j], 2) == Some(k) && Contains(rows[j].children[k].text, Pending)
    ensures Run(NationalStep, rows, j) == Run(NationalStep, rows, j + 1)
  {
  }

  /** Lines 172-205: the marker search and the accumulating scan of the national rows. */
  method ScanNationalRows(rows: seq<Row>) returns (r: Result<Tally, Error>)
    ensures r == NationalRowTally(rows)
  {
    if rows == [] {
      return Err(MissingSection(NationalTeam));
    }
    var i := 0;
    while !Contains(RowText(rows[i]), NationalTeam)
      invariant i < |rows|
      invariant FindRow(rows, NationalTeam, 0) == FindRow(rows, NationalTeam, i)
      decreases |rows| - i
    {
      i := i + 1;
      if i >= |rows| {
        return Ok(Tally(0, 0));
      }
    }
    i := i + 1;
    if i >= |rows| {
      return Err(MissingSection(NationalTeam));
    }
    r := ScanRun(NationalStep, rows, i);
  }

  // ---------------------------------------------------------------- reconciliation

  function Max(a: int, b: int): int { if a >= b then a else b }
  function Min(a: int, b: int): int { if a <= b then a else b }
  function Abs(a: int): int { if a < 0 then -a else a }

  /**
   * Lines 163-169. Caps are the larger of the two sources. A negative goal total in either
   * source means conceded goals (the more negative one, made positive); otherwise goals
   * scored (the larger total).
   */
  function ReconcileClub(a: Tally, b: Tally): (r: Totals)
    ensures r.caps >= a.caps && r.caps >= b.caps && (r.caps == a.caps || r.caps == b.caps)
    ensures r.scored >= 0 && r.conceded >= 0 && (r.scored == 0 || r.conceded == 0)
    ensures r.conceded > 0 <==> a.goals < 0 || b.goals < 0
    ensures r.scored > 0 <==> a.goals >= 0 && b.goals >= 0 && (a.goals > 0 || b.goals > 0)
    ensures r.conceded >= -a.goals && r.conceded >= -b.goals
    ensures a.goals < 0 || b.goals < 0 ==> r.scored == 0 && (r.conceded == -a.goals || r.conceded == -b.goals)
    ensures a.goals >= 0 && b.goals >= 0 ==> r.conceded == 0 && r.scored >= a.goals && r.scored >= b.goals
                                             && (r.scored == a.goals || r.scored == b.goals)
  {
    var caps := Max(a.caps, b.caps);
    if a.goals < 0 || b.goals < 0 then Totals(caps, 0, Abs(Min(b.goals, a.goals)))
    else Totals(caps, Max(a.goals, b.goals), 0)
  }

  /** Lines 207-213: the caps sum as it is; the goal sum by its sign. */
  function ReconcileNational(t: Tally): (r: Totals)
    ensures r.caps == t.caps
    ensures r.scored >= 0 && r.conceded >= 0 && (r.scored == 0 || r.conceded == 0)
    ensures r.scored - r.conceded == t.goals
  {
    if t.goals < 0 then Totals(t.caps, 0, Abs(t.goals)) else Totals(t.caps, t.goals, 0)
  }

  /** Goal totals of zero give zero scored and zero conceded: only "at least one is zero" holds. */
  lemma BothZero(a: nat, b: nat)
    ensures ReconcileClub(Tally(a, 0), Tally(b, 0)) == Totals(Max(a, b), 0, 0)
    ensures ReconcileNational(Tally(a, 0)) == Totals(a, 0, 0)
  {
  }

  /** A goalkeeper seen with 10 caps and -3 in the rows and 12 caps and -2 in the summary table. */
  lemma GoalkeeperExample()
    ensures ReconcileClub(Tally(10, -3), Tally(12, -2)) == Totals(12, 0, 3)
  {
  }
}
