# CssParser: a verified model of the football-wiki page parser

This project models `CssParser` in `parsers/parser.py`, the page parser of a crawler for
football player pages of a Russian-language wiki. Each call of `parse` receives one page and
its URL and does one of three things, depending on the infobox's `data-name` marker:

- **A competition page** (the marker contains "Соревнование") empties the parser's team
  registry. It returns the links in the first column of its standard tables, resolved against
  the page's origin.
- **A national-team page** (the marker contains "Сборная") walks from the "Текущий_состав"
  (or "Состав") and "Недавние_вызовы" headers to the next table. It collects the
  third-column player links, drops `index.php` links and resolves the rest. It registers each
  link under the team name taken from the page URL.
- **Any other page** is a player page. It becomes a record with these parts:
  - the name, family name first;
  - height, position and current club;
  - club caps and goals, reconciled from the infobox rows and the career summary table;
  - national-team caps and goals;
  - the national team, read from the registry and then deleted from it;
  - the birth date as a Unix timestamp.

The HTML document is replaced by value datatypes (`Document.Page`). These hold exactly the
parts the CSS selectors read: rows as sequences of element and text nodes, the sibling chains
after the roster headers, and the labelled infobox fields.

The class `Parser.CssParser` keeps the registry as a `map` field. Each of its methods is
proved equal to a pure function of the page and the old registry (`Parser.Outcome`,
`Parser.PlayerStep`). Lemmas then state what those functions promise across pages: a team page
registers its players, a player page consumes its own entry, and a competition page resets
everything.

Modules:
- `Wrappers`: `Option` and `Result`.
- `Text`: Python string operations and regular expressions on `seq<char>`.
- `Document`: the page datatypes and the error reasons.
- `Classifier`: the page kind.
- `Registry`: the team map.
- `Links`: competition and team link harvesting.
- `Stats`: caps and goals.
- `Normalise`: name, height and birth date.
- `Parser`: the class and the page-level properties.

### Where this model follows the code rather than the documented design

- The design describes the club and national goals as "scored or conceded, exactly one of
  them". The code gives both as 0 when the goal total is 0. The model follows the code and
  proves only "at least one of them is zero" (`Stats.BothZero`).
- The design says a failed page leaves the registry intact. The code deletes the player's
  entry (line 217) before the birth date is parsed (line 80). A player page whose birth date
  does not parse therefore fails and also loses its entry (`Parser.BadBirthLosesEntry`).
- The name is cut at the last "(" (`rfind`), not the first.

## Model

| member | source | states |
|---|---|---|
| `Parser.CssParser.constructor` | parsers/parser.py:9-10 | a new parser starts with an empty registry |
| `Parser.CssParser.Parse` | parsers/parser.py:12-23 | the result and the new registry are those of `Outcome`: no marker fails and keeps the registry; otherwise the competition keyword is checked first, then the team keyword, and every other page is a player page |
| `Parser.Outcome` | parsers/parser.py:12-23 | specification of `parse` (no contract of its own): its result and registry are stated through `Parser.CssParser.Parse`, `Parser.NoMarkerKeepsRegistry`, `Parser.CompetitionResets`, `Parser.TeamRegisters` and `Parser.PlayerNeverRegisters` |
| `Parser.CssParser.ParseCompetition` | parsers/parser.py:25-33 | the registry is emptied; the links are the resolved first-column hrefs, one per anchor, in order |
| `Parser.CompetitionLinks` | parsers/parser.py:27-32 | specification of the competition links (no contract of its own): `Parser.CssParser.ParseCompetition` and `Parser.CompetitionResets` state that these are the resolved first-column hrefs |
| `Parser.CssParser.ParseTeam` | parsers/parser.py:35-67 | on success the links are the resolved roster hrefs and each is registered under the team name from the URL; on failure the registry is unchanged |
| `Parser.CssParser.RegisterLinks` | parsers/parser.py:64-65 | the registry afterwards is the old one with every link set to the team name, in list order |
| `Parser.CssParser.FindNationalTeam` | parsers/parser.py:215-217 | succeeds exactly when the URL is registered, returns its team and removes exactly that entry; otherwise fails and changes nothing |
| `Parser.CssParser.ParsePlayer` | parsers/parser.py:69-82 | the record or error and the new registry are those of `PlayerStep`: name, fields, height, club caps, national caps, team, birth, in that order, with the first failure deciding |
| `Parser.Resolve` | parsers/parser.py:31 | one link per href, in order, each the href joined to the page's origin |
| `Parser.TeamLinks` | parsers/parser.py:61 | the team page yields links exactly when its sibling walks succeed |
| `Parser.TeamOf` | parsers/parser.py:63 | specification of the team name of a team URL (no contract of its own): `Parser.TeamRegisters` states every link is registered under it, `Parser.TeamThenPlayer` that the player record then carries it |
| `Parser.ReadTexts` | parsers/parser.py:84-95 | the texts are read exactly when the name and all four labelled fields are present; a missing one is a missing-field error, the name checked first |
| `Parser.Statistics` | parsers/parser.py:77-78 | club and national caps are non-negative; goals scored and conceded are non-negative with at least one of them zero |
| `Parser.NoMarkerKeepsRegistry` | parsers/parser.py:15 | a page without the infobox marker fails and leaves the registry as it was |
| `Parser.CompetitionResets` | parsers/parser.py:17-18 | a competition page never fails, yields no record, one link per anchor and an empty registry |
| `Parser.TeamRegisters` | parsers/parser.py:20-21 | after a team page the registry's keys are the old keys plus the links, every link maps to the team name and every other entry is kept; a failing team page keeps the registry |
| `Parser.SourceBounded` | parsers/parser.py:69-82 | the parser's own readers give non-negative heights and totals with at most one non-zero goal count, and fail on a birth date only with the date error |
| `Parser.PlayerNeverRegisters` | parsers/parser.py:69-82 | whatever the field readers return, a player page never adds entries: the registry is unchanged or has lost exactly the page's own URL |
| `Parser.PipelineRecord` | parsers/parser.py:69-82 | for any readers bounded as above, a player record carries the page URL, a non-negative height and bounded totals, names the team registered for that URL, and the registry has lost exactly that URL |
| `Parser.Pipeline` | parsers/parser.py:69-82 | specification of `_parse_player` over given readers (no contract of its own): stated by `Parser.PipelineRecord`, `Parser.BadBirthLosesEntry` and `Parser.UnregisteredPlayer` |
| `Parser.PlayerStep` | parsers/parser.py:69-82 | `Parser.Pipeline` with this parser's readers (no contract of its own): stated by `Parser.PlayerRecordSpec`, `Parser.TeamThenPlayer` and `Parser.CssParser.ParsePlayer` |
| `Parser.PlayerRecordSpec` | parsers/parser.py:69-82 | a player record carries the page URL, a non-negative height, the team registered for that URL (now removed), non-negative caps, and at most one non-zero goal count per side |
| `Parser.BadBirthLosesEntry` | parsers/parser.py:79-80 | whatever the field readers return, when only the birth date fails, the page fails with that error and its registry entry is still gone |
| `Parser.UnregisteredPlayer` | parsers/parser.py:79 | whatever the field readers return, a player page whose URL no team registered fails with the unknown-player error once its statistics are read |
| `Parser.TeamThenPlayer` | parsers/parser.py:64-65 | after a team page lists a player, that player's page names the team, can fail only on the birth date, removes the entry, and a second read of it fails |
| `Classifier.Classify` | parsers/parser.py:17-23 | competition iff the marker contains "Соревнование"; team iff it contains "Сборная" but not that; player otherwise |
| `Classifier.CompetitionWins` | parsers/parser.py:17-21 | a marker containing both keywords, in either order, is a competition |
| `Registry.RegisterAllSpec` | parsers/parser.py:64-65 | registering grows the keys by exactly the links, maps each link to the name and keeps every other entry |
| `Registry.RegisterStep` | parsers/parser.py:64-65 | registering one more link adds exactly that assignment |
| `Registry.Consume` | parsers/parser.py:215-217 | succeeds iff the URL is a key; returns its value and a map without exactly that key, other values kept; fails with the unknown-player error otherwise |
| `Registry.ConsumeAtMostOnce` | parsers/parser.py:215-217 | consuming the same URL twice fails the second time |
| `Registry.ConsumeAfterRegister` | parsers/parser.py:64-65 | a registered link can be consumed and yields the latest team name |
| `Document.NthElement` | parsers/parser.py:115 | the element with `n - 1` elements before it, found exactly when the row has at least `n` elements |
| `Document.NthTd` | parsers/parser.py:187 | the `n`-th element child when it is a `td`; none exactly when there are fewer than `n` elements or the `n`-th is not a `td` |
| `Document.ElementCountAppend` | parsers/parser.py:115 | counting element children distributes over concatenation |
| `Links.CompetitionHrefs` | parsers/parser.py:27-29 | one href per anchor in order; a missing `href` gives the empty reference, which `urljoin` resolves to the origin |
| `Links.FindSpan` | parsers/parser.py:39-44 | the first span in document order whose id starts with the prefix, or none when no span does |
| `Links.Sections` | parsers/parser.py:38-46 | one chain per header found: the current roster's first, or the generic roster's when there is no current-roster header; the recent call-ups' last |
| `Links.FirstTable` | parsers/parser.py:50-51 | the first sibling that is a `table`, every earlier one not; none when the chain has no table |
| `Links.BodyHrefs` | parsers/parser.py:53-57 | succeeds iff no row's third-column anchor lacks an `href`; no kept link contains `index.php` |
| `Links.BodyHrefsSound` | parsers/parser.py:53-57 | every kept link is the third-column href of some row |
| `Links.BodyHrefsComplete` | parsers/parser.py:53-57 | every row's third-column href that is not an index link is kept |
| `Links.BodyHrefsAppend` | parsers/parser.py:53-58 | links keep row order: two runs of rows give their two link lists concatenated |
| `Links.SectionsHrefs` | parsers/parser.py:48-58 | the sections' links concatenated, none an index link |
| `Links.SectionsHrefsErrPrefix` | parsers/parser.py:49-58 | the first failing section decides the result; later sections are never read |
| `Links.SectionsHrefsPair` | parsers/parser.py:49-58 | two readable sections give the first section's links followed by the second's |
| `Links.TeamHrefsBothSections` | parsers/parser.py:38-58 | with both headers, the links are the current roster's followed by the recent call-ups', none an index link |
| `Links.TeamHrefsNoSections` | parsers/parser.py:38-58 | with no roster header at all, a team page yields no links and no error |
| `Links.TeamHrefsFallback` | parsers/parser.py:38-58 | with only the generic roster header, that section alone decides the links or the error |
| `Links.HarvestSection` | parsers/parser.py:49-57 | one pass of the section loop computes `SectionHrefs`: the kept links of the first table, or the missing-sibling or missing-`tbody` error |
| `Links.SectionHrefs` | parsers/parser.py:49-57 | specification of one section's links (no contract of its own): `Links.HarvestSection` states the loop computes it, `Links.SectionsHrefsPair` and `Links.SectionsHrefsErrPrefix` how sections combine |
| `Links.HarvestTeamLinks` | parsers/parser.py:48-58 | the loop's result equals `TeamHrefs`: the concatenated section links or the first section's error |
| `Links.TeamHrefs` | parsers/parser.py:38-58 | specification of the team page's hrefs (no contract of its own): stated by `Links.HarvestTeamLinks`, `Links.TeamHrefsBothSections`, `Links.TeamHrefsFallback` and `Links.TeamHrefsNoSections` |
| `Links.LastSegment` | parsers/parser.py:63 | the text after the last "/", or the whole URL when it has none |
| `Links.ReplaceUnderscore` | parsers/parser.py:63 | replacing "_" by " " leaves no underscore and keeps the length |
| `Links.TeamNameSpec` | parsers/parser.py:63 | the team name is the stripped last URL segment with underscores as spaces, and has no underscore |
| `Links.TeamName` | parsers/parser.py:63 | specification of the team's display name (no contract of its own): stated by `Links.TeamNameSpec` and `Links.ReplaceUnderscore` |
| `Stats.SplitCell` | parsers/parser.py:117-121 | the caps are the stripped text before its one "(", which they do not contain; the goals are "0" or free of "?", U+2212 and U+2013; any failure is the malformed-cell error of that text |
| `Stats.SplitCellDefined` | parsers/parser.py:117-119 | a cell reads exactly when its stripped text holds one "(" with a ")" or "/" somewhere after it |
| `Stats.NormalGoals` | parsers/parser.py:119-121 | a goals text holding "?" reads "0"; otherwise each U+2212 and U+2013 becomes "-" and every other character is kept |
| `Stats.ClubCellTally` | parsers/parser.py:117-124 | a club row never contributes negative caps |
| `Stats.NationalCellTally` | parsers/parser.py:193-200 | a national row never contributes negative caps |
| `Stats.SplitFormatted` | parsers/parser.py:117-121 | a cell written "caps (goals)" with a typographic minus splits into its caps text and the signed goals |
| `Stats.TypesetGoalsNormal` | parsers/parser.py:119-121 | goals typeset with a typographic minus normalise to the signed decimal `int()` reads |
| `Stats.CapsText` | parsers/parser.py:122-123 | the caps text a formatted cell leaves is, once stripped, the decimal of the caps and reads back as them |
| `Stats.ClubCellRoundTrip` | parsers/parser.py:117-124 | a club cell written from caps and goals reads back as exactly those caps and goals |
| `Stats.NonNumericCaps` | parsers/parser.py:122-124 | with non-numeric caps a club row counts nothing, while a national row still counts its goals (lines 198-200) |
| `Stats.EnDashCell` | parsers/parser.py:117-121 | a cell "caps (–n)" written with an en dash splits into its caps text and the goals "-n" |
| `Stats.DecimalCapsTally` | parsers/parser.py:122-124 | a club cell whose caps text is a decimal number adds those caps and the goals `int()` reads |
| `Text.NegativeDecimal` | parsers/parser.py:123 | `int()` reads "-" followed by a positive decimal as the negative number |
| `Stats.FindRow` | parsers/parser.py:107-108 | the first row at or after the start whose text contains the marker; none exactly when no such row exists |
| `Stats.RunCapsNonNegative` | parsers/parser.py:116-129 | a scan whose rows never add negative caps has a non-negative caps total |
| `Stats.RunStops` | parsers/parser.py:116-129 | rows after the first one without the counted cell are never read |
| `Stats.ClubStepCaps` | parsers/parser.py:122-123 | a club row adds caps only when its caps text is all digits, so never negative ones |
| `Stats.ClubStep` | parsers/parser.py:114-128 | specification of one club-career row (no contract of its own): stated by `Stats.ClubStepCaps`, `Stats.ClubMarkerLast` and `Stats.ClubCellRoundTrip` |
| `Stats.ClubRowTally` | parsers/parser.py:105-129 | the infobox club caps are non-negative |
| `Stats.ClubMarkerMissing` | parsers/parser.py:105-110 | without a "club career" row path A fails with the missing-section error |
| `Stats.ClubMarkerLast` | parsers/parser.py:105-111 | with the "club career" row last, the row after it is missing and path A fails |
| `Stats.ScanClubRows` | parsers/parser.py:105-129 | the marker loop and the accumulating loop compute `ClubRowTally` |
| `Stats.ScanRun` | parsers/parser.py:113-129 | the accumulating loop computes `Run`: the sum up to the first stopping row, or the first failure |
| `Stats.Run` | parsers/parser.py:113-129 | specification of the row scans (no contract of its own): stated by `Stats.ScanRun`, `Stats.RunStops`, `Stats.RunCapsNonNegative` and `Stats.ScanNationalRows` |
| `Stats.HeaderTexts` | parsers/parser.py:135 | every header text is the text of a `th` child; no `th` child gives no headers |
| `Stats.HeaderTextsAppend` | parsers/parser.py:135 | the headers of two runs of children are the two header lists, concatenated, in order |
| `Stats.LastElement` | parsers/parser.py:141-143 | the last element child, every later child a text node; none iff every child is a text node |
| `Stats.LastCell` | parsers/parser.py:141-144 | the last element child when it is a `th` or `td`, every later child a text node; none exactly when all children are text or the last element is neither |
| `Stats.StepBack` | parsers/parser.py:146-148 | one sibling back when that is an element, two when it is a text node, none when the chain ends first |
| `Stats.StepForward` | parsers/parser.py:154-156 | one sibling forward when that is an element, two when it is a text node, none when the chain ends first |
| `Stats.CapsCellIndex` | parsers/parser.py:146-152 | the cell before the last one, or the one before that when it holds U+2212 or "-"; always before the last cell |
| `Stats.SummaryTally` | parsers/parser.py:141-160 | no last cell is the missing-field error; a success found the last, caps and goals cells; every failure is a missing field, a missing sibling or a malformed cell |
| `Stats.SummaryRoundTrip` | parsers/parser.py:141-160 | a summary row holding caps and signed goals reads back as exactly those |
| `Stats.SummaryDashColumn` | parsers/parser.py:146-160 | with conceded goals (a minus) and one more column after them, the dash sends the read one cell back and the caps and signed goals are still read |
| `Stats.SummaryUnknown` | parsers/parser.py:149-158 | a summary row with "?" for caps and goals reads as zero caps and zero goals |
| `Stats.CapsCellReads` | parsers/parser.py:149-153 | a written caps number has no dash or "?" and reads back as itself |
| `Stats.GoalsCellReads` | parsers/parser.py:157-160 | typeset goals have no "?" and read back, after minus normalisation, as the signed goals |
| `Stats.FindClubSummary` | parsers/parser.py:131-161 | the nested loops compute `ClubSummary`: the first table with a "Клуб" header decides; zeros when there is none |
| `Stats.ClubSummary` | parsers/parser.py:131-161 | specification of the summary-table search (no contract of its own): stated by `Stats.FindClubSummary`, `Stats.ClubSummaryFirst`, `Stats.ClubSummaryNoHeader` and `Stats.ClubSummarySkip` |
| `Stats.HasClubHeaderSpec` | parsers/parser.py:134-139 | a table has a club header exactly when one of its rows has "Клуб" as first or second header |
| `Stats.ClubSummaryNoHeader` | parsers/parser.py:131-161 | when no table has a club header row, path B gives zero caps and zero goals |
| `Stats.ClubSummarySkip` | parsers/parser.py:134-139 | tables without a club header row are passed over |
| `Stats.ClubSummaryFirst` | parsers/parser.py:134-161 | the first table with a club header row decides: its last row is read |
| `Stats.NationalStepCaps` | parsers/parser.py:198-199 | a national row adds caps only when its caps text is all digits |
| `Stats.NationalStep` | parsers/parser.py:184-205 | specification of one national-team row (no contract of its own): stated by `Stats.NationalStepCaps`, `Stats.NationalSkipsPending` and `Stats.NationalMarkerLast` |
| `Stats.NationalRowTally` | parsers/parser.py:171-205 | the national caps are non-negative; an infobox without rows fails |
| `Stats.NationalMarkerMissing` | parsers/parser.py:175-181 | rows without a "national team" row give zero caps and goals |
| `Stats.NationalMarkerLast` | parsers/parser.py:183-187 | with the "national team" row last, the row after it is missing and the scan fails |
| `Stats.NationalSkipsPending` | parsers/parser.py:188-205 | a row whose second cell holds "до" adds nothing and the scan goes on with the next row |
| `Stats.ScanNationalRows` | parsers/parser.py:171-205 | the loops compute `NationalRowTally`: an empty infobox fails, a missing national-team row gives zeros, and the marker as the last row fails |
| `Stats.ReconcileClub` | parsers/parser.py:163-169 | caps are the larger total; when either goal total is negative nothing is scored and conceded is the larger negated total; otherwise nothing is conceded and scored is the larger total |
| `Stats.ReconcileNational` | parsers/parser.py:207-213 | caps as summed; scored minus conceded is the goal total, both non-negative, one zero |
| `Stats.BothZero` | parsers/parser.py:164-169 | zero goal totals give zero scored and zero conceded |
| `Stats.GoalkeeperExample` | parsers/parser.py:163-169 | 10 caps and -3 from the rows with 12 caps and -2 from the table give 12 caps and 3 conceded |
| `Text.RFind` | parsers/parser.py:86 | the last index of the character, none iff absent |
| `Text.SplitPair` | parsers/parser.py:117 | the two-part unpacking of `split("(")` succeeds iff the text holds exactly one "(" |
| `Text.LazyMatch` | parsers/parser.py:118 | the first match of `.*?[)/]` without its delimiter: it starts at a line start, holds no newline or delimiter, is followed by the first delimiter of the text; none iff no delimiter |
| `Text.Before` | parsers/parser.py:220 | `split(c)[0]`: the prefix before the first occurrence, or the whole text |
| `Text.ParseInt` | parsers/parser.py:123 | `int()` accepts a non-empty stripped text; a leading "-" gives a non-positive value, a leading digit a non-negative one |
| `Normalise.RSplitOnce` | parsers/parser.py:89 | `rsplit(" ", 1)`: one part iff no space, else the text is the parts joined by the last space |
| `Normalise.CutAtBracket` | parsers/parser.py:86-88 | a prefix of the text, the whole text when it has no "(" |
| `Normalise.FamilyFirst` | parsers/parser.py:89 | as many parts as given; that they are the stripped parts in reverse order is `Normalise.FamilyFirstReversed` |
| `Normalise.FamilyFirstReversed` | parsers/parser.py:89 | the parts come back in reverse order, each stripped: family name first |
| `Normalise.CutBeforeNote` | parsers/parser.py:86-88 | cutting at the bracket of " (note" keeps the space before it |
| `Normalise.NameAsWrittenLosesSurname` | parsers/parser.py:84-89 | as written, a name with a bracketed note gives an empty family name and the whole name as the given name |
| `Normalise.NameAsWrittenDiffers` | parsers/parser.py:84-89 | for every "given family (note)" name the code as written yields ["", "given family"], the corrected reading [family, given] |
| `Normalise.NameAsWritten` | parsers/parser.py:84-89 | `_find_name` as written (no contract of its own): stated by `Normalise.NameAsWrittenLosesSurname`, `Normalise.NameAsWrittenDiffers` and `Normalise.NameAgreesWhenTrimmed` |
| `Normalise.FamilyFirstOfFullName` | parsers/parser.py:89 | "given family" splits into [family, given] |
| `Normalise.NameRoundTrip` | parsers/parser.py:84-89 | the corrected name reads "given family", with or without a bracketed note, as [family, given] |
| `Normalise.Name` | parsers/parser.py:84-89 | `_find_name` as evidently intended (no contract of its own): stated by `Normalise.NameRoundTrip` and `Normalise.NameAgreesWhenTrimmed` |
| `Normalise.NameAgreesWhenTrimmed` | parsers/parser.py:84-89 | when the cut text has no surrounding whitespace, the as-written and the corrected name agree |
| `Normalise.DigitSuffix` | parsers/parser.py:102 | the longest all-digit suffix |
| `Normalise.LastDigitRun` | parsers/parser.py:102 | none iff the text has no digit; otherwise a maximal run of digits after which no digit follows |
| `Normalise.Height` | parsers/parser.py:98-102 | the height is non-negative; a text without "[" or space fails |
| `Normalise.HeightOfNumber` | parsers/parser.py:101-102 | a number followed by a space (as in "183 см") or by a footnote "[" reads back as that number |
| `Normalise.DaysIn` | parsers/parser.py:237 | a month has 28 to 31 days |
| `Normalise.DaysBeforeMonth` | parsers/parser.py:238 | days before a month are non-negative |
| `Normalise.YearLength` | parsers/parser.py:238 | the twelve months add up to 365 days, 366 in a leap year |
| `Normalise.DaysBeforeNextYear` | parsers/parser.py:238 | each year adds its own length to the day count |
| `Normalise.NextDay` | parsers/parser.py:237 | the day after a valid date is valid |
| `Normalise.NextDayEpoch` | parsers/parser.py:238 | consecutive days are 86400 seconds apart |
| `Normalise.Epoch` | parsers/parser.py:238 | the timestamp of a valid date (no contract of its own): stated by `Normalise.NextDayEpoch` and `Normalise.EpochExamples` |
| `Normalise.EpochExamples` | parsers/parser.py:238 | 1 January 1970 is 0 and 5 March 1990 is 636595200 |
| `Normalise.DigitPrefix` | parsers/parser.py:237 | the longest all-digit prefix |
| `Normalise.SpaceCount` | parsers/parser.py:237 | the length of the leading whitespace |
| `Normalise.LeadOf` | parsers/parser.py:237 | the leading digits are a prefix of the text |
| `Normalise.ParseDate` | parsers/parser.py:237-238 | every failure is the date error of the text; a success is the timestamp of a valid date matched by the pattern |
| `Normalise.DigitPrefixAt` | parsers/parser.py:237 | the digit prefix stops at the first non-digit |
| `Normalise.LeadOfField` | parsers/parser.py:237 | digits, one space and a non-space rest are read as field, gap 1, rest |
| `Normalise.FieldsOfNumericDate` | parsers/parser.py:237 | day, month and year digits separated by spaces match as that date |
| `Normalise.ParseNumericDate` | parsers/parser.py:237-238 | a numeric date with a four-digit year parses to its timestamp |
| `Normalise.DateFields` | parsers/parser.py:237 | the `strptime` field reading (no contract of its own): stated by `Normalise.FieldsOfNumericDate`, `Normalise.ParseNumericDate` and `Normalise.ImpossibleDateRejected` |
| `Normalise.ImpossibleDateRejected` | parsers/parser.py:237 | pattern-shaped digits naming no existing day are rejected |
| `Normalise.FebruaryThirtieth` | parsers/parser.py:237 | "30 02 1990" is rejected |
| `Normalise.MonthName` | parsers/parser.py:221-234 | every month name is at least three Cyrillic lower-case letters |
| `Normalise.MonthCode` | parsers/parser.py:221-234 | every month code is two digits whose value is the month number |
| `Normalise.EarlierMonthLetter` | parsers/parser.py:221-236 | each earlier month name has a letter the later name lacks, so it never occurs in it |
| `Normalise.BirthText` | parsers/parser.py:220 | the text kept has no "(" and no "[" |
| `Normalise.DateTextShape` | parsers/parser.py:220 | a written date has no "(" or "[" and no whitespace at either end |
| `Normalise.BirthTextOfPlain` | parsers/parser.py:220 | a trimmed text without brackets is kept as it is, and a bracketed note after it is cut |
| `Normalise.BirthTextOfDate` | parsers/parser.py:220 | a written date is kept as it is, and a bracketed note after it is cut |
| `Normalise.DecimalNoLetters` | parsers/parser.py:235-236 | a number's digits contain no letter |
| `Normalise.ReplaceNoLetters` | parsers/parser.py:235-236 | replacing a month name leaves a letter-free text unchanged |
| `Normalise.EarlierMonthsAbsent` | parsers/parser.py:235-236 | replacing the months before a date's own month leaves its text unchanged |
| `Normalise.OwnMonthReplaced` | parsers/parser.py:235-236 | the date's own month name becomes its two-digit code |
| `Normalise.MonthReplaced` | parsers/parser.py:235-236 | after the date's own month the text is numeric |
| `Normalise.NumericDateNoLetters` | parsers/parser.py:235-236 | once its month is a number, a date has no letters for a month name to match |
| `Normalise.LaterMonthsAbsent` | parsers/parser.py:235-236 | the months after the date's own month change nothing more |
| `Normalise.MonthsRoundTrip` | parsers/parser.py:235-236 | the month loop turns "5 марта 1990" into "5 03 1990" |
| `Normalise.ReplaceMonths` | parsers/parser.py:235-236 | the month-replacement loop after k names (no contract of its own): stated by `Normalise.ReplaceMonthNames`, `Normalise.EarlierMonthsAbsent`, `Normalise.MonthReplaced`, `Normalise.LaterMonthsAbsent` and `Normalise.MonthsRoundTrip` |
| `Normalise.ReplaceMonthNames` | parsers/parser.py:235-236 | the loop computes every month replaced in table order |
| `Normalise.TransformBirth` | parsers/parser.py:219-238 | the method computes `Birth` |
| `Normalise.BirthRoundTrip` | parsers/parser.py:219-238 | a written birth date with a four-digit year, with or without a bracketed note, becomes the timestamp of that day |
| `Normalise.Birth` | parsers/parser.py:219-238 | specification of `_transform_birth` (no contract of its own): stated by `Normalise.TransformBirth`, `Normalise.BirthRoundTrip` and `Normalise.FebruaryThirtieth` |
| `Normalise.BirthExample` | parsers/parser.py:219-238 | "5 марта 1990 (34 года)" becomes 636595200 |

## Left out

- HTML parsing and CSS selection (BeautifulSoup) are not part of this model. A page is the
  `Document.Page` value holding what the selectors would return. Nested markup inside a cell
  is flattened to the cell's text.
- `urlparse`, `urljoin` and `unquote` are not part of this model. They are function values in
  `Parser.UrlLib`. The origin `scheme://netloc`, the joining and the percent-decoding are
  opaque, so properties about link text hold for any URL library.
- `datetime.timestamp` uses the local time zone. The model fixes it to UTC, so the timestamp
  of a date is its seconds since 1970-01-01 00:00 UTC.
- `str.isdigit`, `int()` and `\d` accept every Unicode decimal digit. The model accepts ASCII
  digits only. The underscores `int()` allows between digits are not modelled.
- The `info` dictionary is a `Parser.PlayerRecord` with one field per key. Its mutation key by
  key is not modelled, since only the finished dictionary is returned.
- The guard `"height" not in info` at line 99 is unreachable: `_read_infobox` always sets the
  key or fails first. It is not modelled.
- Normalise.BirthRoundTrip: covers years 1000-9999 only. `%Y` needs four digits, and a smaller
  year written without leading zeros does not match.
- Normalise.Height: states non-negativity and the missing-delimiter error. The exact value is
  stated only for a number followed by a space or "[" (`Normalise.HeightOfNumber`).
- Stats.ClubSummary: the summary-table caps may be negative when the cell two steps back holds
  a dash. Only the reconciled caps (`Stats.ReconcileClub`, `Parser.Statistics`) are proved
  non-negative.
- Parser.ReadTexts: the player record (and so `Parser.CssParser.ParsePlayer`) uses the
  corrected name reading `Normalise.Name`, not the name the code as written computes. The
  as-written reading is `Normalise.NameAsWritten`; the two differ exactly as the Findings row
  states (`Normalise.NameAsWrittenDiffers`) and agree when the cut name text has no
  surrounding whitespace (`Normalise.NameAgreesWhenTrimmed`).
- Exceptions are modelled as `Document.Error` values, one reason per exception site. The
  Python exception types are not distinguished beyond that.

## Findings

| source | as written | input that shows it | evidently intended | confidence | as-written member | corrected member |
|---|---|---|---|---|---|---|
| parsers/parser.py:86-89 | the name is cut before the last "(" and then split on the last space; the space before the bracket is still there, so the split happens at it | "Иван Петров (футболист)" gives `["", "Иван Петров"]` | strip before splitting, giving `["Петров", "Иван"]` | not executed | `Normalise.NameAsWrittenLosesSurname` | `Normalise.NameRoundTrip` |

`Normalise.NameAsWritten` models the code as written. `Normalise.Name` is the corrected
definition, and the player record (`Parser.ReadTexts`) uses it.
