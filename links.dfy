/**
 * Link harvesting: the first-column links of a competition page, and the player links of the
 * roster sections of a national-team page, with the team name derived from the page URL.
 */
module Links {
  import opened Wrappers
  import opened Text
  import opened Document

  const CurrentRoster: string := "Текущий_состав"
  const Roster: string := "Состав"
  const RecentCallUps: string := "Недавние_вызовы"
  const IndexPage: string := "index.php"

  /** `ln.get("href")` for each first-column anchor; a missing `href` reaches `urljoin` as nothing. */
  function CompetitionHrefs(anchors: seq<Anchor>): (hs: seq<string>)
    ensures |hs| == |anchors|
    ensures forall i :: 0 <= i < |anchors| && anchors[i].href.Some? ==> hs[i] == anchors[i].href.value
    ensures forall i :: 0 <= i < |anchors| && anchors[i].href.None? ==> hs[i] == ""
  {
    seq(|anchors|, i requires 0 <= i < |anchors| => anchors[i].href.GetOr(""))
  }

  /** `root.find("span", id=re.compile("^" + prefix))`: the first span whose id starts with `prefix`. */
  function FindSpan(spans: seq<Span>, prefix: string): (r: Option<nat>)
    ensures r.Some? ==> r.value < |spans| && StartsWith(spans[r.value].id, prefix)
    ensures r.Some? ==> forall j :: 0 <= j < r.value ==> !StartsWith(spans[j].id, prefix)
    ensures r.None? ==> forall j :: 0 <= j < |spans| ==> !StartsWith(spans[j].id, prefix)
  {
    if spans == [] then None
    else if StartsWith(spans[0].id, prefix) then Some(0)
    else match FindSpan(spans[1..], prefix)
      case None => None
      case Some(k) => Some(k + 1)
  }

  /**
   * The sibling chains of the roster sections, in the order the parser visits them: the current
   * roster (or, when it has no header, the generic roster), then the recent call-ups. A section
   * whose header is missing is skipped.
   */
  function Sections(spans: seq<Span>): (cs: seq<seq<Sibling>>)
    ensures var cur, gen, rec := FindSpan(spans, CurrentRoster), FindSpan(spans, Roster), FindSpan(spans, RecentCallUps);
      && |cs| == (if cur.Some? || gen.Some? then 1 else 0) + (if rec.Some? then 1 else 0)
      && (cur.Some? ==> cs[0] == spans[cur.value].chain)
      && (cur.None? && gen.Some? ==> cs[0] == spans[gen.value].chain)
      && (rec.Some? ==> cs[|cs| - 1] == spans[rec.value].chain)
  {
    var current := if FindSpan(spans, CurrentRoster).Some? then FindSpan(spans, CurrentRoster)
                   else FindSpan(spans, Roster);
    var recent := FindSpan(spans, RecentCallUps);
    (if current.Some? then [spans[current.value].chain] else [])
    + (if recent.Some? then [spans[recent.value].chain] else [])
  }

  predicate IsTable(s: Sibling)
  {
    s.SiblingTag? && s.name == "table"
  }

  /** The first table element of a chain: where the `next_sibling` walk stops. */
  function FirstTable(chain: seq<Sibling>): (r: Option<nat>)
    ensures r.Some? ==> r.value < |chain| && IsTable(chain[r.value])
    ensures r.Some? ==> forall j :: 0 <= j < r.value ==> !IsTable(chain[j])
    ensures r.None? ==> forall j :: 0 <= j < |chain| ==> !IsTable(chain[j])
  {
    if chain == [] then None
    else if IsTable(chain[0]) then Some(0)
    else match FirstTable(chain[1..])
      case None => None
      case Some(k) => Some(k + 1)
  }

  /**
   * The kept hrefs of one roster table: rows without a third-column anchor are dropped, an
   * anchor without `href` is an error, and links to `index.php` are dropped.
   */
  function BodyHrefs(rows: seq<RosterRow>): (r: Result<seq<string>, Error>)
    ensures r.Ok? ==> forall h :: h in r.value ==> !Contains(h, IndexPage)
    ensures r.Ok? <==> forall i :: 0 <= i < |rows| ==> rows[i].thirdCellAnchor != Some(Anchor(None))
  {
    if rows == [] then Ok([])
    else
      var last := rows[|rows| - 1];
      var init := rows[..|rows| - 1];
      match BodyHrefs(init)
      case Err(e) => Err(e)
      case Ok(a) =>
        match last.thirdCellAnchor
        case None => Ok(a)
        case Some(Anchor(None)) => Err(MissingHref)
        case Some(Anchor(Some(h))) => Ok(if Contains(h, IndexPage) then a else a + [h])
  }

  /** Every kept link is the third-column link of some row. */
  lemma {:induction false} BodyHrefsSound(rows: seq<RosterRow>, h: string)
    requires BodyHrefs(rows).Ok? && h in BodyHrefs(rows).value
    ensures exists i :: 0 <= i < |rows| && rows[i].thirdCellAnchor == Some(Anchor(Some(h)))
  {
    var init := rows[..|rows| - 1];
    if h in BodyHrefs(init).value {
      BodyHrefsSound(init, h);
      var i :| 0 <= i < |init| && init[i].thirdCellAnchor == Some(Anchor(Some(h)));
      assert rows[i] == init[i];
    } else {
      assert rows[|rows| - 1].thirdCellAnchor == Some(Anchor(Some(h)));
    }
  }

  /** Every row with a third-column link that is not an index link contributes that link. */
  lemma {:induction false} BodyHrefsComplete(rows: seq<RosterRow>, i: nat, h: string)
    requires BodyHrefs(rows).Ok?
    requires i < |rows| && rows[i].thirdCellAnchor == Some(Anchor(Some(h))) && !Contains(h, IndexPage)
    ensures h in BodyHrefs(rows).value
  {
    if i < |rows| - 1 {
      BodyHrefsComplete(rows[..|rows| - 1], i, h);
    }
  }

  /** Row order is kept: the links of two consecutive runs of rows are the two lists, concatenated. */
  lemma {:induction false} BodyHrefsAppend(a: seq<RosterRow>, b: seq<RosterRow>)
    requires BodyHrefs(a).Ok? && BodyHrefs(b).Ok?
    ensures BodyHrefs(a + b) == Ok(BodyHrefs(a).value + BodyHrefs(b).value)
  {
    if b != [] {
      var b' := b[..|b| - 1];
      assert (a + b)[..|a + b| - 1] == a + b';
      assert BodyHrefs(b').Ok?;
      BodyHrefsAppend(a, b');
      var last := b[|b| - 1];
      assert (a + b)[|a + b| - 1] == last;
      var A, B' := BodyHrefs(a).value, BodyHrefs(b').value;
      match last.thirdCellAnchor
      case None =>
      case Some(Anchor(None)) =>
      case Some(Anchor(Some(h))) =>
        assert A + B' + [h] == A + (B' + [h]);
    } else {
      assert a + b == a;
      assert BodyHrefs(a).value + [] == BodyHrefs(a).value;
    }
  }

  /** The links of one section: walk to the first table, then read its `tbody` rows. */
  function SectionHrefs(chain: seq<Sibling>): Result<seq<string>, Error>
  {
    match FirstTable(chain)
    case None => Err(MissingSibling)
    case Some(k) =>
      match chain[k].tbody
      case None => Err(MissingField("tbody"))
      case Some(rows) => BodyHrefs(rows)
  }

  /** The links of the sections in order, concatenated; the first failing section decides the error. */
  function SectionsHrefs(cs: seq<seq<Sibling>>): (r: Result<seq<string>, Error>)
    ensures r.Ok? ==> forall h :: h in r.value ==> !Contains(h, IndexPage)
  {
    if cs == [] then Ok([])
    else
      match SectionsHrefs(cs[..|cs| - 1])
      case Err(e) => Err(e)
      case Ok(a) =>
        match SectionHrefs(cs[|cs| - 1])
        case Err(e) => Err(e)
        case Ok(b) => Ok(a + b)
  }

  /** Once a section fails, later sections do not change the outcome. */
  lemma {:induction false} SectionsHrefsErrPrefix(cs: seq<seq<Sibling>>, n: nat)
    requires n <= |cs| && SectionsHrefs(cs[..n]).Err?
    ensures SectionsHrefs(cs) == SectionsHrefs(cs[..n])
  {
    if n < |cs| {
      assert cs[..|cs| - 1][..n] == cs[..n];
      SectionsHrefsErrPrefix(cs[..|cs| - 1], n);
    } else {
      assert cs[..n] == cs;
    }
  }

  /** The hrefs a team page yields, before they are resolved against the site's origin. */
  function TeamHrefs(spans: seq<Span>): Result<seq<string>, Error>
  {
    SectionsHrefs(Sections(spans))
  }

  /**
   * With a current-roster header and a recent-call-ups header, the team links are the current
   * roster's links followed by the recent call-ups' links, and none of them is an index link.
   */
  lemma TeamHrefsBothSections(spans: seq<Span>, i: nat, j: nat)
    requires FindSpan(spans, CurrentRoster) == Some(i) && FindSpan(spans, RecentCallUps) == Some(j)
    requires SectionHrefs(spans[i].chain).Ok? && SectionHrefs(spans[j].chain).Ok?
    ensures TeamHrefs(spans) == Ok(SectionHrefs(spans[i].chain).value + SectionHrefs(spans[j].chain).value)
    ensures forall h :: h in TeamHrefs(spans).value ==> !Contains(h, IndexPage)
  {
    assert Sections(spans) == [spans[i].chain, spans[j].chain];
    SectionsHrefsPair(spans[i].chain, spans[j].chain);
  }

  lemma SectionsHrefsPair(x: seq<Sibling>, y: seq<Sibling>)
    requires SectionHrefs(x).Ok? && SectionHrefs(y).Ok?
    ensures SectionsHrefs([x, y]) == Ok(SectionHrefs(x).value + SectionHrefs(y).value)
  {
    assert [x, y][..1] == [x];
    assert [x][..0] == [];
    assert SectionsHrefs([x]) == Ok([] + SectionHrefs(x).value);
    assert [] + SectionHrefs(x).value == SectionHrefs(x).value;
  }

  /**
   * Without a current-roster header and without recent call-ups, the generic roster section is
   * the only one read: its links (or its error) are the page's.
   */
  lemma TeamHrefsFallback(spans: seq<Span>, i: nat)
    requires FindSpan(spans, CurrentRoster).None? && FindSpan(spans, Roster) == Some(i)
    requires FindSpan(spans, RecentCallUps).None?
    ensures TeamHrefs(spans) == SectionHrefs(spans[i].chain)
  {
    assert Sections(spans) == [spans[i].chain];
    SectionsHrefsSingle(spans[i].chain);
  }

  /** A single section decides alone. */
  lemma SectionsHrefsSingle(x: seq<Sibling>)
    ensures SectionsHrefs([x]) == SectionHrefs(x)
  {
    assert [x][..0] == [];
    if SectionHrefs(x).Ok? {
      assert [] + SectionHrefs(x).value == SectionHrefs(x).value;
    }
  }

  /** With no roster header of either kind, a team page yields no links and no error. */
  lemma TeamHrefsNoSections(spans: seq<Span>)
    requires FindSpan(spans, CurrentRoster).None? && FindSpan(spans, Roster).None?
    requires FindSpan(spans, RecentCallUps).None?
    ensures TeamHrefs(spans) == Ok([])
  {
  }

  /** One pass of the loop of `_parse_team`: walk the siblings to the table and collect its kept links. */
  method HarvestSection(chain: seq<Sibling>) returns (r: Result<seq<string>, Error>)
    ensures r == SectionHrefs(chain)
  {
    var k := 0;
    while k < |chain| && !IsTable(chain[k])
      invariant k <= |chain|
      invariant forall j :: 0 <= j < k ==> !IsTable(chain[j])
    {
      k := k + 1;
    }
    if k == |chain| {
      return Err(MissingSibling);
    }
    assert FirstTable(chain) == Some(k);
    if chain[k].tbody.None? {
      return Err(MissingField("tbody"));
    }
    r := BodyHrefs(chain[k].tbody.value);
  }

  /** The loop of `_parse_team`: the sections in order, stopping at the first that fails. */
  method HarvestTeamLinks(spans: seq<Span>) returns (r: Result<seq<string>, Error>)
    ensures r == TeamHrefs(spans)
  {
    var chains := Sections(spans);
    var links: seq<string> := [];
    for n := 0 to |chains|
      invariant SectionsHrefs(chains[..n]) == Ok(links)
    {
      var section := HarvestSection(chains[n]);
      assert chains[..n + 1][..n] == chains[..n];
      if section.Err? {
        r := Err(section.error);
        SectionsHrefsErrPrefix(chains, n + 1);
        return;
      }
      links := links + section.value;
    }
    assert chains[..|chains|] == chains;
    r := Ok(links);
  }

  /** Python's `url.split("/")[-1]`: the text after the last slash. */
  function LastSegment(url: string): (seg: string)
    ensures '/' !in seg
    ensures '/' in url ==> exists k :: 0 <= k < |url| && url[k] == '/' && seg == url[k + 1..]
    ensures '/' !in url ==> seg == url
  {
    match RFind(url, '/')
    case None => url
    case Some(k) => url[k + 1..]
  }

  /** The team's display name: last path segment of the (percent-decoded) page URL, `_` as space, stripped. */
  function TeamName(decodedUrl: string): string
  {
    Strip(Replace(LastSegment(decodedUrl), "_", " "))
  }

  lemma {:induction false} ReplaceUnderscore(s: string)
    ensures '_' !in Replace(s, "_", " ")
    ensures |Replace(s, "_", " ")| == |s|
  {
    if |s| >= 1 {
      ReplaceUnderscore(s[1..]);
    }
  }

  /** A team name never contains an underscore, and is taken from the segment after the last slash. */
  lemma TeamNameSpec(prefix: string, segment: string)
    requires '/' !in segment
    ensures TeamName(prefix + "/" + segment) == Strip(Replace(segment, "_", " "))
    ensures '_' !in TeamName(prefix + "/" + segment)
  {
    var u := prefix + "/" + segment;
    var k := |prefix|;
    assert u[k] == '/' && u[k + 1..] == segment;
    assert RFind(u, '/') == Some(k);
    ReplaceUnderscore(segment);
    var t := Replace(segment, "_", " ");
    assert Strip(t) == t[|t| - |TrimLeft(t)|..][..|Strip(t)|];
  }
}
