/**
 * `CssParser` (parsers/parser.py): one call of `Parse` per page. A competition page empties the
 * registry and yields its team-page links; a team page yields its player-page links and
 * registers each under the team's name; a player page yields a record and consumes its own
 * registry entry.
 */
module Parser {
  import opened Wrappers
  import opened Text
  import opened Document
  import opened Classifier
  import opened Registry
  import opened Links
  import opened Stats
  import opened Normalise

  /**
   * The URL library the parser calls: `origin(u)` is `scheme + "://" + netloc` of `urlparse(u)`,
   * `join` is `urljoin`, `unquote` is `urllib.parse.unquote`.
   */
  datatype UrlLib = UrlLib(origin: string -> string, join: (string, string) -> string, unquote: string -> string)

  /** The `info` dictionary of a player page. */
  datatype PlayerRecord = PlayerRecord(
    url: string,
    name: seq<string>,       // family name first
    height: int,
    position: string,
    currentClub: string,
    club: Totals,
    national: Totals,
    nationalTeam: string,
    birth: int)              // seconds since 1970-01-01

  /** The pair `parse` returns: a record and no links, or no record and links. */
  datatype Parsed = Parsed(record: Option<PlayerRecord>, links: seq<string>)

  /** Every href resolved against the page's origin, in order. */
  function Resolve(lib: UrlLib, url: string, hrefs: seq<string>): (links: seq<string>)
    ensures |links| == |hrefs|
    ensures forall i :: 0 <= i < |hrefs| ==> links[i] == lib.join(lib.origin(url), hrefs[i])
  {
    seq(|hrefs|, i requires 0 <= i < |hrefs| => lib.join(lib.origin(url), hrefs[i]))
  }

  /** The links of a competition page: the first-column anchors of its standard tables. */
  function CompetitionLinks(page: Page, url: string, lib: UrlLib): seq<string>
  {
    Resolve(lib, url, CompetitionHrefs(page.standardAnchors))
  }

  /** The links of a team page, or the error that stops its sibling walk. */
  function TeamLinks(page: Page, url: string, lib: UrlLib): (r: Result<seq<string>, Error>)
    ensures r.Ok? <==> TeamHrefs(page.spans).Ok?
  {
    match TeamHrefs(page.spans)
    case Err(e) => Err(e)
    case Ok(hs) => Ok(Resolve(lib, url, hs))
  }

  /** The team name of a team page: the last path segment of its decoded URL. */
  function TeamOf(url: string, lib: UrlLib): string
  {
    TeamName(lib.unquote(url))
  }

  /** The infobox texts a player record is built from, each stripped. */
  datatype Texts = Texts(name: seq<string>, height: string, position: string, club: string, birth: string)

  /**
   * `_find_name` and `_read_infobox`: the name, then the four labelled fields; the first one
   * missing stops the parse.
   */
  function ReadTexts(page: Page): (r: Result<Texts, Error>)
    ensures r.Ok? <==> page.nameText.Some? && page.fields.height.Some? && page.fields.position.Some?
                       && page.fields.club.Some? && page.fields.birth.Some?
    ensures page.nameText.None? ==> r == Err(MissingField("name"))
    ensures r.Err? ==> r.error.MissingField?
  {
    var f := page.fields;
    if page.nameText.None? then Err(MissingField("name"))
    else if f.height.None? then Err(MissingField("height"))
    else if f.position.None? then Err(MissingField("position"))
    else if f.club.None? then Err(MissingField("current_club"))
    else if f.birth.None? then Err(MissingField("birth"))
    else Ok(Texts(Name(page.nameText.value), Strip(f.height.value), Strip(f.position.value),
                  Strip(f.club.value), Strip(f.birth.value)))
  }

  /** `_find_club_caps` and `_find_national_caps`: the club totals, then the national totals. */
  function Statistics(page: Page): (r: Result<(Totals, Totals), Error>)
    ensures r.Ok? ==> r.value.0.caps >= 0 && r.value.1.caps >= 0
    ensures r.Ok? ==> r.value.0.scored >= 0 && r.value.0.conceded >= 0 && (r.value.0.scored == 0 || r.value.0.conceded == 0)
    ensures r.Ok? ==> r.value.1.scored >= 0 && r.value.1.conceded >= 0 && (r.value.1.scored == 0 || r.value.1.conceded == 0)
  {
    match ClubRowTally(page.infobox)
    case Err(e) => Err(e)
    case Ok(a) =>
      match ClubSummary(page.tables)
      case Err(e) => Err(e)
      case Ok(b) =>
        match NationalRowTally(page.infobox)
        case Err(e) => Err(e)
        case Ok(n) => Ok((ReconcileClub(a, b), ReconcileNational(n)))
  }

  /**
   * The readers a player page passes through, in the order `_parse_player` calls them: the
   * texts, the height, the statistics and the birth date.
   */
  datatype Readers = Readers(
    texts: Page -> Result<Texts, Error>,
    height: string -> Result<int, Error>,
    stats: Page -> Result<(Totals, Totals), Error>,
    birth: string -> Result<int, Error>)

  /** The readers of this parser. */
  function Source(): Readers
  {
    Readers(ReadTexts, Height, Statistics, Birth)
  }

  /**
   * `_parse_player` over given readers: the record or the error, and the registry afterwards.
   * The first failure decides. The entry is deleted before the birth date is read, so a bad
   * birth date still consumes it.
   */
  function Pipeline(rd: Readers, page: Page, url: string, teams: Teams): (Result<PlayerRecord, Error>, Teams)
  {
    match rd.texts(page)
    case Err(e) => (Err(e), teams)
    case Ok(t) =>
      match rd.height(t.height)
      case Err(e) => (Err(e), teams)
      case Ok(h) =>
        match rd.stats(page)
        case Err(e) => (Err(e), teams)
        case Ok(st) =>
          match Consume(teams, url)
          case Err(e) => (Err(e), teams)
          case Ok((team, rest)) =>
            match rd.birth(t.birth)
            case Err(e) => (Err(e), rest)
            case Ok(b) => (Ok(PlayerRecord(url, t.name, h, t.position, t.club, st.0, st.1, team, b)), rest)
  }

  /** `_parse_player` with this parser's readers. */
  function PlayerStep(page: Page, url: string, teams: Teams): (Result<PlayerRecord, Error>, Teams)
  {
    Pipeline(Source(), page, url, teams)
  }

  /** `parse`: the page kind decides; the result and the registry afterwards. */
  function Outcome(page: Page, url: string, lib: UrlLib, teams: Teams): (Result<Parsed, Error>, Teams)
  {
    match page.marker
    case None => (Err(MissingMarker), teams)
    case Some(m) =>
      match Classify(m)
      case Competition => (Ok(Parsed(None, CompetitionLinks(page, url, lib))), map[])
      case Team =>
        (match TeamLinks(page, url, lib)
         case Err(e) => (Err(e), teams)
         case Ok(links) => (Ok(Parsed(None, links)), RegisterAll(teams, links, TeamOf(url, lib))))
      case Player =>
        (match PlayerStep(page, url, teams)
         case (Err(e), ts) => (Err(e), ts)
         case (Ok(rec), ts) => (Ok(Parsed(Some(rec), [])), ts))
  }

  /** A page without a marker fails and leaves the registry as it was. */
  lemma NoMarkerKeepsRegistry(page: Page, url: string, lib: UrlLib, teams: Teams)
    requires page.marker.None?
    ensures Outcome(page, url, lib, teams) == (Err(MissingMarker), teams)
  {
  }

  /** A competition page never fails, yields one link per anchor and empties the registry. */
  lemma CompetitionResets(page: Page, url: string, lib: UrlLib, teams: Teams)
    requires page.marker.Some? && Contains(page.marker.value, CompetitionKeyword)
    ensures Outcome(page, url, lib, teams).0.Ok?
    ensures Outcome(page, url, lib, teams).0.value.record.None?
    ensures |Outcome(page, url, lib, teams).0.value.links| == |page.standardAnchors|
    ensures Outcome(page, url, lib, teams).1 == map[]
  {
  }

  /**
   * A team page that yields links maps every one of them to the team's name and keeps every
   * other entry; a team page that fails leaves the registry as it was.
   */
  lemma TeamRegisters(page: Page, url: string, lib: UrlLib, teams: Teams)
    requires page.marker.Some? && Classify(page.marker.value) == Team
    ensures Outcome(page, url, lib, teams).0.Err? ==> Outcome(page, url, lib, teams).1 == teams
    ensures Outcome(page, url, lib, teams).0.Ok? ==>
      var after := Outcome(page, url, lib, teams).1;
      var links := Outcome(page, url, lib, teams).0.value.links;
      && after.Keys == teams.Keys + LinkSet(links)
      && (forall l :: l in links ==> after[l] == TeamOf(url, lib))
      && (forall k :: k in teams && k !in links ==> after[k] == teams[k])
  {
    if TeamLinks(page, url, lib).Ok? {
      RegisterAllSpec(teams, TeamLinks(page, url, lib).value, TeamOf(url, lib));
    }
  }

  /** Caps, scored and conceded are non-negative, and scored or conceded is zero. */
  predicate TotalsBounded(t: Totals)
  {
    t.caps >= 0 && t.scored >= 0 && t.conceded >= 0 && (t.scored == 0 || t.conceded == 0)
  }

  /**
   * What the record lemmas need of the readers: heights and totals are bounded, and the only
   * birth-date failure is the date error.
   */
  ghost predicate Bounded(rd: Readers)
  {
    && (forall s :: rd.height(s).Ok? ==> rd.height(s).value >= 0)
    && (forall p :: rd.stats(p).Ok? ==> TotalsBounded(rd.stats(p).value.0) && TotalsBounded(rd.stats(p).value.1))
    && (forall s :: rd.birth(s).Err? ==> rd.birth(s).error.BadDate?)
  }

  /** This parser's readers are bounded. */
  lemma SourceBounded()
    ensures Bounded(Source())
  {
    forall s | Height(s).Ok?
      ensures Height(s).value >= 0
    {
    }
    forall p | Statistics(p).Ok?
      ensures TotalsBounded(Statistics(p).value.0) && TotalsBounded(Statistics(p).value.1)
    {
    }
    forall s | Birth(s).Err?
      ensures Birth(s).error.BadDate?
    {
    }
  }

  /**
   * A player page never adds to the registry: afterwards it is either unchanged or has lost
   * exactly this page's entry, whatever the readers return.
   */
  lemma PlayerNeverRegisters(rd: Readers, page: Page, url: string, teams: Teams)
    ensures Pipeline(rd, page, url, teams).1 == teams || Pipeline(rd, page, url, teams).1 == teams - {url}
  {
    if url in teams {
      assert Consume(teams, url) == Ok((teams[url], teams - {url}));
    }
  }

  /**
   * With bounded readers, a record carries the team registered for its URL, which is then gone
   * from the registry, a non-negative height and bounded totals.
   */
  lemma PipelineRecord(rd: Readers, page: Page, url: string, teams: Teams)
    requires Bounded(rd) && Pipeline(rd, page, url, teams).0.Ok?
    ensures url in teams
    ensures Pipeline(rd, page, url, teams).0.value.nationalTeam == teams[url]
    ensures Pipeline(rd, page, url, teams).1 == teams - {url}
    ensures Pipeline(rd, page, url, teams).0.value.url == url
    ensures Pipeline(rd, page, url, teams).0.value.height >= 0
    ensures TotalsBounded(Pipeline(rd, page, url, teams).0.value.club)
    ensures TotalsBounded(Pipeline(rd, page, url, teams).0.value.national)
  {
    assert rd.texts(page).Ok?;
    var t := rd.texts(page).value;
    assert rd.height(t.height).Ok? && rd.stats(page).Ok?;
    assert url in teams;
    assert Consume(teams, url) == Ok((teams[url], teams - {url}));
    assert rd.birth(t.birth).Ok?;
  }

  /**
   * A player record carries its page URL, a non-negative height, the team registered for that
   * URL, which is then gone from the registry, non-negative caps, and at most one non-zero goal
   * count per side.
   */
  lemma PlayerRecordSpec(page: Page, url: string, teams: Teams)
    requires PlayerStep(page, url, teams).0.Ok?
    ensures url in teams
    ensures PlayerStep(page, url, teams).0.value.nationalTeam == teams[url]
    ensures PlayerStep(page, url, teams).1 == teams - {url}
    ensures PlayerStep(page, url, teams).0.value.url == url
    ensures PlayerStep(page, url, teams).0.value.height >= 0
    ensures TotalsBounded(PlayerStep(page, url, teams).0.value.club)
    ensures TotalsBounded(PlayerStep(page, url, teams).0.value.national)
  {
    SourceBounded();
    PipelineRecord(Source(), page, url, teams);
  }

  /**
   * A birth date that does not parse fails the page after its entry was deleted: the team
   * registered for it is lost, unlike every earlier failure.
   */
  lemma BadBirthLosesEntry(rd: Readers, page: Page, url: string, teams: Teams)
    requires rd.texts(page).Ok? && rd.height(rd.texts(page).value.height).Ok? && rd.stats(page).Ok?
    requires url in teams && rd.birth(rd.texts(page).value.birth).Err?
    ensures Pipeline(rd, page, url, teams) == (Err(rd.birth(rd.texts(page).value.birth).error), teams - {url})
  {
  }

  /** A player page whose URL no team page registered fails once its statistics have been read. */
  lemma UnregisteredPlayer(rd: Readers, page: Page, url: string, teams: Teams)
    requires rd.texts(page).Ok? && rd.height(rd.texts(page).value.height).Ok? && rd.stats(page).Ok?
    requires url !in teams
    ensures Pipeline(rd, page, url, teams) == (Err(UnknownPlayer(url)), teams)
  {
  }

  /**
   * A team page followed by the page of one of its players: the player's record names that
   * team, the only failure left is the birth date, the entry is gone afterwards either way,
   * and reading the same player page again fails.
   */
  lemma TeamThenPlayer(teamPage: Page, teamUrl: string, lib: UrlLib, teams: Teams, page: Page, url: string)
    requires teamPage.marker.Some? && Classify(teamPage.marker.value) == Team
    requires TeamLinks(teamPage, teamUrl, lib).Ok? && url in TeamLinks(teamPage, teamUrl, lib).value
    requires ReadTexts(page).Ok? && Height(ReadTexts(page).value.height).Ok? && Statistics(page).Ok?
    ensures var registered := Outcome(teamPage, teamUrl, lib, teams).1;
      && (PlayerStep(page, url, registered).0.Ok? ==>
            PlayerStep(page, url, registered).0.value.nationalTeam == TeamOf(teamUrl, lib))
      && (PlayerStep(page, url, registered).0.Err? ==> PlayerStep(page, url, registered).0.error.BadDate?)
      && PlayerStep(page, url, registered).1 == registered - {url}
      && PlayerStep(page, url, registered - {url}) == (Err(UnknownPlayer(url)), registered - {url})
  {
    var links := TeamLinks(teamPage, teamUrl, lib).value;
    var registered := RegisterAll(teams, links, TeamOf(teamUrl, lib));
    RegisterAllSpec(teams, links, TeamOf(teamUrl, lib));
    assert Outcome(teamPage, teamUrl, lib, teams).1 == registered;
    assert url in registered && registered[url] == TeamOf(teamUrl, lib);
    SourceBounded();
    var rd := Source();
    if rd.birth(rd.texts(page).value.birth).Ok? {
      PipelineRecord(rd, page, url, registered);
    } else {
      BadBirthLosesEntry(rd, page, url, registered);
    }
    UnregisteredPlayer(rd, page, url, registered - {url});
  }

  class CssParser {
    /** `_teams`: player page URL to the national team that listed it. */
    var teams: Teams

    constructor()
      ensures teams == map[]
    {
      teams := map[];
    }

    /** `parse`, lines 12-23. */
    method Parse(page: Page, url: string, lib: UrlLib) returns (r: Result<Parsed, Error>)
      modifies this
      ensures (r, teams) == Outcome(page, url, lib, old(teams))
    {
      if page.marker.None? {
        return Err(MissingMarker);
      }
      match Classify(page.marker.value)
      case Competition =>
        var links := ParseCompetition(page, url, lib);
        r := Ok(Parsed(None, links));
      case Team =>
        var links := ParseTeam(page, url, lib);
        r := if links.Ok? then Ok(Parsed(None, links.value)) else Err(links.error);
      case Player =>
        var rec := ParsePlayer(page, url);
        r := if rec.Ok? then Ok(Parsed(Some(rec.value), [])) else Err(rec.error);
    }

    /** `_parse_chempoinship`, lines 25-33: the registry starts over. */
    method ParseCompetition(page: Page, url: string, lib: UrlLib) returns (links: seq<string>)
      modifies this
      ensures teams == map[]
      ensures links == CompetitionLinks(page, url, lib)
    {
      teams := map[];
      links := Resolve(lib, url, CompetitionHrefs(page.standardAnchors));
    }

    /** `_parse_team`, lines 35-67: harvest the links, then register each under the team name. */
    method ParseTeam(page: Page, url: string, lib: UrlLib) returns (r: Result<seq<string>, Error>)
      modifies this
      ensures r == TeamLinks(page, url, lib)
      ensures r.Ok? ==> teams == RegisterAll(old(teams), r.value, TeamOf(url, lib))
      ensures r.Err? ==> teams == old(teams)
    {
      var hrefs := HarvestTeamLinks(page.spans);
      if hrefs.Err? {
        return Err(hrefs.error);
      }
      var links := Resolve(lib, url, hrefs.value);
      RegisterLinks(links, TeamName(lib.unquote(url)));
      r := Ok(links);
    }

    /** Lines 64-65: each link registered under the team name, a later duplicate overwriting. */
    method RegisterLinks(links: seq<string>, name: string)
      modifies this
      ensures teams == RegisterAll(old(teams), links, name)
    {
      ghost var before := teams;
      assert links[..0] == [];
      for i := 0 to |links|
        invariant teams == RegisterAll(before, links[..i], name)
      {
        RegisterStep(before, links, i, name);
        teams := teams[links[i] := name];
      }
      assert links[..|links|] == links;
    }

    /** `_find_national_team`, lines 215-217: read the entry, then delete it. */
    method FindNationalTeam(url: string) returns (r: Result<string, Error>)
      modifies this
      ensures r.Ok? <==> url in old(teams)
      ensures r.Ok? ==> r.value == old(teams)[url] && teams == old(teams) - {url}
      ensures r.Err? ==> r == Err(UnknownPlayer(url)) && teams == old(teams)
    {
      if url !in teams {
        return Err(UnknownPlayer(url));
      }
      r := Ok(teams[url]);
      teams := teams - {url};
    }

    /** `_parse_player`, lines 69-82, one helper after the other. */
    method ParsePlayer(page: Page, url: string) returns (r: Result<PlayerRecord, Error>)
      modifies this
      ensures (r, teams) == PlayerStep(page, url, old(teams))
    {
      var t := ReadTexts(page);
      if t.Err? {
        return Err(t.error);
      }
      var h := Height(t.value.height);
      if h.Err? {
        return Err(h.error);
      }
      var a := ScanClubRows(page.infobox);
      if a.Err? {
        return Err(a.error);
      }
      var b := FindClubSummary(page.tables);
      if b.Err? {
        return Err(b.error);
      }
      var n := ScanNationalRows(page.infobox);
      if n.Err? {
        return Err(n.error);
      }
      var team := FindNationalTeam(url);
      if team.Err? {
        return Err(team.error);
      }
      var birth := TransformBirth(t.value.birth);
      if birth.Err? {
        return Err(birth.error);
      }
      r := Ok(PlayerRecord(url, t.value.name, h.value, t.value.position, t.value.club,
                           ReconcileClub(a.value, b.value), ReconcileNational(n.value), team.value, birth.value));
    }
  }
}
