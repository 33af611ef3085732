/**
 * The team registry: player page URL to national-team name. Team pages write it, a
 * competition page empties it, and each player page reads its own entry and deletes it.
 * These functions give the registry's abstract behaviour; `Parser.CssParser` keeps the map as
 * a field and is specified by them.
 */
module Registry {
  import opened Wrappers
  import opened Document

  type Teams = map<string, string>

  /** The links as a set. */
  function LinkSet(links: seq<string>): set<string>
  {
    set l | l in links
  }

  /** `for l in links: teams[l] = name`, one assignment per link in list order. */
  function RegisterAll(teams: Teams, links: seq<string>, name: string): Teams
  {
    if links == [] then teams
    else RegisterAll(teams, links[..|links| - 1], name)[links[|links| - 1] := name]
  }

  /**
   * After registering, every link maps to the team name, the keys grew by exactly the links,
   * and every other key keeps its value.
   */
  lemma {:induction false} RegisterAllSpec(teams: Teams, links: seq<string>, name: string)
    ensures RegisterAll(teams, links, name).Keys == teams.Keys + LinkSet(links)
    ensures forall l :: l in links ==> RegisterAll(teams, links, name)[l] == name
    ensures forall k :: k in teams && k !in links ==> RegisterAll(teams, links, name)[k] == teams[k]
  {
    if links != [] {
      var init := links[..|links| - 1];
      RegisterAllSpec(teams, init, name);
      assert LinkSet(links) == LinkSet(init) + {links[|links| - 1]} by {
        assert links == init + [links[|links| - 1]];
      }
      forall k | k in teams && k !in links
        ensures RegisterAll(teams, links, name)[k] == teams[k]
      {
        assert k !in init;
      }
    }
  }

  /** One more link registers one more entry: the loop step of `for l in links`. */
  lemma RegisterStep(teams: Teams, links: seq<string>, i: nat, name: string)
    requires i < |links|
    ensures RegisterAll(teams, links[..i + 1], name) == RegisterAll(teams, links[..i], name)[links[i] := name]
  {
    assert links[..i + 1][..i] == links[..i];
  }

  /** `teams[url]` followed by `del teams[url]`; a missing key is the lookup failure. */
  function Consume(teams: Teams, url: string): (r: Result<(string, Teams), Error>)
    ensures r.Ok? <==> url in teams
    ensures r.Ok? ==> r.value.0 == teams[url] && r.value.1.Keys == teams.Keys - {url}
    ensures r.Ok? ==> forall k :: k in r.value.1 ==> r.value.1[k] == teams[k]
    ensures r.Err? ==> r.error == UnknownPlayer(url)
  {
    if url in teams then Ok((teams[url], teams - {url})) else Err(UnknownPlayer(url))
  }

  /** An entry is read at most once: consuming the same URL again fails. */
  lemma ConsumeAtMostOnce(teams: Teams, url: string)
    requires url in teams
    ensures Consume(Consume(teams, url).value.1, url) == Err(UnknownPlayer(url))
  {
  }

  /**
   * A team page registered after the player's entry was consumed makes the player readable again,
   * with the newer team name.
   */
  lemma {:induction false} ConsumeAfterRegister(teams: Teams, links: seq<string>, name: string, url: string)
    requires url in links
    ensures Consume(RegisterAll(teams, links, name), url).Ok?
    ensures Consume(RegisterAll(teams, links, name), url).value.0 == name
  {
    RegisterAllSpec(teams, links, name);
  }
}
