/** Which of the three page kinds a page is, decided on the infobox's `data-name` marker. */
module Classifier {
  import opened Text

  datatype PageKind = Competition | Team | Player

  const CompetitionKeyword: string := "Соревнование"
  const TeamKeyword: string := "Сборная"

  /**
   * The competition keyword is checked first, so it wins over the team keyword;
   * every other marker is a player page.
   */
  function Classify(marker: string): (k: PageKind)
    ensures k == Competition <==> Contains(marker, CompetitionKeyword)
    ensures k == Team <==> !Contains(marker, CompetitionKeyword) && Contains(marker, TeamKeyword)
    ensures k == Player <==> !Contains(marker, CompetitionKeyword) && !Contains(marker, TeamKeyword)
  {
    if Contains(marker, CompetitionKeyword) then Competition
    else if Contains(marker, TeamKeyword) then Team
    else Player
  }

  /** A marker that names both a competition and a national team is a competition page. */
  lemma {:induction false} CompetitionWins(pre: string, mid: string, post: string)
    ensures Classify(pre + CompetitionKeyword + mid + TeamKeyword + post) == Competition
    ensures Classify(pre + TeamKeyword + mid + CompetitionKeyword + post) == Competition
  {
    var s1 := pre + CompetitionKeyword + mid + TeamKeyword + post;
    assert s1[|pre|..|pre| + |CompetitionKeyword|] == CompetitionKeyword;
    assert OccursAt(s1, CompetitionKeyword, |pre|);
    var s2 := pre + TeamKeyword + mid + CompetitionKeyword + post;
    var i := |pre| + |TeamKeyword| + |mid|;
    assert s2[i..i + |CompetitionKeyword|] == CompetitionKeyword;
    assert OccursAt(s2, CompetitionKeyword, i);
  }
}
