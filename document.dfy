/**
 * The parsed page, replaced by the values the parser's selectors read from it.
 * Each field names the selector of parsers/parser.py it stands for.
 */
module Document {
  import opened Wrappers
  import opened Text

  /** A child of a table row: an element (its tag name and text) or a bare text node. */
  datatype Node = Elem(tag: string, text: string) | Str(text: string)

  /** A table row `tr`, given by its children in document order (text nodes included). */
  datatype Row = Row(children: seq<Node>)

  /** `tr.text`: the text of all the row's children, concatenated. */
  function RowText(r: Row): string
  {
    Concat(r.children)
  }

  function Concat(ns: seq<Node>): string
  {
    if ns == [] then [] else Concat(ns[..|ns| - 1]) + ns[|ns| - 1].text
  }

  /** The number of element children, text nodes not counted. */
  function ElementCount(ns: seq<Node>): nat
  {
    if ns == [] then 0 else (if ns[0].Elem? then 1 else 0) + ElementCount(ns[1..])
  }

  /**
   * Index of the `n`-th element child (1-based, text nodes not counted), as CSS `:nth-child(n)`
   * counts: an element with `n - 1` elements before it, found exactly when there are `n` of them.
   */
  function NthElement(ns: seq<Node>, n: nat): (r: Option<nat>)
    ensures r.Some? ==> r.value < |ns| && ns[r.value].Elem? && n >= 1 && ElementCount(ns[..r.value]) == n - 1
    ensures r.None? <==> n == 0 || ElementCount(ns) < n
  {
    if ns == [] || n == 0 then None
    else if ns[0].Elem? && n == 1 then Some(0)
    else
      match NthElement(ns[1..], if ns[0].Elem? then n - 1 else n)
      case None => None
      case Some(k) =>
        assert ns[..k + 1][1..] == ns[1..][..k];
        Some(k + 1)
  }

  /** `row.select_one("td:nth-child(n)")`: the `n`-th element child when it is a `td`. */
  function NthTd(r: Row, n: nat): (k: Option<nat>)
    ensures k.Some? ==> k.value < |r.children| && r.children[k.value] == Elem("td", r.children[k.value].text)
    ensures k.Some? ==> ElementCount(r.children[..k.value]) == n - 1
    ensures k.None? <==> (|| n == 0
                          || ElementCount(r.children) < n
                          || exists j :: && 0 <= j < |r.children| && ElementCount(r.children[..j]) == n - 1
                                         && r.children[j].Elem? && r.children[j].tag != "td")
  {
    match NthElement(r.children, n)
    case Some(k) =>
      if r.children[k].tag == "td" then
        assert forall j | 0 <= j < |r.children| && ElementCount(r.children[..j]) == n - 1 && r.children[j].Elem? :: j == k by {
          forall j | 0 <= j < |r.children| && ElementCount(r.children[..j]) == n - 1 && r.children[j].Elem?
            ensures j == k
          {
            if j < k { ElementCountGrows(r.children, j, k); }
            if k < j { ElementCountGrows(r.children, k, j); }
          }
        }
        Some(k)
      else None
    case None => None
  }

  /** Counting element children distributes over concatenation. */
  lemma {:induction false} ElementCountAppend(a: seq<Node>, b: seq<Node>)
    ensures ElementCount(a + b) == ElementCount(a) + ElementCount(b)
  {
    if a != [] {
      assert (a + b)[0] == a[0] && (a + b)[1..] == a[1..] + b;
      ElementCountAppend(a[1..], b);
    } else {
      assert a + b == b;
    }
  }

  /** A prefix that reaches past an element counts more elements than one that stops before it. */
  lemma ElementCountGrows(ns: seq<Node>, j: nat, k: nat)
    requires j < k <= |ns| && ns[j].Elem?
    ensures ElementCount(ns[..j]) < ElementCount(ns[..k])
  {
    var rest := [ns[j]] + ns[j + 1..k];
    assert ns[..k] == ns[..j] + rest;
    assert rest[1..] == ns[j + 1..k];
    assert ElementCount(rest) == 1 + ElementCount(ns[j + 1..k]);
    ElementCountAppend(ns[..j], rest);
  }

  /** An anchor element; `href` is absent when the attribute is missing. */
  datatype Anchor = Anchor(href: Option<string>)

  /** A row of a roster table, by the anchor directly inside its third `td` (`td:nth-child(3) > a`). */
  datatype RosterRow = RosterRow(thirdCellAnchor: Option<Anchor>)

  /**
   * A node of the sibling chain that follows a section header: an element (with the rows of its
   * `tbody` when it has one) or a text node.
   */
  datatype Sibling = SiblingTag(name: string, tbody: Option<seq<RosterRow>>) | SiblingText

  /**
   * A `span` carrying an `id`, with the chain the team parser walks from it:
   * the span's parent first, then the parent's following siblings.
   */
  datatype Span = Span(id: string, chain: seq<Sibling>)

  /** The four labelled infobox fields (wikidata properties P2048, P413, P54, P569), absent or present. */
  datatype Fields = Fields(height: Option<string>, position: Option<string>, club: Option<string>, birth: Option<string>)

  datatype Page = Page(
    marker: Option<string>,          // the `data-name` attribute of `body div .infobox`
    standardAnchors: seq<Anchor>,    // `table.standard tr td:nth-child(1) > a`
    spans: seq<Span>,                // every `span` with an `id`, in document order
    nameText: Option<string>,        // text of `.infobox tbody tr .ts_Спортсмен_имя`
    fields: Fields,                  // the `span[data-wikidata-property-id=…]` texts
    infobox: seq<Row>,               // `.infobox table tbody tr`
    tables: seq<seq<Row>>)           // the `tbody` rows of every `table:not(.infobox)`

  /** The reasons the parser stops; each stands for the exception the Python code raises. */
  datatype Error =
    | MissingMarker                  // no infobox or no `data-name`
    | MissingField(field: string)    // a selector found nothing
    | MissingSection(marker: string) // a row scan ran past the last infobox row
    | MalformedCell(text: string)    // a caps/goals cell that cannot be split or read
    | MissingSibling                 // a sibling walk ran off the end of its chain
    | MissingHref                    // a roster anchor without `href`
    | BadHeight(text: string)
    | BadDate(text: string)
    | UnknownPlayer(url: string)     // no team registered for this player page
}
