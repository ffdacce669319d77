/**
  `generate_html`: the result list (or its placeholder) and the standings
  fragment spliced into the page, and the run that feeds both fetches into it.
 */
module Report {
  import opened Documents
  import opened Text
  import Results
  import Standings

  /** The text of the single item shown when there are no results. */
  const PlaceholderText: string := "Ei otteluita tänään valituille joukkueille."

  /**
    The static markup of the page, cut where the generated parts go in:
    `head` ends by opening the list and holds today's date, `middle` closes
    the list and heads the standings, `foot` holds the update time.
   */
  datatype Page = Page(head: string, middle: string, foot: string)

  function ListItem(text: string): string {
    "<li>" + text + "</li>"
  }

  /** One list item per result, in order. */
  function ListItems(rs: seq<string>): string {
    if rs == [] then "" else ListItems(rs[..|rs| - 1]) + ListItem(rs[|rs| - 1])
  }

  /** The list items, or the placeholder item alone when there are no results. */
  function ResultList(rs: seq<string>): string {
    if rs == [] then ListItem(PlaceholderText) else ListItems(rs)
  }

  /** The page text: the results list, then the standings fragment verbatim. */
  function PageHtml(results: seq<string>, standingsHtml: string, page: Page): (r: string)
    ensures |r| == |page.head| + |ResultList(results)| + |page.middle| + |standingsHtml| + |page.foot|
    ensures page.head <= r
    ensures r[|page.head| + |ResultList(results)| + |page.middle|..][..|standingsHtml|] == standingsHtml
    ensures r[|r| - |page.foot|..] == page.foot
  {
    page.head + ResultList(results) + page.middle + standingsHtml + page.foot
  }

  /** `generate_html` up to the file write. */
  method GenerateHtml(results: seq<string>, standingsHtml: string, page: Page) returns (htmlContent: string)
    ensures htmlContent == PageHtml(results, standingsHtml, page)
  {
    htmlContent := page.head;
    if results != [] {
      for i := 0 to |results|
        invariant htmlContent == page.head + ListItems(results[..i])
      {
        assert results[..i + 1][..i] == results[..i];
        AppendAssoc(page.head, ListItems(results[..i]), ListItem(results[i]));
        htmlContent := htmlContent + ListItem(results[i]);
      }
      assert results[..|results|] == results;
    } else {
      htmlContent := htmlContent + ListItem(PlaceholderText);
    }
    htmlContent := htmlContent + page.middle + standingsHtml + page.foot;
  }

  /** One run: both fetch outcomes turned into the page text. */
  method UpdateReport(schedule: Option<ScheduleDoc>, standings: Option<StandingsDoc>,
                      fmt: Instant -> string, page: Page) returns (html: string)
    ensures html == PageHtml(Results.TeamResults(schedule, fmt), Standings.StandingsHtml(standings), page)
  {
    var results := Results.GetTeamResults(schedule, fmt);
    var standingsHtml := Standings.GetStandings(standings);
    html := GenerateHtml(results, standingsHtml, page);
  }

  /**
    Reads a run of `<li>text</li>` items back into their texts; `None` when the
    input is not such a run.
   */
  function ParseItems(s: string): Option<seq<string>>
    decreases |s|
  {
    if s == [] then Some([])
    else if |s| < 4 || s[..4] != "<li>" then None
    else
      match SplitFirst(s[4..], '<')
      case None => None
      case Some(p) =>
        if |p.1| < 4 || p.1[..4] != "/li>" then None
        else
          match ParseItems(p.1[4..])
          case None => None
          case Some(tail) => Some([p.0] + tail)
  }

  lemma {:induction false} ListItemsCons(r: string, rs: seq<string>)
    ensures ListItems([r] + rs) == ListItem(r) + ListItems(rs)
  {
    if rs == [] {
      assert ([r] + rs)[..0] == [];
      assert [r] + rs == [r];
    } else {
      var init, last := rs[..|rs| - 1], rs[|rs| - 1];
      ListItemsCons(r, init);
      assert ([r] + rs)[..|rs|] == [r] + init;
      AppendAssoc(ListItem(r), ListItems(init), ListItem(last));
    }
  }

  /** Reading back the items of texts free of `<` gives exactly those texts, in order. */
  lemma {:induction false} ListItemsRoundTrip(rs: seq<string>)
    requires forall k :: 0 <= k < |rs| ==> '<' !in rs[k]
    ensures ParseItems(ListItems(rs)) == Some(rs)
  {
    if rs != [] {
      var r, tail := rs[0], rs[1..];
      assert rs == [r] + tail;
      ListItemsCons(r, tail);
      ListItemsRoundTrip(tail);
      var rest := ListItems(tail);
      ListItemShape(r, rest);
      SplitFirstConcat(r, '<', "/li>" + rest);
    }
  }

  lemma ListItemShape(r: string, rest: string)
    ensures (ListItem(r) + rest)[..4] == "<li>"
    ensures (ListItem(r) + rest)[4..] == r + ['<'] + ("/li>" + rest)
    ensures ("/li>" + rest)[..4] == "/li>" && ("/li>" + rest)[4..] == rest
  {
  }

  /**
    The list holds exactly one item, the placeholder, when there are no
    results, and otherwise exactly the results, one item each, in order.
   */
  lemma ResultListRoundTrip(rs: seq<string>)
    requires forall k :: 0 <= k < |rs| ==> '<' !in rs[k]
    ensures ParseItems(ResultList(rs)) == Some(if rs == [] then [PlaceholderText] else rs)
  {
    if rs == [] {
      assert ListItems([PlaceholderText]) == ListItem(PlaceholderText) by {
        assert [PlaceholderText][..0] == [];
      }
      ListItemsRoundTrip([PlaceholderText]);
    } else {
      ListItemsRoundTrip(rs);
    }
  }

  /**
    The page as written: adding the standings value to the page text raises
    a type error, and no page is produced, when that value is a list.
   */
  function PageHtmlAsWritten(results: seq<string>, standings: Standings.StandingsValue, page: Page): (r: Option<string>)
    ensures r.None? <==> standings.EmptyList?
    ensures standings.Fragment? ==> r == Some(PageHtml(results, standings.text, page))
  {
    match standings
    case Fragment(text) => Some(PageHtml(results, text, page))
    case EmptyList => None
  }

  /** As written, a failed standings fetch leaves no page at all. */
  lemma StandingsFailureAsWritten(results: seq<string>, page: Page)
    ensures PageHtmlAsWritten(results, Standings.GetStandingsAsWritten(None), page) == None
  {
  }

  /**
    With the failure mapped to the empty fragment, a failed standings fetch
    still gives the full page, results list included, with an empty standings part.
   */
  lemma StandingsFailureCorrected(results: seq<string>, page: Page)
    ensures PageHtml(results, Standings.StandingsHtml(None), page)
         == page.head + ResultList(results) + page.middle + page.foot
  {
  }
}
