/**
  `get_standings`: one table per division group, skipping every group whose
  `divisionName` was already emitted, so that the first group of a name wins.
 */
module Standings {
  import opened Documents
  import opened Decimal
  import opened Text

  const TableOpen: string := "<table border='1' cellspacing='0' cellpadding='4'>"
  const ColumnRow: string := "<tr><th>Joukkue</th><th>O</th><th>V</th><th>T</th><th>P</th></tr>"
  const TableClose: string := "</table><br>"

  /** The division heading followed by the opening table tag. */
  function Header(name: string): string {
    "<h3>" + name + "</h3>" + TableOpen
  }

  /** One table row: abbreviation, games played, wins, losses, points. */
  function TeamRow(t: TeamRecord): string {
    "<tr><td>" + t.teamAbbrev + "</td><td>" + IntToString(t.gamesPlayed) + "</td><td>"
      + IntToString(t.wins) + "</td><td>" + IntToString(t.losses) + "</td><td>"
      + IntToString(t.points) + "</td></tr>"
  }

  /** The rows of `ts`, one per record, in order. */
  function Rows(ts: seq<TeamRecord>): string {
    if ts == [] then "" else Rows(ts[..|ts| - 1]) + TeamRow(ts[|ts| - 1])
  }

  /** The whole table of one division group; a missing `teamRecords` gives no rows. */
  function DivisionTable(d: DivisionGroup): string {
    Header(d.divisionName) + ColumnRow + Rows(d.teamRecords.GetOr([])) + TableClose
  }

  /** The tables of `ds`, one after the other. */
  function Tables(ds: seq<DivisionGroup>): string {
    if ds == [] then "" else Tables(ds[..|ds| - 1]) + DivisionTable(ds[|ds| - 1])
  }

  /** No group before position `i` has the name of the group at `i`. */
  predicate FirstOfName(divs: seq<DivisionGroup>, i: int)
    requires 0 <= i < |divs|
  {
    forall j :: 0 <= j < i ==> divs[j].divisionName != divs[i].divisionName
  }

  /** The groups that are the first of their name, in document order. */
  function FirstOccurrences(divs: seq<DivisionGroup>): (r: seq<DivisionGroup>)
    ensures |r| <= |divs|
  {
    if divs == [] then []
    else
      FirstOccurrences(divs[..|divs| - 1])
        + (if FirstOfName(divs, |divs| - 1) then [divs[|divs| - 1]] else [])
  }

  /** The text `get_standings` builds; a failed fetch gives the empty text. */
  function StandingsHtml(doc: Option<StandingsDoc>): string {
    match doc
    case None => ""
    case Some(d) => Tables(FirstOccurrences(d.standings.GetOr([])))
  }

  /**
    What `get_standings` hands over as written: the fragment text, or an empty
    list when the fetch failed.
   */
  datatype StandingsValue = Fragment(text: string) | EmptyList

  function GetStandingsAsWritten(doc: Option<StandingsDoc>): (v: StandingsValue)
    ensures v.EmptyList? <==> doc.None?
    ensures v.Fragment? ==> v.text == StandingsHtml(doc)
  {
    if doc.None? then EmptyList else Fragment(StandingsHtml(doc))
  }

  /** Names of the groups at positions below `i`. */
  function NamesBefore(divs: seq<DivisionGroup>, i: int): set<string>
    requires 0 <= i <= |divs|
  {
    set j | 0 <= j < i :: divs[j].divisionName
  }

  lemma TablesSnoc(ds: seq<DivisionGroup>, d: DivisionGroup)
    ensures Tables(ds + [d]) == Tables(ds) + DivisionTable(d)
  {
  }

  lemma RowsSnoc(ts: seq<TeamRecord>, k: int)
    requires 0 <= k < |ts|
    ensures Rows(ts[..k + 1]) == Rows(ts[..k]) + TeamRow(ts[k])
  {
    assert ts[..k + 1][..k] == ts[..k];
  }

  lemma NamesBeforeStep(divs: seq<DivisionGroup>, i: int)
    requires 0 <= i < |divs|
    ensures NamesBefore(divs, i + 1) == NamesBefore(divs, i) + {divs[i].divisionName}
  {
  }

  lemma FirstOccurrencesStep(divs: seq<DivisionGroup>, i: int)
    requires 0 <= i < |divs|
    ensures FirstOfName(divs, i) <==> divs[i].divisionName !in NamesBefore(divs, i)
    ensures FirstOfName(divs, i) ==> FirstOccurrences(divs[..i + 1]) == FirstOccurrences(divs[..i]) + [divs[i]]
    ensures !FirstOfName(divs, i) ==> FirstOccurrences(divs[..i + 1]) == FirstOccurrences(divs[..i])
  {
    var p := divs[..i + 1];
    assert p[..i] == divs[..i];
    assert FirstOfName(p, i) <==> FirstOfName(divs, i);
    if !FirstOfName(divs, i) {
      var j :| 0 <= j < i && divs[j].divisionName == divs[i].divisionName;
      assert divs[i].divisionName in NamesBefore(divs, i);
      assert FirstOccurrences(divs[..i]) + [] == FirstOccurrences(divs[..i]);
    }
  }

  /**
    `get_standings`, from the point where the fetch has succeeded or failed.
    The set of names already added decides whether a group is emitted.
   */
  method GetStandings(doc: Option<StandingsDoc>) returns (html: string)
    ensures doc.None? ==> html == ""
    ensures html == StandingsHtml(doc)
  {
    if doc.None? {
      return "";
    }
    html := "";
    var divisions := doc.value.standings.GetOr([]);
    var addedDivisions: set<string> := {};
    for i := 0 to |divisions|
      invariant addedDivisions == NamesBefore(divisions, i)
      invariant html == Tables(FirstOccurrences(divisions[..i]))
    {
      var divName := divisions[i].divisionName;
      FirstOccurrencesStep(divisions, i);
      NamesBeforeStep(divisions, i);
      if divName in addedDivisions {
        continue;
      }
      addedDivisions := addedDivisions + {divName};
      var teams := divisions[i].teamRecords.GetOr([]);
      ghost var done := html;
      html := html + Header(divName);
      html := html + ColumnRow;
      ghost var tableStart := html;
      for k := 0 to |teams|
        invariant html == tableStart + Rows(teams[..k])
      {
        RowsSnoc(teams, k);
        AppendAssoc(tableStart, Rows(teams[..k]), TeamRow(teams[k]));
        html := html + TeamRow(teams[k]);
      }
      html := html + TableClose;
      assert teams[..|teams|] == teams;
      TablesSnoc(FirstOccurrences(divisions[..i]), divisions[i]);
      AppendAssoc(done, Header(divName), ColumnRow);
      AppendAssoc(done, Header(divName) + ColumnRow, Rows(teams));
      AppendAssoc(done, Header(divName) + ColumnRow + Rows(teams), TableClose);
    }
    assert divisions[..|divisions|] == divisions;
  }

  lemma FirstOfNamePrefix(divs: seq<DivisionGroup>, n: int, i: int)
    requires 0 <= i < n <= |divs|
    ensures FirstOfName(divs[..n], i) <==> FirstOfName(divs, i)
  {
  }

  /** `d` stands in `divs` at a position where no earlier group has its name. */
  predicate IsFirstGroup(divs: seq<DivisionGroup>, d: DivisionGroup) {
    exists i :: 0 <= i < |divs| && divs[i] == d && FirstOfName(divs, i)
  }

  /** Some group of `ds` has the name `name`. */
  predicate HasName(ds: seq<DivisionGroup>, name: string) {
    exists k :: 0 <= k < |ds| && ds[k].divisionName == name
  }

  /** Every emitted group is a group of the document that is the first of its name. */
  lemma {:induction false} FirstOccurrencesAreFirst(divs: seq<DivisionGroup>)
    ensures forall k :: 0 <= k < |FirstOccurrences(divs)| ==> IsFirstGroup(divs, FirstOccurrences(divs)[k])
  {
    if divs != [] {
      var n := |divs|;
      var init := divs[..n - 1];
      FirstOccurrencesAreFirst(init);
      var prev := FirstOccurrences(init);
      assert prev <= FirstOccurrences(divs);
      forall k | 0 <= k < |FirstOccurrences(divs)|
        ensures IsFirstGroup(divs, FirstOccurrences(divs)[k])
      {
        var i := n - 1;
        if k < |prev| {
          assert IsFirstGroup(init, prev[k]);
          i :| 0 <= i < |init| && init[i] == prev[k] && FirstOfName(init, i);
          FirstOfNamePrefix(divs, n - 1, i);
        }
        assert 0 <= i < |divs| && FirstOccurrences(divs)[k] == divs[i] && FirstOfName(divs, i);
      }
    } else {
      assert FirstOccurrences(divs) == [];
    }
  }

  /** No division name is emitted twice. */
  lemma {:induction false} FirstOccurrencesDistinct(divs: seq<DivisionGroup>)
    ensures forall a, b :: 0 <= a < b < |FirstOccurrences(divs)| ==>
              FirstOccurrences(divs)[a].divisionName != FirstOccurrences(divs)[b].divisionName
  {
    if divs != [] {
      var n := |divs|;
      var init := divs[..n - 1];
      FirstOccurrencesDistinct(init);
      FirstOccurrencesAreFirst(init);
      var prev := FirstOccurrences(init);
      if FirstOfName(divs, n - 1) {
        forall a | 0 <= a < |prev| ensures prev[a].divisionName != divs[n - 1].divisionName {
          assert IsFirstGroup(init, prev[a]);
          var i :| 0 <= i < |init| && init[i] == prev[a] && FirstOfName(init, i);
          assert prev[a] == divs[i];
        }
      }
    }
  }

  /** Every division name of the document is emitted. */
  lemma {:induction false} FirstOccurrencesCover(divs: seq<DivisionGroup>)
    ensures forall i :: 0 <= i < |divs| ==> HasName(FirstOccurrences(divs), divs[i].divisionName)
  {
    if divs != [] {
      var n := |divs|;
      var init := divs[..n - 1];
      FirstOccurrencesCover(init);
      var prev := FirstOccurrences(init);
      assert prev <= FirstOccurrences(divs);
      forall i | 0 <= i < n
        ensures HasName(FirstOccurrences(divs), divs[i].divisionName)
      {
        var j := i;
        if i == n - 1 && !FirstOfName(divs, n - 1) {
          j :| 0 <= j < n - 1 && divs[j].divisionName == divs[n - 1].divisionName;
        }
        if j < n - 1 {
          assert divs[j] == init[j];
          assert HasName(prev, init[j].divisionName);
          var k :| 0 <= k < |prev| && prev[k].divisionName == init[j].divisionName;
          assert FirstOccurrences(divs)[k] == prev[k];
        } else {
          assert FirstOccurrences(divs)[|prev|] == divs[n - 1];
        }
      }
    }
  }

  /** What a prefix of the document emits is a prefix of what the whole document emits. */
  lemma {:induction false} FirstOccurrencesPrefix(divs: seq<DivisionGroup>, n: nat)
    requires n <= |divs|
    ensures FirstOccurrences(divs[..n]) <= FirstOccurrences(divs)
    decreases |divs| - n
  {
    if n < |divs| {
      FirstOccurrencesPrefix(divs, n + 1);
      FirstOccurrencesStep(divs, n);
    } else {
      assert divs[..n] == divs;
    }
  }

  /** A group whose name was already seen is skipped whole: the text does not change. */
  lemma RepeatedGroupSkipped(divs: seq<DivisionGroup>, d: DivisionGroup)
    requires exists j :: 0 <= j < |divs| && divs[j].divisionName == d.divisionName
    ensures StandingsHtml(Some(StandingsDoc(Some(divs + [d])))) == StandingsHtml(Some(StandingsDoc(Some(divs))))
  {
    var all := divs + [d];
    FirstOccurrencesStep(all, |divs|);
    assert all[..|divs|] == divs && all[..|divs| + 1] == all;
    var j :| 0 <= j < |divs| && divs[j].divisionName == d.divisionName;
    assert all[j] == divs[j];
  }

  /** A group with a new name adds its own table, and nothing else, at the end. */
  lemma NewGroupRendered(divs: seq<DivisionGroup>, d: DivisionGroup)
    requires forall j :: 0 <= j < |divs| ==> divs[j].divisionName != d.divisionName
    ensures StandingsHtml(Some(StandingsDoc(Some(divs + [d]))))
         == StandingsHtml(Some(StandingsDoc(Some(divs)))) + DivisionTable(d)
  {
    var all := divs + [d];
    FirstOccurrencesStep(all, |divs|);
    assert all[..|divs|] == divs && all[..|divs| + 1] == all;
    assert forall j :: 0 <= j < |divs| ==> all[j] == divs[j];
    TablesSnoc(FirstOccurrences(divs), d);
  }

  /** A document that lists its division groups twice renders like the single list. */
  lemma RepeatedDocumentOnce(divs: seq<DivisionGroup>)
    ensures StandingsHtml(Some(StandingsDoc(Some(divs + divs)))) == StandingsHtml(Some(StandingsDoc(Some(divs))))
  {
    var k := 0;
    assert divs + divs[..0] == divs;
    while k < |divs|
      invariant 0 <= k <= |divs|
      invariant StandingsHtml(Some(StandingsDoc(Some(divs + divs[..k])))) == StandingsHtml(Some(StandingsDoc(Some(divs))))
    {
      assert (divs + divs[..k]) + [divs[k]] == divs + divs[..k + 1];
      assert (divs + divs[..k])[k] == divs[k];
      RepeatedGroupSkipped(divs + divs[..k], divs[k]);
      k := k + 1;
    }
    assert divs[..|divs|] == divs;
  }
}
