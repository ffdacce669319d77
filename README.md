# NHL results report: a Dafny model

`nhl_update.py` fetches the NHL schedule and standings, keeps the games of
four tracked teams (`ANA`, `CAR`, `DAL`, `MTL`), and writes an HTML page with
one list item per game and one table per division. This project models the
three transformations between the fetched documents and the page text:

- `get_team_results` (module `Results`): flatten `gameWeek → games`, keep the
  games where either side is tracked, and build one line
  `away awayScore - homeScore home (state, time)` per kept game. Absent
  scores become `0` and an absent state becomes `"Unknown"`.
- `get_standings` (module `Standings`): walk the division groups and keep a
  set of the names already added. A group whose name is in the set is
  skipped whole. Every other group gives a heading, the column row, one row
  per team record and the closing tags.
- `generate_html` (module `Report`): one `<li>` per result in order, or the
  single placeholder item when there are no results, then the standings
  fragment spliced in verbatim.

The fetched JSON is given as datatypes (module `Documents`). A key the script
reads by indexing is a plain field. A key it reads with `.get(key, default)`
is an `Option` field. A fetch outcome is `Option<document>`, where `None`
stands for any request, status or JSON-decoding failure. Module `Decimal`
models Python's `str` on integers together with a parser for it. Module
`Text` splits a string at a separator.

Each of the three functions is a method with the source's loops: nested
`for` loops that append to `results`, a loop that grows the standings text
and the `added_divisions` set, and the loop that grows `html_content`. Each
method is proved equal to a specification function. The lemmas are about
those functions: filtering, order, de-duplication, and round trips that
parse the rendered text back.

Parameters stand for what the model does not compute:
- `fmt: Instant -> string` is the locale-dependent `strftime` of the
  displayed start. The model applies it to the UTC start instant, in
  seconds, plus 7200 (the two-hour shift).
- `Page(head, middle, foot)` is the static markup around the generated
  parts. `head` holds today's date and `foot` holds the update time.

## Model

| member | source | states |
|---|---|---|
| `Results.Teams` | nhl_update.py:12 | Constant, no contract: the four tracked abbreviations `ANA`, `CAR`, `DAL`, `MTL`, in the source's order. `Results.Tracked` tests membership in it. |
| `Results.WeekGames` | nhl_update.py:28 | Definition, no contract: a week's games, or none when `games` is absent. `Results.FlattenStep` states how it extends the flattened list. |
| `Results.Flatten` | nhl_update.py:26-28 | Definition, no contract: the games of all weeks, week by week and game by game within a week. `Results.FlattenConcat` and `Results.FlattenStep` state its order. |
| `Results.TrackedGames` | nhl_update.py:32-33 | Definition, no contract: the games that pass the filter, in input order. `Results.TrackedGamesCount`, `Results.TrackedGamesConcat` and `Results.TrackedGamesSnoc` state what it keeps. |
| `Results.LocalStart` | nhl_update.py:40 | Definition, no contract: the UTC start instant moved forward by two hours (7200 s). `Results.ResultLineRoundTrip` states that the formatted shifted instant is what the line carries. |
| `Results.Lines` | nhl_update.py:43 | Definition, no contract: one appended line per game, in order. `Results.LinesAt`, `Results.LinesConcat`, `Results.LinesSnoc` and `Results.LinesMembership` state its shape. |
| `Results.Tracked` | nhl_update.py:32-33 | Definition, no contract: a game is kept when its home or its away abbreviation is in `TEAMS`. What filtering with it guarantees is stated by `Results.TrackedGamesCount` and `Results.ResultsExactlyTracked`. |
| `Results.FormatLine` | nhl_update.py:43 | Definition, no contract: the f-string `away awayScore - homeScore home (state, time)`, with the scores written as by `str`. That it can be read back is stated by `Results.FormatLineRoundTrip`. |
| `Results.ResultLine` | nhl_update.py:35-43 | Definition, no contract: the line of one game, with score 0 and state "Unknown" when absent, and the time formatted from the start plus two hours. That it can be read back is stated by `Results.ResultLineRoundTrip`. |
| `Results.TeamResults` | nhl_update.py:21-44 | A failed fetch gives no lines. Otherwise there are exactly as many lines as tracked games in the flattened weeks. |
| `Results.GetTeamResults` | nhl_update.py:15-44 | A failed fetch gives no lines. Otherwise the lines are those of the tracked games of the flattened weeks, in order, with the defaults applied. |
| `Results.ResultsExactlyTracked` | nhl_update.py:29-33 | A line is in the results exactly when it is the line of some game of the document whose home or away abbreviation is in `TEAMS`. |
| `Results.ResultsOnePerGame` | nhl_update.py:27-43 | There is one line per kept game, and line i is the line of kept game i. A tracked game occurring n times in the document is kept n times. |
| `Results.TrackedGamesCount` | nhl_update.py:32-33 | Filtering keeps every tracked game as many times as it occurs and drops every untracked game. |
| `Results.TrackedGamesConcat` | nhl_update.py:28-33 | Filtering distributes over concatenation, so kept games keep their input order. |
| `Results.FlattenConcat` | nhl_update.py:26-28 | Flattening distributes over concatenation of week lists. |
| `Results.ResultsWeekOrder` | nhl_update.py:27-28 | The results of weeks `a + b` are the results of `a` followed by those of `b`. |
| `Results.ResultsGameOrder` | nhl_update.py:28-43 | Within a week, the results of games `a + b` are the results of `a` followed by those of `b`. |
| `Results.LinesConcat` | nhl_update.py:43 | Building lines distributes over concatenation of game lists. |
| `Results.LinesAt` | nhl_update.py:43 | There is one line per game, and line i is the line of game i. |
| `Results.TrackedGamesSnoc` | nhl_update.py:32-43 | One more game adds itself to the kept games when tracked and adds nothing otherwise. |
| `Results.LinesMembership` | nhl_update.py:43 | A text is among the lines of some games exactly when it is the line of one of them. |
| `Results.FormatLineRoundTrip` | nhl_update.py:43 | Parsing `away awayScore - homeScore home (state, time)` gives all six fields back, when the abbreviations hold no space and the state holds no comma. |
| `Results.ScoresRoundTrip` | nhl_update.py:43 | Parsing `awayScore - homeScore rest` gives both integers and the rest back. |
| `Results.ParenRoundTrip` | nhl_update.py:43 | Parsing the `(state, time)` tail gives the state and the time back, when the state holds no comma. |
| `Results.ResultLineRoundTrip` | nhl_update.py:35-43 | Parsing a game's line gives back both teams, each score (0 when absent), the state ("Unknown" when absent) and the formatted start+7200 s. |
| `Standings.FirstOfName` | nhl_update.py:66 | Definition, no contract: no earlier group has this group's name, which is the membership test against the names added so far. `Standings.FirstOccurrencesStep` proves the two equivalent. |
| `Standings.NamesBefore` | nhl_update.py:60-69 | Definition, no contract: the names of the groups before a position, which is what `added_divisions` holds. `Standings.NamesBeforeStep` states the effect of `add`, and `Standings.GetStandings` keeps the set equal to it as a loop invariant. |
| `Standings.Rows` | nhl_update.py:73-79 | Definition, no contract: one row per team record, in order. `Standings.RowsSnoc` states what each record appends. |
| `Standings.Tables` | nhl_update.py:71-80 | Definition, no contract: the tables of a list of groups, one after another. `Standings.TablesSnoc` states what each group appends. |
| `Standings.Header` | nhl_update.py:71 | Definition, no contract: the `<h3>` heading with the division name, then the opening table tag. Its place in a table is stated by `Standings.NewGroupRendered`. |
| `Standings.TeamRow` | nhl_update.py:74-79 | Definition, no contract: one row with the abbreviation, games played, wins, losses and points, written as by `str`. Its place in a table is stated by `Standings.RowsSnoc`. |
| `Standings.DivisionTable` | nhl_update.py:70-80 | Definition, no contract: heading, column row, one row per team record (none when `teamRecords` is absent), closing tags. What appending it means is stated by `Standings.NewGroupRendered` and `Standings.TablesSnoc`. |
| `Standings.FirstOccurrences` | nhl_update.py:62-69 | The groups kept by de-duplication are never more than the groups of the document. Which groups they are is stated by `Standings.FirstOccurrencesAreFirst`, `Standings.FirstOccurrencesDistinct` and `Standings.FirstOccurrencesCover`. |
| `Standings.StandingsHtml` | nhl_update.py:58-81 | Definition, no contract: the tables of the groups kept by de-duplication. A failed fetch gives the empty text (corrected, see ## Findings). `Standings.GetStandings` is proved equal to it. |
| `Standings.GetStandings` | nhl_update.py:48-81 | (corrected, see ## Findings) A failed fetch gives the empty text. Otherwise the text is the tables of the first group of each name, in document order. The loop invariant, not the contract, keeps the added-names set equal to the names of the groups seen so far. |
| `Standings.GetStandingsAsWritten` | nhl_update.py:54-81 | As written, the standings step hands over an empty list exactly when the fetch failed, and the fragment text otherwise. |
| `Standings.FirstOccurrencesStep` | nhl_update.py:62-69 | A group is emitted exactly when its name is not among the names before it. The emitted list grows by that group or stays the same. |
| `Standings.NamesBeforeStep` | nhl_update.py:69 | Each step adds exactly the current group's name to the set of names seen. |
| `Standings.FirstOccurrencesAreFirst` | nhl_update.py:66-67 | Every emitted group is a group of the document at a position where no earlier group has its name. |
| `Standings.FirstOccurrencesDistinct` | nhl_update.py:60-69 | No two emitted groups share a division name, so each name gets at most one heading. |
| `Standings.FirstOccurrencesCover` | nhl_update.py:62-71 | Every division name of the document is emitted. |
| `Standings.FirstOccurrencesPrefix` | nhl_update.py:62 | What a prefix of the document emits is a prefix of what the whole document emits, so emission follows document order. |
| `Standings.RepeatedGroupSkipped` | nhl_update.py:66-67 | Appending a group whose name was already seen leaves the standings text unchanged, rows included. |
| `Standings.NewGroupRendered` | nhl_update.py:69-80 | Appending a group with a new name appends exactly its table: heading, column row, one row per team record in order, closing tags. |
| `Standings.RepeatedDocumentOnce` | nhl_update.py:62-80 | A document listing its groups twice renders exactly like the single list, so repeating the list adds no heading and no row. |
| `Standings.TablesSnoc` | nhl_update.py:71-80 | Emitting one more group appends exactly that group's table. |
| `Standings.RowsSnoc` | nhl_update.py:73-79 | Each team record appends exactly its row. |
| `Standings.FirstOfNamePrefix` | nhl_update.py:66 | Whether a group is the first of its name depends only on the groups before it. |
| `Report.ListItem` | nhl_update.py:109 | Definition, no contract: a result text wrapped in `<li>` and `</li>`. `Report.ListItemsRoundTrip` states that the wrapped texts are read back unchanged. |
| `Report.ListItems` | nhl_update.py:108-109 | Definition, no contract: one item per result, in order. `Report.ListItemsCons` and `Report.ListItemsRoundTrip` state its shape. |
| `Report.ResultList` | nhl_update.py:107-111 | Definition, no contract: one `<li>` per result, or the placeholder item alone when there are no results. What the list reads back to is stated by `Report.ResultListRoundTrip`. |
| `Report.PageHtml` | nhl_update.py:87-117 | The page starts with the static head and ends with the static foot. The standings fragment appears verbatim right after the head, the result list and the middle. |
| `Report.GenerateHtml` | nhl_update.py:85-121 | A page is the head, one `<li>` per result in order (or the placeholder item alone when there are none), the middle, the standings fragment verbatim, and the foot. |
| `Report.UpdateReport` | nhl_update.py:128-131 | (corrected, see ## Findings) A run produces the page of the results and standings derived from the two fetch outcomes. A failed standings fetch still yields a page. |
| `Report.ListItemsCons` | nhl_update.py:108-109 | The items of `[r] + rs` are the item of `r` followed by the items of `rs`. |
| `Report.ListItemsRoundTrip` | nhl_update.py:108-109 | Parsing the items of texts that hold no `<` gives exactly those texts, in order. |
| `Report.ResultListRoundTrip` | nhl_update.py:107-111 | The list parses to the placeholder text alone when there are no results. Otherwise it parses to exactly the results, one each, in order, with no placeholder. |
| `Report.PageHtmlAsWritten` | nhl_update.py:117 | As written, the page concatenation yields no page exactly when the standings value is a list. A text fragment gives the page of that fragment. |
| `Report.StandingsFailureAsWritten` | nhl_update.py:56-117 | As written, a failed standings fetch makes the page concatenation fail, and no page is produced. |
| `Report.StandingsFailureCorrected` | nhl_update.py:58-117 | With failure mapped to the empty fragment, the page still holds the head, the results list, the middle and the foot. |
| `Decimal.NatToString` | nhl_update.py:43 | The rendering of a natural number is a non-empty string of decimal digits. |
| `Decimal.IntToString` | nhl_update.py:43 | The rendering of an integer starts with `-` exactly when the integer is negative, and the rest is digits. |
| `Decimal.DigitsValueOfNat` | nhl_update.py:43 | The digits of a natural number denote that number. |
| `Decimal.IntRoundTrip` | nhl_update.py:43 | Parsing the rendering of any integer gives that integer back. |
| `Text.SplitFirst` | nhl_update.py:43 | The reader the round-trip lemmas use to parse a result line back. The split is at the first separator: the part before it holds no separator. There is no split exactly when the separator does not occur. |
| `Text.SplitFirstConcat` | nhl_update.py:43 | The step the round-trip lemmas use to read a result line back field by field. Splitting `a + [sep] + b` gives back `a` and `b` when `a` holds no separator. |

## Findings

| source | as written | input that shows it | evidently intended | confidence | as-written member | corrected member |
|---|---|---|---|---|---|---|
| nhl_update.py:56, 117 | On a failed standings fetch, `get_standings` returns the list `[]`. `generate_html` then evaluates `str + []`, which raises `TypeError`, so no page is written. | The standings request fails (for example a timeout) while the schedule request succeeds. | A soft failure, as for the schedule: the page is still written, with an empty standings part. | high; not executed | `Report.StandingsFailureAsWritten` | `Report.StandingsFailureCorrected` |

The rest of the model uses the corrected behaviour: `Standings.StandingsHtml(None)`
is the empty text, and `Report.UpdateReport` always produces a page.

## Left out

- HTTP requests, `raise_for_status` and JSON decoding: network I/O and a foreign library. Only their outcome is modelled, as `Option<document>`.
- The process-wide `locale.setlocale` call and its fallback: a global side effect that depends on the operating system.
- ISO-8601 parsing and `strftime` with weekday names: locale-dependent library calls. The start time is an already-parsed instant, and the formatter is the parameter `fmt`. Only the two-hour shift is modelled.
- `datetime.date.today()` and `datetime.datetime.now()`: wall-clock reads. Their rendered text is part of the `Page` parameter.
- The static HTML and CSS text of the page, the write to `index.html` and the console prints: presentation and I/O, with no logic.
- Exceptions from missing indexed keys (`homeTeam.abbrev`, `awayTeam.abbrev`, `startTimeUTC`, `divisionName`, `teamAbbrev.default`, `gamesPlayed`, `wins`, `losses`, `points`) and from documents that are not JSON objects. These fields are required in the datatypes, so the crash paths do not exist in the model. The source reads `startTimeUTC` and the team-record keys only after the skip checks. So an untracked game without `startTimeUTC`, or a skipped repeated group with malformed records, does not crash it. The model cannot express such a document. Any filler value for those fields gives the same output, so no behaviour is lost.
- JSON values of unexpected types, for example a `null` score: a score is `Option<int>`, and a present score is an integer.
- HTML escaping: the script does none, and the model claims none. Names and states are inserted verbatim.
- Results.ResultLineRoundTrip: the round trip is stated only for abbreviations without spaces and states without commas. Other inputs make the line ambiguous to read back.
- Report.ResultListRoundTrip: the round trip is stated only for result lines without `<`. Other lines make the list ambiguous to read back.
