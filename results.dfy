/**
  `get_team_results`: the schedule document flattened week by week, filtered
  to the games of the tracked teams, one display line per kept game.
 */
module Results {
  import opened Documents
  import opened Text
  import opened Decimal

  /** The tracked team abbreviations (`TEAMS`). */
  const Teams: seq<string> := ["ANA", "CAR", "DAL", "MTL"]

  /** The fixed shift from UTC to the displayed local time: two hours. */
  const ShiftSeconds: int := 2 * 60 * 60

  /** The state shown when a game has no `gameState`. */
  const UnknownState: string := "Unknown"

  /** A game is kept when either side is a tracked team. */
  predicate Tracked(g: Game) {
    g.homeAbbrev in Teams || g.awayAbbrev in Teams
  }

  /** `week.get("games", [])`. */
  function WeekGames(w: Week): seq<Game> {
    w.games.GetOr([])
  }

  /** All games of all weeks: week order first, then game order within a week. */
  function Flatten(weeks: seq<Week>): seq<Game> {
    if weeks == [] then []
    else Flatten(weeks[..|weeks| - 1]) + WeekGames(weeks[|weeks| - 1])
  }

  /** The tracked games of `gs`, in their order in `gs`. */
  function TrackedGames(gs: seq<Game>): seq<Game> {
    if gs == [] then []
    else TrackedGames(gs[..|gs| - 1]) + (if Tracked(gs[|gs| - 1]) then [gs[|gs| - 1]] else [])
  }

  /** The displayed start: the UTC instant moved forward by two hours. */
  function LocalStart(g: Game): Instant {
    g.startTimeUtc + ShiftSeconds
  }

  /**
    The result line `away awayScore - homeScore home (state, time)`; `time` is
    whatever the locale-dependent formatter made of the shifted start instant.
   */
  function FormatLine(away: string, awayScore: int, homeScore: int, home: string,
                      state: string, time: string): string
  {
    away + " " + IntToString(awayScore) + " - " + IntToString(homeScore) + " " + home
      + " " + "(" + state + ", " + time + ")"
  }

  /** The line of one game, with the defaults for absent scores and state. */
  function ResultLine(g: Game, fmt: Instant -> string): string {
    FormatLine(g.awayAbbrev, g.awayTeamScore.GetOr(0), g.homeTeamScore.GetOr(0), g.homeAbbrev,
               g.gameState.GetOr(UnknownState), fmt(LocalStart(g)))
  }

  /** One line per game of `gs`, in order. */
  function Lines(gs: seq<Game>, fmt: Instant -> string): seq<string> {
    if gs == [] then [] else Lines(gs[..|gs| - 1], fmt) + [ResultLine(gs[|gs| - 1], fmt)]
  }

  /** What `get_team_results` returns for a fetch outcome; a failed fetch gives no lines. */
  function TeamResults(doc: Option<ScheduleDoc>, fmt: Instant -> string): (r: seq<string>)
    ensures doc.None? ==> r == []
    ensures doc.Some? ==> |r| == |TrackedGames(Flatten(doc.value.gameWeek.GetOr([])))|
  {
    match doc
    case None => []
    case Some(d) =>
      LinesAt(TrackedGames(Flatten(d.gameWeek.GetOr([]))), fmt);
      Lines(TrackedGames(Flatten(d.gameWeek.GetOr([]))), fmt)
  }

  /** `get_team_results`, from the point where the fetch has succeeded or failed. */
  method GetTeamResults(doc: Option<ScheduleDoc>, fmt: Instant -> string) returns (results: seq<string>)
    ensures doc.None? ==> results == []
    ensures results == TeamResults(doc, fmt)
  {
    if doc.None? {
      return [];
    }
    results := [];
    var gameWeeks := doc.value.gameWeek.GetOr([]);
    for w := 0 to |gameWeeks|
      invariant results == Lines(TrackedGames(Flatten(gameWeeks[..w])), fmt)
    {
      var games := WeekGames(gameWeeks[w]);
      ghost var before := Flatten(gameWeeks[..w]);
      assert before + games[..0] == before;
      for k := 0 to |games|
        invariant results == Lines(TrackedGames(before + games[..k]), fmt)
      {
        var game := games[k];
        ghost var seen := before + games[..k];
        PrefixSnoc(before, games, k);
        TrackedGamesSnoc(seen, game);
        var home := game.homeAbbrev;
        var away := game.awayAbbrev;
        if home !in Teams && away !in Teams {
          continue;
        }
        var homeScore := game.homeTeamScore.GetOr(0);
        var awayScore := game.awayTeamScore.GetOr(0);
        var state := game.gameState.GetOr(UnknownState);
        var formattedTime := fmt(LocalStart(game));
        LinesSnoc(TrackedGames(seen), game, fmt);
        var line := FormatLine(away, awayScore, homeScore, home, state, formattedTime);
        assert line == ResultLine(game, fmt);
        results := results + [line];
      }
      assert games[..|games|] == games;
      FlattenStep(gameWeeks, w);
    }
    assert gameWeeks[..|gameWeeks|] == gameWeeks;
  }

  lemma FlattenStep(weeks: seq<Week>, w: int)
    requires 0 <= w < |weeks|
    ensures Flatten(weeks[..w + 1]) == Flatten(weeks[..w]) + WeekGames(weeks[w])
  {
    assert weeks[..w + 1][..w] == weeks[..w];
  }

  lemma TrackedGamesSnoc(gs: seq<Game>, g: Game)
    ensures Tracked(g) ==> TrackedGames(gs + [g]) == TrackedGames(gs) + [g]
    ensures !Tracked(g) ==> TrackedGames(gs + [g]) == TrackedGames(gs)
  {
  }

  lemma LinesSnoc(gs: seq<Game>, g: Game, fmt: Instant -> string)
    ensures Lines(gs + [g], fmt) == Lines(gs, fmt) + [ResultLine(g, fmt)]
  {
  }

  /** There is one line per game, and line `i` is the line of game `i`. */
  lemma {:induction false} LinesAt(gs: seq<Game>, fmt: Instant -> string)
    ensures |Lines(gs, fmt)| == |gs|
    ensures forall i :: 0 <= i < |gs| ==> Lines(gs, fmt)[i] == ResultLine(gs[i], fmt)
  {
    if gs != [] {
      var init := gs[..|gs| - 1];
      LinesAt(init, fmt);
      var ls := Lines(gs, fmt);
      assert ls == Lines(init, fmt) + [ResultLine(gs[|gs| - 1], fmt)];
      forall i | 0 <= i < |gs| ensures ls[i] == ResultLine(gs[i], fmt) {
        if i < |gs| - 1 {
          assert ls[i] == Lines(init, fmt)[i];
          assert gs[i] == init[i];
        }
      }
    }
  }

  lemma {:induction false} LinesConcat(a: seq<Game>, b: seq<Game>, fmt: Instant -> string)
    ensures Lines(a + b, fmt) == Lines(a, fmt) + Lines(b, fmt)
  {
    if b == [] {
      assert a + b == a;
    } else {
      var init, last := b[..|b| - 1], b[|b| - 1];
      LinesConcat(a, init, fmt);
      AppendSnoc(a, b);
      LinesSnoc(a + init, last, fmt);
      LinesSnoc(init, last, fmt);
      AppendAssoc(Lines(a, fmt), Lines(init, fmt), [ResultLine(last, fmt)]);
    }
  }

  /** A line is among the lines of `gs` exactly when it is the line of one of its games. */
  lemma LinesMembership(gs: seq<Game>, fmt: Instant -> string, line: string)
    ensures line in Lines(gs, fmt) <==> exists g :: g in gs && line == ResultLine(g, fmt)
  {
  }

  /**
    Every tracked game of the input contributes exactly as many lines as it
    occurs, and an untracked game contributes none.
   */
  lemma {:induction false} TrackedGamesCount(gs: seq<Game>, g: Game)
    ensures multiset(TrackedGames(gs))[g] == if Tracked(g) then multiset(gs)[g] else 0
  {
    if gs != [] {
      var init, last := gs[..|gs| - 1], gs[|gs| - 1];
      TrackedGamesCount(init, g);
      assert gs == init + [last];
    }
  }

  /** Filtering distributes over concatenation: it keeps the input order. */
  lemma {:induction false} TrackedGamesConcat(a: seq<Game>, b: seq<Game>)
    ensures TrackedGames(a + b) == TrackedGames(a) + TrackedGames(b)
  {
    if b == [] {
      assert a + b == a;
    } else {
      TrackedGamesConcat(a, b[..|b| - 1]);
      AppendSnoc(a, b);
    }
  }

  lemma {:induction false} FlattenConcat(a: seq<Week>, b: seq<Week>)
    ensures Flatten(a + b) == Flatten(a) + Flatten(b)
  {
    if b == [] {
      assert a + b == a;
    } else {
      FlattenConcat(a, b[..|b| - 1]);
      AppendSnoc(a, b);
    }
  }

  /**
    The lines of the weeks `a + b` are the lines of `a` followed by the lines of `b`:
    results come week by week, in week order.
   */
  lemma ResultsWeekOrder(a: seq<Week>, b: seq<Week>, fmt: Instant -> string)
    ensures TeamResults(Some(ScheduleDoc(Some(a + b))), fmt)
         == TeamResults(Some(ScheduleDoc(Some(a))), fmt) + TeamResults(Some(ScheduleDoc(Some(b))), fmt)
  {
    FlattenConcat(a, b);
    TrackedGamesConcat(Flatten(a), Flatten(b));
    LinesConcat(TrackedGames(Flatten(a)), TrackedGames(Flatten(b)), fmt);
  }

  /**
    Within one week the lines of games `a + b` are the lines of `a` followed
    by those of `b`: results keep the game order of the week.
   */
  lemma ResultsGameOrder(a: seq<Game>, b: seq<Game>, fmt: Instant -> string)
    ensures TeamResults(Some(ScheduleDoc(Some([Week(Some(a + b))]))), fmt)
         == TeamResults(Some(ScheduleDoc(Some([Week(Some(a))]))), fmt)
          + TeamResults(Some(ScheduleDoc(Some([Week(Some(b))]))), fmt)
  {
    assert Flatten([Week(Some(a + b))]) == a + b by {
      assert [Week(Some(a + b))][..0] == [];
    }
    assert Flatten([Week(Some(a))]) == a by {
      assert [Week(Some(a))][..0] == [];
    }
    assert Flatten([Week(Some(b))]) == b by {
      assert [Week(Some(b))][..0] == [];
    }
    TrackedGamesConcat(a, b);
    LinesConcat(TrackedGames(a), TrackedGames(b), fmt);
  }

  /**
    A line is in the results exactly when it is the line of some tracked game
    of the document.
   */
  lemma ResultsExactlyTracked(d: ScheduleDoc, fmt: Instant -> string, line: string)
    ensures line in TeamResults(Some(d), fmt)
            <==> exists g :: g in Flatten(d.gameWeek.GetOr([])) && Tracked(g) && line == ResultLine(g, fmt)
  {
    var all := Flatten(d.gameWeek.GetOr([]));
    var kept := TrackedGames(all);
    LinesMembership(kept, fmt, line);
    forall g ensures g in kept <==> g in all && Tracked(g) {
      TrackedGamesCount(all, g);
    }
  }

  /**
    The results hold one line per kept game, and a tracked game occurring n
    times in the document is kept n times.
   */
  lemma ResultsOnePerGame(d: ScheduleDoc, fmt: Instant -> string, g: Game)
    requires Tracked(g)
    ensures var kept := TrackedGames(Flatten(d.gameWeek.GetOr([])));
            |TeamResults(Some(d), fmt)| == |kept|
            && (forall i :: 0 <= i < |kept| ==> TeamResults(Some(d), fmt)[i] == ResultLine(kept[i], fmt))
            && multiset(kept)[g] == multiset(Flatten(d.gameWeek.GetOr([])))[g]
  {
    TrackedGamesCount(Flatten(d.gameWeek.GetOr([])), g);
    LinesAt(TrackedGames(Flatten(d.gameWeek.GetOr([]))), fmt);
  }

  /** The fields a result line is made of, as read back from the line. */
  datatype LineFields = LineFields(away: string, awayScore: int, homeScore: int, home: string,
                                   state: string, time: string)

  /**
    Reads `away awayScore - homeScore home (state, time)` back into its fields;
    `None` when the text does not have that shape.
   */
  function ParseLine(line: string): Option<LineFields> {
    match SplitFirst(line, ' ')
    case None => None
    case Some(p1) =>
      match ParseScores(p1.1)
      case None => None
      case Some(scores) =>
        match SplitFirst(scores.2, ' ')
        case None => None
        case Some(p2) =>
          match ParseParen(p2.1)
          case None => None
          case Some(p3) => Some(LineFields(p1.0, scores.0, scores.1, p2.0, p3.0, p3.1))
  }

  /** Reads `awayScore - homeScore rest` into the two scores and `rest`. */
  function ParseScores(s: string): Option<(int, int, string)> {
    match SplitFirst(s, ' ')
    case None => None
    case Some(p1) =>
      if |p1.1| < 2 || p1.1[..2] != "- " then None
      else
        match SplitFirst(p1.1[2..], ' ')
        case None => None
        case Some(p2) =>
          match (ParseInt(p1.0), ParseInt(p2.0))
          case (Some(awayScore), Some(homeScore)) => Some((awayScore, homeScore, p2.1))
          case _ => None
  }

  lemma ScoresRoundTrip(awayScore: int, homeScore: int, rest: string)
    ensures ParseScores(IntToString(awayScore) + " - " + IntToString(homeScore) + " " + rest)
         == Some((awayScore, homeScore, rest))
  {
    var a, h := IntToString(awayScore), IntToString(homeScore);
    assert ' ' !in a && ' ' !in h;
    IntRoundTrip(awayScore);
    IntRoundTrip(homeScore);
    var r2 := h + " " + rest;
    var r1 := "- " + r2;
    assert a + " - " + h + " " + rest == a + [' '] + r1;
    SplitFirstConcat(a, ' ', r1);
    assert r1[..2] == "- " && r1[2..] == h + [' '] + rest;
    SplitFirstConcat(h, ' ', rest);
  }

  /** Reads `(state, time)` back into the state and the time. */
  function ParseParen(s: string): Option<(string, string)> {
    if |s| < 2 || s[0] != '(' || s[|s| - 1] != ')' then None
    else
      match SplitFirst(s[1..|s| - 1], ',')
      case None => None
      case Some(p) =>
        if |p.1| < 1 || p.1[0] != ' ' then None else Some((p.0, p.1[1..]))
  }

  lemma ParenRoundTrip(state: string, time: string)
    requires ',' !in state
    ensures ParseParen("(" + state + ", " + time + ")") == Some((state, time))
  {
    var s := "(" + state + ", " + time + ")";
    assert s[1..|s| - 1] == state + [','] + (" " + time);
    SplitFirstConcat(state, ',', " " + time);
    assert (" " + time)[1..] == time;
  }

  /** Reading back a formatted line gives its fields back. */
  lemma FormatLineRoundTrip(away: string, awayScore: int, homeScore: int, home: string,
                            state: string, time: string)
    requires ' ' !in away && ' ' !in home && ',' !in state
    ensures ParseLine(FormatLine(away, awayScore, homeScore, home, state, time))
         == Some(LineFields(away, awayScore, homeScore, home, state, time))
  {
    var a, h := IntToString(awayScore), IntToString(homeScore);
    var tail := "(" + state + ", " + time + ")";
    var r2 := home + " " + tail;
    var r1 := a + " - " + h + " " + r2;
    var line := FormatLine(away, awayScore, homeScore, home, state, time);
    assert line == away + [' '] + r1 by {
      AppendAssoc(away + " " + a + " - " + h + " " + home + " ", "(" + state + ", " + time, ")");
      AppendAssoc(away + " " + a + " - " + h + " " + home + " ", "(" + state + ", ", time);
      AppendAssoc(away + " " + a + " - " + h + " " + home + " ", "(" + state, ", ");
      AppendAssoc(away + " " + a + " - " + h + " " + home + " ", "(", state);
      AppendAssoc(away + " " + a + " - " + h + " " + home, " ", tail);
      AppendAssoc(away + " " + a + " - " + h + " ", home, " " + tail);
      AppendAssoc(away + " " + a + " - " + h, " ", r2);
      AppendAssoc(away + " " + a + " - ", h, " " + r2);
      AppendAssoc(away + " " + a, " - ", h + " " + r2);
      AppendAssoc(away + " ", a, " - " + h + " " + r2);
      AppendAssoc(away, " ", a + " - " + h + " " + r2);
    }
    SplitFirstConcat(away, ' ', r1);
    ScoresRoundTrip(awayScore, homeScore, r2);
    SplitFirstConcat(home, ' ', tail);
    ParenRoundTrip(state, time);
  }

  /**
    A line read back gives the teams, the scores (0 where the game had none),
    the state ("Unknown" where the game had none) and the formatted time,
    provided the abbreviations hold no space and the state no comma.
   */
  lemma ResultLineRoundTrip(g: Game, fmt: Instant -> string)
    requires ' ' !in g.awayAbbrev && ' ' !in g.homeAbbrev
    requires ',' !in g.gameState.GetOr(UnknownState)
    ensures ParseLine(ResultLine(g, fmt)) == Some(LineFields(
              g.awayAbbrev,
              if g.awayTeamScore.Some? then g.awayTeamScore.value else 0,
              if g.homeTeamScore.Some? then g.homeTeamScore.value else 0,
              g.homeAbbrev,
              if g.gameState.Some? then g.gameState.value else "Unknown",
              fmt(g.startTimeUtc + 7200)))
  {
    FormatLineRoundTrip(g.awayAbbrev, g.awayTeamScore.GetOr(0), g.homeTeamScore.GetOr(0), g.homeAbbrev,
                        g.gameState.GetOr(UnknownState), fmt(LocalStart(g)));
  }
}
