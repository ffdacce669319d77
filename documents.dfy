/**
  The two JSON documents the report is built from, as already-parsed values.

  A key that the script reads with indexing (`game["homeTeam"]["abbrev"]`) is a
  plain field here: its absence would stop the script with an exception that
  nothing catches. A key it reads with `.get(key, default)` is an `Option`
  field, and the default is applied where the value is used.

  A fetch (HTTP request, status check and JSON decoding together) yields
  `Some(document)` or, on any failure, `None`.
 */
module Documents {

  datatype Option<+T> = None | Some(value: T) {
    /** The value, or `default` when absent (Python's `dict.get(key, default)`). */
    function GetOr(default: T): T {
      match this
      case Some(v) => v
      case None => default
    }
  }

  /** An instant, in whole seconds on the UTC time line. */
  type Instant = int

  /** One entry of a week's `games` list. */
  datatype Game = Game(
    homeAbbrev: string,            // homeTeam.abbrev
    awayAbbrev: string,            // awayTeam.abbrev
    homeTeamScore: Option<int>,
    awayTeamScore: Option<int>,
    gameState: Option<string>,
    startTimeUtc: Instant          // startTimeUTC, already parsed
  )

  /** One entry of `gameWeek`; its `games` key may be missing. */
  datatype Week = Week(games: Option<seq<Game>>)

  /** The schedule document; its `gameWeek` key may be missing. */
  datatype ScheduleDoc = ScheduleDoc(gameWeek: Option<seq<Week>>)

  /** One entry of a division's `teamRecords` list. */
  datatype TeamRecord = TeamRecord(
    teamAbbrev: string,            // teamAbbrev.default
    gamesPlayed: int,
    wins: int,
    losses: int,
    points: int
  )

  /** One entry of `standings`; its `teamRecords` key may be missing. */
  datatype DivisionGroup = DivisionGroup(divisionName: string, teamRecords: Option<seq<TeamRecord>>)

  /** The standings document; its `standings` key may be missing. */
  datatype StandingsDoc = StandingsDoc(standings: Option<seq<DivisionGroup>>)
}
