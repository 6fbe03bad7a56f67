/** The two read-only tables the backend loads at start-up, one record per
    row. A cell that pandas can read as missing is an `Option`. */
module Tables {
  import opened Wrappers

  /** The sentinel team name that means "do not filter". */
  const AllTeams: string := "All Teams"

  /** The dismissal kind that is not credited to the bowler. */
  const RunOut: string := "run out"

  /** One row of the match metadata table. */
  datatype MatchInfo = MatchInfo(
    matchId: int,
    season: Option<int>,
    venue: Option<string>,
    team1: Option<string>,
    team2: Option<string>)

  /** One row of the ball-by-ball table: one delivery. */
  datatype Ball = Ball(
    matchId: int,
    battingTeam: string,
    bowlingTeam: string,
    innings: int,
    striker: string,
    bowler: string,
    runsOffBat: nat,
    wicketType: Option<string>,
    extrasType: Option<string>)

  /** Both tables, fixed for the lifetime of the process. */
  datatype Dataset = Dataset(info: seq<MatchInfo>, balls: seq<Ball>)
}
