/** The aggregation helpers of the backend (`utils/analytics.py`): the team
    listing with a trailing sentinel and the per-team summary statistics. */
module Analytics {
  import opened Wrappers
  import opened Seqs
  import opened Ordering
  import opened Tables

  // ---------------------------------------------------------------------
  // Team listing

  /** Every team1/team2 cell is present (a string). */
  ghost predicate TeamsPresent(info: seq<MatchInfo>) {
    forall m :: m in info ==> m.team1.Some? && m.team2.Some?
  }

  /** The team names that appear, as team1 or team2, in some metadata row. */
  function TeamSet(info: seq<MatchInfo>): set<string> {
    (set m | m in info && m.team1.Some? :: m.team1.value) +
    (set m | m in info && m.team2.Some? :: m.team2.value)
  }

  function Team1Of(m: MatchInfo): Option<string> { m.team1 }

  function Team2Of(m: MatchInfo): Option<string> { m.team2 }

  /** A missing cell among the two team columns is a row with a missing
      team. */
  lemma ColumnCellsMissing(info: seq<MatchInfo>)
    ensures None in Map(Team1Of, info) + Map(Team2Of, info) <==> !TeamsPresent(info)
  {
    var r := Map(Team1Of, info) + Map(Team2Of, info);
    if None in r {
      var k :| 0 <= k < |r| && r[k] == None;
      if k < |info| {
        assert info[k] in info;
      } else {
        assert info[k - |info|] in info;
      }
    }
    if !TeamsPresent(info) {
      var m :| m in info && (m.team1.None? || m.team2.None?);
      var k :| 0 <= k < |info| && info[k] == m;
      if m.team1.None? {
        assert r[k] == None;
      } else {
        assert r[|info| + k] == None;
      }
    }
  }

  /** A name among the two team columns is a team of some row. */
  lemma ColumnCellsNamed(info: seq<MatchInfo>)
    ensures forall t :: Some(t) in Map(Team1Of, info) + Map(Team2Of, info) <==> t in TeamSet(info)
  {
    var r := Map(Team1Of, info) + Map(Team2Of, info);
    forall t | Some(t) in r ensures t in TeamSet(info) {
      var k :| 0 <= k < |r| && r[k] == Some(t);
      if k < |info| {
        assert info[k] in info;
      } else {
        assert info[k - |info|] in info;
      }
    }
    forall t | t in TeamSet(info) ensures Some(t) in r {
      var m :| m in info && (m.team1 == Some(t) || m.team2 == Some(t));
      var k :| 0 <= k < |info| && info[k] == m;
      if m.team1 == Some(t) {
        assert r[k] == Some(t);
      } else {
        assert r[|info| + k] == Some(t);
      }
    }
  }

  /** `pd.concat([team1, team2])`: the team1 column followed by the team2
      column. */
  function ColumnCells(info: seq<MatchInfo>): (r: seq<Option<string>>)
    ensures |r| == 2 * |info|
    ensures forall t :: Some(t) in r <==> t in TeamSet(info)
    ensures None in r <==> !TeamsPresent(info)
  {
    ColumnCellsMissing(info);
    ColumnCellsNamed(info);
    Map(Team1Of, info) + Map(Team2Of, info)
  }

  /** The class of the exception Python raises when `sorted` compares a
      missing cell (a float NaN) with a string. Its message names the two
      operand types in the order the sort happened to compare them, so only
      the class is modelled. */
  const SortTypeError: string := "TypeError"

  function SomeOf(t: string): Option<string> { Some(t) }

  /** `sorted(unique(cells))` exactly as Python evaluates it: all missing
      cells collapse into one NaN, and sorting a NaN together with a string
      raises. */
  function SortCellsAsWritten(cells: seq<Option<string>>): (r: Result<seq<Option<string>>, string>)
    ensures r.Failure? <==> None in cells && exists t :: Some(t) in cells
    ensures r.Failure? ==> r.error == SortTypeError
    ensures r.Success? ==> forall c :: c in r.value <==> c in cells
    ensures None !in cells ==> r == Success(Map(SomeOf, SortedStrings(Somes(cells))))
  {
    if None in cells && exists c :: c in cells && c.Some? then Failure(SortTypeError)
    else if None in cells then
      assert forall c :: c in cells ==> c == None;
      Success([None])
    else
      var sorted := Map(SomeOf, SortedStrings(Somes(cells)));
      assert forall c :: c in sorted <==> c in cells by {
        forall c ensures c in sorted <==> c in cells {
          if c in sorted {
            var k :| 0 <= k < |sorted| && sorted[k] == c;
          }
          if c in cells {
            assert c.Some?;
            var k :| 0 <= k < |SortedStrings(Somes(cells))| && SortedStrings(Somes(cells))[k] == c.value;
            assert sorted[k] == c;
          }
        }
      }
      Success(sorted)
  }

  /** `get_all_teams` as written: the sorted cells, then the sentinel; it
      raises as soon as one team cell is missing while another is present. */
  function GetAllTeamsAsWritten(info: seq<MatchInfo>): (r: Result<seq<Option<string>>, string>)
    ensures r.Failure? <==> !TeamsPresent(info) && |TeamSet(info)| > 0
    ensures r.Failure? ==> r.error == SortTypeError
    ensures r.Success? ==> |r.value| > 0 && r.value[|r.value| - 1] == Some(AllTeams)
  {
    var cells := ColumnCells(info);
    assert (exists t :: Some(t) in cells) <==> |TeamSet(info)| > 0 by {
      if |TeamSet(info)| > 0 {
        var t :| t in TeamSet(info);
        assert Some(t) in cells;
      }
    }
    match SortCellsAsWritten(cells)
    case Failure(e) => Failure(e)
    case Success(sorted) => Success(sorted + [Some(AllTeams)])
  }

  /** `get_all_teams`, corrected: the distinct team names in
      ascending order, missing cells dropped, followed by the sentinel. */
  function GetAllTeams(info: seq<MatchInfo>): (r: seq<string>)
    ensures |r| == |TeamSet(info)| + 1
    ensures r[|r| - 1] == AllTeams
    ensures Increasing(r[..|r| - 1], StrLess)
    ensures forall t :: t in r[..|r| - 1] <==> t in TeamSet(info)
  {
    var teams := Somes(ColumnCells(info));
    var sorted := SortedStrings(teams);
    assert Elements(teams) == TeamSet(info);
    assert (sorted + [AllTeams])[..|sorted|] == sorted;
    sorted + [AllTeams]
  }

  /** On complete team columns the code as written and the corrected listing
      agree. */
  lemma GetAllTeamsAgree(info: seq<MatchInfo>)
    requires TeamsPresent(info)
    ensures GetAllTeamsAsWritten(info) == Success(Map(SomeOf, GetAllTeams(info)))
  {
    var sorted := SortedStrings(Somes(ColumnCells(info)));
    assert Map(SomeOf, sorted + [AllTeams]) == Map(SomeOf, sorted) + [Some(AllTeams)];
  }

  /** A metadata table of one match whose second team is missing. */
  function MissingTeamInfo(): seq<MatchInfo> {
    [MatchInfo(1, Some(2020), Some("X"), Some("A"), None)]
  }

  lemma MissingTeamInfoFacts()
    ensures TeamSet(MissingTeamInfo()) == {"A"}
    ensures !TeamsPresent(MissingTeamInfo())
  {
    assert MissingTeamInfo()[0] in MissingTeamInfo();
  }

  /** On that table the code as written raises, while the corrected listing
      names the one team. */
  lemma MissingTeamCellRaises()
    ensures GetAllTeamsAsWritten(MissingTeamInfo()) == Failure(SortTypeError)
    ensures GetAllTeams(MissingTeamInfo()) == ["A", AllTeams]
  {
    MissingTeamInfoFacts();
    var r := GetAllTeams(MissingTeamInfo());
    assert r[0] in r[..|r| - 1];
  }

  // ---------------------------------------------------------------------
  // Row selection

  /** The team batted or bowled on this delivery. */
  predicate Involves(team: string, b: Ball) {
    b.battingTeam == team || b.bowlingTeam == team
  }

  /** The delivery counts for `team`: every delivery counts for the sentinel. */
  predicate Selects(team: string, b: Ball) {
    team == AllTeams || Involves(team, b)
  }

  function Involving(team: string): Ball -> bool {
    b => Involves(team, b)
  }

  function Selector(team: string): Ball -> bool {
    b => Selects(team, b)
  }

  /** The positions of the deliveries that count for `team`. */
  ghost function SelectedIndices(balls: seq<Ball>, team: string): set<int> {
    set i | 0 <= i < |balls| && Selects(team, balls[i])
  }

  /** The filter at the top of `get_team_analytics`: the rows where the team
      batted or bowled, or the whole table for the sentinel. */
  function TeamRows(balls: seq<Ball>, team: string): (r: seq<Ball>)
    ensures forall b :: b in r <==> b in balls && Selects(team, b)
    ensures IsSubsequence(r, balls)
    ensures team == AllTeams ==> r == balls
  {
    if team != AllTeams then Filter(Involving(team), balls)
    else SubsequenceReflexive(balls); balls
  }

  /** Whatever the team, the selection is one filter by `Selects`. */
  lemma TeamRowsIsFilter(balls: seq<Ball>, team: string)
    ensures TeamRows(balls, team) == Filter(Selector(team), balls)
  {
    if team == AllTeams {
      FilterKeepsAll(Selector(team), balls);
    } else {
      FilterExt(Involving(team), Selector(team), balls);
    }
  }

  /** The selection holds one row per selected position. */
  lemma TeamRowsCount(balls: seq<Ball>, team: string)
    ensures |TeamRows(balls, team)| == |SelectedIndices(balls, team)|
  {
    TeamRowsIsFilter(balls, team);
    assert |TeamRows(balls, team)| == |Filter(Selector(team), balls)|;
    CountIfFilter(Selector(team), Selector(team), balls);
    assert |Filter(Selector(team), balls)| == CountIf(Selector(team), balls);
    CountIfIndices(Selector(team), balls);
    assert Indices(Selector(team), balls) == SelectedIndices(balls, team);
  }

  // ---------------------------------------------------------------------
  // Summary statistics

  /** The dictionary `get_team_analytics` returns, before JSON encoding. */
  datatype Analytics = Analytics(
    matches: nat,
    runs: nat,
    wickets: nat,
    fours: nat,
    sixes: nat,
    runRate: real)

  function MatchIdOf(b: Ball): int { b.matchId }
  function RunsOf(b: Ball): nat { b.runsOffBat }
  predicate IsWicket(b: Ball) { b.wicketType.Some? }
  predicate IsFour(b: Ball) { b.runsOffBat == 4 }
  predicate IsSix(b: Ball) { b.runsOffBat == 6 }

  /** Rounds to two decimal places, halves upwards. */
  function Round2(x: real): (r: real)
    ensures x - 0.005 < r <= x + 0.005
    ensures (r * 100.0).Floor as real == r * 100.0
  {
    ((x * 100.0 + 0.5).Floor as real) / 100.0
  }

  /** Runs per six deliveries, rounded to two places; zero without deliveries. */
  function RunRate(runs: nat, balls: nat): (r: real)
    ensures balls > 0 ==> (6 * runs) as real / balls as real - 0.005 < r <= (6 * runs) as real / balls as real + 0.005
    ensures balls > 0 ==> (r * 100.0).Floor as real == r * 100.0
    ensures balls == 0 ==> r == 0.0
    ensures 0.0 <= r
  {
    if balls > 0 then Round2((6 * runs) as real / balls as real) else 0.0
  }

  function NoDataMessage(team: string): string {
    "No data found for team: " + team
  }

  /** `get_team_analytics`: the six aggregates over the deliveries that count
      for `team`, or the "no data" error when there are none. */
  function GetTeamAnalytics(balls: seq<Ball>, team: string): (r: Result<Analytics, string>)
    ensures r.Failure? <==> forall b :: b in balls ==> !Selects(team, b)
    ensures r.Failure? ==> r.error == NoDataMessage(team)
    ensures r.Success? ==> 1 <= r.value.matches
  {
    var rows := TeamRows(balls, team);
    if |rows| == 0 then Failure(NoDataMessage(team))
    else
      assert rows[0] in rows;
      ImageBounds(MatchIdOf, rows);
      var runs := SumOf(RunsOf, rows);
      Success(Analytics(
        |Image(MatchIdOf, rows)|,
        runs,
        CountIf(IsWicket, rows),
        CountIf(IsFour, rows),
        CountIf(IsSix, rows),
        RunRate(runs, |rows|)))
  }

  /** The selected positions whose delivery also satisfies `p`. */
  ghost function SelectedWhere(balls: seq<Ball>, team: string, p: Ball -> bool): set<int> {
    set i | 0 <= i < |balls| && Selects(team, balls[i]) && p(balls[i])
  }

  /** A count over the selection is the number of selected positions whose
      delivery satisfies `p`. */
  lemma SelectedCount(balls: seq<Ball>, team: string, p: Ball -> bool)
    ensures CountIf(p, TeamRows(balls, team)) == |SelectedWhere(balls, team, p)|
  {
    TeamRowsIsFilter(balls, team);
    var q := Selector(team);
    CountIfFilter(p, q, balls);
    CountIfIndices(And(q, p), balls);
    assert Indices(And(q, p), balls) == SelectedWhere(balls, team, p);
  }

  /** On success each count field counts exactly the selected deliveries
      of its kind: a present dismissal, exactly four runs, exactly six runs. */
  lemma AnalyticsCountsExact(balls: seq<Ball>, team: string)
    requires GetTeamAnalytics(balls, team).Success?
    ensures var a := GetTeamAnalytics(balls, team).value;
      && a.wickets == |set i | 0 <= i < |balls| && Selects(team, balls[i]) && balls[i].wicketType.Some?|
      && a.fours == |set i | 0 <= i < |balls| && Selects(team, balls[i]) && balls[i].runsOffBat == 4|
      && a.sixes == |set i | 0 <= i < |balls| && Selects(team, balls[i]) && balls[i].runsOffBat == 6|
  {
    var rows := TeamRows(balls, team);
    var a := GetTeamAnalytics(balls, team).value;
    assert a.wickets == CountIf(IsWicket, rows) && a.fours == CountIf(IsFour, rows) && a.sixes == CountIf(IsSix, rows);
    SelectedCount(balls, team, IsWicket);
    assert SelectedWhere(balls, team, IsWicket) == set i | 0 <= i < |balls| && Selects(team, balls[i]) && balls[i].wicketType.Some?;
    SelectedCount(balls, team, IsFour);
    assert SelectedWhere(balls, team, IsFour) == set i | 0 <= i < |balls| && Selects(team, balls[i]) && balls[i].runsOffBat == 4;
    SelectedCount(balls, team, IsSix);
    assert SelectedWhere(balls, team, IsSix) == set i | 0 <= i < |balls| && Selects(team, balls[i]) && balls[i].runsOffBat == 6;
  }

  /** On success the run total is the sum of `runs_off_bat` over the selected
      deliveries, and the match count is the number of distinct match ids
      among them. */
  lemma AnalyticsTotalsExact(balls: seq<Ball>, team: string)
    requires GetTeamAnalytics(balls, team).Success?
    ensures var a := GetTeamAnalytics(balls, team).value;
      && a.runs == SumOf((b: Ball) => if Selects(team, b) then b.runsOffBat else 0, balls)
      && a.matches == |set b | b in balls && Selects(team, b) :: b.matchId|
  {
    var rows := TeamRows(balls, team);
    TeamRowsIsFilter(balls, team);
    SumOfFilter(RunsOf, Selector(team), balls);
    var spec := (b: Ball) => if Selects(team, b) then b.runsOffBat else 0;
    SumOfExt(Masked(RunsOf, Selector(team)), spec, balls);
    assert Image(MatchIdOf, rows) == set b | b in balls && Selects(team, b) :: b.matchId;
  }

  /** On success, with `n` the number of selected deliveries: 1 <= matches <= n,
      wickets <= n, fours + sixes <= n, the boundaries alone account for
      4 * fours + 6 * sixes <= runs, and the run rate is 6 * runs / n up to
      the rounding to two places. */
  lemma AnalyticsBounds(balls: seq<Ball>, team: string)
    requires GetTeamAnalytics(balls, team).Success?
    ensures var a := GetTeamAnalytics(balls, team).value;
      var n := |SelectedIndices(balls, team)|;
      && 1 <= a.matches <= n
      && a.wickets <= n
      && a.fours + a.sixes <= n
      && 4 * a.fours + 6 * a.sixes <= a.runs
      && n > 0
      && (6 * a.runs) as real / n as real - 0.005 < a.runRate <= (6 * a.runs) as real / n as real + 0.005
  {
    var rows := TeamRows(balls, team);
    TeamRowsCount(balls, team);
    ImageBounds(MatchIdOf, rows);
    CountIfDisjoint(IsWicket, (b: Ball) => false, rows);
    CountIfDisjoint(IsFour, IsSix, rows);
    BoundaryRuns(rows);
  }

  /** Fours and sixes contribute their runs to the total. */
  lemma {:induction false} BoundaryRuns(rows: seq<Ball>)
    ensures 4 * CountIf(IsFour, rows) + 6 * CountIf(IsSix, rows) <= SumOf(RunsOf, rows)
  {
    if |rows| > 0 {
      BoundaryRuns(rows[1..]);
    }
  }

  /** For the sentinel the whole table is aggregated: it fails only on an
      empty table, and otherwise counts every distinct match id and sums every
      delivery. */
  lemma AnalyticsAllTeams(balls: seq<Ball>)
    ensures GetTeamAnalytics(balls, AllTeams).Failure? <==> |balls| == 0
    ensures |balls| > 0 ==>
      var a := GetTeamAnalytics(balls, AllTeams).value;
      && a.matches == |set b | b in balls :: b.matchId|
      && a.runs == SumOf(RunsOf, balls)
      && a.wickets == CountIf(IsWicket, balls)
      && a.fours == CountIf(IsFour, balls)
      && a.sixes == CountIf(IsSix, balls)
  {
    if |balls| > 0 {
      assert balls[0] in balls;
      assert Image(MatchIdOf, balls) == set b | b in balls :: b.matchId;
    }
  }

  /** A named team's aggregates never exceed those of the whole table. */
  lemma AnalyticsWithinAllTeams(balls: seq<Ball>, team: string)
    requires GetTeamAnalytics(balls, team).Success?
    ensures GetTeamAnalytics(balls, AllTeams).Success?
    ensures var a := GetTeamAnalytics(balls, team).value;
      var all := GetTeamAnalytics(balls, AllTeams).value;
      && a.matches <= all.matches
      && a.runs <= all.runs
      && a.wickets <= all.wickets
      && a.fours <= all.fours
      && a.sixes <= all.sixes
  {
    var rows := TeamRows(balls, team);
    assert rows[0] in balls;
    SumOfSubsequence(RunsOf, rows, balls);
    CountIfSubsequence(IsWicket, rows, balls);
    CountIfSubsequence(IsFour, rows, balls);
    CountIfSubsequence(IsSix, rows, balls);
    ImageSubsequence(MatchIdOf, rows, balls);
  }
}
