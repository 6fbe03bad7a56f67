/** The data logic of the HTTP routes (`app.py`): `/teams`, `/analytics`,
    `/top-players` and `/filters`. Routing, CORS, logging and the `/visuals`
    charts are not modelled; each route is a function of the loaded tables
    and the `team` query parameter. */
module Routes {
  import opened Wrappers
  import opened Seqs
  import opened Ordering
  import opened Tables
  import opened Analytics
  import opened Ranking

  // ---------------------------------------------------------------------
  // /teams

  /** `values.ravel('K')` of the two team columns, here read row by row
      (team1, then team2). The memory order pandas picks is not observable:
      the sorted listing does not depend on it (see `TeamListingsAgree`), and
      whether the sort raises depends only on which cells occur. */
  function RowCells(info: seq<MatchInfo>): (r: seq<Option<string>>)
    ensures |r| == 2 * |info|
    ensures forall t :: Some(t) in r <==> t in TeamSet(info)
    ensures None in r <==> !TeamsPresent(info)
  {
    if |info| == 0 then []
    else
      var rest := RowCells(info[1..]);
      assert TeamSet(info) == TeamSet([info[0]]) + TeamSet(info[1..]) by {
        assert info == [info[0]] + info[1..];
      }
      [info[0].team1, info[0].team2] + rest
  }

  /** `/teams`: the sentinel, then the distinct team names in ascending
      order. Only string cells are kept, so missing entries never appear. */
  function Teams(info: seq<MatchInfo>): (r: seq<string>)
    ensures |r| == |TeamSet(info)| + 1
    ensures r[0] == AllTeams
    ensures Increasing(r[1..], StrLess)
    ensures forall t :: t in r[1..] <==> t in TeamSet(info)
    ensures |info| == 0 ==> r == [AllTeams]
  {
    var teams := Somes(RowCells(info));
    assert Elements(teams) == TeamSet(info);
    var sorted := SortedStrings(teams);
    assert ([AllTeams] + sorted)[1..] == sorted;
    [AllTeams] + sorted
  }

  // ---------------------------------------------------------------------
  // /filters

  /** The three option lists of `/filters`. */
  datatype FilterOptions = FilterOptions(seasons: seq<int>, venues: seq<string>, opponents: seq<string>)

  function SeasonOf(m: MatchInfo): Option<int> { m.season }

  function VenueOf(m: MatchInfo): Option<string> { m.venue }

  lemma SomeInMap<T>(f: MatchInfo -> Option<T>, info: seq<MatchInfo>, y: T)
    ensures Some(y) in Map(f, info) <==> exists m :: m in info && f(m) == Some(y)
  {
    if exists m :: m in info && f(m) == Some(y) {
      var m :| m in info && f(m) == Some(y);
      var k :| 0 <= k < |info| && info[k] == m;
      assert Map(f, info)[k] == Some(y);
    }
  }

  /** The opponents list of `/filters` as written: the raw team cells are
      sorted, so a missing cell next to a team name raises (the route then
      answers with a server error). */
  function OpponentsAsWritten(info: seq<MatchInfo>): (r: Result<seq<Option<string>>, string>)
    ensures r.Failure? <==> !TeamsPresent(info) && |TeamSet(info)| > 0
    ensures r.Failure? ==> r.error == SortTypeError
    ensures r.Success? ==> forall t :: Some(t) in r.value <==> t in TeamSet(info)
  {
    var cells := RowCells(info);
    assert (exists t :: Some(t) in cells) <==> |TeamSet(info)| > 0 by {
      if |TeamSet(info)| > 0 {
        var t :| t in TeamSet(info);
        assert Some(t) in cells;
      }
    }
    SortCellsAsWritten(cells)
  }

  /** `/filters`, corrected: distinct present seasons, venues and
      team names, each in ascending order; no sentinel is added. */
  function Filters(info: seq<MatchInfo>): (r: FilterOptions)
    ensures Increasing(r.seasons, IntLess)
    ensures forall y :: y in r.seasons <==> exists m :: m in info && m.season == Some(y)
    ensures Increasing(r.venues, StrLess)
    ensures forall v :: v in r.venues <==> exists m :: m in info && m.venue == Some(v)
    ensures Increasing(r.opponents, StrLess)
    ensures forall t :: t in r.opponents <==> t in TeamSet(info)
  {
    var seasons := SortedInts(Somes(Map(SeasonOf, info)));
    var venues := SortedStrings(Somes(Map(VenueOf, info)));
    assert forall y :: Some(y) in Map(SeasonOf, info) <==> exists m :: m in info && m.season == Some(y) by {
      forall y ensures Some(y) in Map(SeasonOf, info) <==> exists m :: m in info && m.season == Some(y) {
        SomeInMap(SeasonOf, info, y);
      }
    }
    assert forall v :: Some(v) in Map(VenueOf, info) <==> exists m :: m in info && m.venue == Some(v) by {
      forall v ensures Some(v) in Map(VenueOf, info) <==> exists m :: m in info && m.venue == Some(v) {
        SomeInMap(VenueOf, info, v);
      }
    }
    FilterOptions(seasons, venues, SortedStrings(Somes(RowCells(info))))
  }

  /** The three team listings agree: `/teams` is the `/filters` opponents with
      the sentinel in front, and `get_all_teams` is the same list with the
      sentinel at the back, although the latter reads the cells column by
      column rather than row by row. */
  lemma TeamListingsAgree(info: seq<MatchInfo>)
    ensures Teams(info) == [AllTeams] + Filters(info).opponents
    ensures GetAllTeams(info) == Filters(info).opponents + [AllTeams]
  {
    var byRow := SortedStrings(Somes(RowCells(info)));
    var byColumn := SortedStrings(Somes(ColumnCells(info)));
    StrLessOrder();
    IncreasingUnique(byRow, byColumn, StrLess);
  }

  /** On complete team columns the opponents list as written is the
      corrected one. */
  lemma OpponentsAgree(info: seq<MatchInfo>)
    requires TeamsPresent(info)
    ensures OpponentsAsWritten(info) == Success(Map(SomeOf, Filters(info).opponents))
  {
  }

  /** When the metadata names a single team, `/teams` and the `/filters`
      opponents list hold just that team. */
  lemma SingleTeamListed(info: seq<MatchInfo>, t: string)
    requires TeamSet(info) == {t}
    ensures Teams(info) == [AllTeams, t]
    ensures Filters(info).opponents == [t]
  {
    var r := Teams(info);
    assert |r| == 2;
    assert r[1] in r[1..];
    assert r[1] == t;
    assert r == [AllTeams, t];
    TeamListingsAgree(info);
    assert Filters(info).opponents == r[1..];
  }

  /** One match whose second team is missing: `/filters` as written raises,
      while `/teams` and the corrected opponents list name the one team. */
  lemma MissingOpponentRaises()
    ensures OpponentsAsWritten(MissingTeamInfo()) == Failure(SortTypeError)
    ensures Teams(MissingTeamInfo()) == [AllTeams, "A"]
    ensures Filters(MissingTeamInfo()).opponents == ["A"]
  {
    MissingTeamInfoFacts();
    SingleTeamListed(MissingTeamInfo(), "A");
  }

  // ---------------------------------------------------------------------
  // /analytics

  /** A JSON number as Python produces it: an `int` or a `float`. */
  datatype Number = Int(i: int) | Float(f: real)

  function NumberValue(v: Number): real {
    match v
    case Int(i) => i as real
    case Float(f) => f
  }

  predicate IsIntegral(x: real) {
    x.Floor as real == x
  }

  /** The clean-up applied to each analytics value: a number whose float value
      is integral is emitted as an `int`; other floats stay floats. */
  function Coerce(v: Number): (r: Number)
    ensures NumberValue(r) == NumberValue(v)
    ensures r.Float? ==> !IsIntegral(r.f)
    ensures v.Int? ==> r == v
  {
    match v
    case Int(_) => v
    case Float(x) => if IsIntegral(x) then Int(x.Floor) else v
  }

  /** Coercion is idempotent: a cleaned value is already clean. */
  lemma CoerceIdempotent(v: Number)
    ensures Coerce(Coerce(v)) == Coerce(v)
  {
  }

  /** The keys of the analytics object, in order. */
  const AnalyticsKeys: seq<string> :=
    ["Total Matches", "Total Runs", "Total Wickets", "Total Fours", "Total Sixes", "Average Run Rate"]

  /** The analytics dictionary before clean-up: counts are ints, the run rate
      a float. */
  function AnalyticsFields(a: Analytics): seq<(string, Number)> {
    [(AnalyticsKeys[0], Int(a.matches)),
     (AnalyticsKeys[1], Int(a.runs)),
     (AnalyticsKeys[2], Int(a.wickets)),
     (AnalyticsKeys[3], Int(a.fours)),
     (AnalyticsKeys[4], Int(a.sixes)),
     (AnalyticsKeys[5], Float(a.runRate))]
  }

  /** The dictionary comprehension of the route: same keys, coerced values. */
  function CleanFields(fields: seq<(string, Number)>): (r: seq<(string, Number)>)
    ensures |r| == |fields|
    ensures forall i :: 0 <= i < |r| ==> r[i].0 == fields[i].0
    ensures forall i :: 0 <= i < |r| ==> NumberValue(r[i].1) == NumberValue(fields[i].1)
    ensures forall i :: 0 <= i < |r| ==> r[i].1.Float? ==> !IsIntegral(r[i].1.f)
  {
    if |fields| == 0 then []
    else [(fields[0].0, Coerce(fields[0].1))] + CleanFields(fields[1..])
  }

  /** A JSON response body: an object of numbers, or `{"error": message}`. */
  datatype Body = Fields(fields: seq<(string, Number)>) | Error(message: string)

  datatype Response = Response(status: nat, body: Body)

  /** `/analytics`: the cleaned aggregates with status 200, or the error
      message with status 500. */
  function AnalyticsRoute(balls: seq<Ball>, team: string): (r: Response)
    ensures r.status == 500 <==> forall b :: b in balls ==> !Selects(team, b)
    ensures r.status == 500 ==> r.body == Error(NoDataMessage(team))
    ensures r.status != 500 ==> r.status == 200 && r.body.Fields?
    ensures r.status == 200 ==>
      var a := GetTeamAnalytics(balls, team).value;
      && |r.body.fields| == 6
      && (forall i :: 0 <= i < 6 ==> r.body.fields[i].0 == AnalyticsKeys[i])
      && r.body.fields[0].1 == Int(a.matches)
      && r.body.fields[1].1 == Int(a.runs)
      && r.body.fields[2].1 == Int(a.wickets)
      && r.body.fields[3].1 == Int(a.fours)
      && r.body.fields[4].1 == Int(a.sixes)
      && NumberValue(r.body.fields[5].1) == a.runRate
      && (r.body.fields[5].1.Int? <==> IsIntegral(a.runRate))
  {
    match GetTeamAnalytics(balls, team)
    case Failure(msg) => Response(500, Error(msg))
    case Success(a) => Response(200, Fields(CleanFields(AnalyticsFields(a))))
  }

  /** The two deliveries of the worked example: match 1, batted by "A",
      a four and a six. */
  function ExampleBalls(): seq<Ball> {
    [Ball(1, "A", "B", 1, "p", "q", 4, None, None), Ball(1, "A", "B", 1, "p", "q", 6, None, None)]
  }

  lemma ExampleAggregates()
    ensures GetTeamAnalytics(ExampleBalls(), "A") == Success(Analytics(1, 10, 0, 1, 1, 30.0))
  {
    var balls := ExampleBalls();
    var six := balls[1];
    var rows := TeamRows(balls, "A");
    assert rows == balls by {
      assert Filter(Involving("A"), balls) == [balls[0]] + Filter(Involving("A"), [six]);
      assert Filter(Involving("A"), [six]) == [six] + Filter(Involving("A"), []);
    }
    assert Image(MatchIdOf, rows) == {1};
    assert SumOf(RunsOf, rows) == 10 by {
      assert SumOf(RunsOf, [six]) == 6 + SumOf(RunsOf, []);
    }
    assert CountIf(IsWicket, rows) == 0 by {
      assert CountIf(IsWicket, [six]) == CountIf(IsWicket, []);
    }
    assert CountIf(IsFour, rows) == 1 by {
      assert CountIf(IsFour, [six]) == CountIf(IsFour, []);
    }
    assert CountIf(IsSix, rows) == 1 by {
      assert CountIf(IsSix, [six]) == 1 + CountIf(IsSix, []);
    }
    assert RunRate(10, 2) == 30.0 by {
      assert (6 * 10) as real / 2 as real == 30.0;
      assert (30.0 * 100.0 + 0.5).Floor == 3000;
    }
  }

  /** The cleaned fields of the worked example's aggregates. */
  lemma ExampleFields()
    ensures CleanFields(AnalyticsFields(Analytics(1, 10, 0, 1, 1, 30.0))) ==
      [(AnalyticsKeys[0], Int(1)), (AnalyticsKeys[1], Int(10)), (AnalyticsKeys[2], Int(0)),
       (AnalyticsKeys[3], Int(1)), (AnalyticsKeys[4], Int(1)), (AnalyticsKeys[5], Int(30))]
  {
    assert Coerce(Float(30.0)) == Int(30);
  }

  /** The worked example through the route: one match, ten runs, no wicket,
      one four, one six and a run rate of 10 / (2 / 6) = 30, all emitted as
      integers. */
  lemma AnalyticsExample()
    ensures AnalyticsRoute(ExampleBalls(), "A") == Response(200, Fields(
      [(AnalyticsKeys[0], Int(1)), (AnalyticsKeys[1], Int(10)), (AnalyticsKeys[2], Int(0)),
       (AnalyticsKeys[3], Int(1)), (AnalyticsKeys[4], Int(1)), (AnalyticsKeys[5], Int(30))]))
  {
    ExampleAggregates();
    ExampleFields();
  }

  // ---------------------------------------------------------------------
  // /top-players

  /** A dismissal credited to the bowler: present and not a run out. */
  predicate IsBowlerWicket(b: Ball) {
    b.wicketType.Some? && b.wicketType.value != RunOut
  }

  /** The delivery counts towards `team`'s batting ranking. */
  predicate Bats(team: string, b: Ball) {
    team == AllTeams || b.battingTeam == team
  }

  /** The delivery is a dismissal credited to one of `team`'s bowlers. */
  predicate Credited(team: string, b: Ball) {
    (team == AllTeams || b.bowlingTeam == team) && IsBowlerWicket(b)
  }

  function BattedFor(team: string): Ball -> bool {
    (b: Ball) => b.battingTeam == team
  }

  function BowledFor(team: string): Ball -> bool {
    (b: Ball) => b.bowlingTeam == team && IsBowlerWicket(b)
  }

  function BatsSel(team: string): Ball -> bool {
    (b: Ball) => Bats(team, b)
  }

  function CreditedSel(team: string): Ball -> bool {
    (b: Ball) => Credited(team, b)
  }

  /** The rows the batting ranking groups: all rows for the sentinel,
      otherwise the team's rows narrowed to those where it batted. */
  function BattingRows(balls: seq<Ball>, team: string): (r: seq<Ball>)
    ensures forall b :: b in r <==> b in balls && Bats(team, b)
    ensures IsSubsequence(r, balls)
    ensures team == AllTeams ==> r == balls
  {
    if team == AllTeams then
      SubsequenceReflexive(balls);
      balls
    else
      var involved := Filter(Involving(team), balls);
      var batted := Filter(BattedFor(team), involved);
      SubsequenceTransitive(batted, involved, balls);
      batted
  }

  /** The rows the bowling ranking counts: dismissals credited to a bowler,
      restricted for a named team to the team's rows where it bowled. */
  function WicketRows(balls: seq<Ball>, team: string): (r: seq<Ball>)
    ensures forall b :: b in r <==> b in balls && Credited(team, b)
    ensures IsSubsequence(r, balls)
  {
    if team == AllTeams then Filter(IsBowlerWicket, balls)
    else
      var involved := Filter(Involving(team), balls);
      var credited := Filter(BowledFor(team), involved);
      SubsequenceTransitive(credited, involved, balls);
      credited
  }

  lemma BattingRowsIsFilter(balls: seq<Ball>, team: string)
    ensures BattingRows(balls, team) == Filter(BatsSel(team), balls)
  {
    if team == AllTeams {
      FilterKeepsAll(BatsSel(team), balls);
    } else {
      FilterFilter(BattedFor(team), Involving(team), balls);
      FilterExt(And(Involving(team), BattedFor(team)), BatsSel(team), balls);
    }
  }

  lemma WicketRowsIsFilter(balls: seq<Ball>, team: string)
    ensures WicketRows(balls, team) == Filter(CreditedSel(team), balls)
  {
    if team == AllTeams {
      FilterExt(IsBowlerWicket, CreditedSel(team), balls);
    } else {
      FilterFilter(BowledFor(team), Involving(team), balls);
      FilterExt(And(Involving(team), BowledFor(team)), CreditedSel(team), balls);
    }
  }

  function BattingCredit(b: Ball): Credit { Credit(b.striker, b.runsOffBat) }

  function BowlingCredit(b: Ball): Credit { Credit(b.bowler, 1) }

  /** The strikers who faced a delivery that counts for `team`. */
  ghost function Batsmen(balls: seq<Ball>, team: string): set<string> {
    set b | b in balls && Bats(team, b) :: b.striker
  }

  function RunsFor(team: string, name: string): Ball -> nat {
    (b: Ball) => if Bats(team, b) && b.striker == name then b.runsOffBat else 0
  }

  /** The runs off the bat `name` scored on deliveries that count for `team`. */
  ghost function RunsScored(balls: seq<Ball>, team: string, name: string): nat {
    SumOf(RunsFor(team, name), balls)
  }

  /** The bowlers credited with a dismissal for `team`. */
  ghost function WicketTakers(balls: seq<Ball>, team: string): set<string> {
    set b | b in balls && Credited(team, b) :: b.bowler
  }

  function WicketFor(team: string, name: string): Ball -> bool {
    (b: Ball) => Credited(team, b) && b.bowler == name
  }

  /** The dismissals credited to `name` bowling for `team`. */
  ghost function WicketsTaken(balls: seq<Ball>, team: string, name: string): nat {
    CountIf(WicketFor(team, name), balls)
  }

  /** Grouping the batting rows by striker sums exactly each striker's runs. */
  lemma BattingCredits(balls: seq<Ball>, team: string)
    ensures Names(Map(BattingCredit, BattingRows(balls, team))) == Batsmen(balls, team)
    ensures forall name :: Total(Map(BattingCredit, BattingRows(balls, team)), name) == RunsScored(balls, team, name)
  {
    var rows := BattingRows(balls, team);
    BattingRowsIsFilter(balls, team);
    var cs := Map(BattingCredit, rows);
    forall t ensures t in Names(cs) <==> t in Batsmen(balls, team) {
      if t in Names(cs) {
        var c :| c in cs && c.name == t;
        var k :| 0 <= k < |cs| && cs[k] == c;
        assert rows[k] in rows;
      }
      if t in Batsmen(balls, team) {
        var b :| b in balls && Bats(team, b) && b.striker == t;
        assert b in rows;
        var k :| 0 <= k < |rows| && rows[k] == b;
        assert cs[k] in cs;
      }
    }
    forall name ensures Total(cs, name) == RunsScored(balls, team, name) {
      SumOfMap(AmountFor(name), BattingCredit, rows);
      SumOfFilter(Compose(AmountFor(name), BattingCredit), BatsSel(team), balls);
      SumOfExt(Masked(Compose(AmountFor(name), BattingCredit), BatsSel(team)), RunsFor(team, name), balls);
    }
  }

  /** Counting the bowling rows per bowler counts exactly each bowler's
      credited dismissals. */
  lemma BowlingCredits(balls: seq<Ball>, team: string)
    ensures Names(Map(BowlingCredit, WicketRows(balls, team))) == WicketTakers(balls, team)
    ensures forall name :: Total(Map(BowlingCredit, WicketRows(balls, team)), name) == WicketsTaken(balls, team, name)
  {
    var rows := WicketRows(balls, team);
    WicketRowsIsFilter(balls, team);
    var cs := Map(BowlingCredit, rows);
    forall t ensures t in Names(cs) <==> t in WicketTakers(balls, team) {
      if t in Names(cs) {
        var c :| c in cs && c.name == t;
        var k :| 0 <= k < |cs| && cs[k] == c;
        assert rows[k] in rows;
      }
      if t in WicketTakers(balls, team) {
        var b :| b in balls && Credited(team, b) && b.bowler == t;
        assert b in rows;
        var k :| 0 <= k < |rows| && rows[k] == b;
        assert cs[k] in cs;
      }
    }
    forall name ensures Total(cs, name) == WicketsTaken(balls, team, name) {
      SumOfMap(AmountFor(name), BowlingCredit, rows);
      SumOfFilter(Compose(AmountFor(name), BowlingCredit), CreditedSel(team), balls);
      CountIfAsSum(WicketFor(team, name), Masked(Compose(AmountFor(name), BowlingCredit), CreditedSel(team)), balls);
    }
  }

  /** The batting half of `/top-players`: the (up to) five highest run
      scorers for `team`. */
  function TopBatsmen(balls: seq<Ball>, team: string): (r: seq<Ranked>)
    ensures |r| == Min(5, |Batsmen(balls, team)|)
    ensures NonIncreasing(r)
    ensures DistinctNames(r)
    ensures forall i :: 0 <= i < |r| ==>
      r[i].name in Batsmen(balls, team) && r[i].score == RunsScored(balls, team, r[i].name)
    ensures forall name, i :: name in Batsmen(balls, team) && name !in Image(NameOf, r) && 0 <= i < |r| ==>
      RunsScored(balls, team, name) <= r[i].score
  {
    BattingCredits(balls, team);
    Top(Map(BattingCredit, BattingRows(balls, team)), 5)
  }

  /** The bowling half of `/top-players`: the (up to) five bowlers with the
      most credited dismissals for `team`. */
  function TopBowlers(balls: seq<Ball>, team: string): (r: seq<Ranked>)
    ensures |r| == Min(5, |WicketTakers(balls, team)|)
    ensures NonIncreasing(r)
    ensures DistinctNames(r)
    ensures forall i :: 0 <= i < |r| ==>
      r[i].name in WicketTakers(balls, team) && r[i].score == WicketsTaken(balls, team, r[i].name)
    ensures forall name, i :: name in WicketTakers(balls, team) && name !in Image(NameOf, r) && 0 <= i < |r| ==>
      WicketsTaken(balls, team, name) <= r[i].score
  {
    BowlingCredits(balls, team);
    Top(Map(BowlingCredit, WicketRows(balls, team)), 5)
  }

  /** The `/top-players` response. */
  datatype TopPlayers = TopPlayers(batsmen: seq<Ranked>, bowlers: seq<Ranked>)

  /** Every listed bowler has at least one credited dismissal. */
  lemma TopBowlersCredited(balls: seq<Ball>, team: string)
    ensures forall i :: 0 <= i < |TopBowlers(balls, team)| ==> 1 <= TopBowlers(balls, team)[i].score
  {
    var bowlers := TopBowlers(balls, team);
    forall i | 0 <= i < |bowlers| ensures 1 <= bowlers[i].score {
      var name := bowlers[i].name;
      assert name in WicketTakers(balls, team);
      var b :| b in balls && Credited(team, b) && b.bowler == name;
      CountIfPositive(WicketFor(team, name), balls, b);
    }
  }

  /** `/top-players`: at most five entries per list, and every listed bowler
      has at least one credited dismissal. */
  function TopPlayersRoute(balls: seq<Ball>, team: string): (r: TopPlayers)
    ensures |r.batsmen| <= 5 && |r.bowlers| <= 5
    ensures forall i :: 0 <= i < |r.bowlers| ==> 1 <= r.bowlers[i].score
  {
    TopBowlersCredited(balls, team);
    TopPlayers(TopBatsmen(balls, team), TopBowlers(balls, team))
  }

  /** A bowler none of whose dismissals for `team` is credited (every one is
      a run out, or there are none) never appears among the top bowlers. */
  lemma RunOutsNeverCredited(balls: seq<Ball>, team: string, name: string)
    requires forall b ::
      (b in balls && b.bowler == name && b.wicketType.Some? && (team == AllTeams || b.bowlingTeam == team))
      ==> b.wicketType.value == RunOut
    ensures forall i :: 0 <= i < |TopBowlers(balls, team)| ==> TopBowlers(balls, team)[i].name != name
  {
    assert name !in WicketTakers(balls, team);
  }

  /** For a named team, batsmen come only from deliveries the team batted on
      and bowlers only from deliveries it bowled on. */
  lemma NamedTeamSides(balls: seq<Ball>, team: string)
    requires team != AllTeams
    ensures forall i :: 0 <= i < |TopBatsmen(balls, team)| ==>
      exists b :: b in balls && b.battingTeam == team && b.striker == TopBatsmen(balls, team)[i].name
    ensures forall i :: 0 <= i < |TopBowlers(balls, team)| ==>
      exists b :: b in balls && b.bowlingTeam == team && b.bowler == TopBowlers(balls, team)[i].name
  {
    var batsmen := TopBatsmen(balls, team);
    forall i | 0 <= i < |batsmen|
      ensures exists b :: b in balls && b.battingTeam == team && b.striker == batsmen[i].name
    {
      assert batsmen[i].name in Batsmen(balls, team);
    }
    var bowlers := TopBowlers(balls, team);
    forall i | 0 <= i < |bowlers|
      ensures exists b :: b in balls && b.bowlingTeam == team && b.bowler == bowlers[i].name
    {
      assert bowlers[i].name in WicketTakers(balls, team);
    }
  }

  /** A team name that occurs in no delivery is not an error here, unlike
      `/analytics`: both lists are simply empty. */
  lemma UnknownTeamNoPlayers(balls: seq<Ball>, team: string)
    requires team != AllTeams
    requires forall b :: b in balls ==> !Involves(team, b)
    ensures AnalyticsRoute(balls, team).status == 500
    ensures TopPlayersRoute(balls, team) == TopPlayers([], [])
  {
    assert Batsmen(balls, team) == {};
    assert WicketTakers(balls, team) == {};
  }
}
