# IPL team dashboard: the aggregation core in Dafny

The dashboard loads two read-only tables at start-up:
- a match metadata table, with one row per match: id, season, venue, team1, team2;
- a ball-by-ball table, with one row per delivery: match id, batting and bowling team, innings, striker, bowler, runs off the bat, wicket type, extras type.

The backend answers four data questions about a team, or about the sentinel
`"All Teams"`:
- the team listings: `get_all_teams`, `/teams` and the opponents of `/filters`;
- the six summary statistics: `get_team_analytics` and `/analytics`;
- the five best batsmen and bowlers: `/top-players`;
- the season and venue filter lists: `/filters`.

The frontend builds a team's logo path and filters the team buttons by a
case-insensitive search.

This project models those computations as pure functions over immutable
records. It proves what each promises.

| file | models |
|---|---|
| `Wrappers.dfy` | `Option`, which stands for a missing cell; `Result`, which stands for a raised exception; `Somes`, which drops missing cells |
| `Seqs.dfy` | the generic sequence toolkit: filter, map, sum, count, subsequence, image |
| `Ordering.dfy` | Python's `<` on `str` and `int` as strict total orders; `sorted(set(xs))`; the fact that an ascending list is determined by its elements |
| `Tables.dfy` | the two row types and the constants `"All Teams"` and `"run out"` |
| `Analytics.dfy` | `utils/analytics.py`: the team listing, the team filter and the six aggregates |
| `Ranking.dfy` | group-by-and-sum followed by "sort descending, take N" |
| `Routes.dfy` | the data logic of `app.py`'s `/teams`, `/analytics`, `/top-players` and `/filters` |
| `Frontend.dfy` | `getTeamLogoPath` and `handleSearch` of `App.js` |

Python's `str` order compares code point by code point, and a proper prefix
sorts first. pandas `groupby` sorts its keys. The order among equal scores
after `sort_values` and `value_counts` is left unspecified, and no contract
depends on it.

## Model

| member | source | states |
|---|---|---|
| Analytics.ColumnCells | ipl-dashboard-backend/utils/analytics.py:4 | the concatenated team columns have two cells per match; a name occurs in them exactly when it is some match's team1 or team2; a missing cell occurs exactly when some row lacks a team |
| Analytics.SortCellsAsWritten | ipl-dashboard-backend/utils/analytics.py:4-5 | sorting the distinct raw cells raises a `TypeError` exactly when a missing cell (NaN) meets a team name; otherwise the result holds exactly the distinct cells, ascending when nothing is missing |
| Analytics.GetAllTeamsAsWritten | ipl-dashboard-backend/utils/analytics.py:3-5 | `get_all_teams` as written fails exactly when a team cell is missing and some team is named, and otherwise ends with the sentinel |
| Analytics.GetAllTeams | ipl-dashboard-backend/utils/analytics.py:3-5 | the listing is the distinct team names in strictly ascending order, followed by `"All Teams"` as the last element; its length is the number of distinct teams plus one |
| Analytics.GetAllTeamsAgree | ipl-dashboard-backend/utils/analytics.py:3-5 | on complete team columns the code as written and the corrected listing give the same list |
| Analytics.MissingTeamCellRaises | ipl-dashboard-backend/utils/analytics.py:4-5 | one match whose team2 is missing makes `get_all_teams` as written raise, while the corrected listing is `["A", "All Teams"]` |
| Analytics.TeamRows | ipl-dashboard-backend/utils/analytics.py:10-15 | the selected deliveries are exactly those the team batted or bowled on, in table order; for the sentinel, the whole table |
| Analytics.TeamRowsIsFilter | ipl-dashboard-backend/utils/analytics.py:10-15 | both branches of the filter are one filter by "counts for the team" |
| Analytics.TeamRowsCount | ipl-dashboard-backend/utils/analytics.py:21 | the ball count is the number of table positions whose delivery counts for the team |
| Analytics.Round2 | ipl-dashboard-backend/utils/analytics.py:22 | rounding to two places moves the value by at most half a hundredth, and the result is a whole number of hundredths |
| Analytics.RunRate | ipl-dashboard-backend/utils/analytics.py:22 | the rate is within 0.005 of 6 * runs / balls and is two-decimal; it is 0 without deliveries; it is never negative |
| Analytics.GetTeamAnalytics | ipl-dashboard-backend/utils/analytics.py:7-31 | the call fails exactly when no delivery counts for the team, with the message "No data found for team: " + team; on success it counts at least one match |
| Analytics.AnalyticsCountsExact | ipl-dashboard-backend/utils/analytics.py:27-29 | wickets, fours and sixes are the numbers of selected deliveries with a present dismissal, with exactly 4 runs and with exactly 6 runs |
| Analytics.AnalyticsTotalsExact | ipl-dashboard-backend/utils/analytics.py:20-26 | total runs is the sum of runs off the bat over the selected deliveries; total matches is the number of distinct match ids among them |
| Analytics.AnalyticsBounds | ipl-dashboard-backend/utils/analytics.py:20-31 | with n selected deliveries: 1 <= matches <= n, wickets <= n, fours + sixes <= n, 4 * fours + 6 * sixes <= runs, and the rate is 6 * runs / n up to rounding |
| Analytics.BoundaryRuns | ipl-dashboard-backend/utils/analytics.py:26-29 | fours and sixes account for at least 4 and 6 runs each in the run total |
| Analytics.AnalyticsAllTeams | ipl-dashboard-backend/utils/analytics.py:14-15 | for the sentinel, the call fails only on an empty table, and otherwise aggregates every delivery |
| Analytics.AnalyticsWithinAllTeams | ipl-dashboard-backend/utils/analytics.py:10-15 | a team's matches, runs, wickets, fours and sixes never exceed the whole table's |
| Wrappers.Somes | ipl-dashboard-backend/app.py:185-186 | `dropna()` keeps exactly the present values of a column |
| Ordering.SortedInts | ipl-dashboard-backend/app.py:185 | `sorted` of the distinct seasons is strictly ascending, holds exactly the input's values, and has one entry per distinct value |
| Ordering.SortedStrings | ipl-dashboard-backend/app.py:25 | `sorted` of the distinct names is strictly ascending under Python's `str` order, holds exactly the input's values, and has one entry per distinct value |
| Ordering.IncreasingUnique | ipl-dashboard-backend/app.py:187 | two strictly ascending lists with the same elements are equal, so the sorted listing does not depend on the order the cells were read in |
| Ranking.Tally | ipl-dashboard-backend/app.py:122-123 | the group-by yields one entry per credited name, in ascending name order, each carrying that name's total |
| Ranking.TopSplit | ipl-dashboard-backend/app.py:124-125 | taking the top n loses and invents nothing (the two parts form a permutation of the input) and selects min(n, entries) entries |
| Ranking.TopSplitOrdered | ipl-dashboard-backend/app.py:124-125 | the selected entries are in non-increasing score order, and no unselected entry outscores a selected one |
| Ranking.Top | ipl-dashboard-backend/app.py:121-129 | the top n holds exactly min(n, #names) distinct names in non-increasing order of total, each with its true total, and no unlisted name has a higher total than a listed one |
| Routes.RowCells | ipl-dashboard-backend/app.py:24 | the cells of the two team columns: a name occurs exactly when it is some match's team, and a missing cell occurs exactly when some row lacks a team |
| Routes.Teams | ipl-dashboard-backend/app.py:22-27 | `/teams` starts with `"All Teams"`, followed by the distinct present team names in strictly ascending order; it is `["All Teams"]` for an empty table |
| Routes.OpponentsAsWritten | ipl-dashboard-backend/app.py:187 | the `/filters` opponents as written fail exactly when a team cell is missing and some team is named |
| Routes.Filters | ipl-dashboard-backend/app.py:183-193 | seasons, venues and opponents are each strictly ascending and hold exactly the present seasons, the present venues and the team names; no missing value and no sentinel appears |
| Routes.TeamListingsAgree | ipl-dashboard-backend/app.py:24-26 | `/teams` is the opponents list with the sentinel in front, and `get_all_teams` is the same list with the sentinel at the back |
| Routes.OpponentsAgree | ipl-dashboard-backend/app.py:187 | on complete team columns, the opponents list as written equals the corrected one |
| Routes.SingleTeamListed | ipl-dashboard-backend/app.py:24-26 | when one team is named, `/teams` is `["All Teams", t]` and the opponents list is `[t]` |
| Routes.MissingOpponentRaises | ipl-dashboard-backend/app.py:187 | one match whose team2 is missing makes `/filters` as written raise, while `/teams` and the corrected list both name the one team |
| Routes.Coerce | ipl-dashboard-backend/app.py:40-42 | the clean-up preserves every numeric value, turns every integral float into an int, and leaves ints alone |
| Routes.CoerceIdempotent | ipl-dashboard-backend/app.py:40-42 | cleaning an already clean value changes nothing |
| Routes.CleanFields | ipl-dashboard-backend/app.py:39-44 | the cleaned dictionary has the same keys in the same order and the same values, and no integral float is left |
| Routes.AnalyticsRoute | ipl-dashboard-backend/app.py:30-51 | `/analytics` answers 500 with `{"error": "No data found for team: ..."}` exactly when no delivery counts for the team; otherwise it answers 200 with the cleaned dictionary before JSON encoding: the six keys in insertion order, the counts as ints, and the run rate as an int exactly when it is integral |
| Routes.ExampleAggregates | ipl-dashboard-backend/utils/analytics.py:20-31 | two deliveries of match 1 worth 4 and 6 give 1 match, 10 runs, 0 wickets, 1 four, 1 six and a rate of 30.0 |
| Routes.ExampleFields | ipl-dashboard-backend/app.py:39-44 | those aggregates are all emitted as ints, the rate 30.0 as 30 |
| Routes.AnalyticsExample | ipl-dashboard-backend/app.py:35-46 | for that example the route answers 200 with 1, 10, 0, 1, 1 and 30 |
| Routes.BattingRows | ipl-dashboard-backend/app.py:145-151 | the rows the batting ranking groups are exactly the deliveries the team batted on, in table order; for the sentinel (lines 117-122), the whole table |
| Routes.WicketRows | ipl-dashboard-backend/app.py:162-166 | the rows the bowling ranking counts are exactly the deliveries with a present dismissal other than a run out, bowled by the team (any team for the sentinel, lines 132-135), in table order |
| Routes.BattingRowsIsFilter | ipl-dashboard-backend/app.py:145-151 | the two-stage filter for a named team equals the single condition "the team batted" |
| Routes.WicketRowsIsFilter | ipl-dashboard-backend/app.py:162-166 | the two-stage filter for a named team equals "the team bowled and a non-run-out dismissal is recorded" |
| Routes.BattingCredits | ipl-dashboard-backend/app.py:121-123 | grouping by striker covers exactly the strikers who batted for the team, and each one's sum is the runs that striker scored for it |
| Routes.BowlingCredits | ipl-dashboard-backend/app.py:132-138 | counting by bowler covers exactly the bowlers credited with a dismissal, and each one's count is that bowler's credited dismissals |
| Routes.TopBatsmen | ipl-dashboard-backend/app.py:150-159 | the top batsmen are min(5, #batsmen) distinct strikers with their true run totals, in non-increasing order, and no omitted striker scored more than a listed one |
| Routes.TopBowlers | ipl-dashboard-backend/app.py:162-174 | the top bowlers are min(5, #wicket-takers) distinct bowlers with their credited dismissal counts, in non-increasing order, and no omitted bowler took more |
| Routes.TopBowlersCredited | ipl-dashboard-backend/app.py:162-166 | every listed bowler has at least one credited dismissal |
| Routes.TopPlayersRoute | ipl-dashboard-backend/app.py:112-179 | `/top-players` lists at most five batsmen and five bowlers, and every bowler has a wicket |
| Routes.RunOutsNeverCredited | ipl-dashboard-backend/app.py:132-135 | a bowler whose only dismissals are run outs never appears among the top bowlers |
| Routes.UnknownTeamNoPlayers | ipl-dashboard-backend/app.py:144-174 | for a team that occurs in no delivery, `/analytics` answers 500 but `/top-players` answers two empty lists |
| Routes.NamedTeamSides | ipl-dashboard-backend/app.py:150-166 | for a named team, listed batsmen batted for it and listed bowlers bowled for it |
| Frontend.ReplaceChar | ipl-dashboard-frontend/src/App.js:51 | the global replacement keeps the length, replaces every occurrence of the character, and leaves every other character unchanged |
| Frontend.LogoPath | ipl-dashboard-frontend/src/App.js:50-53 | the path is `/logos/`, the name with spaces replaced, then `.png`; it contains no space and is 11 characters longer than the name |
| Frontend.TeamOfLogo | ipl-dashboard-frontend/src/App.js:50-53 | a name is recovered exactly from paths of the logo shape |
| Frontend.LogoRoundTrip | ipl-dashboard-frontend/src/App.js:50-53 | a name without underscores is recovered from its logo path |
| Frontend.LogoInjective | ipl-dashboard-frontend/src/App.js:50-53 | distinct names without underscores get distinct logo paths |
| Frontend.LogoCollision | ipl-dashboard-frontend/src/App.js:51 | `"A B"` and `"A_B"` share a logo path |
| Frontend.LowerChar | ipl-dashboard-frontend/src/App.js:56 | the result is never an upper-case letter, an upper-case letter maps to its lower-case form, and other characters are unchanged |
| Frontend.Lower | ipl-dashboard-frontend/src/App.js:56 | lower-casing keeps the length and lower-cases each character |
| Frontend.LowerIdempotent | ipl-dashboard-frontend/src/App.js:56 | lower-casing twice is lower-casing once |
| Frontend.ContainsAt | ipl-dashboard-frontend/src/App.js:58 | `includes` holds exactly when the term occurs at some position of the name |
| Frontend.ContainsTransitive | ipl-dashboard-frontend/src/App.js:58 | an occurrence of an occurrence is an occurrence |
| Frontend.EmptyTermKeepsAll | ipl-dashboard-frontend/src/App.js:58 | every team matches the empty term |
| Frontend.HandleSearch | ipl-dashboard-frontend/src/App.js:55-60 | the stored term is the input lower-cased; the filtered list keeps the team order and holds exactly the teams whose lower-cased name contains the lower-cased input; an empty input keeps every team |
| Frontend.SearchIgnoresCase | ipl-dashboard-frontend/src/App.js:56-58 | searching for the lower-cased input gives the same state as the input itself |
| Frontend.SearchNarrows | ipl-dashboard-frontend/src/App.js:55-60 | when the new term contains the old one, every team still listed was listed before |

## Left out

- Loading the CSV files, Flask routing, CORS and the request logging are not modelled. Each route is a function of the two tables and the `team` parameter.
- The `/visuals` route is not modelled. It draws charts with matplotlib and seaborn and returns base64 images; it has no data contract beyond the team filter, which `TeamRows` models.
- A missing `team` query parameter (`None` in Python) is not modelled. `team` is always a string.
- `get_team_analytics` takes an unused metadata-table parameter; the model drops it.
- Round2: rounds the exact rational half-up. Python's `round` works on the binary double `runs / (balls / 6)` and rounds half-to-even on that value, so results can differ in the last digit on exact ties. This is floating point, which is outside the model.
- GetTeamAnalytics: the "any other internal error" path, such as a missing column or a type mismatch, cannot arise with typed records, so only the "no data" error is modelled.
- Ranking.Top: which of several equally scored names is kept at the cut-off is left open, as in pandas. The model picks the first maximum, and no contract depends on that choice.
- TopBowlers: the JSON key names of the bowler records are not modelled. Before pandas 2.0, `reset_index()` of the `value_counts` result gives the columns `index` and `bowler`, and the rename at app.py:141/172 makes the records `{"name": <bowler>, "wickets": n}`. From pandas 2.0 the columns are `bowler` and `count`, so the same rename gives `{"wickets": <bowler>, "count": n}`. The model keeps the pairs (name, count) and not the key spelling.
- AnalyticsRoute: describes the dictionary before encoding. Flask's `jsonify` sorts object keys by default, so the JSON text lists "Average Run Rate" first; key order in the encoded text is not modelled.
- SortCellsAsWritten: the failure carries the exception class `TypeError`, not its message. The message names the two operand types in the order the sort compared them, which depends on where the NaN sits among the cells.
- The `isinstance` dtype tests of the `/analytics` clean-up are not modelled; only the rule "an integral number becomes an int" is kept.
- The `season` column is modelled as an optional integer. pandas would read a season column with gaps as floats, which `/filters` would then emit as `2020.0`.
- Lower: models `toLowerCase` on the ASCII letters only. JavaScript's full Unicode case mapping is not modelled.
- The React components, effects and the `api.js` fetch wrappers are not modelled. Only the two pure helpers of `App.js` are.

## Findings

| source | as written | input that shows it | evidently intended | confidence | as-written member | corrected member |
|---|---|---|---|---|---|---|
| ipl-dashboard-backend/app.py:187 | the opponents list sorts the raw team cells, so a missing cell (NaN) is compared with a name and `sorted` raises `TypeError`; `/filters` then fails | one metadata row with team1 = "A" and team2 missing | drop missing cells, as `/teams` does on line 25, giving `["A"]` | high, not executed | Routes.OpponentsAsWritten, Routes.MissingOpponentRaises | Routes.Filters, Routes.OpponentsAgree |
| ipl-dashboard-backend/utils/analytics.py:4-5 | `get_all_teams` sorts the concatenated raw team cells and raises in the same way | one metadata row with team1 = "A" and team2 missing | `["A", "All Teams"]` | high, not executed | Analytics.GetAllTeamsAsWritten, Analytics.MissingTeamCellRaises | Analytics.GetAllTeams, Analytics.GetAllTeamsAgree |
