# bet-ai-starter: the suggestion path, modelled in Dafny

bet-ai-starter is an "alerts only" betting assistant for soccer (1X2
markets) and hockey (moneyline). This project models its decision path:

- **Risk guards.** A team allowlist, an inclusive odds band, and daily
  limits: first a bet count, then a strict loss ratio.
- **Session state.** A `DailyRiskState` record that the soccer pass and
  then the hockey pass share.
- **Suggestion loop.** For each live candidate the loop checks the kill
  switch, then the allowlist. It then computes the edges and picks the
  outcome with the largest one. Next come the edge threshold, the odds band
  and the daily limits. An admitted candidate becomes a suggestion with a
  flat stake, and the bet count goes up by one.
- **Feature helpers.** The sequential Elo tracker, the injury and goalie
  lookups, and the home-minus-away difference features.
- **Training helpers.** The class labels and the walk-forward season split.

Modules, one file each:

| file | module | models |
|---|---|---|
| `common.dfy` | `Common` | dates, team names, `Option` |
| `config.dfy` | `Config` | `SafetyConfig` and its defaults |
| `safety.dfy` | `Safety` | `DailyRiskState` (a class) and the three guards |
| `features.dfy` | `Features` | date sort, Elo tracker (an imperative method over a map), lookups, feature rows |
| `train_backtest.dfy` | `TrainBacktest` | soccer and hockey labels, walk-forward folds |
| `live_paper.dfy` | `LivePaper` | edge and pick, guard chain, the suggestion loop (an imperative method over the state object), the session of `main`, live-row selection |

All quantities are `real`.

**Win expectancy.** The logistic win expectancy is a function-valued field
of `EloParams`. The only facts assumed about it (`IsWinExpectancy`) are:

- it lies strictly between 0 and 1;
- it is one half for equal ratings.

**Rounding.** Python's `round(x, 2)` is modelled on reals as rounding to the
nearest cent, with exact half cents going to the even cent.

**The two loops are one method.** The soccer and hockey loops are
identical apart from which outcomes they pick from and which probability
columns they read. Both are modelled by the single method
`SuggestBets`, which takes a `Sport` parameter.

**Specification function.** The loop is proved against the recursive
function `Run`. `Run` returns the suggestions of a pass and the bet count it
leaves behind. A pass ends at the first candidate that finds the kill
switch set.

**Guards cannot modify state.** The guards are functions over the state's
values, so they cannot change the state.

## Model

| member | source | states |
|---|---|---|
| Safety.DailyRiskState.constructor | safety.py:6-11 | a fresh state has no bets placed and zero P&L, and keeps the given day and start bankroll |
| Safety.EnforceAllowlist | safety.py:16-19 | an empty allowlist admits every pair; a non-empty one admits a pair iff both teams are listed |
| Safety.EmptyAllowlistAdmitsAll | safety.py:17-18 | any two teams pass an empty allowlist |
| Safety.OutsideTeamRejected | safety.py:19 | one unlisted team rejects the pair, in either position |
| Safety.WithinOddsLimits | safety.py:21-22 | the odds pass iff they lie in the closed band from the minimum to the maximum, so both ends pass |
| Safety.DailyLimitsOk | safety.py:24-30 | false once the count reaches the maximum, whatever the bankroll; true under the count when the start bankroll is not positive; otherwise true iff the bankroll is above start × (1 − limit), the strict loss-ratio test |
| Safety.LossRatioBelow | safety.py:29-30 | for a positive start bankroll, loss / start < limit iff loss < limit × start |
| Safety.LossLimitBoundary | safety.py:29-30 | start 1000, limit 0.05: bankroll 950 is refused, 950.01 is admitted |
| Safety.UnchangedBankrollOnlyCountMatters | safety.py:24-30 | with the bankroll at the start bankroll and a positive limit, only the count can refuse |
| Features.InsertKeepsSorted | features.py:18 | inserting a row into date-sorted rows leaves them sorted |
| Features.InsertAddsRow | features.py:18 | inserting adds exactly that one row and drops none, as multisets |
| Features.InsertByDate | features.py:18 | the insertion step of the date sort; the result is one row longer (its order and contents are stated by the two lemmas above) |
| Features.SortByDate | features.py:18 | the result is sorted by date and a permutation of the input |
| Features.ScoreHome | features.py:33-38 | 1 for a home win, 0 for a home loss, and for a tie 0.5 with draws allowed and 0 without |
| Features.Rating | features.py:29-30 | defines a team's current rating as its table entry, or 1500 when it has none |
| Features.ReplayFrom | features.py:27-42 | defines the rating table after applying the rows, in order, one `Step` each, to a starting table |
| Features.Replay | features.py:20-42 | defines the rating table after the rows, starting from no entries, so every team begins at 1500 |
| Features.TeamsOf | features.py:19 | defines the set of teams appearing as home or away in the rows |
| Features.HomeChange | features.py:41 | defines the home rating change as K times (observed score − expected score); its sign is stated by `HomeChangeSign` |
| Features.Step | features.py:32-42 | defines one row of the tracker: an unscored row changes nothing; a scored row moves the home rating by the home change and then the away rating by the away change, both from the pre-match expectancy |
| Features.EloDiffAt | features.py:27-44 | defines a row's elo_diff as home minus away rating in the replay of exactly the rows before it, with 1500 for a team not yet rated |
| Features.AwayChange | features.py:41-42 | the away rating change is the exact negation of the home change |
| Features.BuildEloSequential | features.py:17-45 | returns the input rows sorted by date (a permutation) and one elo_diff per row, equal to home minus away rating after replaying exactly the rows before it |
| Features.RecordResult | features.py:40-42 | the two in-place updates of a scored row give the one-row step of the replay and keep the set of rated teams |
| Features.ReplayFromAgrees | features.py:20-30 | replays from two starting tables that give every team the same rating, with 1500 for an absent team, agree on every team |
| Features.UnseenTeamHasInitialRating | features.py:20-30 | a team that appears in none of the earlier rows is rated 1500 |
| Features.UnscoredRowsKeepRatings | features.py:32 | trailing rows with no home goals, appended after the others, leave every rating unchanged |
| Features.EloDiffIsCausal | features.py:27-44 | a row's elo_diff depends only on the rows before it and on its own two teams |
| Features.EloDiffIgnoresOwnScore | features.py:29-44 | changing a row's own goals, filled in or missing, leaves its elo_diff and that of every earlier row unchanged |
| Features.InsertIgnoresGoals | features.py:18 | rows that differ only in goals are inserted at the same place |
| Features.SortIgnoresGoals | features.py:18 | two lists that differ only in goals sort into the same positions, the matches differing only in goals |
| Features.SortedEloDiffIgnoresScore | features.py:17-44 | changing the goals of one unsorted input row leaves every match at the same sorted position, and every sorted row before the first changed one, and that row itself, keeps its elo_diff |
| Features.StepIsZeroSum | features.py:40-42 | a scored row changes only its two teams' ratings, by opposite amounts |
| Features.StepConservesTotal | features.py:40-42 | one row leaves the total rating of any distinct team list containing both teams unchanged |
| Features.TotalOfInitial | features.py:20 | before any row, n teams total 1500·n |
| Features.ReplayConservesTotal | features.py:20-42 | after any prefix of rows, the teams in play still total 1500 per team |
| Features.HomeChangeSign | features.py:41 | with positive K, the home change is positive when the score beats the expectancy and negative when it falls short |
| Features.HomeWinMovesRatings | features.py:33-42 | for a genuine win expectancy and positive K, a home win raises the home rating and lowers the away rating |
| Features.HomeLossMovesRatings | features.py:35-42 | a home loss lowers the home rating and raises the away rating |
| Features.EvenDrawKeepsRatings | features.py:37-42 | with draws allowed, a draw between equally rated teams changes neither rating |
| Features.TieWithoutDrawsIsAwayWin | features.py:37-38 | with draws disallowed, a tie updates ratings exactly as an away win does |
| Features.InjuryMatches | features.py:8 | defines the injury mask: same date, same team, is_out equal to 1 |
| Features.SumImpact | features.py:9 | defines the sum of the impacts of the rows |
| Features.OutRows | features.py:8 | the injury rows kept are exactly those matching date and team with is_out equal to 1 |
| Features.OutRowsKeepsDuplicates | features.py:8-9 | each matching row is kept as many times as the table holds it and every other row is dropped, so two identical out rows are both summed |
| Features.InjuryImpact | features.py:5-9 | 0 when no row matches, which covers an empty table; non-negative when all impacts are |
| Features.InjuryImpactIsSum | features.py:5-9 | the impact is the sum of impacts over the matching rows |
| Features.InjuryImpactAdditive | features.py:5-9 | the impact of two tables concatenated is the sum of their impacts |
| Features.GoalieMatches | features.py:14 | defines the goalie mask: same date, same team, is_confirmed equal to 1 |
| Features.FirstConfirmed | features.py:14-15 | the index found is the first row confirmed for that date and team, or none exists |
| Features.GoalieRating | features.py:11-15 | 0 when no row matches, else the rating of the first confirmed matching row |
| Features.ImpliedProbability | features.py:49-50 | the implied probability times the odds is 1, and it lies in (0, 1) for odds above 1 |
| Features.SoccerFeatureRow | features.py:47-60 | each of the three implied-probability columns is `ImpliedProbability` of its own odds, i.e. its reciprocal; elo_diff is carried unchanged; injury_diff is the home team's injury impact minus the away team's on the match date; rest_diff is home rest minus away rest |
| Features.HockeyFeatureRow | features.py:47-67 | the home and away implied-probability columns are `ImpliedProbability` of their own odds, i.e. their reciprocals; elo_diff is carried unchanged; injury_diff and rest_diff are home minus away as for soccer (lines 47-55); goalie_diff is the home goalie rating minus the away one on the match date (lines 62-67) |
| Features.InjuryDiff | features.py:51-53 | defines injury_diff as the home team's injury impact minus the away team's |
| Features.RestDiff | features.py:54 | defines rest_diff as home rest minus away rest |
| Features.GoalieDiff | features.py:64-66 | defines goalie_diff as the home goalie rating minus the away one |
| Features.FeatureDiffsAreAntisymmetric | features.py:53-66 | swapping home and away negates injury_diff, rest_diff and goalie_diff |
| TrainBacktest.SoccerTarget | train_backtest.py:14-16 | with both scores present: 2 iff home win, 1 iff draw, 0 iff away win; with either score missing: 0, because both comparisons are false |
| TrainBacktest.HockeyTarget | train_backtest.py:18-19 | 1 iff both scores are present and home goals exceed away goals, so a tie or a missing score is 0 |
| TrainBacktest.TargetsMatchEloScore | train_backtest.py:14-19 | for a fully scored row, the soccer label is twice the draws-allowed Elo score and the hockey label is the draws-disallowed score |
| TrainBacktest.MissingAwayGoalsLabelDisagrees | train_backtest.py:14-16 | a row with home goals but no away goals is a tie (0.5) to the Elo tracker but an away win (0) to the soccer label |
| TrainBacktest.InsertSeason | train_backtest.py:22 | inserting a season keeps the list strictly increasing, with that season added |
| TrainBacktest.SortedSeasons | train_backtest.py:22 | the distinct seasons in strictly increasing order, and exactly those of the column |
| TrainBacktest.WalkForward | train_backtest.py:21-24 | with n distinct seasons there are n − 1 folds, and none when n ≤ 1 |
| TrainBacktest.FoldAt | train_backtest.py:22-24 | fold i exists only below the last season and trains on the first i + 1 distinct seasons and tests on season i + 1 alone |
| TrainBacktest.NoLookahead | train_backtest.py:22-24 | each fold tests one season of the column; every training season is strictly earlier and none equals it |
| TrainBacktest.TrainingSetsAreNested | train_backtest.py:23-24 | each fold's training seasons are the previous fold's plus the previous test season |
| TrainBacktest.EachLaterSeasonInOneTestFold | train_backtest.py:22-24 | every season but the earliest is the test season of exactly one fold |
| LivePaper.CandidateOf | live_paper.py:27-29 | a candidate built from a live row keeps its date, teams, odds, probability vector and kill-switch answer, and the implied probability of each outcome of the sport is `ImpliedProbability` of that outcome's odds |
| LivePaper.ProbIndex | live_paper.py:44-46 | the probability column read for an outcome (soccer home 2, draw 1, away 0; hockey home 1, away 0) lies within the sport's probability vector |
| LivePaper.Implied | live_paper.py:44-46 | defines the implied probability read for an outcome: the home, draw or away implied column |
| LivePaper.OddsOf | live_paper.py:51 | defines the odds read for the picked outcome: the home, draw or away odds column |
| LivePaper.Edge | live_paper.py:43-47 | defines an outcome's edge as the model probability in that outcome's column minus its raw implied probability |
| LivePaper.ProbIndexMatchesTargets | live_paper.py:43-46 | the columns read are the class labels: soccer home 2, draw 1, away 0; hockey home 1, away 0 |
| LivePaper.PickSoccer | live_paper.py:43-49 | the pick's edge is maximal, and an outcome later in home, draw, away order is picked only when its edge beats every earlier one strictly |
| LivePaper.PickHockey | live_paper.py:97-102 | the pick's edge is maximal and a tie goes home |
| LivePaper.Pick | live_paper.py:43-51 | the pick is the soccer pick for soccer and the hockey pick for hockey, and always an outcome the sport offers (never a hockey draw) |
| LivePaper.RoundCents | live_paper.py:67 | the result is within half a cent of the input and is a whole number of cents |
| LivePaper.FlatStake | live_paper.py:59-67 | the stake is within half a cent of bankroll × MAX_BET_PCT and is a whole number of cents |
| LivePaper.RoundCentsKeepsCents | live_paper.py:67 | an amount already in whole cents is unchanged |
| LivePaper.RoundCentsHalfToEven | live_paper.py:67 | 0.125 rounds to 0.12 and 0.375 to 0.38 |
| LivePaper.Decide | live_paper.py:36-70 | halts iff the kill switch is set; otherwise the rejection reason is the first failing guard in the order allowlist, edge, odds, daily limits; it accepts iff all pass, with a suggestion carrying the pick, its odds, its raw edge and the flat stake |
| LivePaper.Run | live_paper.py:34-72 | the bet count after a pass is the count before it plus the number of suggestions |
| LivePaper.SuggestBets | live_paper.py:34-72 | the loop's suggestions and the state's new bet count are those of `Run` over the candidates from the state's old count; the same method is the hockey loop (live_paper.py lines 88-125) with the hockey pick |
| LivePaper.RunSession | live_paper.py:127-143 | both passes share one state starting at zero bets with the start bankroll; together they emit at most MAX_BETS_PER_DAY suggestions (none if it is negative), each with the flat stake |
| LivePaper.RunSuggestionsAdmissible | live_paper.py:40-68 | every suggestion clears the edge threshold and the inclusive odds band, has both teams on a non-empty allowlist, carries the flat stake, and describes some candidate: its pick, that pick's odds, and probs[pick] − implied[pick] |
| LivePaper.RunRespectsLimit | live_paper.py:56-70 | a pass that starts at or below the daily maximum ends at or below it; one that starts above it adds nothing |
| LivePaper.RunStopsAtKillSwitch | live_paper.py:36-38 | if candidate j finds the kill switch set, the pass equals the pass over candidates before j, suggestions and bet count alike |
| LivePaper.RunConcatenates | live_paper.py:35-70 | a pass over two runs of candidates, with no kill switch in the first, is the first run's suggestions followed by the second's, so suggestions keep candidate order |
| LivePaper.RejectedCandidateChangesNothing | live_paper.py:40-57 | a vetoed candidate adds no suggestion and leaves the bet count unchanged |
| LivePaper.LossGuardInertAtStartBankroll | live_paper.py:56-57 | with the bankroll at the start bankroll and a positive loss limit, the daily guard rejects only for the count |
| LivePaper.AllowlistVetoComesFirst | live_paper.py:40-41 | with the allowlist {A, B}, a match involving C is rejected as not allowed, whatever its edge |
| LivePaper.DefaultSoccerExample | live_paper.py:43-68 | with the defaults, home odds 2.00 and home probability 0.60 give one home suggestion with edge 0.10 and stake 10.00 |
| LivePaper.LiveRows | live_paper.py:22-27 | the rows taken are as many as the live rows |
| Features.SortSplits | features.py:18 | when every row of one block is dated before every row of another, sorting the two blocks together gives the sorted first block followed by the sorted second |
| LivePaper.LiveRowsWhenLiveSortsLast | live_paper.py:22-27 | when every live row is dated after every historical row, the rows taken are exactly the live rows, in date order |
| LivePaper.LiveRowsCanMissLiveRows | live_paper.py:27 | a live row dated before a historical one yields the historical row instead |

## Left out

- **Model loading, fitting and prediction.** `XGBClassifier` loading, fitting and `predict_proba` are foreign library calls. The model's probability vector is an input field of each candidate.
- **Metrics and file output.** `log_loss`, the report CSV, model saving, `ensure_dirs` and every `print` are left out.
- **Training orchestration.** `train_soccer`, `train_hockey` and `ModelConfig` hold training hyperparameters only.
- **pandas I/O and reshaping.** This covers `read_csv`, `concat`, the date string conversion, `apply` and `tail`. Rows are sequences of records and dates are ordered integers. The `tail` selection is `LiveRows`.
- **Kill switch.** `kill_switch_active` checks whether a file exists. It is replaced by a boolean per candidate: the answer the check would give at that candidate's turn.
- **`date.today()`** is a parameter of `RunSession`.
- **Unused configuration flags.** `ALERTS_ONLY`, `ALLOW_SOCCER_1X2` and `ALLOW_HOCKEY_ML` are never read by the modelled code. `KILL_SWITCH_PATH` belongs to the file check above.
- **The match label string.** The `"home vs away"` field of a suggestion is kept as the two team names.
- Features.ImpliedProbability: requires non-zero odds. In floating point, dividing a column by zero odds gives infinity. The model does not carry infinities.
- **Win expectancy.** The logistic formula with `10 **` is not modelled. It is a parameter of `EloParams`, and only the two facts in `IsWinExpectancy` are assumed about it.
- LivePaper.RoundCents: rounds exact reals, not binary floats. A value such as 0.135 is not exactly representable in floating point, so Python can round it differently.
- **Sort stability.** `sort_values` uses an unstable sort by default, so rows with equal dates may come out in any order. The model sorts stably. The theorems about the sort (sorted, permutation) hold for any order of equal dates. The per-row elo_diff values depend on the order chosen.
- **Missing away goals.** A row with home goals but a missing away goals value compares as neither greater nor less. It therefore falls into the tie branch, and the model does the same (`ScoreHome` with `None`). The training labels treat the same row as an away win; `MissingAwayGoalsLabelDisagrees` states the mismatch.
- **Mis-selected live rows.** When a live row does not sort after every historical row, the source silently takes the wrong rows. The model states the ordering as the precondition of `LiveRowsWhenLiveSortsLast` and exhibits the failure in `LiveRowsCanMissLiveRows`.
- **Probability vector length.** The vector is required to have one entry per class (3 for soccer, 2 for hockey; `ProbsFit`). That is what the trained classifiers return.
