/** The training labels and the walk-forward season split of
    train_backtest.py. */
module TrainBacktest {
  import opened Common
  import Features

  /** The soccer class label: 2 for a home win, 1 for a draw, 0 otherwise.
      A missing score compares false both ways, so it falls through to 0,
      the away-win label. */
  function SoccerTarget(homeGoals: Option<int>, awayGoals: Option<int>): (target: nat)
    ensures target <= 2
    ensures homeGoals.None? || awayGoals.None? ==> target == 0
    ensures homeGoals.Some? && awayGoals.Some? ==>
      && (target == 2 <==> homeGoals.value > awayGoals.value)
      && (target == 1 <==> homeGoals.value == awayGoals.value)
      && (target == 0 <==> homeGoals.value < awayGoals.value)
  {
    match (homeGoals, awayGoals)
    case (Some(h), Some(a)) => if h > a then 2 else if h == a then 1 else 0
    case _ => 0
  }

  /** The hockey class label: 1 only for a home win, so a tie or a missing
      score is 0. */
  function HockeyTarget(homeGoals: Option<int>, awayGoals: Option<int>): (target: nat)
    ensures target <= 1
    ensures target == 1 <==> homeGoals.Some? && awayGoals.Some? && homeGoals.value > awayGoals.value
  {
    match (homeGoals, awayGoals)
    case (Some(h), Some(a)) => if h > a then 1 else 0
    case _ => 0
  }

  /** For a fully scored row the labels agree with the Elo tracker's observed
      home score: the soccer label is twice the score with draws allowed, the
      hockey label is the score with draws disallowed. */
  lemma TargetsMatchEloScore(homeGoals: int, awayGoals: int)
    ensures Features.ScoreHome(homeGoals, Some(awayGoals), true) == SoccerTarget(Some(homeGoals), Some(awayGoals)) as real / 2.0
    ensures Features.ScoreHome(homeGoals, Some(awayGoals), false) == HockeyTarget(Some(homeGoals), Some(awayGoals)) as real
  {
  }

  /** A row with home goals but no away goals is a tie to the Elo tracker
      (0.5 with draws allowed) but an away win to the soccer label. */
  lemma MissingAwayGoalsLabelDisagrees(homeGoals: int)
    ensures Features.ScoreHome(homeGoals, None, true) == 0.5
    ensures SoccerTarget(Some(homeGoals), None) == 0
  {
  }

  // ---------------------------------------------------------------------
  // Walk-forward split
  // ---------------------------------------------------------------------

  predicate StrictlyIncreasing(s: seq<int>)
  {
    forall i, j :: 0 <= i < j < |s| ==> s[i] < s[j]
  }

  /** Adds `x` to a strictly increasing list unless it is already there. */
  function InsertSeason(x: int, u: seq<int>): (r: seq<int>)
    requires StrictlyIncreasing(u)
    ensures StrictlyIncreasing(r)
    ensures forall y :: y in r <==> y == x || y in u
  {
    if u == [] then [x]
    else if x < u[0] then [x] + u
    else if x == u[0] then u
    else
      var rest := InsertSeason(x, u[1..]);
      var r := [u[0]] + rest;
      assert StrictlyIncreasing(r) by {
        forall i, j | 0 <= i < j < |r| ensures r[i] < r[j] {
          assert r[j] == rest[j - 1] && rest[j - 1] in rest;
          if i > 0 {
            assert r[i] == rest[i - 1];
          }
        }
      }
      r
  }

  /** The distinct seasons of a season column, in ascending order. */
  function SortedSeasons(column: seq<int>): (u: seq<int>)
    ensures StrictlyIncreasing(u)
    ensures forall y :: y in u <==> y in column
  {
    if column == [] then []
    else InsertSeason(column[0], SortedSeasons(column[1..]))
  }

  /** One walk-forward fold: the seasons to train on and the season to test on. */
  datatype Fold = Fold(train: seq<int>, test: seq<int>)

  /** Fold i trains on the first i + 1 seasons and tests on the next one.
      With n distinct seasons there are n - 1 folds, none for n <= 1. */
  function WalkForward(column: seq<int>): (folds: seq<Fold>)
    ensures var n := |SortedSeasons(column)|;
      |folds| == if n <= 1 then 0 else n - 1
  {
    var seasons := SortedSeasons(column);
    if |seasons| <= 1 then []
    else seq(|seasons| - 1, i requires 0 <= i < |seasons| - 1 => Fold(seasons[..i + 1], [seasons[i + 1]]))
  }

  lemma FoldAt(column: seq<int>, i: nat)
    requires i < |WalkForward(column)|
    ensures i + 1 < |SortedSeasons(column)|
    ensures var seasons := SortedSeasons(column);
      WalkForward(column)[i] == Fold(seasons[..i + 1], [seasons[i + 1]])
  {
  }

  /** Fold i tests on exactly one season, every training season is strictly
      earlier than it, and it never appears in training. */
  lemma NoLookahead(column: seq<int>, i: nat)
    requires i < |WalkForward(column)|
    ensures var f := WalkForward(column)[i];
      && |f.test| == 1
      && f.test[0] in column
      && (forall s :: s in f.train ==> s < f.test[0] && s in column)
      && f.test[0] !in f.train
  {
    var seasons := SortedSeasons(column);
    FoldAt(column, i);
    var f := WalkForward(column)[i];
    assert seasons[i + 1] in seasons;
    forall s | s in f.train
      ensures s < f.test[0] && s in column
    {
      var k :| 0 <= k <= i && seasons[k] == s;
      assert seasons[k] in seasons;
    }
  }

  /** Training sets grow one season at a time: each fold's training seasons
      are the previous fold's plus the previous fold's test season. */
  lemma TrainingSetsAreNested(column: seq<int>, i: nat)
    requires i + 1 < |WalkForward(column)|
    ensures var folds := WalkForward(column);
      folds[i + 1].train == folds[i].train + folds[i].test
  {
    var seasons := SortedSeasons(column);
    var folds := WalkForward(column);
    FoldAt(column, i);
    FoldAt(column, i + 1);
    assert folds[i].train + folds[i].test == seasons[..i + 1] + [seasons[i + 1]];
    assert seasons[..i + 2] == seasons[..i + 1] + [seasons[i + 1]];
  }

  /** Every season but the earliest is the test season of exactly one fold. */
  lemma EachLaterSeasonInOneTestFold(column: seq<int>, s: int)
    requires s in column
    ensures var folds := WalkForward(column);
      s != SortedSeasons(column)[0] ==>
        exists i :: 0 <= i < |folds| && folds[i].test == [s]
             && forall j :: 0 <= j < |folds| && j != i ==> folds[j].test != [s]
  {
    var seasons := SortedSeasons(column);
    var folds := WalkForward(column);
    if s != seasons[0] {
      assert s in seasons;
      var k :| 0 <= k < |seasons| && seasons[k] == s;
      assert k > 0;
      FoldAt(column, k - 1);
      forall j | 0 <= j < |folds| && j != k - 1
        ensures folds[j].test != [s]
      {
        FoldAt(column, j);
        assert seasons[j + 1] != seasons[k];
      }
    }
  }
}
