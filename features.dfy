/** The feature arithmetic of features.py: the sequential Elo tracker, the
    injury and goalie side-table lookups and the per-match feature rows. */
module Features {
  import opened Common

  /** One row of match data. Historical rows carry the final score; live
      candidate rows leave it out. */
  datatype Match = Match(
    date: Date, season: int, home: Team, away: Team,
    homeOdds: real, drawOdds: real, awayOdds: real,
    homeRest: real, awayRest: real,
    homeGoals: Option<int>, awayGoals: Option<int>)

  // ---------------------------------------------------------------------
  // Sorting by date (the first step of the Elo builder)
  // ---------------------------------------------------------------------

  predicate SortedByDate(rows: seq<Match>)
  {
    forall i, j :: 0 <= i < j < |rows| ==> rows[i].date <= rows[j].date
  }

  /** Puts `m` in front of the first row that is not earlier than it. */
  function InsertByDate(m: Match, rows: seq<Match>): (r: seq<Match>)
    ensures |r| == |rows| + 1
  {
    if rows == [] || m.date <= rows[0].date then [m] + rows
    else [rows[0]] + InsertByDate(m, rows[1..])
  }

  /** Insertion adds exactly the one row and loses none. */
  lemma {:induction false} InsertAddsRow(m: Match, rows: seq<Match>)
    ensures multiset(InsertByDate(m, rows)) == multiset(rows) + multiset{m}
  {
    if rows == [] || m.date <= rows[0].date {
      assert multiset([m] + rows) == multiset{m} + multiset(rows);
    } else {
      var rest := InsertByDate(m, rows[1..]);
      InsertAddsRow(m, rows[1..]);
      assert rows == [rows[0]] + rows[1..];
      assert multiset(rows) == multiset{rows[0]} + multiset(rows[1..]);
      assert multiset([rows[0]] + rest) == multiset{rows[0]} + multiset(rest);
    }
  }

  /** Past a row earlier than `m`, insertion keeps that row first. */
  lemma InsertPastFirst(m: Match, rows: seq<Match>)
    requires rows != [] && m.date > rows[0].date
    ensures InsertByDate(m, rows) == [rows[0]] + InsertByDate(m, rows[1..])
  {
  }

  /** Inserting into date-sorted rows keeps them sorted. */
  lemma {:induction false} InsertKeepsSorted(m: Match, rows: seq<Match>)
    requires SortedByDate(rows)
    ensures SortedByDate(InsertByDate(m, rows))
  {
    if rows != [] && m.date > rows[0].date {
      SortedTail(rows);
      InsertKeepsSorted(m, rows[1..]);
      InsertAddsRow(m, rows[1..]);
      InsertedRowsNotEarlier(rows, m, InsertByDate(m, rows[1..]));
    } else {
      var r := [m] + rows;
      forall i, j | 0 <= i < j < |r| ensures r[i].date <= r[j].date {
        if i == 0 {
          assert r[j] == rows[j - 1] && rows[0].date <= rows[j - 1].date;
        } else {
          assert r[i] == rows[i - 1] && r[j] == rows[j - 1];
        }
      }
    }
  }

  lemma SortedTail(rows: seq<Match>)
    requires rows != [] && SortedByDate(rows)
    ensures SortedByDate(rows[1..])
  {
    var tail := rows[1..];
    forall i, j | 0 <= i < j < |tail| ensures tail[i].date <= tail[j].date {
      assert tail[i] == rows[i + 1] && tail[j] == rows[j + 1];
    }
  }

  /** Every row of `rest` is a later row of `rows` or `m`, so none is earlier
      than the first row of `rows`. */
  lemma InsertedRowsNotEarlier(rows: seq<Match>, m: Match, rest: seq<Match>)
    requires rows != [] && rows[0].date < m.date && SortedByDate(rows)
    requires SortedByDate(rest) && multiset(rest) == multiset(rows[1..]) + multiset{m}
    ensures SortedByDate([rows[0]] + rest)
  {
    var first := rows[0];
    forall x | x in rest ensures first.date <= x.date {
      assert x in multiset(rest);
      if x != m {
        assert x in multiset(rows[1..]);
        var k :| 0 <= k < |rows[1..]| && rows[1..][k] == x;
        assert rows[k + 1] == x;
      }
    }
    var r := [first] + rest;
    forall i, j | 0 <= i < j < |r| ensures r[i].date <= r[j].date {
      if i == 0 {
        assert r[j] == rest[j - 1] && rest[j - 1] in rest;
      } else {
        assert r[i] == rest[i - 1] && r[j] == rest[j - 1];
      }
    }
  }

  /** The rows ordered by date; rows of the same date keep their input order. */
  function SortByDate(rows: seq<Match>): (r: seq<Match>)
    ensures SortedByDate(r)
    ensures multiset(r) == multiset(rows)
    ensures |r| == |rows|
  {
    if rows == [] then []
    else
      assert rows == [rows[0]] + rows[1..];
      InsertKeepsSorted(rows[0], SortByDate(rows[1..]));
      InsertAddsRow(rows[0], SortByDate(rows[1..]));
      InsertByDate(rows[0], SortByDate(rows[1..]))
  }

  /** When every row of `a` is dated before every row of `b`, sorting the
      two together sorts each on its own and puts `a` first. */
  lemma {:induction false} SortSplits(a: seq<Match>, b: seq<Match>)
    requires forall x, y :: x in a && y in b ==> x.date < y.date
    ensures SortByDate(a + b) == SortByDate(a) + SortByDate(b)
  {
    if a == [] {
      assert a + b == b;
    } else {
      var ab := a + b;
      assert ab[0] == a[0] && ab[1..] == a[1..] + b;
      forall x, y | x in a[1..] && y in b ensures x.date < y.date {
        assert x in a;
      }
      SortSplits(a[1..], b);
      var sa, sb := SortByDate(a[1..]), SortByDate(b);
      assert SortByDate(ab) == InsertByDate(a[0], sa + sb);
      assert SortByDate(a) == InsertByDate(a[0], sa);
      SortKeepsMembers(b);
      assert a[0] in a;
      InsertBeforeLater(a[0], sa, sb);
    }
  }

  lemma SortKeepsMembers(rows: seq<Match>)
    ensures forall y :: y in SortByDate(rows) <==> y in rows
  {
    var sorted := SortByDate(rows);
    forall y ensures y in sorted <==> y in rows {
      assert y in sorted <==> y in multiset(sorted);
      assert y in rows <==> y in multiset(rows);
    }
  }

  /** Inserting a row that is earlier than every row of `q` never reaches `q`. */
  lemma {:induction false} InsertBeforeLater(m: Match, p: seq<Match>, q: seq<Match>)
    requires forall y :: y in q ==> m.date < y.date
    ensures InsertByDate(m, p + q) == InsertByDate(m, p) + q
  {
    if p == [] {
      assert p + q == q;
      InsertBeforeAll(m, q);
    } else if m.date <= p[0].date {
      InsertAtHead(m, p, q);
    } else {
      InsertBeforeLater(m, p[1..], q);
      InsertPastHead(m, p, q);
    }
  }

  lemma InsertBeforeAll(m: Match, q: seq<Match>)
    requires forall y :: y in q ==> m.date < y.date
    ensures InsertByDate(m, q) == [m] + q
  {
    if q != [] {
      assert q[0] in q;
    }
  }

  lemma InsertAtHead(m: Match, p: seq<Match>, q: seq<Match>)
    requires p != [] && m.date <= p[0].date
    ensures InsertByDate(m, p + q) == InsertByDate(m, p) + q
  {
    assert (p + q)[0] == p[0];
    assert [m] + (p + q) == ([m] + p) + q;
  }

  lemma InsertPastHead(m: Match, p: seq<Match>, q: seq<Match>)
    requires p != [] && m.date > p[0].date
    requires InsertByDate(m, p[1..] + q) == InsertByDate(m, p[1..]) + q
    ensures InsertByDate(m, p + q) == InsertByDate(m, p) + q
  {
    var pq := p + q;
    assert pq[0] == p[0] && pq[1..] == p[1..] + q;
    InsertPastFirst(m, pq);
    InsertPastFirst(m, p);
    ConsAppend(p[0], InsertByDate(m, p[1..]), q);
  }

  lemma ConsAppend<T>(h: T, s: seq<T>, q: seq<T>)
    ensures [h] + (s + q) == ([h] + s) + q
  {
  }

  // ---------------------------------------------------------------------
  // The Elo tracker
  // ---------------------------------------------------------------------

  const InitialRating: real := 1500.0

  /** The tracker's parameters: the K-factor, whether a tie scores as a
      half, and the win expectancy of a rating pair (a logistic function of
      the rating difference with base-400 scaling in the source). */
  datatype EloParams = EloParams(k: real, allowDraws: bool, expected: (real, real) -> real)

  /** The only facts assumed about the win expectancy: it lies strictly
      between 0 and 1, and two equal ratings expect a half. */
  ghost predicate IsWinExpectancy(f: (real, real) -> real)
  {
    && (forall a, b :: 0.0 < f(a, b) < 1.0)
    && (forall a :: f(a, a) == 0.5)
  }

  /** The rating of `t`, or the initial rating of a team not yet seen. */
  function Rating(ratings: map<Team, real>, t: Team): real
  {
    if t in ratings then ratings[t] else InitialRating
  }

  /** The home side's observed score. A missing away score compares as
      neither greater nor smaller, which lands in the tie branch. */
  function ScoreHome(homeGoals: int, awayGoals: Option<int>, allowDraws: bool): (s: real)
    ensures awayGoals.Some? && homeGoals > awayGoals.value ==> s == 1.0
    ensures awayGoals.Some? && homeGoals < awayGoals.value ==> s == 0.0
    ensures (awayGoals.None? || homeGoals == awayGoals.value) ==> s == (if allowDraws then 0.5 else 0.0)
  {
    match awayGoals
    case Some(ag) =>
      if homeGoals > ag then 1.0
      else if homeGoals < ag then 0.0
      else if allowDraws then 0.5 else 0.0
    case None => if allowDraws then 0.5 else 0.0
  }

  /** The ratings after one row: unchanged for an unscored row, otherwise
      the home team moves by K times (score - expectation) and the away team
      by K times its complementary surprise. The away update reads the
      already-updated map, as the source does. */
  function Step(ratings: map<Team, real>, row: Match, p: EloParams): map<Team, real>
  {
    if row.homeGoals.None? then ratings
    else
      var s := ScoreHome(row.homeGoals.value, row.awayGoals, p.allowDraws);
      var eh := p.expected(Rating(ratings, row.home), Rating(ratings, row.away));
      var afterHome := ratings[row.home := Rating(ratings, row.home) + HomeChange(p.k, s, eh)];
      afterHome[row.away := Rating(afterHome, row.away) + AwayChange(p.k, s, eh)]
  }

  /** K times the home side's surprise. */
  function HomeChange(k: real, score: real, expectation: real): real
  {
    k * (score - expectation)
  }

  /** K times the away side's surprise, scored and expected as the
      complements of the home side's. */
  function AwayChange(k: real, score: real, expectation: real): (d: real)
    ensures d == -HomeChange(k, score, expectation)
  {
    k * ((1.0 - score) - (1.0 - expectation))
  }

  /** The ratings after processing `rows` in order from the table `start`. */
  function ReplayFrom(start: map<Team, real>, rows: seq<Match>, p: EloParams): map<Team, real>
  {
    if rows == [] then start
    else Step(ReplayFrom(start, rows[..|rows| - 1], p), rows[|rows| - 1], p)
  }

  /** The ratings after processing `rows` in order, every team starting at
      the initial rating. */
  function Replay(rows: seq<Match>, p: EloParams): map<Team, real>
  {
    ReplayFrom(map[], rows, p)
  }

  /** The `elo_diff` of row i: home minus away rating as they stood before
      row i's own result was applied. */
  function EloDiffAt(rows: seq<Match>, i: nat, p: EloParams): real
    requires i < |rows|
  {
    var before := Replay(rows[..i], p);
    Rating(before, rows[i].home) - Rating(before, rows[i].away)
  }

  function TeamsOf(rows: seq<Match>): set<Team>
  {
    (set r | r in rows :: r.home) + (set r | r in rows :: r.away)
  }

  /** Sorts the rows by date and walks them once, recording both teams'
      pre-match ratings and then applying the zero-sum update of scored rows. */
  method BuildEloSequential(rows: seq<Match>, p: EloParams) returns (sorted: seq<Match>, eloDiff: seq<real>)
    ensures SortedByDate(sorted) && multiset(sorted) == multiset(rows)
    ensures sorted == SortByDate(rows)
    ensures |eloDiff| == |sorted|
    ensures forall i :: 0 <= i < |sorted| ==> eloDiff[i] == EloDiffAt(sorted, i, p)
  {
    sorted := SortByDate(rows);
    var teams := TeamsOf(sorted);
    var elo := map t | t in teams :: InitialRating;
    ghost var init := elo;
    var homeElo, awayElo := [], [];
    for i := 0 to |sorted|
      invariant EloLoopInvariant(init, sorted, p, i, elo, homeElo, awayElo)
    {
      var r := sorted[i];
      var h, a := r.home, r.away;
      ghost var before, homeBefore, awayBefore := elo, homeElo, awayElo;
      homeElo := homeElo + [Rating(elo, h)];
      awayElo := awayElo + [Rating(elo, a)];
      if r.homeGoals.Some? {
        EloKeysCoverRow(init, sorted, p, i, elo);
        elo := RecordResult(elo, r, p);
      }
      EloLoopStep(init, sorted, p, i, before, elo, homeBefore, awayBefore);
    }
    eloDiff := seq(|sorted|, j requires 0 <= j < |sorted| => homeElo[j] - awayElo[j]);
  }

  /** The loop state after i rows: the table holds the initial teams and is
      the replay of those rows, and both lists hold one pre-match rating per
      row, whose differences are the elo_diffs. */
  ghost predicate EloLoopInvariant(init: map<Team, real>, sorted: seq<Match>, p: EloParams, i: nat,
                                   elo: map<Team, real>, homeElo: seq<real>, awayElo: seq<real>)
  {
    && (forall t :: Rating(init, t) == InitialRating)
    && i <= |sorted|
    && elo.Keys == TeamsOf(sorted)
    && elo == ReplayFrom(init, sorted[..i], p)
    && |homeElo| == |awayElo| == i
    && forall j :: 0 <= j < i ==> homeElo[j] - awayElo[j] == EloDiffAt(sorted, j, p)
  }

  lemma EloKeysCoverRow(init: map<Team, real>, sorted: seq<Match>, p: EloParams, i: nat, elo: map<Team, real>)
    requires i < |sorted|
    requires elo.Keys == TeamsOf(sorted)
    ensures sorted[i].home in elo && sorted[i].away in elo
  {
    assert sorted[i] in sorted;
  }

  /** One turn of the loop keeps the invariant. */
  lemma EloLoopStep(init: map<Team, real>, sorted: seq<Match>, p: EloParams, i: nat,
                    before: map<Team, real>, elo: map<Team, real>, homeElo: seq<real>, awayElo: seq<real>)
    requires i < |sorted|
    requires EloLoopInvariant(init, sorted, p, i, before, homeElo, awayElo)
    requires sorted[i].homeGoals.Some? ==> elo == Step(before, sorted[i], p) && elo.Keys == before.Keys
    requires sorted[i].homeGoals.None? ==> elo == before
    ensures EloLoopInvariant(init, sorted, p, i + 1, elo,
                             homeElo + [Rating(before, sorted[i].home)], awayElo + [Rating(before, sorted[i].away)])
  {
    PreMatchDiff(init, sorted, i, p);
    ReplayFromExtend(init, sorted, i, p);
    var homeAfter := homeElo + [Rating(before, sorted[i].home)];
    var awayAfter := awayElo + [Rating(before, sorted[i].away)];
    forall j | 0 <= j < i + 1
      ensures homeAfter[j] - awayAfter[j] == EloDiffAt(sorted, j, p)
    {
      if j < i {
        assert homeAfter[j] == homeElo[j] && awayAfter[j] == awayElo[j];
      }
    }
  }

  /** Replaying from a table that rates everyone at the initial rating gives
      the same pre-match difference as replaying from the empty table. */
  lemma PreMatchDiff(init: map<Team, real>, rows: seq<Match>, i: nat, p: EloParams)
    requires i < |rows|
    requires forall t :: Rating(init, t) == InitialRating
    ensures var before := ReplayFrom(init, rows[..i], p);
      Rating(before, rows[i].home) - Rating(before, rows[i].away) == EloDiffAt(rows, i, p)
  {
    ReplayFromAgrees(init, map[], rows[..i], p);
  }

  lemma ReplayFromExtend(start: map<Team, real>, rows: seq<Match>, i: nat, p: EloParams)
    requires i < |rows|
    ensures ReplayFrom(start, rows[..i + 1], p) == Step(ReplayFrom(start, rows[..i], p), rows[i], p)
  {
    assert rows[..i + 1][..i] == rows[..i];
  }

  /** The update of one scored row: the home rating moves by K times the
      home surprise, then the away rating by K times the away surprise. */
  method RecordResult(elo: map<Team, real>, r: Match, p: EloParams) returns (updated: map<Team, real>)
    requires r.homeGoals.Some? && r.home in elo && r.away in elo
    ensures updated == Step(elo, r, p)
    ensures updated.Keys == elo.Keys
  {
    var h, a := r.home, r.away;
    var scoreH := ScoreHome(r.homeGoals.value, r.awayGoals, p.allowDraws);
    var eh := p.expected(elo[h], elo[a]);
    updated := elo[h := elo[h] + HomeChange(p.k, scoreH, eh)];
    updated := updated[a := updated[a] + AwayChange(p.k, scoreH, eh)];
  }

  /** Replaying the same rows from two tables that agree on every team gives
      tables that still agree on every team. */
  lemma {:induction false} ReplayFromAgrees(m1: map<Team, real>, m2: map<Team, real>, rows: seq<Match>, p: EloParams)
    requires forall t :: Rating(m1, t) == Rating(m2, t)
    ensures forall t :: Rating(ReplayFrom(m1, rows, p), t) == Rating(ReplayFrom(m2, rows, p), t)
  {
    if rows != [] {
      var init := rows[..|rows| - 1];
      ReplayFromAgrees(m1, m2, init, p);
      StepPointwise(ReplayFrom(m1, init, p), ReplayFrom(m2, init, p), rows[|rows| - 1], p);
    }
  }

  /** Two rating tables that agree on every team still agree after a step. */
  lemma StepPointwise(m1: map<Team, real>, m2: map<Team, real>, row: Match, p: EloParams)
    requires forall t :: Rating(m1, t) == Rating(m2, t)
    ensures forall t :: Rating(Step(m1, row, p), t) == Rating(Step(m2, row, p), t)
  {
    assert Rating(m1, row.home) == Rating(m2, row.home);
    assert Rating(m1, row.away) == Rating(m2, row.away);
    forall t ensures Rating(Step(m1, row, p), t) == Rating(Step(m2, row, p), t) {
      assert Rating(m1, t) == Rating(m2, t);
      if row.homeGoals.Some? {
        var s := ScoreHome(row.homeGoals.value, row.awayGoals, p.allowDraws);
        var eh := p.expected(Rating(m1, row.home), Rating(m1, row.away));
        var h1 := m1[row.home := Rating(m1, row.home) + HomeChange(p.k, s, eh)];
        var h2 := m2[row.home := Rating(m2, row.home) + HomeChange(p.k, s, eh)];
        assert Rating(h1, row.away) == Rating(h2, row.away);
        assert Rating(h1, t) == Rating(h2, t);
      }
    }
  }

  // --- properties of the tracker ---------------------------------------

  /** A team that has played none of the rows still has the initial rating. */
  lemma {:induction false} UnseenTeamHasInitialRating(rows: seq<Match>, p: EloParams, t: Team)
    requires forall r :: r in rows ==> r.home != t && r.away != t
    ensures Rating(Replay(rows, p), t) == InitialRating
  {
    if rows != [] {
      var init := rows[..|rows| - 1];
      assert forall r :: r in init ==> r in rows;
      UnseenTeamHasInitialRating(init, p, t);
    }
  }

  /** Rows without a score leave every rating unchanged. */
  lemma {:induction false} UnscoredRowsKeepRatings(played: seq<Match>, live: seq<Match>, p: EloParams)
    requires forall r :: r in live ==> r.homeGoals.None?
    ensures Replay(played + live, p) == Replay(played, p)
  {
    if live != [] {
      var shorter := live[..|live| - 1];
      assert (played + live)[..|played + live| - 1] == played + shorter;
      assert (played + live)[|played + live| - 1] == live[|live| - 1] && live[|live| - 1] in live;
      assert forall r :: r in shorter ==> r in live;
      UnscoredRowsKeepRatings(played, shorter, p);
      calc {
        Replay(played + live, p);
        Step(Replay(played + shorter, p), live[|live| - 1], p);
        Replay(played + shorter, p);
      }
    } else {
      assert played + live == played;
    }
  }

  /** A row's elo_diff depends only on the rows before it and on its own two
      teams: in particular, not on its own score, nor on any later row. */
  lemma EloDiffIsCausal(rows1: seq<Match>, rows2: seq<Match>, i: nat, p: EloParams)
    requires i < |rows1| && i < |rows2|
    requires rows1[..i] == rows2[..i]
    requires rows1[i].home == rows2[i].home && rows1[i].away == rows2[i].away
    ensures EloDiffAt(rows1, i, p) == EloDiffAt(rows2, i, p)
  {
  }

  /** Filling in or blanking row i's score changes none of the elo_diffs up
      to and including row i. */
  lemma EloDiffIgnoresOwnScore(rows: seq<Match>, i: nat, hg: Option<int>, ag: Option<int>, p: EloParams)
    requires i < |rows|
    ensures var other := rows[i := rows[i].(homeGoals := hg, awayGoals := ag)];
      forall j :: 0 <= j <= i ==> EloDiffAt(other, j, p) == EloDiffAt(rows, j, p)
  {
    var other := rows[i := rows[i].(homeGoals := hg, awayGoals := ag)];
    forall j | 0 <= j <= i
      ensures EloDiffAt(other, j, p) == EloDiffAt(rows, j, p)
    {
      assert other[..j] == rows[..j];
      EloDiffIsCausal(other, rows, j, p);
    }
  }

  /** Two row lists that hold the same matches, position by position, and
      may differ only in their goals. */
  predicate SameButGoals(a: seq<Match>, b: seq<Match>)
  {
    |a| == |b| && forall k :: 0 <= k < |a| ==> b[k] == a[k].(homeGoals := b[k].homeGoals, awayGoals := b[k].awayGoals)
  }

  /** Insertion looks only at dates, so rows that differ only in goals are
      inserted at the same place. */
  lemma {:induction false} InsertIgnoresGoals(m1: Match, m2: Match, a: seq<Match>, b: seq<Match>)
    requires m2 == m1.(homeGoals := m2.homeGoals, awayGoals := m2.awayGoals)
    requires SameButGoals(a, b)
    ensures SameButGoals(InsertByDate(m1, a), InsertByDate(m2, b))
  {
    if a != [] && m1.date > a[0].date {
      assert SameButGoals(a[1..], b[1..]) by {
        forall k | 0 <= k < |a[1..]|
          ensures b[1..][k] == a[1..][k].(homeGoals := b[1..][k].homeGoals, awayGoals := b[1..][k].awayGoals)
        {
          assert a[1..][k] == a[k + 1] && b[1..][k] == b[k + 1];
        }
      }
      InsertIgnoresGoals(m1, m2, a[1..], b[1..]);
      InsertPastFirst(m1, a);
      InsertPastFirst(m2, b);
    }
  }

  /** Sorting looks only at dates: rows that differ only in goals sort into
      the same positions. */
  lemma {:induction false} SortIgnoresGoals(a: seq<Match>, b: seq<Match>)
    requires SameButGoals(a, b)
    ensures SameButGoals(SortByDate(a), SortByDate(b))
  {
    if a != [] {
      assert SameButGoals(a[1..], b[1..]) by {
        forall k | 0 <= k < |a[1..]|
          ensures b[1..][k] == a[1..][k].(homeGoals := b[1..][k].homeGoals, awayGoals := b[1..][k].awayGoals)
        {
          assert a[1..][k] == a[k + 1] && b[1..][k] == b[k + 1];
        }
      }
      SortIgnoresGoals(a[1..], b[1..]);
      InsertIgnoresGoals(a[0], b[0], SortByDate(a[1..]), SortByDate(b[1..]));
    }
  }

  /** The causality of elo_diff carried through the date sort of
      BuildEloSequential: changing the goals of input row i leaves every
      match at the same sorted position, and every sorted row up to the first
      one whose goals changed keeps its elo_diff. */
  lemma SortedEloDiffIgnoresScore(rows: seq<Match>, i: nat, hg: Option<int>, ag: Option<int>, p: EloParams)
    requires i < |rows|
    ensures var other := rows[i := rows[i].(homeGoals := hg, awayGoals := ag)];
      && SameButGoals(SortByDate(rows), SortByDate(other))
      && forall j :: 0 <= j < |rows| && SortByDate(other)[..j] == SortByDate(rows)[..j] ==>
           EloDiffAt(SortByDate(other), j, p) == EloDiffAt(SortByDate(rows), j, p)
  {
    var other := rows[i := rows[i].(homeGoals := hg, awayGoals := ag)];
    assert SameButGoals(rows, other);
    SortIgnoresGoals(rows, other);
    var s1, s2 := SortByDate(rows), SortByDate(other);
    forall j | 0 <= j < |rows| && s2[..j] == s1[..j]
      ensures EloDiffAt(s2, j, p) == EloDiffAt(s1, j, p)
    {
      EloDiffIsCausal(s2, s1, j, p);
    }
  }

  /** A scored row between two different teams changes only their ratings,
      and the away change is the exact negation of the home change. */
  lemma StepIsZeroSum(ratings: map<Team, real>, row: Match, p: EloParams)
    requires row.homeGoals.Some? && row.home != row.away
    ensures var after := Step(ratings, row, p);
      && Rating(after, row.away) - Rating(ratings, row.away)
         == -(Rating(after, row.home) - Rating(ratings, row.home))
      && forall t :: t != row.home && t != row.away ==> Rating(after, t) == Rating(ratings, t)
  {
  }

  /** The sum of the ratings of the teams in `ts`. */
  function TotalRating(ratings: map<Team, real>, ts: seq<Team>): real
  {
    if ts == [] then 0.0 else Rating(ratings, ts[0]) + TotalRating(ratings, ts[1..])
  }

  /** Setting one team's rating moves the total by the change, if that team
      is counted at all. */
  lemma {:induction false} TotalAfterSet(ratings: map<Team, real>, t: Team, v: real, ts: seq<Team>)
    requires Distinct(ts)
    ensures TotalRating(ratings[t := v], ts)
         == TotalRating(ratings, ts) + (if t in ts then v - Rating(ratings, t) else 0.0)
  {
    if ts != [] {
      assert Distinct(ts[1..]);
      TotalAfterSet(ratings, t, v, ts[1..]);
      assert t in ts <==> t == ts[0] || t in ts[1..];
      assert t == ts[0] ==> t !in ts[1..];
    }
  }

  /** A step preserves the total rating of any team list holding both teams
      of the row, whatever the K-factor and win expectancy. */
  lemma StepConservesTotal(ratings: map<Team, real>, row: Match, p: EloParams, ts: seq<Team>)
    requires Distinct(ts) && row.home in ts && row.away in ts
    ensures TotalRating(Step(ratings, row, p), ts) == TotalRating(ratings, ts)
  {
    if row.homeGoals.Some? {
      var s := ScoreHome(row.homeGoals.value, row.awayGoals, p.allowDraws);
      var eh := p.expected(Rating(ratings, row.home), Rating(ratings, row.away));
      var d := HomeChange(p.k, s, eh);
      var afterHome := ratings[row.home := Rating(ratings, row.home) + d];
      assert Step(ratings, row, p) == afterHome[row.away := Rating(afterHome, row.away) - d];
      TotalAfterSet(ratings, row.home, Rating(ratings, row.home) + d, ts);
      TotalAfterSet(afterHome, row.away, Rating(afterHome, row.away) - d, ts);
    }
  }

  lemma {:induction false} TotalOfInitial(ts: seq<Team>)
    ensures TotalRating(map[], ts) == InitialRating * |ts| as real
  {
    if ts != [] {
      TotalOfInitial(ts[1..]);
    }
  }

  /** Total rating is conserved over a whole replay: for a list of distinct
      teams covering every team that played, the ratings always sum to
      1500 times the number of teams. */
  lemma {:induction false} ReplayConservesTotal(rows: seq<Match>, p: EloParams, ts: seq<Team>)
    requires Distinct(ts)
    requires forall r :: r in rows ==> r.home in ts && r.away in ts
    ensures TotalRating(Replay(rows, p), ts) == InitialRating * |ts| as real
  {
    if rows == [] {
      TotalOfInitial(ts);
    } else {
      var init := rows[..|rows| - 1];
      assert forall r :: r in init ==> r in rows;
      ReplayConservesTotal(init, p, ts);
      StepConservesTotal(Replay(init, p), rows[|rows| - 1], p, ts);
    }
  }

  /** With a positive K, the home rating moves up exactly when the home side
      did better than expected and down exactly when it did worse. */
  lemma HomeChangeSign(k: real, score: real, expectation: real)
    requires k > 0.0
    ensures score > expectation ==> HomeChange(k, score, expectation) > 0.0
    ensures score < expectation ==> HomeChange(k, score, expectation) < 0.0
  {
    var diff := score - expectation;
    if diff > 0.0 {
      assert k * diff > 0.0;
    } else if diff < 0.0 {
      assert k * (-diff) > 0.0;
    }
  }

  /** The winner gains rating and the loser gives it up (K > 0, two
      different teams, a genuine win-expectancy function). */
  lemma HomeWinMovesRatings(ratings: map<Team, real>, row: Match, p: EloParams)
    requires IsWinExpectancy(p.expected) && p.k > 0.0
    requires row.home != row.away
    requires row.homeGoals.Some? && row.awayGoals.Some? && row.homeGoals.value > row.awayGoals.value
    ensures Rating(Step(ratings, row, p), row.home) > Rating(ratings, row.home)
    ensures Rating(Step(ratings, row, p), row.away) < Rating(ratings, row.away)
  {
    var eh := p.expected(Rating(ratings, row.home), Rating(ratings, row.away));
    assert eh < 1.0;
    HomeChangeSign(p.k, 1.0, eh);
    var d := HomeChange(p.k, 1.0, eh);
    var afterHome := ratings[row.home := Rating(ratings, row.home) + d];
    assert Step(ratings, row, p) == afterHome[row.away := Rating(afterHome, row.away) + AwayChange(p.k, 1.0, eh)];
    assert Rating(afterHome, row.away) == Rating(ratings, row.away);
  }

  lemma HomeLossMovesRatings(ratings: map<Team, real>, row: Match, p: EloParams)
    requires IsWinExpectancy(p.expected) && p.k > 0.0
    requires row.home != row.away
    requires row.homeGoals.Some? && row.awayGoals.Some? && row.homeGoals.value < row.awayGoals.value
    ensures Rating(Step(ratings, row, p), row.home) < Rating(ratings, row.home)
    ensures Rating(Step(ratings, row, p), row.away) > Rating(ratings, row.away)
  {
    var eh := p.expected(Rating(ratings, row.home), Rating(ratings, row.away));
    assert eh > 0.0;
    HomeChangeSign(p.k, 0.0, eh);
    var d := HomeChange(p.k, 0.0, eh);
    var afterHome := ratings[row.home := Rating(ratings, row.home) + d];
    assert Step(ratings, row, p) == afterHome[row.away := Rating(afterHome, row.away) + AwayChange(p.k, 0.0, eh)];
    assert Rating(afterHome, row.away) == Rating(ratings, row.away);
  }

  /** When draws are allowed, a draw between equally rated teams moves
      neither rating. */
  lemma EvenDrawKeepsRatings(ratings: map<Team, real>, row: Match, p: EloParams)
    requires IsWinExpectancy(p.expected) && p.allowDraws
    requires row.homeGoals.Some? && row.awayGoals.Some? && row.homeGoals.value == row.awayGoals.value
    requires Rating(ratings, row.home) == Rating(ratings, row.away)
    ensures Rating(Step(ratings, row, p), row.home) == Rating(ratings, row.home)
    ensures Rating(Step(ratings, row, p), row.away) == Rating(ratings, row.away)
  {
    var x := Rating(ratings, row.home);
    assert p.expected(x, x) == 0.5;
  }

  /** When draws are not allowed, a tie updates the ratings exactly as an
      away win with the same teams would. */
  lemma TieWithoutDrawsIsAwayWin(ratings: map<Team, real>, row: Match, p: EloParams, awayWinGoals: int)
    requires !p.allowDraws
    requires row.homeGoals.Some? && row.awayGoals.Some? && row.homeGoals.value == row.awayGoals.value
    requires awayWinGoals > row.homeGoals.value
    ensures Step(ratings, row, p) == Step(ratings, row.(awayGoals := Some(awayWinGoals)), p)
  {
    var awayWin := row.(awayGoals := Some(awayWinGoals));
    var eh := p.expected(Rating(ratings, row.home), Rating(ratings, row.away));
    var afterHome := ratings[row.home := Rating(ratings, row.home) + HomeChange(p.k, 0.0, eh)];
    var both := afterHome[row.away := Rating(afterHome, row.away) + AwayChange(p.k, 0.0, eh)];
    assert ScoreHome(row.homeGoals.value, row.awayGoals, p.allowDraws) == 0.0;
    assert ScoreHome(awayWin.homeGoals.value, awayWin.awayGoals, p.allowDraws) == 0.0;
    assert Step(ratings, row, p) == both;
    assert Step(ratings, awayWin, p) == both;
  }

  // ---------------------------------------------------------------------
  // Side-table lookups
  // ---------------------------------------------------------------------

  datatype InjuryRow = InjuryRow(date: Date, team: Team, isOut: int, impact: real)
  datatype GoalieRow = GoalieRow(date: Date, team: Team, isConfirmed: int, goalieRating: real)

  predicate InjuryMatches(r: InjuryRow, date: Date, team: Team)
  {
    r.date == date && r.team == team && r.isOut == 1
  }

  /** The injury rows that count for `team` on `date`, in table order. */
  function OutRows(table: seq<InjuryRow>, date: Date, team: Team): (rows: seq<InjuryRow>)
    ensures forall r :: r in rows <==> r in table && InjuryMatches(r, date, team)
  {
    if table == [] then []
    else (if InjuryMatches(table[0], date, team) then [table[0]] else []) + OutRows(table[1..], date, team)
  }

  /** The filter keeps every matching row as often as the table holds it, so
      two identical rows (two players out with equal impact) are both summed. */
  lemma {:induction false} OutRowsKeepsDuplicates(table: seq<InjuryRow>, date: Date, team: Team)
    ensures forall r ::
      multiset(OutRows(table, date, team))[r] == if InjuryMatches(r, date, team) then multiset(table)[r] else 0
  {
    if table != [] {
      var head := if InjuryMatches(table[0], date, team) then [table[0]] else [];
      var rest := OutRows(table[1..], date, team);
      OutRowsKeepsDuplicates(table[1..], date, team);
      assert table == [table[0]] + table[1..];
      assert multiset(table) == multiset{table[0]} + multiset(table[1..]);
      assert multiset(head + rest) == multiset(head) + multiset(rest);
    }
  }

  function SumImpact(rows: seq<InjuryRow>): real
  {
    if rows == [] then 0.0 else rows[0].impact + SumImpact(rows[1..])
  }

  /** The summed impact of the players out for `team` on `date`; 0 for an
      empty table or when nothing matches. */
  function InjuryImpact(table: seq<InjuryRow>, date: Date, team: Team): (impact: real)
    ensures (forall r :: r in table ==> !InjuryMatches(r, date, team)) ==> impact == 0.0
    ensures (forall r :: r in table ==> r.impact >= 0.0) ==> impact >= 0.0
  {
    if table == [] then 0.0
    else
      var rows := OutRows(table, date, team);
      NonNegativeSum(rows);
      assert |rows| > 0 ==> rows[0] in rows;
      if |rows| > 0 then SumImpact(rows) else 0.0
  }

  lemma {:induction false} NonNegativeSum(rows: seq<InjuryRow>)
    ensures (forall r :: r in rows ==> r.impact >= 0.0) ==> SumImpact(rows) >= 0.0
  {
    if rows != [] {
      assert forall r :: r in rows[1..] ==> r in rows;
      NonNegativeSum(rows[1..]);
    }
  }

  lemma {:induction false} OutRowsAppend(t1: seq<InjuryRow>, t2: seq<InjuryRow>, date: Date, team: Team)
    ensures OutRows(t1 + t2, date, team) == OutRows(t1, date, team) + OutRows(t2, date, team)
  {
    if t1 != [] {
      assert (t1 + t2)[1..] == t1[1..] + t2;
      OutRowsAppend(t1[1..], t2, date, team);
    } else {
      assert t1 + t2 == t2;
    }
  }

  lemma {:induction false} SumImpactAppend(r1: seq<InjuryRow>, r2: seq<InjuryRow>)
    ensures SumImpact(r1 + r2) == SumImpact(r1) + SumImpact(r2)
  {
    if r1 != [] {
      assert (r1 + r2)[1..] == r1[1..] + r2;
      SumImpactAppend(r1[1..], r2);
    } else {
      assert r1 + r2 == r2;
    }
  }

  /** The lookup is a plain filter-and-sum: it always equals the sum over
      the matching rows, so splitting the table anywhere splits the impact. */
  lemma InjuryImpactIsSum(table: seq<InjuryRow>, date: Date, team: Team)
    ensures InjuryImpact(table, date, team) == SumImpact(OutRows(table, date, team))
  {
  }

  lemma InjuryImpactAdditive(t1: seq<InjuryRow>, t2: seq<InjuryRow>, date: Date, team: Team)
    ensures InjuryImpact(t1 + t2, date, team) == InjuryImpact(t1, date, team) + InjuryImpact(t2, date, team)
  {
    InjuryImpactIsSum(t1 + t2, date, team);
    InjuryImpactIsSum(t1, date, team);
    InjuryImpactIsSum(t2, date, team);
    OutRowsAppend(t1, t2, date, team);
    SumImpactAppend(OutRows(t1, date, team), OutRows(t2, date, team));
  }

  predicate GoalieMatches(r: GoalieRow, date: Date, team: Team)
  {
    r.date == date && r.team == team && r.isConfirmed == 1
  }

  /** The index of the first confirmed goalie row for `team` on `date`. */
  function FirstConfirmed(table: seq<GoalieRow>, date: Date, team: Team): (k: Option<nat>)
    ensures k.Some? ==> k.value < |table| && GoalieMatches(table[k.value], date, team)
    ensures k.Some? ==> forall j :: 0 <= j < k.value ==> !GoalieMatches(table[j], date, team)
    ensures k.None? ==> forall j :: 0 <= j < |table| ==> !GoalieMatches(table[j], date, team)
  {
    if table == [] then None
    else if GoalieMatches(table[0], date, team) then Some(0)
    else match FirstConfirmed(table[1..], date, team)
      case None => None
      case Some(k) => Some(k + 1)
  }

  /** The rating of the first confirmed goalie row, else 0. */
  function GoalieRating(table: seq<GoalieRow>, date: Date, team: Team): (rating: real)
    ensures (forall r :: r in table ==> !GoalieMatches(r, date, team)) ==> rating == 0.0
    ensures forall j :: 0 <= j < |table| && GoalieMatches(table[j], date, team)
                        && (forall i :: 0 <= i < j ==> !GoalieMatches(table[i], date, team))
                        ==> rating == table[j].goalieRating
  {
    if table == [] then 0.0
    else match FirstConfirmed(table, date, team)
      case None => 0.0
      case Some(k) => table[k].goalieRating
  }

  // ---------------------------------------------------------------------
  // Feature rows
  // ---------------------------------------------------------------------

  /** The market's implied probability of decimal odds. */
  function ImpliedProbability(odds: real): (p: real)
    requires odds != 0.0
    ensures p * odds == 1.0
    ensures odds > 1.0 ==> 0.0 < p < 1.0
  {
    1.0 / odds
  }

  /** The soccer model's inputs, in its column order. */
  datatype SoccerFeatures = SoccerFeatures(
    homeImp: real, drawImp: real, awayImp: real, eloDiff: real, injuryDiff: real, restDiff: real)

  /** The hockey model's inputs, in its column order. */
  datatype HockeyFeatures = HockeyFeatures(
    homeImp: real, awayImp: real, eloDiff: real, injuryDiff: real, restDiff: real, goalieDiff: real)

  /** The differences shared by both sports: home side minus away side. */
  function InjuryDiff(m: Match, injuries: seq<InjuryRow>): real
  {
    InjuryImpact(injuries, m.date, m.home) - InjuryImpact(injuries, m.date, m.away)
  }

  function RestDiff(m: Match): real
  {
    m.homeRest - m.awayRest
  }

  function GoalieDiff(m: Match, goalies: seq<GoalieRow>): real
  {
    GoalieRating(goalies, m.date, m.home) - GoalieRating(goalies, m.date, m.away)
  }

  function SoccerFeatureRow(m: Match, eloDiff: real, injuries: seq<InjuryRow>): (f: SoccerFeatures)
    requires m.homeOdds != 0.0 && m.drawOdds != 0.0 && m.awayOdds != 0.0
    ensures f.homeImp == ImpliedProbability(m.homeOdds) && f.drawImp == ImpliedProbability(m.drawOdds)
    ensures f.awayImp == ImpliedProbability(m.awayOdds)
    ensures f.eloDiff == eloDiff
    ensures f.injuryDiff == InjuryImpact(injuries, m.date, m.home) - InjuryImpact(injuries, m.date, m.away)
    ensures f.restDiff == m.homeRest - m.awayRest
  {
    var homeImp, drawImp, awayImp :=
      ImpliedProbability(m.homeOdds), ImpliedProbability(m.drawOdds), ImpliedProbability(m.awayOdds);
    SoccerFeatures(homeImp, drawImp, awayImp, eloDiff, InjuryDiff(m, injuries), RestDiff(m))
  }

  function HockeyFeatureRow(m: Match, eloDiff: real, injuries: seq<InjuryRow>, goalies: seq<GoalieRow>): (f: HockeyFeatures)
    requires m.homeOdds != 0.0 && m.awayOdds != 0.0
    ensures f.homeImp == ImpliedProbability(m.homeOdds) && f.awayImp == ImpliedProbability(m.awayOdds)
    ensures f.eloDiff == eloDiff
    ensures f.injuryDiff == InjuryImpact(injuries, m.date, m.home) - InjuryImpact(injuries, m.date, m.away)
    ensures f.restDiff == m.homeRest - m.awayRest
    ensures f.goalieDiff == GoalieRating(goalies, m.date, m.home) - GoalieRating(goalies, m.date, m.away)
  {
    var homeImp, awayImp := ImpliedProbability(m.homeOdds), ImpliedProbability(m.awayOdds);
    HockeyFeatures(homeImp, awayImp, eloDiff, InjuryDiff(m, injuries), RestDiff(m), GoalieDiff(m, goalies))
  }

  /** Swapping the home and away sides negates every difference feature. */
  lemma FeatureDiffsAreAntisymmetric(m: Match, injuries: seq<InjuryRow>, goalies: seq<GoalieRow>)
    ensures var swapped := m.(home := m.away, away := m.home, homeRest := m.awayRest, awayRest := m.homeRest);
      && InjuryDiff(swapped, injuries) == -InjuryDiff(m, injuries)
      && RestDiff(swapped) == -RestDiff(m)
      && GoalieDiff(swapped, goalies) == -GoalieDiff(m, goalies)
  {
  }
}
