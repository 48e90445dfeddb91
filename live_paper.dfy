/** The per-candidate decision loop of live_paper.py: edge, pick, the guard
    chain, the flat stake and the session state threaded through the soccer
    and hockey passes. */
module LivePaper {
  import opened Common
  import opened Config
  import opened Safety
  import Features
  import TrainBacktest

  datatype Sport = Soccer | Hockey
  datatype Outcome = Home | Draw | Away

  /** One live match as the loop sees it: the teams, the decimal odds, the
      market's implied probabilities (1 / odds), the model's probability
      vector, and whether the kill switch is found set when this candidate's
      turn comes. Hockey candidates ignore the draw fields. */
  datatype Candidate = Candidate(
    date: Date, home: Team, away: Team,
    homeOdds: real, drawOdds: real, awayOdds: real,
    homeImp: real, drawImp: real, awayImp: real,
    probs: seq<real>,
    killSwitch: bool)

  datatype Suggestion = Suggestion(
    sport: Sport, date: Date, home: Team, away: Team,
    pick: Outcome, odds: real, edge: real, stake: real)

  /** The model returns one probability per class of the sport. */
  predicate ProbsFit(sport: Sport, c: Candidate)
  {
    |c.probs| == if sport == Soccer then 3 else 2
  }

  predicate AllFit(sport: Sport, cands: seq<Candidate>)
  {
    forall c :: c in cands ==> ProbsFit(sport, c)
  }

  predicate OutcomeOf(sport: Sport, o: Outcome)
  {
    sport == Hockey ==> o != Draw
  }

  /** The candidate of a live row: the implied probabilities are the
      reciprocal odds, the draw one only for soccer. */
  function CandidateOf(sport: Sport, m: Features.Match, probs: seq<real>, killSwitch: bool): (c: Candidate)
    requires m.homeOdds != 0.0 && m.awayOdds != 0.0 && (sport == Soccer ==> m.drawOdds != 0.0)
    ensures c.date == m.date && c.home == m.home && c.away == m.away
    ensures c.homeOdds == m.homeOdds && c.drawOdds == m.drawOdds && c.awayOdds == m.awayOdds
    ensures c.probs == probs && c.killSwitch == killSwitch
    ensures forall o :: OutcomeOf(sport, o) ==> Implied(c, o) == Features.ImpliedProbability(OddsOf(c, o))
  {
    Candidate(m.date, m.home, m.away, m.homeOdds, m.drawOdds, m.awayOdds,
              Features.ImpliedProbability(m.homeOdds),
              if sport == Soccer then Features.ImpliedProbability(m.drawOdds) else 0.0,
              Features.ImpliedProbability(m.awayOdds),
              probs, killSwitch)
  }

  /** The model's probability column for an outcome. The soccer classes are
      away 0, draw 1, home 2; the hockey classes away 0, home 1. */
  function ProbIndex(sport: Sport, o: Outcome): (k: nat)
    requires OutcomeOf(sport, o)
    ensures k < if sport == Soccer then 3 else 2
  {
    match o
    case Home => if sport == Soccer then 2 else 1
    case Draw => 1
    case Away => 0
  }

  /** The columns read for each outcome are the class labels the models
      were trained on: the pick's column equals the label exactly when that
      outcome happened. */
  lemma ProbIndexMatchesTargets(homeGoals: int, awayGoals: int)
    ensures ProbIndex(Soccer, Home) == TrainBacktest.SoccerTarget(Some(homeGoals), Some(awayGoals)) <==> homeGoals > awayGoals
    ensures ProbIndex(Soccer, Draw) == TrainBacktest.SoccerTarget(Some(homeGoals), Some(awayGoals)) <==> homeGoals == awayGoals
    ensures ProbIndex(Soccer, Away) == TrainBacktest.SoccerTarget(Some(homeGoals), Some(awayGoals)) <==> homeGoals < awayGoals
    ensures ProbIndex(Hockey, Home) == TrainBacktest.HockeyTarget(Some(homeGoals), Some(awayGoals)) <==> homeGoals > awayGoals
    ensures ProbIndex(Hockey, Away) == TrainBacktest.HockeyTarget(Some(homeGoals), Some(awayGoals)) <==> homeGoals <= awayGoals
  {
  }

  function Implied(c: Candidate, o: Outcome): real
  {
    match o
    case Home => c.homeImp
    case Draw => c.drawImp
    case Away => c.awayImp
  }

  function OddsOf(c: Candidate, o: Outcome): real
  {
    match o
    case Home => c.homeOdds
    case Draw => c.drawOdds
    case Away => c.awayOdds
  }

  /** Model probability minus raw implied probability; no margin removal. */
  function Edge(sport: Sport, c: Candidate, o: Outcome): real
    requires ProbsFit(sport, c) && OutcomeOf(sport, o)
  {
    c.probs[ProbIndex(sport, o)] - Implied(c, o)
  }

  /** The soccer pick: a maximum over the edges taken in the order home,
      draw, away that moves on only to a strictly larger edge. */
  function PickSoccer(c: Candidate): (o: Outcome)
    requires ProbsFit(Soccer, c)
    ensures Edge(Soccer, c, Home) <= Edge(Soccer, c, o)
    ensures Edge(Soccer, c, Draw) <= Edge(Soccer, c, o)
    ensures Edge(Soccer, c, Away) <= Edge(Soccer, c, o)
    ensures o == Draw ==> Edge(Soccer, c, Home) < Edge(Soccer, c, Draw)
    ensures o == Away ==> Edge(Soccer, c, Home) < Edge(Soccer, c, Away) && Edge(Soccer, c, Draw) < Edge(Soccer, c, Away)
  {
    var best := if Edge(Soccer, c, Draw) > Edge(Soccer, c, Home) then Draw else Home;
    if Edge(Soccer, c, Away) > Edge(Soccer, c, best) then Away else best
  }

  /** The hockey pick over home then away: a tie goes home. */
  function PickHockey(c: Candidate): (o: Outcome)
    requires ProbsFit(Hockey, c)
    ensures o != Draw
    ensures Edge(Hockey, c, Home) <= Edge(Hockey, c, o) && Edge(Hockey, c, Away) <= Edge(Hockey, c, o)
    ensures o == Away ==> Edge(Hockey, c, Home) < Edge(Hockey, c, Away)
  {
    if Edge(Hockey, c, Away) > Edge(Hockey, c, Home) then Away else Home
  }

  function Pick(sport: Sport, c: Candidate): (o: Outcome)
    requires ProbsFit(sport, c)
    ensures OutcomeOf(sport, o)
  {
    if sport == Soccer then PickSoccer(c) else PickHockey(c)
  }

  /** Round to cents, ties to the even cent. */
  function RoundCents(x: real): (r: real)
    ensures x - 0.005 <= r <= x + 0.005
    ensures (r * 100.0).Floor as real == r * 100.0
  {
    var scaled := x * 100.0;
    var whole := scaled.Floor;
    var frac := scaled - whole as real;
    var cents := if frac > 0.5 then whole + 1
                 else if frac < 0.5 then whole
                 else if whole % 2 == 0 then whole else whole + 1;
    assert cents as real - 0.5 <= scaled <= cents as real + 0.5;
    cents as real / 100.0
  }

  /** The stake of every suggestion: the bankroll times the per-bet
      fraction, rounded to cents, independent of the edge. */
  function FlatStake(bankroll: real, maxBetPct: real): (stake: real)
    ensures bankroll * maxBetPct - 0.005 <= stake <= bankroll * maxBetPct + 0.005
    ensures (stake * 100.0).Floor as real == stake * 100.0
  {
    RoundCents(bankroll * maxBetPct)
  }

  /** An amount already in whole cents is left as it is. */
  lemma RoundCentsKeepsCents(x: real)
    requires (x * 100.0).Floor as real == x * 100.0
    ensures RoundCents(x) == x
  {
  }

  /** Exact half cents go to the even neighbour, as the source's rounding does. */
  lemma RoundCentsHalfToEven()
    ensures RoundCents(0.125) == 0.12
    ensures RoundCents(0.375) == 0.38
  {
    assert (12.5).Floor == 12;
    assert (37.5).Floor == 37;
  }

  /** The guard that vetoed a candidate. */
  datatype Guard = NotAllowed | EdgeBelowThreshold | OddsOutOfBand | DailyLimitReached

  /** What the loop does with one candidate: stop the session, skip the
      candidate (the first failing guard), or emit a suggestion. */
  datatype Decision = Halt | Reject(guard: Guard) | Accept(suggestion: Suggestion)

  /** The guard chain of one candidate, in the source's order: kill switch,
      allowlist, edge threshold, odds band, daily limits. `betsPlaced` and
      `startBankroll` are the session state's fields at this point. */
  function Decide(sport: Sport, sc: SafetyConfig, bankroll: real, betsPlaced: int, startBankroll: real,
                  c: Candidate): (d: Decision)
    requires ProbsFit(sport, c)
    ensures d.Halt? <==> c.killSwitch
    ensures var pick := Pick(sport, c);
      var edge := Edge(sport, c, pick);
      && (d == Reject(NotAllowed) <==>
            !c.killSwitch && !EnforceAllowlist(c.home, c.away, sc.allowedTeams))
      && (d == Reject(EdgeBelowThreshold) <==>
            !c.killSwitch && EnforceAllowlist(c.home, c.away, sc.allowedTeams) && edge < sc.edgeThreshold)
      && (d == Reject(OddsOutOfBand) <==>
            !c.killSwitch && EnforceAllowlist(c.home, c.away, sc.allowedTeams) && edge >= sc.edgeThreshold
            && !WithinOddsLimits(OddsOf(c, pick), sc.minOdds, sc.maxOdds))
      && (d == Reject(DailyLimitReached) <==>
            !c.killSwitch && EnforceAllowlist(c.home, c.away, sc.allowedTeams) && edge >= sc.edgeThreshold
            && WithinOddsLimits(OddsOf(c, pick), sc.minOdds, sc.maxOdds)
            && !DailyLimitsOk(betsPlaced, startBankroll, bankroll, sc.maxBetsPerDay, sc.dailyLossLimitPct))
      && (d.Accept? <==>
            !c.killSwitch && EnforceAllowlist(c.home, c.away, sc.allowedTeams) && edge >= sc.edgeThreshold
            && WithinOddsLimits(OddsOf(c, pick), sc.minOdds, sc.maxOdds)
            && DailyLimitsOk(betsPlaced, startBankroll, bankroll, sc.maxBetsPerDay, sc.dailyLossLimitPct))
      && (d.Accept? ==>
            d.suggestion == Suggestion(sport, c.date, c.home, c.away, pick, OddsOf(c, pick), edge,
                                       FlatStake(bankroll, sc.maxBetPct)))
  {
    if c.killSwitch then Halt
    else if !EnforceAllowlist(c.home, c.away, sc.allowedTeams) then Reject(NotAllowed)
    else
      var pick := Pick(sport, c);
      var edge := Edge(sport, c, pick);
      var odds := OddsOf(c, pick);
      if edge < sc.edgeThreshold then Reject(EdgeBelowThreshold)
      else if !WithinOddsLimits(odds, sc.minOdds, sc.maxOdds) then Reject(OddsOutOfBand)
      else if !DailyLimitsOk(betsPlaced, startBankroll, bankroll, sc.maxBetsPerDay, sc.dailyLossLimitPct)
      then Reject(DailyLimitReached)
      else Accept(Suggestion(sport, c.date, c.home, c.away, pick, odds, edge, FlatStake(bankroll, sc.maxBetPct)))
  }

  /** The suggestions of one pass and the bet count it leaves behind. */
  datatype RunResult = RunResult(suggestions: seq<Suggestion>, betsPlaced: int)

  /** Suggestions emitted so far, followed by those of the rest of a pass. */
  function Then(emitted: seq<Suggestion>, rest: RunResult): RunResult
  {
    RunResult(emitted + rest.suggestions, rest.betsPlaced)
  }

  /** One pass over the candidates, in order, from a bet count of
      `betsPlaced`. The pass ends at the first candidate that finds the kill
      switch set. */
  function Run(sport: Sport, sc: SafetyConfig, bankroll: real, startBankroll: real, betsPlaced: int,
               cands: seq<Candidate>): (r: RunResult)
    requires AllFit(sport, cands)
    ensures r.betsPlaced == betsPlaced + |r.suggestions|
    decreases |cands|
  {
    if cands == [] then RunResult([], betsPlaced)
    else
      assert AllFit(sport, cands[1..]) by {
        forall c | c in cands[1..] ensures ProbsFit(sport, c) {
          assert c in cands;
        }
      }
      match Decide(sport, sc, bankroll, betsPlaced, startBankroll, cands[0])
      case Halt => RunResult([], betsPlaced)
      case Reject(_) => Run(sport, sc, bankroll, startBankroll, betsPlaced, cands[1..])
      case Accept(s) => Then([s], Run(sport, sc, bankroll, startBankroll, betsPlaced + 1, cands[1..]))
  }

  /** The loop of suggest_bets_soccer / suggest_bets_hockey: walks the
      candidates, stops at the kill switch, skips vetoed candidates, and for
      each admitted one appends a suggestion and counts the bet in `state`. */
  method SuggestBets(sport: Sport, cands: seq<Candidate>, sc: SafetyConfig, bankroll: real, state: DailyRiskState)
    returns (suggestions: seq<Suggestion>)
    requires AllFit(sport, cands)
    modifies state`betsPlaced
    ensures RunResult(suggestions, state.betsPlaced)
         == Run(sport, sc, bankroll, state.startBankroll, old(state.betsPlaced), cands)
  {
    suggestions := [];
    var start := state.startBankroll;
    ghost var total := Run(sport, sc, bankroll, start, state.betsPlaced, cands);
    for i := 0 to |cands|
      invariant state.startBankroll == start
      invariant total == Then(suggestions, Run(sport, sc, bankroll, start, state.betsPlaced, cands[i..]))
    {
      var c := cands[i];
      var bets := state.betsPlaced;
      ghost var decision := Decide(sport, sc, bankroll, bets, start, c);
      RunUnfold(sport, sc, bankroll, start, bets, cands, i);
      ghost var skipped := Run(sport, sc, bankroll, start, bets, cands[i + 1..]);
      if c.killSwitch {
        break;
      }
      if !EnforceAllowlist(c.home, c.away, sc.allowedTeams) {
        assert decision == Reject(NotAllowed);
        assert total == Then(suggestions, skipped);
        continue;
      }
      var pick := Pick(sport, c);
      var edge := Edge(sport, c, pick);
      var odds := OddsOf(c, pick);
      if edge < sc.edgeThreshold {
        assert decision == Reject(EdgeBelowThreshold);
        assert total == Then(suggestions, skipped);
        continue;
      }
      if !WithinOddsLimits(odds, sc.minOdds, sc.maxOdds) {
        assert decision == Reject(OddsOutOfBand);
        assert total == Then(suggestions, skipped);
        continue;
      }
      if !DailyLimitsOk(bets, start, bankroll, sc.maxBetsPerDay, sc.dailyLossLimitPct) {
        assert decision == Reject(DailyLimitReached);
        assert total == Then(suggestions, skipped);
        continue;
      }
      var s := Suggestion(sport, c.date, c.home, c.away, pick, odds, edge, FlatStake(bankroll, sc.maxBetPct));
      assert decision == Accept(s);
      ghost var tail := Run(sport, sc, bankroll, start, bets + 1, cands[i + 1..]);
      ThenAssociates(suggestions, [s], tail);
      suggestions := suggestions + [s];
      state.betsPlaced := bets + 1;
    }
  }

  /** One step of a pass, taken at candidate i. */
  lemma RunUnfold(sport: Sport, sc: SafetyConfig, bankroll: real, startBankroll: real, betsPlaced: int,
                  cands: seq<Candidate>, i: nat)
    requires AllFit(sport, cands) && i < |cands|
    ensures AllFit(sport, cands[i..]) && AllFit(sport, cands[i + 1..]) && ProbsFit(sport, cands[i])
    ensures var d := Decide(sport, sc, bankroll, betsPlaced, startBankroll, cands[i]);
      var here := Run(sport, sc, bankroll, startBankroll, betsPlaced, cands[i..]);
      && (d.Halt? ==> here == RunResult([], betsPlaced))
      && (d.Reject? ==> here == Run(sport, sc, bankroll, startBankroll, betsPlaced, cands[i + 1..]))
      && (d.Accept? ==>
            here == Then([d.suggestion], Run(sport, sc, bankroll, startBankroll, betsPlaced + 1, cands[i + 1..])))
  {
    assert cands[i] in cands;
    assert forall x :: x in cands[i..] ==> x in cands;
    assert cands[i..][0] == cands[i] && cands[i..][1..] == cands[i + 1..];
  }

  /** The session of `main`: one state whose start bankroll is the configured
      bankroll, shared by the soccer pass and then the hockey pass, with the
      bankroll itself never changing. */
  method RunSession(sc: SafetyConfig, day: Date, soccer: seq<Candidate>, hockey: seq<Candidate>)
    returns (soccerSuggestions: seq<Suggestion>, hockeySuggestions: seq<Suggestion>)
    requires AllFit(Soccer, soccer) && AllFit(Hockey, hockey)
    ensures var b := sc.bankrollStart;
      var first := Run(Soccer, sc, b, b, 0, soccer);
      && soccerSuggestions == first.suggestions
      && hockeySuggestions == Run(Hockey, sc, b, b, first.betsPlaced, hockey).suggestions
    ensures |soccerSuggestions| + |hockeySuggestions| <= if sc.maxBetsPerDay < 0 then 0 else sc.maxBetsPerDay
    ensures forall s :: s in soccerSuggestions + hockeySuggestions ==>
      s.stake == FlatStake(sc.bankrollStart, sc.maxBetPct)
  {
    var bankroll := sc.bankrollStart;
    var state := new DailyRiskState(day, bankroll);
    soccerSuggestions := SuggestBets(Soccer, soccer, sc, bankroll, state);
    var afterSoccer := state.betsPlaced;
    hockeySuggestions := SuggestBets(Hockey, hockey, sc, bankroll, state);
    RunRespectsLimit(Soccer, sc, bankroll, bankroll, 0, soccer);
    RunRespectsLimit(Hockey, sc, bankroll, bankroll, afterSoccer, hockey);
    RunSuggestionsAdmissible(Soccer, sc, bankroll, bankroll, 0, soccer);
    RunSuggestionsAdmissible(Hockey, sc, bankroll, bankroll, afterSoccer, hockey);
    forall s | s in soccerSuggestions + hockeySuggestions
      ensures s.stake == FlatStake(sc.bankrollStart, sc.maxBetPct)
    {
      if s in soccerSuggestions {
        assert Admissible(Soccer, sc, bankroll, s);
      } else {
        assert Admissible(Hockey, sc, bankroll, s);
      }
    }
  }

  // ---------------------------------------------------------------------
  // Properties of a pass
  // ---------------------------------------------------------------------

  /** What every emitted suggestion satisfies: it is for this sport, clears
      the edge threshold and the odds band, involves only allowed teams and
      carries the flat stake, whatever its edge. */
  predicate Admissible(sport: Sport, sc: SafetyConfig, bankroll: real, s: Suggestion)
  {
    && s.sport == sport
    && s.edge >= sc.edgeThreshold
    && sc.minOdds <= s.odds <= sc.maxOdds
    && (sc.allowedTeams != [] ==> s.home in sc.allowedTeams && s.away in sc.allowedTeams)
    && s.stake == FlatStake(bankroll, sc.maxBetPct)
  }

  /** A suggestion describes candidate `c`: same match, the maximal-edge
      outcome, that outcome's odds, and the raw edge. */
  predicate DescribesCandidate(sport: Sport, c: Candidate, s: Suggestion)
    requires ProbsFit(sport, c)
  {
    var pick := Pick(sport, c);
    && s.date == c.date && s.home == c.home && s.away == c.away
    && s.pick == pick && s.odds == OddsOf(c, pick)
    && s.edge == c.probs[ProbIndex(sport, pick)] - Implied(c, pick)
  }

  lemma {:induction false} RunSuggestionsAdmissible(sport: Sport, sc: SafetyConfig, bankroll: real,
                                                    startBankroll: real, betsPlaced: int, cands: seq<Candidate>)
    requires AllFit(sport, cands)
    ensures forall s :: s in Run(sport, sc, bankroll, startBankroll, betsPlaced, cands).suggestions ==>
      && Admissible(sport, sc, bankroll, s)
      && exists c :: c in cands && ProbsFit(sport, c) && DescribesCandidate(sport, c, s)
    decreases |cands|
  {
    if cands != [] {
      var c := cands[0];
      assert AllFit(sport, cands[1..]) by {
        forall x | x in cands[1..] ensures ProbsFit(sport, x) {
          assert x in cands;
        }
      }
      var d := Decide(sport, sc, bankroll, betsPlaced, startBankroll, c);
      var next := if d.Accept? then betsPlaced + 1 else betsPlaced;
      RunSuggestionsAdmissible(sport, sc, bankroll, startBankroll, next, cands[1..]);
      forall x | x in cands[1..] ensures x in cands {
      }
    }
  }

  /** The bet count never passes the daily maximum it started at or below,
      and a pass that starts above it emits nothing. */
  lemma {:induction false} RunRespectsLimit(sport: Sport, sc: SafetyConfig, bankroll: real,
                                            startBankroll: real, betsPlaced: int, cands: seq<Candidate>)
    requires AllFit(sport, cands)
    ensures var r := Run(sport, sc, bankroll, startBankroll, betsPlaced, cands);
      r.betsPlaced <= if betsPlaced <= sc.maxBetsPerDay then sc.maxBetsPerDay else betsPlaced
    decreases |cands|
  {
    if cands != [] {
      assert AllFit(sport, cands[1..]) by {
        forall x | x in cands[1..] ensures ProbsFit(sport, x) {
          assert x in cands;
        }
      }
      var d := Decide(sport, sc, bankroll, betsPlaced, startBankroll, cands[0]);
      var next := if d.Accept? then betsPlaced + 1 else betsPlaced;
      RunRespectsLimit(sport, sc, bankroll, startBankroll, next, cands[1..]);
    }
  }

  /** Once the kill switch is found set at candidate j, nothing from j on
      contributes: the pass equals the pass over the first j candidates,
      suggestions and bet count alike. */
  lemma {:induction false} RunStopsAtKillSwitch(sport: Sport, sc: SafetyConfig, bankroll: real,
                                                startBankroll: real, betsPlaced: int, cands: seq<Candidate>, j: nat)
    requires AllFit(sport, cands)
    requires j < |cands| && cands[j].killSwitch
    ensures AllFit(sport, cands[..j])
    ensures Run(sport, sc, bankroll, startBankroll, betsPlaced, cands)
         == Run(sport, sc, bankroll, startBankroll, betsPlaced, cands[..j])
    decreases j
  {
    assert AllFit(sport, cands[..j]) by {
      forall x | x in cands[..j] ensures ProbsFit(sport, x) {
        assert x in cands;
      }
    }
    if j > 0 {
      assert AllFit(sport, cands[1..]) by {
        forall x | x in cands[1..] ensures ProbsFit(sport, x) {
          assert x in cands;
        }
      }
      var d := Decide(sport, sc, bankroll, betsPlaced, startBankroll, cands[0]);
      var next := if d.Accept? then betsPlaced + 1 else betsPlaced;
      assert cands[1..][j - 1] == cands[j];
      RunStopsAtKillSwitch(sport, sc, bankroll, startBankroll, next, cands[1..], j - 1);
      assert cands[..j][1..] == cands[1..][..j - 1];
    }
  }

  /** A pass over two runs of candidates, the first free of the kill switch,
      is the pass over the first followed by the pass over the second from
      the bet count the first left: suggestions keep candidate order. */
  lemma {:induction false} RunConcatenates(sport: Sport, sc: SafetyConfig, bankroll: real, startBankroll: real,
                                           betsPlaced: int, first: seq<Candidate>, second: seq<Candidate>)
    requires AllFit(sport, first) && AllFit(sport, second)
    requires forall c :: c in first ==> !c.killSwitch
    ensures AllFit(sport, first + second)
    ensures var r1 := Run(sport, sc, bankroll, startBankroll, betsPlaced, first);
      Run(sport, sc, bankroll, startBankroll, betsPlaced, first + second)
      == Then(r1.suggestions, Run(sport, sc, bankroll, startBankroll, r1.betsPlaced, second))
    decreases |first|
  {
    var both := first + second;
    assert AllFit(sport, both) by {
      forall x | x in both ensures ProbsFit(sport, x) {
        assert x in first || x in second;
      }
    }
    if first == [] {
      assert both == second;
    } else {
      var c, tail := first[0], first[1..];
      assert both[0] == c && both[1..] == tail + second;
      assert c in first;
      assert forall x :: x in tail ==> x in first;
      var d := Decide(sport, sc, bankroll, betsPlaced, startBankroll, c);
      var next := if d.Accept? then betsPlaced + 1 else betsPlaced;
      RunConcatenates(sport, sc, bankroll, startBankroll, next, tail, second);
      var rest := Run(sport, sc, bankroll, startBankroll, next, tail);
      var r2 := Run(sport, sc, bankroll, startBankroll, rest.betsPlaced, second);
      if d.Accept? {
        assert Run(sport, sc, bankroll, startBankroll, betsPlaced, first) == Then([d.suggestion], rest);
        ThenAssociates([d.suggestion], rest.suggestions, r2);
      } else {
        assert Run(sport, sc, bankroll, startBankroll, betsPlaced, first) == rest;
      }
    }
  }

  lemma ThenAssociates(e1: seq<Suggestion>, e2: seq<Suggestion>, rest: RunResult)
    ensures Then(e1, Then(e2, rest)) == Then(e1 + e2, rest)
  {
    assert e1 + (e2 + rest.suggestions) == (e1 + e2) + rest.suggestions;
  }

  /** A vetoed candidate adds no suggestion and leaves the bet count as it was. */
  lemma RejectedCandidateChangesNothing(sport: Sport, sc: SafetyConfig, bankroll: real, startBankroll: real,
                                        betsPlaced: int, c: Candidate, rest: seq<Candidate>)
    requires ProbsFit(sport, c) && AllFit(sport, rest)
    requires Decide(sport, sc, bankroll, betsPlaced, startBankroll, c).Reject?
    ensures AllFit(sport, [c] + rest)
    ensures Run(sport, sc, bankroll, startBankroll, betsPlaced, [c] + rest)
         == Run(sport, sc, bankroll, startBankroll, betsPlaced, rest)
  {
    assert ([c] + rest)[1..] == rest;
  }

  /** The bankroll is not updated inside a pass, so with the bankroll equal
      to the start bankroll (as `main` sets it up) and a positive loss limit,
      the daily guard only ever rejects for the bet count. */
  lemma LossGuardInertAtStartBankroll(sport: Sport, sc: SafetyConfig, bankroll: real, betsPlaced: int, c: Candidate)
    requires ProbsFit(sport, c) && sc.dailyLossLimitPct > 0.0
    ensures Decide(sport, sc, bankroll, betsPlaced, bankroll, c) == Reject(DailyLimitReached)
        ==> betsPlaced >= sc.maxBetsPerDay
  {
    UnchangedBankrollOnlyCountMatters(betsPlaced, bankroll, sc.maxBetsPerDay, sc.dailyLossLimitPct);
  }

  /** The allowlist is checked before the edge: with the allowlist {A, B},
      a match involving C is rejected as not allowed, however large its edge. */
  lemma AllowlistVetoComesFirst(sport: Sport, bankroll: real, betsPlaced: int, c: Candidate)
    requires ProbsFit(sport, c) && !c.killSwitch
    requires c.home == "C" || c.away == "C"
    ensures Decide(sport, Defaults.(allowedTeams := ["A", "B"]), bankroll, betsPlaced, bankroll, c)
         == Reject(NotAllowed)
  {
  }

  /** With the default configuration, odds 2.00 / 4.00 / 4.00 (implied 0.50,
      0.25, 0.25) and a home probability of 0.60 give an edge of 0.10, which passes, and a
      stake of 10.00 out of a 1000 bankroll. */
  lemma DefaultSoccerExample(date: Date)
    ensures var c := Candidate(date, "A", "B", 2.0, 4.0, 4.0, 0.5, 0.25, 0.25, [0.15, 0.25, 0.6], false);
      ProbsFit(Soccer, c)
      && Run(Soccer, Defaults, 1000.0, 1000.0, 0, [c]).suggestions
         == [Suggestion(Soccer, date, "A", "B", Home, 2.0, 0.1, 10.0)]
  {
    var c := Candidate(date, "A", "B", 2.0, 4.0, 4.0, 0.5, 0.25, 0.25, [0.15, 0.25, 0.6], false);
    assert PickSoccer(c) == Home;
    RoundCentsKeepsCents(10.0);
    assert [c][1..] == [];
  }

  // ---------------------------------------------------------------------
  // Selecting the live rows
  // ---------------------------------------------------------------------

  /** The live rows as the source recovers them: history and live rows are
      sorted together by date, and the last |live| rows are taken. */
  function LiveRows(hist: seq<Features.Match>, live: seq<Features.Match>): (rows: seq<Features.Match>)
    ensures |rows| == |live|
  {
    Features.SortByDate(hist + live)[|hist|..]
  }

  /** When every live row is dated strictly after every historical row, the
      rows recovered are exactly the live rows, in date order. */
  lemma LiveRowsWhenLiveSortsLast(hist: seq<Features.Match>, live: seq<Features.Match>)
    requires forall h, l :: h in hist && l in live ==> h.date < l.date
    ensures LiveRows(hist, live) == Features.SortByDate(live)
    ensures multiset(LiveRows(hist, live)) == multiset(live)
  {
    Features.SortSplits(hist, live);
    var sh := Features.SortByDate(hist);
    assert (sh + Features.SortByDate(live))[|hist|..] == Features.SortByDate(live);
  }

  /** Without that ordering the recovered rows can be historical ones: one
      live row dated before one historical row yields the historical row. */
  lemma LiveRowsCanMissLiveRows(h: Features.Match, l: Features.Match)
    requires l.date < h.date
    ensures LiveRows([h], [l]) == [h]
  {
    assert [h] + [l] == [h, l];
    assert [h, l][1..] == [l];
    assert Features.SortByDate([l]) == [l];
    assert Features.SortByDate([h, l]) == [l, h];
  }
}
