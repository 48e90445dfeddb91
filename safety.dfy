/** The risk guards of safety.py and the session state they consult. */
module Safety {
  import opened Common

  /** Mutable per-day session state. The suggestion loop increments
      `betsPlaced` in place; nothing in the engine changes the other fields. */
  class DailyRiskState {
    var day: Date
    var betsPlaced: int
    var pnl: real
    var startBankroll: real

    /** A fresh state: no bets yet, no realised profit or loss. */
    constructor (day: Date, startBankroll: real := 0.0)
      ensures this.day == day && this.startBankroll == startBankroll
      ensures betsPlaced == 0 && pnl == 0.0
    {
      this.day := day;
      this.betsPlaced := 0;
      this.pnl := 0.0;
      this.startBankroll := startBankroll;
    }
  }

  /** Both teams must be on the allowlist, unless the allowlist is empty. */
  predicate EnforceAllowlist(teamA: Team, teamB: Team, allowedTeams: seq<Team>): (ok: bool)
    ensures allowedTeams == [] ==> ok
    ensures allowedTeams != [] ==> (ok <==> {teamA, teamB} <= set t | t in allowedTeams)
  {
    if allowedTeams == [] then true
    else teamA in allowedTeams && teamB in allowedTeams
  }

  /** The odds band is closed: both ends are admitted. */
  predicate WithinOddsLimits(odds: real, minOdds: real, maxOdds: real): (ok: bool)
    ensures ok <==> minOdds <= odds <= maxOdds
    ensures odds == minOdds && minOdds <= maxOdds ==> ok
    ensures odds == maxOdds && minOdds <= maxOdds ==> ok
  {
    odds >= minOdds && odds <= maxOdds
  }

  /** The daily-limit guard, given the two fields of the session state it
      reads (`betsPlaced` and `startBankroll`) and the current bankroll.
      The bet count is checked first; a non-positive start bankroll skips the
      loss check; otherwise the loss ratio must stay strictly below the limit,
      which for a positive start bankroll means the bankroll must stay strictly
      above `startBankroll * (1 - dailyLossLimitPct)`. */
  predicate DailyLimitsOk(betsPlaced: int, startBankroll: real, bankroll: real,
                          maxBets: int, dailyLossLimitPct: real): (ok: bool)
    ensures betsPlaced >= maxBets ==> !ok
    ensures betsPlaced < maxBets && startBankroll <= 0.0 ==> ok
    ensures betsPlaced < maxBets && startBankroll > 0.0 ==>
      (ok <==> bankroll > startBankroll * (1.0 - dailyLossLimitPct))
  {
    if betsPlaced >= maxBets then false
    else if startBankroll <= 0.0 then true
    else
      var loss := startBankroll - bankroll;
      LossRatioBelow(loss, startBankroll, dailyLossLimitPct);
      loss / startBankroll < dailyLossLimitPct
  }

  /** For a positive start bankroll, `loss / start < pct` holds exactly when
      the loss is below `pct` of the start. */
  lemma LossRatioBelow(loss: real, start: real, pct: real)
    requires start > 0.0
    ensures loss / start < pct <==> loss < pct * start
  {
    var q := loss / start;
    assert q * start == loss;
    if q < pct {
      assert q * start < pct * start;
    } else {
      assert q * start >= pct * start;
    }
  }

  /** With an empty allowlist every pair of teams passes. */
  lemma EmptyAllowlistAdmitsAll(teamA: Team, teamB: Team)
    ensures EnforceAllowlist(teamA, teamB, [])
  {
  }

  /** With a non-empty allowlist, a single outside team rejects the pair,
      whichever side it plays on. */
  lemma OutsideTeamRejected(teamA: Team, teamB: Team, allowedTeams: seq<Team>)
    requires allowedTeams != []
    requires teamA !in allowedTeams || teamB !in allowedTeams
    ensures !EnforceAllowlist(teamA, teamB, allowedTeams)
    ensures !EnforceAllowlist(teamB, teamA, allowedTeams)
  {
  }

  /** The loss limit is strict: with start 1000 and limit 5%, a bankroll of
      exactly 950 is rejected and 950.01 passes. */
  lemma LossLimitBoundary()
    ensures !DailyLimitsOk(0, 1000.0, 950.0, 10, 0.05)
    ensures DailyLimitsOk(0, 1000.0, 950.01, 10, 0.05)
  {
  }

  /** When the bankroll has not moved from the start bankroll, the loss check
      never rejects for a positive limit: only the bet count decides. */
  lemma UnchangedBankrollOnlyCountMatters(betsPlaced: int, bankroll: real, maxBets: int, pct: real)
    requires pct > 0.0
    ensures DailyLimitsOk(betsPlaced, bankroll, bankroll, maxBets, pct) <==> betsPlaced < maxBets
  {
  }
}
