/** The read-only risk configuration of one session (the `SafetyConfig`
    record of config.py). Only the fields the decision path reads are kept. */
module Config {
  import opened Common

  datatype SafetyConfig = SafetyConfig(
    bankrollStart: real,       // session-start bankroll
    maxBetPct: real,           // flat stake as a fraction of the bankroll
    dailyLossLimitPct: real,   // loss ratio at which the day stops
    maxBetsPerDay: int,        // bets allowed per session
    edgeThreshold: real,       // smallest edge that may be suggested
    minOdds: real,             // odds band, inclusive at both ends
    maxOdds: real,
    allowedTeams: seq<Team>)   // empty: every team is allowed

  /** The defaults of config.py. */
  const Defaults := SafetyConfig(1000.0, 0.01, 0.05, 10, 0.04, 1.20, 12.0, [])
}
