/** The fraud-decision rule of `FraudDetectionSystem.check_for_fraud`.

    A transaction is judged against the account's prior transactions and a
    location blacklist. A blacklisted location blocks outright; otherwise three
    independent signals (high value, high velocity, location anomaly) are
    evaluated and folded into one result: flags are OR-ed, weights are summed.

    Time is an integer number of microseconds, the resolution of Python's
    `datetime`, so every `timedelta(minutes = m)` is exactly `m * MINUTE`.
 */
module Fraud {

  datatype Option<T> = None | Some(value: T)

  /** One minute on the microsecond clock. */
  const MINUTE: int := 60_000_000

  /** An amount strictly above this is a high-value transaction. */
  const HIGH_VALUE_LIMIT: int := 10000
  /** Prior transactions at most this old (inclusive) count towards velocity. */
  const VELOCITY_WINDOW: int := 60 * MINUTE
  /** More than this many recent transactions is high velocity. */
  const VELOCITY_LIMIT: nat := 10
  /** A location change strictly younger than this is an anomaly. */
  const ANOMALY_WINDOW: int := 30 * MINUTE

  const HIGH_VALUE_WEIGHT: int := 50
  const VELOCITY_WEIGHT: int := 30
  const ANOMALY_WEIGHT: int := 20
  /** The fixed score of a blacklisted location. */
  const BLACKLIST_SCORE: int := 100

  datatype Transaction = Transaction(amount: int, location: string, timestamp: int)

  datatype FraudCheckResult = FraudCheckResult(
    isFraudulent: bool,
    isBlocked: bool,
    verificationRequired: bool,
    riskScore: int)

  /** The result when nothing fires, the unit of `Join`. */
  const Clear: FraudCheckResult := FraudCheckResult(false, false, false, 0)

  /** The result for a blacklisted location: blocked only, fixed score. */
  const BlacklistResult: FraudCheckResult := FraudCheckResult(false, true, false, BLACKLIST_SCORE)

  /** The three signals evaluated when the location is not blacklisted. */
  datatype Signal = HighValue | HighVelocity | LocationAnomaly

  // ---------------------------------------------------------------------------
  // Signal evaluators
  // ---------------------------------------------------------------------------

  predicate IsHighValue(current: Transaction) {
    current.amount > HIGH_VALUE_LIMIT
  }

  /** `t` is no later than `current` and at most VELOCITY_WINDOW older. */
  predicate InVelocityWindow(current: Transaction, t: Transaction) {
    0 <= current.timestamp - t.timestamp <= VELOCITY_WINDOW
  }

  /** The number of history entries inside the velocity window of `current`. */
  function RecentCount(current: Transaction, history: seq<Transaction>): (n: nat)
    ensures n <= |history|
  {
    if history == [] then 0
    else (if InVelocityWindow(current, history[0]) then 1 else 0) + RecentCount(current, history[1..])
  }

  predicate HasHighVelocity(current: Transaction, history: seq<Transaction>) {
    RecentCount(current, history) > VELOCITY_LIMIT
  }

  /** `t` happened no later than `current`. */
  predicate IsPrior(current: Transaction, t: Transaction) {
    t.timestamp <= current.timestamp
  }

  /** Index `k` holds the most recent prior transaction: it is prior, no prior
      entry is later, and no prior entry after it in the list shares its
      timestamp (ties go to the later entry in list order). */
  predicate IsMostRecentPrior(current: Transaction, history: seq<Transaction>, k: int) {
    && 0 <= k < |history|
    && IsPrior(current, history[k])
    && (forall i :: 0 <= i < |history| && IsPrior(current, history[i]) ==>
          history[i].timestamp <= history[k].timestamp)
    && (forall i :: k < i < |history| && IsPrior(current, history[i]) ==>
          history[i].timestamp < history[k].timestamp)
  }

  /** The index of the most recent prior transaction, or None when no entry of
      the history is prior to `current`. */
  function LastPriorIndex(current: Transaction, history: seq<Transaction>): (r: Option<nat>)
    ensures r.None? <==> forall i :: 0 <= i < |history| ==> !IsPrior(current, history[i])
    ensures r.Some? ==> IsMostRecentPrior(current, history, r.value)
  {
    if history == [] then None
    else
      var n := |history| - 1;
      var before := LastPriorIndex(current, history[..n]);
      if IsPrior(current, history[n]) && (before.None? || history[before.value].timestamp <= history[n].timestamp)
      then Some(n)
      else before
  }

  /** The most recent prior transaction is at another location and strictly
      less than ANOMALY_WINDOW older than `current`. */
  predicate HasLocationAnomaly(current: Transaction, history: seq<Transaction>)
    ensures HasLocationAnomaly(current, history) <==>
      exists k :: IsMostRecentPrior(current, history, k)
        && history[k].location != current.location
        && current.timestamp - history[k].timestamp < ANOMALY_WINDOW
  {
    match LastPriorIndex(current, history)
    case None => false
    case Some(k) =>
      history[k].location != current.location
      && current.timestamp - history[k].timestamp < ANOMALY_WINDOW
  }

  // ---------------------------------------------------------------------------
  // Decision combiner
  // ---------------------------------------------------------------------------

  /** What one fired signal contributes to the result. */
  function Effect(s: Signal): FraudCheckResult {
    match s
    case HighValue => FraudCheckResult(true, false, true, HIGH_VALUE_WEIGHT)
    case HighVelocity => FraudCheckResult(false, true, false, VELOCITY_WEIGHT)
    case LocationAnomaly => FraudCheckResult(true, false, true, ANOMALY_WEIGHT)
  }

  /** Flags are OR-ed, scores are added. */
  function Join(a: FraudCheckResult, b: FraudCheckResult): FraudCheckResult {
    FraudCheckResult(
      a.isFraudulent || b.isFraudulent,
      a.isBlocked || b.isBlocked,
      a.verificationRequired || b.verificationRequired,
      a.riskScore + b.riskScore)
  }

  /** Folds the effects of the fired signals. Each flag is set exactly when a
      signal that sets it fired, and the score weighs every occurrence. */
  function Combine(signals: seq<Signal>): (r: FraudCheckResult)
    ensures r.isFraudulent <==> HighValue in signals || LocationAnomaly in signals
    ensures r.verificationRequired == r.isFraudulent
    ensures r.isBlocked <==> HighVelocity in signals
    ensures r.riskScore ==
      HIGH_VALUE_WEIGHT * multiset(signals)[HighValue]
      + VELOCITY_WEIGHT * multiset(signals)[HighVelocity]
      + ANOMALY_WEIGHT * multiset(signals)[LocationAnomaly]
  {
    if signals == [] then Clear
    else
      var s, rest := signals[0], signals[1..];
      assert signals == [s] + rest;
      assert multiset(signals) == multiset{s} + multiset(rest);
      assert forall k :: k in signals <==> k == s || k in rest;
      Join(Effect(s), Combine(rest))
  }

  /** The signals that fire for `current`, each at most once. */
  function FiredSignals(current: Transaction, history: seq<Transaction>): seq<Signal> {
    (if IsHighValue(current) then [HighValue] else [])
    + (if HasHighVelocity(current, history) then [HighVelocity] else [])
    + (if HasLocationAnomaly(current, history) then [LocationAnomaly] else [])
  }

  /** `check_for_fraud(current, previous_transactions, blacklist)`.
      A blacklisted location short-circuits to BlacklistResult; otherwise the
      result is fraudulent (and needs verification) exactly on a high value or
      a location anomaly, blocked exactly on high velocity, and scores the sum
      of the weights of the signals that fired. */
  function CheckForFraud(current: Transaction, history: seq<Transaction>, blacklist: seq<string>): (r: FraudCheckResult)
    ensures current.location in blacklist ==> r == FraudCheckResult(false, true, false, 100)
    ensures current.location !in blacklist ==>
      && (r.isFraudulent <==> current.amount > 10000 || HasLocationAnomaly(current, history))
      && r.verificationRequired == r.isFraudulent
      && (r.isBlocked <==> RecentCount(current, history) > 10)
      && r.riskScore ==
           (if current.amount > 10000 then 50 else 0)
           + (if RecentCount(current, history) > 10 then 30 else 0)
           + (if HasLocationAnomaly(current, history) then 20 else 0)
  {
    if current.location in blacklist then BlacklistResult
    else Combine(FiredSignals(current, history))
  }
}
