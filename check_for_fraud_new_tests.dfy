/** The boundary rows of `test_check_for_fraud` in
    tests/test_check_for_fraud_new.py, each proved for every base time.

    The test reads the clock once (`base_time`) and builds every transaction
    from it with `_mk_tx`, so all timestamps are exact multiples of a minute
    apart. Every row uses the blacklist `["B"]` and a current location "A". */
module CheckForFraudNewTests {
  import opened Fraud
  import opened FraudProperties

  /** `_mk_tx(amount, location, base_time, minutes_ago)`. */
  function MkTx(amount: int, location: string, baseTime: int, minutesAgo: int): (t: Transaction)
    ensures t.amount == amount && t.location == location
    ensures baseTime - t.timestamp == minutesAgo * MINUTE
  {
    Transaction(amount, location, baseTime - minutesAgo * MINUTE)
  }

  /** The prior transactions built from a row's `prev_trans_data` of
      `(amount, location, minutes_ago)` triples. */
  function PrevTrans(data: seq<(int, string, int)>, baseTime: int): (h: seq<Transaction>)
    ensures |h| == |data|
    ensures forall i :: 0 <= i < |data| ==> h[i] == MkTx(data[i].0, data[i].1, baseTime, data[i].2)
  {
    seq(|data|, i requires 0 <= i < |data| => MkTx(data[i].0, data[i].1, baseTime, data[i].2))
  }

  /** One run of the test body: the current transaction is built from the
      row's own amount and location, zero minutes ago; the comprehension that
      builds the history does not rebind them. */
  function RunRow(amount: int, data: seq<(int, string, int)>, location: string, blacklist: seq<string>, baseTime: int): (r: FraudCheckResult)
    ensures location in blacklist ==> r == BlacklistResult
    ensures location !in blacklist ==>
      (r.isFraudulent <==>
         amount > 10000 || HasLocationAnomaly(MkTx(amount, location, baseTime, 0), PrevTrans(data, baseTime)))
    ensures location !in blacklist ==>
      (r.isBlocked <==> RecentCount(MkTx(amount, location, baseTime, 0), PrevTrans(data, baseTime)) > 10)
  {
    CheckForFraud(MkTx(amount, location, baseTime, 0), PrevTrans(data, baseTime), blacklist)
  }

  /** `[(10, location, i) for i in range(n)]`. */
  function Spread(location: string, n: nat): (data: seq<(int, string, int)>)
    ensures |data| == n
    ensures forall i :: 0 <= i < n ==> data[i] == (10, location, i)
  {
    seq(n, i => (10, location, i))
  }

  /** `[(10, location, minutes) for _ in range(n)]`. */
  function Repeated(location: string, minutes: int, n: nat): (data: seq<(int, string, int)>)
    ensures |data| == n
    ensures forall i :: 0 <= i < n ==> data[i] == (10, location, minutes)
  {
    seq(n, _ => (10, location, minutes))
  }

  /** The high-value threshold is strict: 10000 raises nothing. */
  lemma AmountTenThousandIsNotHighValue(baseTime: int)
    ensures RunRow(10000, [], "A", ["B"], baseTime) == FraudCheckResult(false, false, false, 0)
  {
  }

  /** 10001 is high value: fraudulent, verification, score 50, not blocked. */
  lemma AmountTenThousandOneIsHighValue(baseTime: int)
    ensures RunRow(10001, [], "A", ["B"], baseTime) == FraudCheckResult(true, false, true, 50)
  {
  }

  /** Ten transactions within the hour (0..9 minutes old) do not block. */
  lemma TenRecentTransactionsDoNotBlock(baseTime: int)
    ensures RunRow(100, Spread("A", 10), "A", ["B"], baseTime) == FraudCheckResult(false, false, false, 0)
  {
    var current := MkTx(100, "A", baseTime, 0);
    var history := PrevTrans(Spread("A", 10), baseTime);
    RecentCountAllInWindow(current, history);
    SameLocationHasNoAnomaly(current, history);
  }

  /** Eleven transactions 61 minutes old lie outside the window. */
  lemma ElevenTransactionsSixtyOneMinutesOldDoNotBlock(baseTime: int)
    ensures RunRow(100, Repeated("C", 61, 11), "A", ["B"], baseTime) == FraudCheckResult(false, false, false, 0)
  {
    var current := MkTx(100, "A", baseTime, 0);
    var history := PrevTrans(Repeated("C", 61, 11), baseTime);
    RecentCountNoneInWindow(current, history);
    OldHistoryHasNoAnomaly(current, history);
  }

  /** The window is inclusive: eleven transactions exactly 60 minutes old block. */
  lemma ElevenTransactionsSixtyMinutesOldBlock(baseTime: int)
    ensures RunRow(100, Repeated("C", 60, 11), "A", ["B"], baseTime) == FraudCheckResult(false, true, false, 30)
  {
    var current := MkTx(100, "A", baseTime, 0);
    var history := PrevTrans(Repeated("C", 60, 11), baseTime);
    RecentCountAllInWindow(current, history);
    OldHistoryHasNoAnomaly(current, history);
  }

  /** Eleven transactions 0..10 minutes old block; the one of the same instant counts. */
  lemma ElevenRecentTransactionsBlock(baseTime: int)
    ensures RunRow(100, Spread("A", 11), "A", ["B"], baseTime) == FraudCheckResult(false, true, false, 30)
  {
    var current := MkTx(100, "A", baseTime, 0);
    var history := PrevTrans(Spread("A", 11), baseTime);
    RecentCountAllInWindow(current, history);
    SameLocationHasNoAnomaly(current, history);
  }

  /** High value and velocity combine: all flags, score 50 + 30. */
  lemma HighValueAndVelocityCombine(baseTime: int)
    ensures RunRow(20000, Spread("A", 11), "A", ["B"], baseTime) == FraudCheckResult(true, true, true, 80)
  {
    var current := MkTx(20000, "A", baseTime, 0);
    var history := PrevTrans(Spread("A", 11), baseTime);
    RecentCountAllInWindow(current, history);
    SameLocationHasNoAnomaly(current, history);
  }

  /** A location change exactly 30 minutes ago is not an anomaly. */
  lemma LocationChangeThirtyMinutesAgoIsNoAnomaly(baseTime: int)
    ensures RunRow(100, [(10, "C", 30)], "A", ["B"], baseTime) == FraudCheckResult(false, false, false, 0)
  {
    var current := MkTx(100, "A", baseTime, 0);
    var history := PrevTrans([(10, "C", 30)], baseTime);
    assert history == [MkTx(10, "C", baseTime, 30)];
    OldHistoryHasNoAnomaly(current, history);
  }

  /** High value and an anomaly 29 minutes ago combine: score 50 + 20, not blocked. */
  lemma HighValueAndAnomalyCombine(baseTime: int)
    ensures RunRow(20000, [(10, "C", 29)], "A", ["B"], baseTime) == FraudCheckResult(true, false, true, 70)
  {
    var current := MkTx(20000, "A", baseTime, 0);
    var history := PrevTrans([(10, "C", 29)], baseTime);
    assert history == [MkTx(10, "C", baseTime, 29)];
    LastPriorIndexIsMostRecentPrior(current, history, 0);
  }

  /** The histories built from `range(n)` are newest-first: entry i is i
      minutes old. So the most recent prior transaction is the first entry,
      while the last entry of the list is the oldest. */
  lemma SpreadHistoryIsNewestFirst(current: Transaction, location: string, n: nat, baseTime: int)
    requires n > 0 && current.timestamp == baseTime
    ensures var h := PrevTrans(Spread(location, n), baseTime);
      && (forall i, j :: 0 <= i < j < n ==> h[j].timestamp < h[i].timestamp)
      && LastPriorIndex(current, h) == Some(0)
  {
    var h := PrevTrans(Spread(location, n), baseTime);
    LastPriorIndexIsMostRecentPrior(current, h, 0);
  }

  /** The histories built from `for _ in range(n)` share one timestamp: every
      entry ties, and the tie goes to the last entry of the list. */
  lemma RepeatedHistoryPicksLastEntry(current: Transaction, location: string, minutes: nat, n: nat, baseTime: int)
    requires n > 0 && current.timestamp == baseTime
    ensures var h := PrevTrans(Repeated(location, minutes, n), baseTime);
      && (forall i, j :: 0 <= i < j < n ==> h[j].timestamp == h[i].timestamp)
      && LastPriorIndex(current, h) == Some(n - 1)
  {
    var h := PrevTrans(Repeated(location, minutes, n), baseTime);
    LastPriorIndexIsMostRecentPrior(current, h, n - 1);
  }

  /** Reading "most recent prior transaction" as the last list entry instead
      changes no row: every history of the table is empty, has one prior entry,
      lies entirely at the current location, or lies entirely at least 30
      minutes in the past. */
  lemma RowsAgreeOnLastEntryReading(baseTime: int)
    ensures HasLocationAnomaly(MkTx(10000, "A", baseTime, 0), PrevTrans([], baseTime))
         == HasLastEntryAnomaly(MkTx(10000, "A", baseTime, 0), PrevTrans([], baseTime))
    ensures HasLocationAnomaly(MkTx(10001, "A", baseTime, 0), PrevTrans([], baseTime))
         == HasLastEntryAnomaly(MkTx(10001, "A", baseTime, 0), PrevTrans([], baseTime))
    ensures var current := MkTx(100, "A", baseTime, 0);
      && HasLocationAnomaly(current, PrevTrans(Spread("A", 10), baseTime))
         == HasLastEntryAnomaly(current, PrevTrans(Spread("A", 10), baseTime))
      && HasLocationAnomaly(current, PrevTrans(Repeated("C", 61, 11), baseTime))
         == HasLastEntryAnomaly(current, PrevTrans(Repeated("C", 61, 11), baseTime))
      && HasLocationAnomaly(current, PrevTrans(Repeated("C", 60, 11), baseTime))
         == HasLastEntryAnomaly(current, PrevTrans(Repeated("C", 60, 11), baseTime))
      && HasLocationAnomaly(current, PrevTrans(Spread("A", 11), baseTime))
         == HasLastEntryAnomaly(current, PrevTrans(Spread("A", 11), baseTime))
      && HasLocationAnomaly(current, PrevTrans([(10, "C", 30)], baseTime))
         == HasLastEntryAnomaly(current, PrevTrans([(10, "C", 30)], baseTime))
    ensures var current := MkTx(20000, "A", baseTime, 0);
      && HasLocationAnomaly(current, PrevTrans(Spread("A", 11), baseTime))
         == HasLastEntryAnomaly(current, PrevTrans(Spread("A", 11), baseTime))
      && HasLocationAnomaly(current, PrevTrans([(10, "C", 29)], baseTime))
         == HasLastEntryAnomaly(current, PrevTrans([(10, "C", 29)], baseTime))
  {
    var current := MkTx(100, "A", baseTime, 0);
    AnomalyReadingsAgree(current, PrevTrans(Spread("A", 10), baseTime));
    AnomalyReadingsAgree(current, PrevTrans(Repeated("C", 61, 11), baseTime));
    AnomalyReadingsAgree(current, PrevTrans(Repeated("C", 60, 11), baseTime));
    AnomalyReadingsAgree(current, PrevTrans(Spread("A", 11), baseTime));
    AnomalyReadingsAgree(current, PrevTrans([(10, "C", 30)], baseTime));
    var high := MkTx(20000, "A", baseTime, 0);
    AnomalyReadingsAgree(high, PrevTrans(Spread("A", 11), baseTime));
    AnomalyReadingsAgree(high, PrevTrans([(10, "C", 29)], baseTime));
  }
}
