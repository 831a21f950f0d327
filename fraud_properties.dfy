/** Properties of the fraud-decision rule: what the velocity count means, how
    the most recent prior transaction is determined, which results are
    possible, and how the decision reacts to changes of its inputs. */
module FraudProperties {
  import opened Fraud

  // ---------------------------------------------------------------------------
  // Velocity count
  // ---------------------------------------------------------------------------

  /** The indices of the history entries inside the velocity window. */
  ghost function RecentIndices(current: Transaction, history: seq<Transaction>): set<int> {
    set i | 0 <= i < |history| && InVelocityWindow(current, history[i])
  }

  /** Counting distributes over concatenation of histories. */
  lemma {:induction false} RecentCountAppend(current: Transaction, a: seq<Transaction>, b: seq<Transaction>)
    ensures RecentCount(current, a + b) == RecentCount(current, a) + RecentCount(current, b)
  {
    if a != [] {
      assert (a + b)[1..] == a[1..] + b;
      RecentCountAppend(current, a[1..], b);
    } else {
      assert a + b == b;
    }
  }

  /** RecentCount is the number of history entries inside the window. */
  lemma {:induction false} RecentCountIsCardinality(current: Transaction, history: seq<Transaction>)
    ensures RecentCount(current, history) == |RecentIndices(current, history)|
  {
    if history == [] {
      assert RecentIndices(current, history) == {};
    } else {
      var n := |history| - 1;
      var init := history[..n];
      RecentCountIsCardinality(current, init);
      assert history == init + [history[n]];
      RecentCountAppend(current, init, [history[n]]);
      var last := if InVelocityWindow(current, history[n]) then {n} else {};
      assert RecentIndices(current, history) == RecentIndices(current, init) + last;
      assert n !in RecentIndices(current, init);
    }
  }

  /** Removing the entry at `k` lowers the count by that entry's share. */
  lemma RecentCountRemove(current: Transaction, history: seq<Transaction>, k: int)
    requires 0 <= k < |history|
    ensures RecentCount(current, history)
         == (if InVelocityWindow(current, history[k]) then 1 else 0)
            + RecentCount(current, history[..k] + history[k + 1..])
  {
    var x, before, after := history[k], history[..k], history[k + 1..];
    assert history == before + ([x] + after);
    RecentCountAppend(current, before, [x] + after);
    RecentCountAppend(current, [x], after);
    RecentCountAppend(current, before, after);
  }

  /** Taking the same element out of two equal multisets of histories leaves
      equal multisets. */
  lemma MultisetRemove(h1: seq<Transaction>, h2: seq<Transaction>, k: int)
    requires multiset(h1) == multiset(h2)
    requires h1 != [] && 0 <= k < |h2| && h2[k] == h1[0]
    ensures multiset(h1[1..]) == multiset(h2[..k] + h2[k + 1..])
  {
    var x, rest := h1[0], h2[..k] + h2[k + 1..];
    assert h1 == [x] + h1[1..];
    assert h2 == h2[..k] + [x] + h2[k + 1..];
    assert multiset(h2) == multiset(h2[..k]) + multiset{x} + multiset(h2[k + 1..]);
    assert multiset(rest) == multiset(h2[..k]) + multiset(h2[k + 1..]);
    assert multiset(h1) == multiset{x} + multiset(h1[1..]);
    forall y ensures multiset(h1[1..])[y] == multiset(rest)[y] {
      assert multiset(h1)[y] == multiset(h2)[y];
    }
  }

  /** The count does not depend on the order of the history. */
  lemma {:induction false} RecentCountPermutation(current: Transaction, h1: seq<Transaction>, h2: seq<Transaction>)
    requires multiset(h1) == multiset(h2)
    ensures RecentCount(current, h1) == RecentCount(current, h2)
  {
    if h1 == [] {
      assert |h2| == |multiset(h2)| == 0;
    } else {
      assert h1[0] in multiset(h2);
      var k :| 0 <= k < |h2| && h2[k] == h1[0];
      MultisetRemove(h1, h2, k);
      RecentCountPermutation(current, h1[1..], h2[..k] + h2[k + 1..]);
      RecentCountRemove(current, h2, k);
    }
  }

  /** Every entry inside the window: all of them count. */
  lemma {:induction false} RecentCountAllInWindow(current: Transaction, history: seq<Transaction>)
    requires forall i :: 0 <= i < |history| ==> InVelocityWindow(current, history[i])
    ensures RecentCount(current, history) == |history|
  {
    if history != [] {
      RecentCountAllInWindow(current, history[1..]);
    }
  }

  /** No entry inside the window: the count is zero. */
  lemma {:induction false} RecentCountNoneInWindow(current: Transaction, history: seq<Transaction>)
    requires forall i :: 0 <= i < |history| ==> !InVelocityWindow(current, history[i])
    ensures RecentCount(current, history) == 0
  {
    if history != [] {
      RecentCountNoneInWindow(current, history[1..]);
    }
  }

  /** A longer history never lowers the count, so a blocked decision stays
      blocked when more transactions are known. */
  lemma BlockedPersistsAsHistoryGrows(current: Transaction, history: seq<Transaction>, more: seq<Transaction>, blacklist: seq<string>)
    requires CheckForFraud(current, history, blacklist).isBlocked
    ensures CheckForFraud(current, history + more, blacklist).isBlocked
  {
    RecentCountAppend(current, history, more);
  }

  // ---------------------------------------------------------------------------
  // Most recent prior transaction
  // ---------------------------------------------------------------------------

  /** At most one index is the most recent prior transaction. */
  lemma MostRecentPriorIsUnique(current: Transaction, history: seq<Transaction>, j: int, k: int)
    requires IsMostRecentPrior(current, history, j)
    requires IsMostRecentPrior(current, history, k)
    ensures j == k
  {
  }

  /** LastPriorIndex picks exactly the index that IsMostRecentPrior describes. */
  lemma LastPriorIndexIsMostRecentPrior(current: Transaction, history: seq<Transaction>, k: int)
    ensures LastPriorIndex(current, history) == Some(k) <==> IsMostRecentPrior(current, history, k)
  {
    if IsMostRecentPrior(current, history, k) {
      var r := LastPriorIndex(current, history);
      MostRecentPriorIsUnique(current, history, r.value, k);
    }
  }

  /** For a chronological history of prior transactions, the most recent prior
      transaction is simply the last entry of the list. */
  lemma ChronologicalHistoryLastIsMostRecent(current: Transaction, history: seq<Transaction>)
    requires history != []
    requires forall i, j :: 0 <= i < j < |history| ==> history[i].timestamp <= history[j].timestamp
    requires forall i :: 0 <= i < |history| ==> IsPrior(current, history[i])
    ensures LastPriorIndex(current, history) == Some(|history| - 1)
  {
    LastPriorIndexIsMostRecentPrior(current, history, |history| - 1);
  }

  /** No anomaly when every history entry is at the current location. */
  lemma SameLocationHasNoAnomaly(current: Transaction, history: seq<Transaction>)
    requires forall i :: 0 <= i < |history| ==> history[i].location == current.location
    ensures !HasLocationAnomaly(current, history)
  {
  }

  /** The other reading of "most recent prior transaction": the last entry
      of the list, whatever its timestamp. */
  predicate HasLastEntryAnomaly(current: Transaction, history: seq<Transaction>) {
    && history != []
    && history[|history| - 1].location != current.location
    && current.timestamp - history[|history| - 1].timestamp < ANOMALY_WINDOW
  }

  /** Both readings agree on a history of one prior entry, on a history
      entirely at the current location, and on a history entirely at least
      ANOMALY_WINDOW old. */
  lemma AnomalyReadingsAgree(current: Transaction, history: seq<Transaction>)
    requires || (|history| == 1 && IsPrior(current, history[0]))
             || (forall i :: 0 <= i < |history| ==> history[i].location == current.location)
             || (forall i :: 0 <= i < |history| ==> current.timestamp - history[i].timestamp >= ANOMALY_WINDOW)
    ensures HasLocationAnomaly(current, history) == HasLastEntryAnomaly(current, history)
  {
    if |history| == 1 && IsPrior(current, history[0]) {
      LastPriorIndexIsMostRecentPrior(current, history, 0);
    } else if forall i :: 0 <= i < |history| ==> history[i].location == current.location {
      SameLocationHasNoAnomaly(current, history);
    } else {
      OldHistoryHasNoAnomaly(current, history);
    }
  }

  /** No anomaly when every prior entry is at least ANOMALY_WINDOW old. */
  lemma OldHistoryHasNoAnomaly(current: Transaction, history: seq<Transaction>)
    requires forall i :: 0 <= i < |history| ==> current.timestamp - history[i].timestamp >= ANOMALY_WINDOW
    ensures !HasLocationAnomaly(current, history)
  {
  }

  // ---------------------------------------------------------------------------
  // Shape of the result
  // ---------------------------------------------------------------------------

  /** Fraud and verification always go together. */
  lemma FraudIffVerification(current: Transaction, history: seq<Transaction>, blacklist: seq<string>)
    ensures CheckForFraud(current, history, blacklist).isFraudulent
        == CheckForFraud(current, history, blacklist).verificationRequired
  {
  }

  /** The score is a sum of a subset of {50, 30, 20}, or the blacklist's 100. */
  lemma ScoreValues(current: Transaction, history: seq<Transaction>, blacklist: seq<string>)
    ensures CheckForFraud(current, history, blacklist).riskScore in {0, 20, 30, 50, 70, 80, 100}
  {
  }

  /** A blacklisted location is recognised by its result alone: blocked, not
      fraudulent and scored 100. Without the blacklist, a blocked and not
      fraudulent result scores exactly 30. */
  lemma BlacklistResultIsDistinct(current: Transaction, history: seq<Transaction>, blacklist: seq<string>)
    ensures var r := CheckForFraud(current, history, blacklist);
      current.location in blacklist <==> r.isBlocked && !r.isFraudulent && r.riskScore == 100
  {
  }

  /** The blacklist wins whatever the amount and history are. */
  lemma BlacklistOverridesEverySignal(current: Transaction, history: seq<Transaction>, blacklist: seq<string>)
    requires current.location in blacklist
    ensures CheckForFraud(current, history, blacklist) == BlacklistResult
    ensures CheckForFraud(current, history, blacklist)
         == CheckForFraud(current.(amount := 0), [], blacklist)
  {
  }

  /** High velocity alone blocks and never marks the transaction fraudulent. */
  lemma VelocityOnlyBlocks(current: Transaction, history: seq<Transaction>, blacklist: seq<string>)
    requires current.location !in blacklist
    requires !IsHighValue(current) && !HasLocationAnomaly(current, history)
    ensures CheckForFraud(current, history, blacklist)
         == if HasHighVelocity(current, history) then FraudCheckResult(false, true, false, 30) else Clear
  {
  }

  /** Score 100 does not identify the blacklist: all three signals together
      also score 50 + 30 + 20 = 100, with every flag set. */
  lemma AllThreeSignalsScoreHundred()
    ensures CheckForFraud(
              Transaction(20000, "A", 0),
              seq(11, _ => Transaction(10, "C", 0)),
              []) == FraudCheckResult(true, true, true, 100)
  {
    var current := Transaction(20000, "A", 0);
    var history := seq(11, _ => Transaction(10, "C", 0));
    RecentCountAllInWindow(current, history);
  }

  // ---------------------------------------------------------------------------
  // Dependence on the inputs
  // ---------------------------------------------------------------------------

  /** The velocity count and the choice of the most recent prior transaction
      look only at the current timestamp. */
  lemma {:induction false} HistorySignalsIgnoreAmount(current: Transaction, history: seq<Transaction>, amount: int)
    ensures RecentCount(current.(amount := amount), history) == RecentCount(current, history)
    ensures LastPriorIndex(current.(amount := amount), history) == LastPriorIndex(current, history)
  {
    if history != [] {
      HistorySignalsIgnoreAmount(current, history[1..], amount);
      HistorySignalsIgnoreAmount(current, history[..|history| - 1], amount);
    }
  }

  /** Raising the amount never lowers the score, never clears the fraud flag
      and never changes the block decision. */
  lemma HigherAmountNeverLowersRisk(current: Transaction, history: seq<Transaction>, blacklist: seq<string>, amount: int)
    requires amount >= current.amount
    ensures var r := CheckForFraud(current, history, blacklist);
      var r' := CheckForFraud(current.(amount := amount), history, blacklist);
      && r.riskScore <= r'.riskScore
      && (r.isFraudulent ==> r'.isFraudulent)
      && r.isBlocked == r'.isBlocked
  {
    HistorySignalsIgnoreAmount(current, history, amount);
  }

  /** No two prior entries share a timestamp at different locations, so the
      tie-break of LastPriorIndex cannot matter. */
  ghost predicate TieFree(current: Transaction, history: seq<Transaction>) {
    forall i, j :: 0 <= i < |history| && 0 <= j < |history|
      && IsPrior(current, history[i]) && IsPrior(current, history[j])
      && history[i].timestamp == history[j].timestamp
      ==> history[i].location == history[j].location
  }

  /** A prior entry of one history is a prior entry of any reordering of it. */
  lemma PriorSurvivesPermutation(h1: seq<Transaction>, h2: seq<Transaction>, i: int)
    requires multiset(h1) == multiset(h2)
    requires 0 <= i < |h1|
    ensures exists j :: 0 <= j < |h2| && h2[j] == h1[i]
  {
    assert h1[i] in multiset(h2);
  }

  /** Without ties, the decision does not depend on the order of the history. */
  lemma CheckForFraudPermutation(current: Transaction, h1: seq<Transaction>, h2: seq<Transaction>, blacklist: seq<string>)
    requires multiset(h1) == multiset(h2)
    requires TieFree(current, h1)
    ensures CheckForFraud(current, h1, blacklist) == CheckForFraud(current, h2, blacklist)
  {
    RecentCountPermutation(current, h1, h2);
    var r1, r2 := LastPriorIndex(current, h1), LastPriorIndex(current, h2);
    if r1.Some? {
      PriorSurvivesPermutation(h1, h2, r1.value);
    }
    if r2.Some? {
      PriorSurvivesPermutation(h2, h1, r2.value);
    }
    if r1.Some? {
      var k1, k2 := r1.value, r2.value;
      var i :| 0 <= i < |h1| && h1[i] == h2[k2];
      var j :| 0 <= j < |h2| && h2[j] == h1[k1];
      assert h1[k1].timestamp == h2[k2].timestamp;
      assert h1[k1].location == h1[i].location;
    }
  }

  /** With a tie, order does matter: two prior entries of the same timestamp at
      different locations decide the anomaly by which one comes last. */
  lemma TieBreakFollowsListOrder()
    ensures CheckForFraud(
              Transaction(100, "A", 0),
              [Transaction(10, "B", 0), Transaction(10, "A", 0)],
              []) == Clear
    ensures CheckForFraud(
              Transaction(100, "A", 0),
              [Transaction(10, "A", 0), Transaction(10, "B", 0)],
              []) == FraudCheckResult(true, false, true, 20)
  {
    var current := Transaction(100, "A", 0);
    var h := [Transaction(10, "A", 0), Transaction(10, "B", 0)];
    assert h[..1] == [Transaction(10, "A", 0)];
    var g := [Transaction(10, "B", 0), Transaction(10, "A", 0)];
    assert g[..1] == [Transaction(10, "B", 0)];
  }
}
