# Fraud check decision rule

This project models `FraudDetectionSystem.check_for_fraud(current, previous_transactions, blacklist)`,
the fraud-decision rule of the repository. The rule judges one transaction
against the account's earlier transactions and a location blacklist. It
returns a `FraudCheckResult` with the flags `is_fraudulent`, `is_blocked` and
`verification_required` and a `risk_score`. The implementation file
`src/fraud/FraudDetectionSystem.py` is not part of this model. Its behaviour is
taken from the two parametrised test tables that pin it row by row.

The rule as modelled (module `Fraud`, file `fraud.dfy`):

- A current location in the blacklist returns blocked only, with the fixed score 100. Nothing else is evaluated.
- Otherwise three signals are evaluated independently:
  - high value: amount strictly above 10000. It sets fraud and verification and adds 50.
  - high velocity: more than 10 history entries at most 60 minutes older than the current one (inclusive, same instant included). It sets blocked and adds 30.
  - location anomaly: the most recent prior transaction is at another location and strictly less than 30 minutes older. It sets fraud and verification and adds 20.
- Flags are OR-ed and weights summed (`Fraud.Combine`).

Modelling decisions:

- Timestamps are integers in microseconds, the resolution of Python's `datetime`. Every `timedelta(minutes = m)` is exactly `m * MINUTE`.
- The "most recent prior transaction" is the history entry with the largest timestamp not after the current one. On a tie, the later entry in list order wins. The tests cannot tell this apart from "last element of the list". Each test history is empty, has one entry, or has all its entries at one location. In the rows at tests/test_check_for_fraud_new.py:26-32 the eleven entries also share one timestamp, at least 30 minutes old. `CheckForFraudNewTests.RowsAgreeOnLastEntryReading` proves that both readings give the same anomaly decision on every row of that table, the two empty histories included. The histories built with `minutes_ago = i` over `range(n)` (tests/test_check_for_fraud_new.py:23, :35 and :39, tests/old/test_check_for_fraud.py:26) are newest-first: the first entry is the most recent and the last is the oldest (`CheckForFraudNewTests.SpreadHistoryIsNewestFirst`). The histories built with one constant `minutes_ago` over `for _ in range(11)` (tests/test_check_for_fraud_new.py:27 and :31) give every entry the same timestamp, so all of them tie and the last entry is chosen (`CheckForFraudNewTests.RepeatedHistoryPicksLastEntry`). `FraudProperties.ChronologicalHistoryLastIsMostRecent` gives one sufficient condition for the chosen entry to be the last one: a non-empty history in time order whose entries are all prior.
- Entries dated after the current transaction are neither counted for velocity nor considered for the anomaly.
- The blacklist is an early return. Only the blacklist-alone case is tested (tests/old/test_check_for_fraud.py:23), so its precedence over the other signals is an assumption.
- A score of 100 does not by itself identify a blacklisted location. All three signals together also score 50 + 30 + 20 = 100 (`FraudProperties.AllThreeSignalsScoreHundred`). Scores 50 and 100 each arise in two ways. What singles out the blacklist is the result shape "blocked, not fraudulent, 100" (`FraudProperties.BlacklistResultIsDistinct`).
- `tests/old/test_check_for_fraud.py` reads the clock separately for every transaction. Its prior transactions are built when the parameter table is evaluated, and the current one later. Its rows are proved for every clock that does not run backwards, each under a bound on how far the clock advances in between. TC4 (tests/old/test_check_for_fraud.py:25-27) is proved when the entry built i minutes old is still at most 60 minutes old when the current transaction is built, so for a clock advancing at most 49 minutes. This bound is sufficient, not necessary: more than ten entries in the window already block, so eleven of the twelve would do. TC5 (tests/old/test_check_for_fraud.py:29-31) needs its entry, built 10 minutes old, to stay under 30 minutes old, so a clock advancing less than 20 minutes (`CheckForFraudOldTests.ReadShortlyBefore`). TC6 holds for every clock reading.
- In tests/test_check_for_fraud_new.py:54 the comprehension variables do not leak. The current transaction of each row is therefore built from the row's own amount and location (`CheckForFraudNewTests.RunRow`).

## Model

| member | source | states |
|---|---|---|
| `Fraud.CheckForFraud` | tests/test_check_for_fraud_new.py:15-62 | blacklisted location gives (False, True, False, 100); otherwise fraudulent exactly on amount > 10000 or a location anomaly, verification equal to fraudulent, blocked exactly when more than 10 entries lie in the 60-minute window, score the sum 50/30/20 of the fired signals |
| `Fraud.Combine` | tests/test_check_for_fraud_new.py:38-48 | folding fired signals: each flag is set exactly when a signal setting it fired, and the score counts 50, 30 and 20 per occurrence of each signal |
| `Fraud.RecentCount` | tests/test_check_for_fraud_new.py:22-36 | the velocity count never exceeds the length of the history |
| `Fraud.LastPriorIndex` | tests/test_check_for_fraud_new.py:42-48 | None exactly when no entry is prior to the current one; otherwise the index of a prior entry no other prior entry is later than, with ties resolved to the later list position |
| `Fraud.HasLocationAnomaly` | tests/test_check_for_fraud_new.py:42-48 | the anomaly fires exactly when some index is the most recent prior transaction, at another location than the current one, and strictly less than 30 minutes older |
| `FraudProperties.RecentCountIsCardinality` | tests/test_check_for_fraud_new.py:22-36 | the velocity count equals the number of history indices whose entry lies in the inclusive 60-minute window |
| `FraudProperties.RecentCountAppend` | tests/test_check_for_fraud_new.py:22-36 | the count of a concatenated history is the sum of the counts of its parts |
| `FraudProperties.RecentCountPermutation` | tests/test_check_for_fraud_new.py:23-36 | any reordering of the history gives the same velocity count |
| `FraudProperties.RecentCountAllInWindow` | tests/test_check_for_fraud_new.py:30-36 | when every entry lies in the window, all of them count |
| `FraudProperties.RecentCountNoneInWindow` | tests/test_check_for_fraud_new.py:26-28 | when no entry lies in the window, the count is zero |
| `FraudProperties.BlockedPersistsAsHistoryGrows` | tests/test_check_for_fraud_new.py:34-36 | a blocked decision stays blocked when more history is appended |
| `FraudProperties.MostRecentPriorIsUnique` | tests/test_check_for_fraud_new.py:42-48 | at most one index is the most recent prior transaction |
| `FraudProperties.LastPriorIndexIsMostRecentPrior` | tests/test_check_for_fraud_new.py:42-48 | LastPriorIndex returns k if and only if k is the most recent prior transaction |
| `FraudProperties.AnomalyReadingsAgree` | tests/test_check_for_fraud_new.py:23-48 | on a history of one prior entry, one entirely at the current location, or one entirely at least 30 minutes old, the anomaly decision is the same whether the most recent prior transaction is the latest-stamped entry or the last list entry |
| `FraudProperties.ChronologicalHistoryLastIsMostRecent` | tests/old/test_check_for_fraud.py:29-31 | a sufficient condition: on a non-empty history in time order whose entries are all prior, the most recent prior transaction is the last list element |
| `FraudProperties.SameLocationHasNoAnomaly` | tests/test_check_for_fraud_new.py:22-24 | a history entirely at the current location never raises the anomaly |
| `FraudProperties.OldHistoryHasNoAnomaly` | tests/test_check_for_fraud_new.py:42-44 | a history whose entries are all at least 30 minutes old never raises the anomaly |
| `FraudProperties.FraudIffVerification` | tests/test_check_for_fraud_new.py:15-49 | is_fraudulent always equals verification_required |
| `FraudProperties.ScoreValues` | tests/test_check_for_fraud_new.py:15-49 | the score is one of 0, 20, 30, 50, 70, 80, 100 |
| `FraudProperties.BlacklistResultIsDistinct` | tests/old/test_check_for_fraud.py:22-23 | the location is blacklisted if and only if the result is blocked, not fraudulent and scores 100 |
| `FraudProperties.BlacklistOverridesEverySignal` | tests/old/test_check_for_fraud.py:22-23 | a blacklisted location gives the blacklist result whatever the amount and history |
| `FraudProperties.VelocityOnlyBlocks` | tests/test_check_for_fraud_new.py:30-36 | without high value or anomaly the result is (False, True, False, 30) under high velocity and all clear otherwise |
| `FraudProperties.AllThreeSignalsScoreHundred` | tests/test_check_for_fraud_new.py:38-48 | high value, velocity and anomaly together give (True, True, True, 100) without any blacklist |
| `FraudProperties.HistorySignalsIgnoreAmount` | tests/test_check_for_fraud_new.py:38-40 | the velocity count and the choice of most recent prior do not depend on the current amount |
| `FraudProperties.HigherAmountNeverLowersRisk` | tests/test_check_for_fraud_new.py:16-20 | raising the amount never lowers the score, never clears the fraud flag and never changes the block flag |
| `FraudProperties.CheckForFraudPermutation` | tests/old/test_check_for_fraud.py:25-27 | when no two prior entries share a timestamp at different locations, reordering the history does not change the result |
| `FraudProperties.TieBreakFollowsListOrder` | tests/test_check_for_fraud_new.py:42-48 | two prior entries of one instant at different locations: the later one in the list decides the anomaly |
| `CheckForFraudNewTests.MkTx` | tests/test_check_for_fraud_new.py:9-12 | the built transaction keeps the given amount and location and is exactly `minutes_ago` minutes before `base_time` |
| `CheckForFraudNewTests.PrevTrans` | tests/test_check_for_fraud_new.py:54 | one transaction per `(amount, location, minutes)` triple, in the same order, each built by `_mk_tx` from the common base time |
| `CheckForFraudNewTests.RunRow` | tests/test_check_for_fraud_new.py:50-57 | the current transaction carries the row's own amount and location: a blacklisted row location gives the blacklist result; otherwise fraud is decided by the row amount above 10000 or an anomaly, and blocking by more than 10 recent entries of the built history |
| `CheckForFraudNewTests.Spread` | tests/test_check_for_fraud_new.py:23 | `[(10, location, i) for i in range(n)]`: n triples, the i-th of amount 10 and i minutes old |
| `CheckForFraudNewTests.Repeated` | tests/test_check_for_fraud_new.py:27 | `[(10, location, minutes) for _ in range(n)]`: n identical triples of amount 10 |
| `CheckForFraudNewTests.SpreadHistoryIsNewestFirst` | tests/test_check_for_fraud_new.py:35 | a history built from `range(n)` has strictly decreasing timestamps, and its most recent prior transaction is the first entry |
| `CheckForFraudNewTests.RepeatedHistoryPicksLastEntry` | tests/test_check_for_fraud_new.py:26-32 | a history of n entries with one constant `minutes_ago` has all timestamps equal, and the most recent prior transaction chosen is the last entry |
| `CheckForFraudNewTests.RowsAgreeOnLastEntryReading` | tests/test_check_for_fraud_new.py:15-48 | for every row history, reading "most recent" as the last list entry gives the same anomaly decision as the latest timestamp |
| `CheckForFraudNewTests.AmountTenThousandIsNotHighValue` | tests/test_check_for_fraud_new.py:16-17 | amount 10000, empty history gives (False, False, False, 0) |
| `CheckForFraudNewTests.AmountTenThousandOneIsHighValue` | tests/test_check_for_fraud_new.py:19-20 | amount 10001, empty history gives (True, False, True, 50) |
| `CheckForFraudNewTests.TenRecentTransactionsDoNotBlock` | tests/test_check_for_fraud_new.py:22-24 | ten entries 0..9 minutes old give (False, False, False, 0) |
| `CheckForFraudNewTests.ElevenTransactionsSixtyOneMinutesOldDoNotBlock` | tests/test_check_for_fraud_new.py:26-28 | eleven entries 61 minutes old at another location give (False, False, False, 0) |
| `CheckForFraudNewTests.ElevenTransactionsSixtyMinutesOldBlock` | tests/test_check_for_fraud_new.py:30-32 | eleven entries exactly 60 minutes old give (False, True, False, 30) |
| `CheckForFraudNewTests.ElevenRecentTransactionsBlock` | tests/test_check_for_fraud_new.py:34-36 | eleven entries 0..10 minutes old give (False, True, False, 30) |
| `CheckForFraudNewTests.HighValueAndVelocityCombine` | tests/test_check_for_fraud_new.py:38-40 | amount 20000 with eleven recent entries gives (True, True, True, 80) |
| `CheckForFraudNewTests.LocationChangeThirtyMinutesAgoIsNoAnomaly` | tests/test_check_for_fraud_new.py:42-44 | one entry elsewhere exactly 30 minutes old gives (False, False, False, 0) |
| `CheckForFraudNewTests.HighValueAndAnomalyCombine` | tests/test_check_for_fraud_new.py:46-48 | amount 20000 with one entry elsewhere 29 minutes old gives (True, False, True, 70) |
| `CheckForFraudOldTests.MkTx` | tests/old/test_check_for_fraud.py:9-12 | the built transaction keeps the given amount and location and is exactly `minutes_ago` minutes before the clock reading taken by the call |
| `CheckForFraudOldTests.RunRow` | tests/old/test_check_for_fraud.py:37-41 | the current transaction is built at the test's own clock reading: a blacklisted location gives the blacklist result; otherwise fraud is decided by amount above 10000 or an anomaly, and blocking by more than 10 recent entries |
| `CheckForFraudOldTests.ReadShortlyBefore` | tests/old/test_check_for_fraud.py:29-31 | a prior transaction's clock reading is not after the current one, and early enough that an entry built then as 10 minutes old is still under 30 minutes old at the current reading |
| `CheckForFraudOldTests.Burst` | tests/old/test_check_for_fraud.py:26 | one transaction per clock reading, the i-th of amount 10 at "A" and i minutes before its own reading |
| `CheckForFraudOldTests.NominalPathRaisesNothing` | tests/old/test_check_for_fraud.py:16-17 | amount 100, empty history gives (False, False, False, 0) |
| `CheckForFraudOldTests.VeryHighAmountNeedsVerification` | tests/old/test_check_for_fraud.py:19-20 | amount 20000, empty history gives (True, False, True, 50) |
| `CheckForFraudOldTests.BlacklistedLocationIsBlocked` | tests/old/test_check_for_fraud.py:22-23 | location "B" in blacklist ["B"] gives (False, True, False, 100) |
| `CheckForFraudOldTests.TwelveRecentTransactionsBlock` | tests/old/test_check_for_fraud.py:25-27 | twelve same-location entries 0..11 minutes old give (False, True, False, 30) for any clock readings under which the entry built i minutes old is at most 60 minutes old at the current reading (a sufficient condition: eleven entries in the window already block) |
| `CheckForFraudOldTests.RecentLocationChangeNeedsVerification` | tests/old/test_check_for_fraud.py:29-31 | one entry elsewhere 10 minutes old gives (True, False, True, 20) |
| `CheckForFraudOldTests.OldSameLocationHistoryRaisesNothing` | tests/old/test_check_for_fraud.py:33-35 | one same-location entry 120 minutes old gives (False, False, False, 0) for every clock reading |

## Left out

- `src/fraud/FraudDetectionSystem.py`, `src/fraud/Transaction.py` and `src/fraud/FraudCheckResult.py` are not part of this model. The rule is reconstructed from the two test tables.
- Input validation (a negative amount, or a history entry dated after the current transaction, rejected with an error) is not modelled. No test exercises it. Such entries are simply ignored by both history signals.
- Amounts are whole numbers. A decimal amount such as 10000.5 cannot be expressed, although the strict comparison with 10000 is kept.
- Wall-clock reads (`datetime.now()`) become parameters: `baseTime` for the newer test file, and a clock reading per transaction for the older one.
- The pytest machinery (`parametrize`, the field-by-field asserts) is not modelled. Each table row is one lemma about the whole result record.
- Flight booking (`tests/test_book_flight.py`, `tests/test_book_flight_new.py`) and energy management (`tests/test_manage_energy.py`, `tests/test_manage_energy_new.py`) are outside this model. They use floating-point prices and energy totals, their implementations are not available, and the energy tests leave the device-shedding rule open.
- `Fraud.RecentCount`: its own contract states only the bound by the history length. What the count means is stated by `FraudProperties.RecentCountIsCardinality` and `FraudProperties.RecentCountPermutation`.
