# ieo core, modelled in Dafny

This project models the sequential logic of three parts of the `ieo` repository and proves
properties of it:

- **Order-book replay** (`analysis/lob3.py`). A book maps order ids to resting orders. `apply`
  replays one market-by-order event: Trade/Fill, Clear, Add, Cancel or Modify. `bbo` folds over
  the resting orders to find the best bid and the best ask, each with its total size and order
  count.
- **Consensus aggregator** (`infra/trader.py`, class `Trader`). The registration table maps a
  strategy name to its latest decision, or to nothing yet. `register`, `deregister` and
  `submit_decision` change the table. `submit_decision` registers an unknown name implicitly.
  `compute_median` applies an all-or-nothing freshness gate and then takes the median.
  `process_decisions` retries it a bounded number of times.
- **Strategy agent** (`infra/strategy.py`, class `Strategy`). `collect_point` is a bounded retry
  loop that fetches a fresh point from one source and reconnects after an end-of-stream.
  `process` gives up on the round at the first source that yields nothing, and otherwise sums
  the points. `submit_decision` pushes the decision to the aggregator.

The model is functional. Tables and books are immutable maps, and operations are pure functions
or methods with loop invariants. Wall-clock time is a parameter `now`. The staleness window
`TIME_TOLERANCE` and the retry budget `RETRIES_LIMIT` are parameters `tolerance` and `limit`.
Their values live in a configuration module that is not part of this model. Every remote call
is replaced by its outcome. A retry loop reads the environment's answers from an infinite
stream `nat -> …`, one answer per iteration. Timestamps are integers and signal values are reals.

A Python dict is iterated in insertion order. Where that order is visible (the loops of `bbo` and
`compute_median`), the model takes it as a duplicate-free list of the map's keys. It then proves
that the result does not depend on that list: `TopOfBook.BestLevelIndependentOfOrder` and
`Consensus.ComputeMedianIgnoresOrder`.

Two behaviours of the retry loops in infra/strategy.py are easy to misread. The model follows
the code and proves each one:

- `collect_point` increments `retries` (line 51) before its `retries >= RETRIES_LIMIT` test
  (line 54). So a fresh point fetched on the last permitted iteration is dropped
  (`Collect.FreshOnLastAttemptDropped`).
- The strategy's `submit_decision` loops while `retries < RETRIES_LIMIT and not submitted`
  (line 63) but never increments `retries`. So its loop ends only on a successful call
  (`Round.SubmitAfter`, `Round.SubmitOutlastsLimit`).

Files: `wrappers.dfy` (Option, Result), `maps.dfy` (map frames, key enumerations, permutations),
`clock.dfy` (the freshness test), `orderbook.dfy`, `topofbook.dfy`, `sorting.dfy`,
`registry.dfy`, `consensus.dfy`, `rpc.dfy` (remote-call outcomes), `collect.dfy`, `round.dfy`.

## Model

| member | source | states |
|---|---|---|
| OrderBook.AddOrder | analysis/lob3.py:77-79 | Add makes the id name `Order(side, price, size, ts_event)`, replacing any order it named before; the id set grows by that id and no other entry changes |
| OrderBook.CancelOrder | analysis/lob3.py:81-88 | Cancel of an unknown id raises the key error; cancelling more than the resting size fails the assertion; otherwise the resting size drops by `size`, the order is removed exactly when the result is 0, and no other entry changes |
| OrderBook.ModifyOrder | analysis/lob3.py:90-97 | Modify of an unknown id raises the key error; otherwise the order takes the new price and size, keeps its side, stays in the book even at size 0, gets the new `ts_event` when the price changes or the size grows and keeps the old one otherwise; no other entry changes |
| OrderBook.Apply | analysis/lob3.py:53-97 | T and F leave the book unchanged; R empties it whatever it held; any other action with a side other than A/B fails; the undefined price is a no-op when the size is 0 and fails otherwise; A, C and M dispatch as above; any other letter leaves the book unchanged; only a Clear touches an entry other than `order_id` |
| OrderBook.ApplyKeepsWellSided | analysis/lob3.py:71-97 | after a successful `apply` every resting order still has side A or B |
| OrderBook.ReplayKeepsWellSided | analysis/lob3.py:53-97 | a replay of any event stream from a book whose orders are all A/B (the empty book, say) yields such a book if it succeeds |
| OrderBook.AddThenCancelRestores | analysis/lob3.py:77-88 | adding a new order and then cancelling its full size gives back the original book |
| TopOfBook.LevelStepCorrect | analysis/lob3.py:30-50 | one iteration of the `bbo` loop keeps the running level equal to the best level of the orders seen so far |
| TopOfBook.Bbo | analysis/lob3.py:27-51 | the bid is the highest price among "B" orders, with the total size and the number of "B" orders at that price; the ask is the same with the lowest price among "A" orders; a side with no orders gives `PriceLevel(None, 0, 0)`; a side has a price exactly when some order rests on it |
| TopOfBook.BestLevelUnique | analysis/lob3.py:27-51 | at most one price level meets the best-level specification |
| TopOfBook.BestLevelIndependentOfOrder | analysis/lob3.py:30 | the best level does not depend on the order in which the dict lists the resting orders |
| Registry.Register | infra/trader.py:30-40 | register returns false and leaves the table unchanged when the id is present; otherwise it returns true and adds `id -> None`; no other entry changes |
| Registry.Deregister | infra/trader.py:24-28 | deregister removes the id if present and is a no-op otherwise; no other entry changes |
| Registry.SubmitDecision | infra/trader.py:42-49 | a submission stores the decision under the id, creating the entry when it was absent (implicit registration); no other entry changes |
| Registry.DeregisterIdempotent | infra/trader.py:24-28 | deregistering twice is the same as deregistering once |
| Registry.RegisterAfterSubmitRejected | infra/trader.py:30-49 | after an implicit registration by submission, an explicit register of the same id is rejected |
| Registry.RegisterAfterDeregisterAccepted | infra/trader.py:24-40 | after deregistration the same id can register again |
| Registry.DeregisterUndoesRegister | infra/trader.py:24-40 | deregistration is the inverse of a successful registration |
| Registry.RunMembership | infra/trader.py:24-49 | after any sequence of table calls, an id is present exactly when the last call naming it was a register or a submission, or when no call named it and it was present before |
| Sorting.Sort | infra/trader.py:77 | the values the median is taken over are sorted ascending, as a permutation of the decisions |
| Sorting.SortedUnique | infra/trader.py:77 | a multiset of values has only one sorted arrangement |
| Consensus.Gather | infra/trader.py:61-75 | the loop over the table gives up exactly when some entry has no decision or a decision outside the window, boundary counted as fresh; otherwise it collects every decision value in iteration order |
| Consensus.Median | infra/trader.py:77 | the median lies between the smallest and the largest decision, and for an odd count it is one of the decisions |
| Consensus.ComputeMedian | infra/trader.py:51-77 | returns None exactly when the table is empty, some entry has no decision, or some decision has `abs(now - ts) > TIME_TOLERANCE`; otherwise the median of all decision values: the middle one after sorting, or the mean of the two middle ones for an even count |
| Consensus.ComputeMedianIgnoresOrder | infra/trader.py:62-77 | the consensus does not depend on the dict's iteration order |
| Consensus.ConsensusOfAgreement | infra/trader.py:51-77 | when every entry is fresh and holds the same value, that value is the consensus |
| Consensus.TwoAgentScenario | infra/trader.py:30-77 | two strategies register and each submit 0.4 for a round inside the window; the consensus is 0.4 |
| Consensus.ProcessDecisions | infra/trader.py:80-88 | `compute_median` is called at least once and at most `RETRIES_LIMIT + 1` times; the loop stops at the first non-None result, and returns None only after using every retry |
| Collect.FirstFresh | infra/strategy.py:30-31 | finds the first iteration whose fetched timestamp is within the window of the round timestamp |
| Collect.Collected | infra/strategy.py:25-57 | `collect_point` yields a value exactly when a fresh point arrives before the last permitted iteration; that value is the first fresh point's; the result is None whenever `RETRIES_LIMIT <= 1` |
| Collect.ConnErrorExplained | infra/strategy.py:33-49 | the reconnect flag is set at an iteration exactly when an earlier fetch hit end-of-stream and every reconnect tried since then was refused |
| Collect.CollectPoint | infra/strategy.py:25-57 | the loop as written returns what `Collected` describes; it makes one fetch per iteration, at most `RETRIES_LIMIT` of them, and stops right after the first fresh point; an iteration tries a reconnect exactly when the flag is set at its start |
| Collect.FreshOnLastAttemptDropped | infra/strategy.py:51-55 | a fresh point that first arrives on the last permitted iteration is still dropped |
| Collect.NoPointNoValue | infra/strategy.py:26-31 | a source that only answers end-of-stream or its empty `(None, None)` signal never ends the loop early, so the result is None |
| Round.Process | infra/strategy.py:88-106 | the sources are asked in index order with the one round timestamp; the round is abandoned at the first source yielding None; when every source yields a point, the decision submitted is the sum of the points, stamped with that timestamp |
| Round.SubmitAfter | infra/strategy.py:59-86 | the retry counter never moves; with a positive limit the loop keeps going exactly as long as every call so far failed, and stops just after the first successful call; with a limit of 0 or less no call is made |
| Round.SubmitOutlastsLimit | infra/strategy.py:60-63 | a run of failed calls longer than `RETRIES_LIMIT` leaves the submission loop still trying |

## Left out

- Network plumbing: `rpyc` connections, services and `ThreadedServer` (infra/trader.py:102-129, infra/strategy.py:115-141). Remote calls appear only through their outcomes: refused or connected, end-of-stream or an answer.
- The type of `signals_port`. The model assumes it is a list of ports that can be indexed. The one place a `Strategy` is built (infra/strategy.py:151-152) passes a `map(int, …)` iterator instead, and `run` uses it up (line 120). In that program, the reconnect at line 35 after an `EOFError` raises a `TypeError` ('map' object is not subscriptable), which the `except ConnectionRefusedError` at line 38 does not catch. The model's `Refused`/`Connected` reconnect outcomes describe a list of ports, not this path.
- Remote-call failures other than `EOFError` and `ConnectionRefusedError`, such as timeouts. They propagate out of the Python loops and end the process's task.
- Locking. Each table operation is one atomic step. The `len(self.registered)` test runs outside the lock in `compute_median`, which is a race that only matters under concurrency.
- Scheduling, `time.sleep` and `time.time()`. The clock is the parameter `now`.
- Start-up registration and its `exit(1)`, the SIGINT handler with its deregistration and `exit(0)`, and logging. This includes the "implicit registration" log line, the only trace the code leaves of how an entry was created.
- infra/generator.py (a locked cell holding the last random value and its time) is not part of this model. The only part used is its initial `(None, None)` signal, which is the `Empty` fetch outcome.
- infra/deregister.py (a single remote call) and analysis/pull_data.py (a vendor download) are not part of this model.
- Floating point. Timestamps are integers and values are reals, so `sum`, the mean of the two middle values and `abs` are exact.
- The concrete value of `UNDEF_PRICE`. It is an unspecified constant.
- Consensus.ProcessDecisions: the result of each `compute_median` call is an input rather than recomputed from the table. Strategies may submit between calls, so each call sees a different table.
- Consensus.Median: its own contract only bounds the median by the values and, for an odd count, places it among them. The exact middle is fixed by its definition, the middle of the sorted values.
- How an entry was created. The table does not record whether an entry came from `register` or from `submit_decision` (infra/trader.py:37, 48), so neither does the model.
