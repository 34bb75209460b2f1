# Order execution, market data and decision core: a Dafny model

The repository is an index-options trading backend: a data pipeline merges broker ticks into option
chains, strategy vessels watch a basket of strikes and decide, an order-execution pool turns signals
into positions, and a background engine persists the reports. This project models the parts of it
where correctness is a matter of state, interleaving or arithmetic, and proves what they keep.

| module | what it models |
|---|---|
| `Core` | options and the half-even rounding used on prices |
| `Allocator`, `PreEntryGate` | the capital and concurrency allocator, and the gate in front of it |
| `Execution` | any number of worker threads running `process_signal` as a step system; every round trip on the allocator, the position keys or the pointer is one step, WATCH is a version stamp that EXEC compares |
| `Accounting`, `ExecutionInvariant`, `ExecutionTheorems`, `ExecutionHistory` | the inductive invariant of the pool, what holds in every run, and what holds as long as flips do no harm |
| `ReversalFlip` | exactly when the two writes of a REVERSAL_FLIP's pre-step keep that invariant, and runs where they do not |
| `ReportQueue` | the report list between the worker threads and the drainer |
| `ExitLoop`, `EntryChase` | the trailing stop and exit loop; the live entry with its price chase |
| `PositionHash` | the position record as a Redis hash of strings |
| `StrikeBasket`, `TickRouter` | basket shifts and the fan-out of ticks to vessels |
| `OptionChain` | tick merging, the token index, and the dirty-set write-back |
| `StrikeBuffer`, `Imbalance`, `Decisions` | observation buffers, streaks, imbalance, gates, reversal, continuation and the action of `on_tick` |
| `DecisionFields` | every class, point and verdict of `Decisions` against a definition in the fields it reads |
| `RateLimiter` | the gateway's sliding-window limiter |

Code that changes state in place is a class or a method with loops, specified by a function of the
old state; concurrent protocols are step systems whose runs carry every interleaving; the rest is
functions and lemmas. Inputs from outside (signals, quotes, clocks, broker replies, failures) are
parameters: the theorems hold for all of them. Prices are exact reals with an explicit rounding
function.

Where code and documentation disagree, the code is modelled:

- `allocator.release` is called idempotent in its module text (`backend/engines/order_exec/allocator.py:16-17`)
  and expected to answer NOT_RESERVED by `backend/tests/order_exec/test_allocator.py:83-105`; the
  code releases unconditionally. `Allocator.SecondReleaseAlwaysShows` states the consequence.
- `_close_existing_position_for_flip` says it releases the magnitude that was reserved
  (`backend/engines/order_exec/worker.py:397-401`); it releases `entry_price * qty`, while
  `lots * lot_size * ask` was reserved. `ReversalFlip.StepKeepsInvariantExactly` gives the exact condition.
- Subscription reconciliation calls itself additive only (`backend/engines/strategy/ingestion.py:65-66`);
  the code also drops channels.
- The two streak counters are meant to mirror each other; the up counter stops at 50 observations,
  the down counter at the buffer's capacity. They are equal exactly while the fall is no longer
  than 50, so always up to capacity 50 and not always above.
- A signal's `strategy_version` defaults to the empty string (`backend/state/schemas/signal.py:76`);
  a position stored with an empty text cannot be loaded again.

## Model

| member | source | states |
|---|---|---|
| `Core.RoundHalfEven` | backend/engines/order_exec/exit_eval.py:107 | the integer nearest to a real, ties to the even neighbour |
| `Core.RoundToMonotone` | backend/engines/order_exec/exit_eval.py:107 | rounding a price to its grid never reverses an order |
| `Core.RoundToError` | backend/engines/order_exec/exit_eval.py:107 | a rounded price is off by at most half a grid unit |
| `Allocator.Atomic` | backend/engines/order_exec/allocator.py:40-96 | the call as one indivisible step: granted exactly when all three caps hold; each refusal exactly when its cap is the first that fails, changing nothing; the returned totals are the totals afterwards |
| `Allocator.ReleaseUndoesReserve` | backend/engines/order_exec/allocator.py:84-146 | releasing what was just reserved restores every reading if and only if the index was free before |
| `Allocator.SecondReleaseAlwaysShows` | backend/engines/order_exec/allocator.py:122-150 | on any books a repeated release takes the counters down once more; it is never absorbed |
| `Allocator.RedisAllocator.constructor` | backend/engines/order_exec/allocator.py:50-54 | empty keys read as zero and as the empty set |
| `Allocator.RedisAllocator.CheckAndReserve` | backend/engines/order_exec/allocator.py:56-110 | run alone, the read-test-write sequence in place is the atomic call, verdict and new state |
| `Allocator.RedisAllocator.ReleaseSlot` | backend/engines/order_exec/allocator.py:139-150 | the release in place takes the amount off both hashes and both totals and frees the index, whatever the state |
| `PreEntryGate.Gate` | backend/engines/order_exec/pre_entry_gate.py:108-193 | a request leaves the gate if and only if none of eleven obstacles, each stated in the fields read, is in the way; it then asks for lots times lot size times the second quote's ask, or its last price when there is no ask, and that is positive; a rejection names an obstacle that is there |
| `PreEntryGate.RejectionNamesFirst` | backend/engines/order_exec/pre_entry_gate.py:110-193 | a rejection names the first obstacle in the order of the gates |
| `Accounting.BalancedReserve` | backend/engines/order_exec/allocator.py:83-89 | reserving a free index keeps every counter equal to the sum over the reservations held |
| `Accounting.BalancedRelease` | backend/engines/order_exec/allocator.py:140-146 | releasing a held reservation by its own amount keeps every counter equal to the sum over the reservations held |
| `Accounting.BalancedMove` | backend/engines/order_exec/worker.py:732-737 | an exception that ends a lifecycle moves its reservation to the leak list; the counters still agree |
| `ExecutionInvariant.StepBalanced` | backend/engines/order_exec/worker.py:444-668 | every step outside the two writes of a flip keeps the allocator's counters and set equal to the reservations held, one per index |
| `ExecutionInvariant.StepTxns` | backend/engines/order_exec/allocator.py:98-113 | every step, a flip's included, keeps optimistic reads sound: an unchanged version means the values read are still the values stored and the caps tested on them still hold |
| `ExecutionInvariant.UniqueSeat` | backend/engines/order_exec/worker.py:425 | a position has at most one reservation, held by its worker or leaked |
| `ExecutionInvariant.LedgerOpen` | backend/engines/order_exec/worker.py:534-548 | the fill pipeline adds exactly one position to the open sets and its pointer |
| `ExecutionInvariant.LedgerClose` | backend/engines/order_exec/cleanup.py:44-57 | cleanup takes exactly the closed position off the open sets and its pointer and adds it to closed today |
| `ExecutionInvariant.StepLedger` | backend/engines/order_exec/worker.py:534-663 | every step outside the two writes of a flip keeps membership sets and pointers naming exactly the live positions |
| `ExecutionInvariant.EffectExtendsWord` | backend/engines/order_exec/worker.py:444-668 | each recorded effect is the next letter of the lifecycle the worker is in, and returning to the queue completes one of the three lifecycles or is a crash |
| `ExecutionInvariant.StepAudit` | backend/engines/order_exec/worker.py:444-737 | every step keeps the trail of each position in line with where its worker is |
| `ExecutionInvariant.StepTraced` | backend/engines/order_exec/worker.py:320-331 | in every step, what a pointer, a flip under way or the closed set names is a position that was opened on that very index |
| `ExecutionInvariant.StepInv` | backend/engines/order_exec/worker.py:411-737 | every step of every worker other than a flip's two writes keeps the whole invariant |
| `ExecutionTheorems.InitInv` | backend/engines/order_exec/allocator.py:50-54 | empty stores and idle workers satisfy the invariant |
| `ExecutionTheorems.RunTxns` | backend/engines/order_exec/allocator.py:98-113 | optimistic reads are sound in every state of every run, flips included |
| `ExecutionTheorems.RunCoherent` | backend/engines/order_exec/worker.py:411-737 | transactions, trails and the names held by pointers and flips are in order in every state of every run |
| `ExecutionTheorems.RunInv` | backend/engines/order_exec/worker.py:411-737 | the whole invariant holds in every state of a run up to which each cleanup and release of a flip met its condition, for any number of workers and indexes |
| `ExecutionTheorems.FirstHarmBreaks` | backend/engines/order_exec/worker.py:385-404 | right after the first flip write that does not meet its condition the invariant is broken |
| `ExecutionTheorems.FlipFreeIsHarmless` | backend/engines/order_exec/worker.py:431-442 | a run without REVERSAL_FLIP signals makes no flip write, so the invariant holds in all its states |
| `ExecutionTheorems.MutualExclusionAndConservation` | backend/engines/order_exec/allocator.py:56-150 | in every state of a flip-free run, and of any run whose flip writes met their condition, no two workers hold one index, nor a worker and a leaked slot; `open_symbols` is exactly the held indexes, `open[total]` its size, each index counts once, `deployed` of an index is the premium of its holder or leaked slot and `deployed[total]` the sum of premiums held |
| `ExecutionTheorems.CapsNeverExceeded` | backend/engines/order_exec/allocator.py:66-81 | under a fixed risk configuration and fills of non-negative value, `deployed[total]` never exceeds the capital and `open[total]` never exceeds the concurrency cap, in any interleaving of any signals |
| `ExecutionTheorems.CommitIsAtomic` | backend/engines/order_exec/allocator.py:83-110 | in any run a committing EXEC is the atomic call at that instant: all caps hold then, and verdict, returned totals and new books are those of `Atomic` |
| `ExecutionTheorems.GrantsLinearize` | backend/engines/order_exec/allocator.py:83-110 | in any run a granted call has committed: at an EXEC of this very position all caps held, and verdict, returned totals and new books are those of `Atomic` at that instant |
| `ExecutionTheorems.HeldWasCommitted` | backend/engines/order_exec/allocator.py:44 | in any run every slot a worker holds, at whatever stage, goes back to such a commit of its own with the same index and premium |
| `ExecutionTheorems.CommitsOnce` | backend/engines/order_exec/allocator.py:98-113 | in any run a call commits at most once, over all its attempts |
| `ExecutionTheorems.RefusedCallWritesNothing` | backend/engines/order_exec/allocator.py:44-47 | in any run, no step a worker makes inside an allocator call that ends in a refusal, from before its first WATCH on and over all its attempts, changes the books or their version |
| `ExecutionTheorems.RefusalsLinearize` | backend/engines/order_exec/allocator.py:58-81 | in any run an error or an exhausted call returns zero totals, and a refusal by a cap is true: that cap failed, and the atomic call would have refused, at an instant inside this very call; both totals returned were read inside it; and the caps tested before it had been found to hold inside it |
| `ExecutionTheorems.ExhaustionMeansFiveConflicts` | backend/engines/order_exec/allocator.py:98-119 | in any run retry exhaustion happens only after at least five committed writes landed inside the call |
| `ExecutionTheorems.FiveAttempts` | backend/engines/order_exec/allocator.py:27-29 | in any run a call never makes a sixth attempt |
| `ExecutionTheorems.FinishedWordCounts` | backend/engines/order_exec/worker.py:446-481 | a complete lifecycle has one reserve per release with equal index and amount, and exactly one of a rejection record and a report |
| `ExecutionTheorems.LifecyclesComplete` | backend/engines/order_exec/worker.py:444-668 | every lifecycle ever started in any run is still running, crashed, or complete: what it did in its own name is one reserve and one release of the same index and amount or neither, and exactly one of a rejection record and a report |
| `ExecutionTheorems.PositionKeysAgree` | backend/engines/order_exec/cleanup.py:54-57 | in a flip-free run, and in any run whose flip writes met their condition, open and closed positions stay disjoint; per index the set and pointer are both empty, or both name the one open position of a reserved index |
| `ExecutionTheorems.LeakStaysListed` | backend/engines/order_exec/worker.py:732-737 | in any run a slot lost to an exception stays lost until a flip releases that very position |
| `ExecutionTheorems.LeakedIndexStaysBlocked` | backend/engines/order_exec/worker.py:732-737 | until then, as long as flip writes met their condition, its index stays in `open_symbols` with the lost premium in `deployed`, and no reservation on it commits |
| `ExecutionTheorems.FlipFreeLeakIsForever` | backend/engines/order_exec/worker.py:732-737 | in a flip-free run that lasts to the end |
| `ExecutionHistory.ClosedTodayExactly` | backend/engines/order_exec/cleanup.py:54-57 | in any run a position is in `closed_today` if and only if its own trail holds a close or an earlier flip cleaned it up |
| `ExecutionHistory.FlipFreeClosedToday` | backend/engines/order_exec/cleanup.py:54-57 | in a flip-free run `closed_today` is exactly the positions whose trail holds a close |
| `ExecutionHistory.LifecycleStarted` | backend/engines/order_exec/worker.py:425-446 | in any run a lifecycle is about the index of its own signal, and one whose signal is a flip gets past its pre-step only if nothing was there to close or it has itself released what it closed |
| `ExecutionHistory.UnloadedFlipIsRejected` | backend/engines/order_exec/worker.py:325-331 | a flip whose prior position is gone or does not validate leaves one rejection in its trail and touches no shared key |
| `ExecutionHistory.AmountIsQuoted` | backend/engines/order_exec/pre_entry_gate.py:151-204 | in any run what a lifecycle asks for, holds and will release is lots times lot size times the price quoted at its own gate |
| `ExecutionHistory.NeverStuck` | backend/engines/order_exec/worker.py:411-715 | whatever the other threads have done, a thread inside a lifecycle has a next step that is no failure, and it brings it nearer to the end |
| `ExecutionHistory.FailuresAnywhere` | backend/engines/order_exec/worker.py:732-737 | an exception may end any lifecycle at any step, a Redis error any allocator call with a refusal and no write, and an entry or a flip's exit order may always fail |
| `ExecutionHistory.FinishesAlone` | backend/engines/order_exec/worker.py:411-715 | from any point of any run a thread left alone finishes its lifecycle, within 67 steps, whatever it has read so far |
| `ReversalFlip.CleanupKeeps` | backend/engines/order_exec/worker.py:385-393 | a flip's cleanup keeps the invariant when nothing but an unmanaged prior position is open on the index |
| `ReversalFlip.CleanupBreaks` | backend/engines/order_exec/worker.py:385-393 | a flip's cleanup under a thread that still manages the position, or over a newer position, leaves the membership sets and the pointer wrong |
| `ReversalFlip.ReleaseBreaks` | backend/engines/order_exec/worker.py:401-404 | a flip's release breaks the invariant when the slot is held by a thread or already given back, when the amount is not the one reserved, or when the position is still on the books |
| `ReversalFlip.ReleaseKeeps` | backend/engines/order_exec/worker.py:401-404 | a flip's release of a slot that is still leaked, at exactly the amount reserved, brings counters and set back in line |
| `ReversalFlip.StepKeepsInvariantExactly` | backend/engines/order_exec/worker.py:303-408 | step by step, with any other worker in between: looking up, loading and aborting always keep the invariant; the cleanup keeps it if and only if nothing but an unmanaged prior position is open on the index; the release if and only if that slot is still leaked at exactly the amount released |
| `ReversalFlip.FlipBreaksMutualExclusion` | backend/engines/order_exec/worker.py:435-442 | on any index a run of one entry and one flip ends with two threads on it, `open[total]` 1, and less deployed than the two hold |
| `ReversalFlip.RacingFlipsReleaseTwice` | backend/engines/order_exec/worker.py:320-404 | on any index a run where two flips load the same orphan before either cleans it up ends with nothing held, `open[total]` at -1 and `deployed[total]` below zero |
| `ReportQueue.StepOrder` | backend/engines/background/report_drainer.py:72-107 | every step keeps stored, in-hand and queued reports in push order |
| `ReportQueue.StepConserves` | backend/engines/background/report_drainer.py:72-107 | every step moves a report between places without losing or copying it; only a push adds one |
| `ReportQueue.NoReportLostOrDoubled` | backend/engines/background/report_drainer.py:60-107 | after any interleaving each pushed report is in exactly one of persisted, malformed, trimmed, lost, in hand or queued; persisted, in hand and queued are in push order; the backlog is at most 10001 plus the workers between push and trim plus the trims that failed since the last successful one |
| `ReportQueue.TrimsCounted` | backend/engines/order_exec/worker.py:218-226 | the workers counted between push and trim are the pushes not yet trimmed, and the failed trims counted are those since the last that worked |
| `ReportQueue.TrimDropsOldest` | backend/engines/order_exec/worker.py:218-223 | a report is trimmed only when exactly 10000 newer ones stay, and everything kept is newer |
| `ReportQueue.PendingReports.constructor` | backend/engines/background/report_drainer.py:69-70 | the empty queue satisfies the invariant |
| `ReportQueue.PendingReports.Buffer` | backend/engines/order_exec/worker.py:218-223 | push then trim in place: the invariant is kept, at most 10000 stay and the new report is among them |
| `ReportQueue.BufferedKeeps` | backend/engines/order_exec/worker.py:209-223 | any number of pushes keeps the invariant, leaves stored, in-hand, malformed and lost reports alone, and trimmed followed by queued reports are what they were with the new ones behind |
| `ReportQueue.PendingReports.BufferMany` | backend/engines/order_exec/worker.py:209-223 | the queue after n pushes in place is the queue after n push-and-trim steps |
| `ReportQueue.PendingReports.Settle` | backend/engines/background/report_drainer.py:86-106 | the report in hand goes to exactly the place its outcome names; a requeue goes to the head |
| `ReportQueue.DrainKeeps` | backend/engines/background/report_drainer.py:72-107 | whatever the database does, stored reports are only added to and `drained` counts them, nothing leaves the malformed, trimmed or lost ones, and a report is lost only when its put-back fails |
| `ReportQueue.HealthyDrainEmpties` | backend/engines/background/report_drainer.py:72-91 | a database that stores everything, with nobody pushing, stores the queue in its own order, one report a turn |
| `ReportQueue.PendingReports.DrainOne` | backend/engines/background/report_drainer.py:72-106 | one turn in place: reports arrive, the oldest is popped if there is one, more arrive, it is settled and counted |
| `ReportQueue.PendingReports.Drain` | backend/engines/background/report_drainer.py:72-109 | the loop ends with exactly the queue and both counters that its turns lead to; stored before queued reports are in push order |
| `ExitLoop.TrailingClosedForm` | backend/engines/order_exec/exit_eval.py:98-118 | after any premiums whose maximum is known: peak is that maximum or the entry price, armed exactly when the maximum reached entry times one plus the arming gain, the level is peak times one less the trail, rounded to four places, once armed, and nothing else changes |
| `ExitLoop.CascadeExactly` | backend/engines/order_exec/exit_eval.py:46-86 | the cascade answers with the first of eight triggers, each stated in the fields and constants it reads, and with none exactly when none holds |
| `ExitLoop.LevelMonotone` | backend/engines/order_exec/exit_eval.py:106-107 | a higher peak never gives a lower level |
| `ExitLoop.TrailingRatchet` | backend/engines/order_exec/exit_eval.py:98-118 | over any run peak and level never fall and arming never undoes |
| `ExitLoop.ArmedStopProtectsEntry` | backend/engines/order_exec/exit_eval.py:100-107 | if (1+arm)(1-trail) is at least 1 an armed stop never sits below the rounded entry price |
| `ExitLoop.HeldLongEnough` | backend/engines/order_exec/exit_eval.py:81-86 | a poll at or after the maximum holding time always has an exit |
| `ExitLoop.AwaitExit` | backend/engines/order_exec/worker.py:557-620 | the premium of each poll is the quoted last price or the premium before; at every poll the loop went on from none of the eight triggers held (no pull, no circuit, before 15:15, inside stop and target, above an armed level, no spread over 5% before 15:00, not held too long) and the peak was below target; it ends with the first trigger that holds, or when the polls run out; with a 500 ms clock it ends within 2 * max_hold_sec + 1 polls |
| `ExitLoop.NewPeakNeverTrails` | backend/engines/order_exec/exit_eval.py:67-69 | TRAILING_SL never fires on a tick that sets or equals the peak when the trail is wider than half a grid unit |
| `EntryChase.LastFillFound` | backend/engines/order_exec/entry.py:256-267 | the fill kept from a batch exists exactly when the batch has a fill of this order, and is the newest of them |
| `EntryChase.LimitNearAsk` | backend/engines/order_exec/entry.py:179 | a limit price is the ask plus the buffer to within half a paisa |
| `EntryChase.ScanBatch` | backend/engines/order_exec/entry.py:256-274 | a batch ends in rejection exactly when it holds a reject of this order; otherwise the last fill wins and a partial fill restarts the grace clock |
| `EntryChase.Chase` | backend/engines/order_exec/entry.py:230-254 | a quiet turn gives up exactly at the ceiling, and exactly from the drift on makes the quoted ask the new reference |
| `EntryChase.ChaseEnvelope` | backend/engines/order_exec/entry.py:235-248 | after k modifications the reference ask lies between k drifts and less than k ceilings above the start |
| `EntryChase.LimitNeverFalls` | backend/engines/order_exec/entry.py:241-247 | with a non-negative drift the limit price sent never falls |
| `EntryChase.QuietTurnsBounded` | backend/engines/order_exec/entry.py:214-226 | turns that start before the deadline leave room for at most timeout over 500 ms quiet ones, plus one |
| `EntryChase.ReferencesClimb` | backend/engines/order_exec/entry.py:235-248 | the reference asks that a script of turns leads to rise by at least the drift and less than the ceiling each time, one per quiet turn at most |
| `EntryChase.TakeTurn` | backend/engines/order_exec/entry.py:220-281 | one turn lets the loop go on exactly when the reply is readable, the order open, the ask below the ceiling and no partial fill past its grace; otherwise it ends the entry with the result of that turn |
| `EntryChase.Monitor` | backend/engines/order_exec/entry.py:213-295 | the reference asks are those the quotes lead to; no turn starts after the deadline; the loop stops at the first turn that does not let it go on; it enters exactly when that turn filled this order with a nonzero quantity, at the fill's quantity and price; it is abandoned for the ceiling exactly when that turn breached it, for a reject exactly when that turn had one, and otherwise only for want of time or turns |
| `EntryChase.ModifiesBounded` | backend/engines/order_exec/entry.py:214-255 | the number of modifications is bounded by the timeout over the 500 ms block |
| `EntryChase.SubmitAndMonitor` | backend/engines/order_exec/entry.py:172-295 | a missing leaf, a missing ask and a refused placement each give their own abandonment and nothing else does, with no chase; otherwise the monitor's promise holds of the whole entry, which is entered exactly when the last turn read filled this order; the reference asks stay in the envelope, the limit never falls with a non-negative drift, and the modifications are bounded by the timeout over 500 ms |
| `EntryChase.FillThenRejectIsAbandoned` | backend/engines/order_exec/entry.py:264-274 | a full fill followed by a reject in one batch is abandoned, though the fill alone would enter |
| `PositionHash.Load` | backend/engines/order_exec/worker.py:230-300 | whatever loads satisfies the schema |
| `PositionHash.LoadedFitsSchema` | backend/state/schemas/position.py:48-95 | whatever loads has all 31 fields, each of the type and within the bounds the schema gives it |
| `PositionHash.MissingFieldShowsDefault` | backend/engines/order_exec/worker.py:248-250 | a field not stored or stored empty shows its default, and a required one spoils the load |
| `PositionHash.FieldRoundTrip` | backend/engines/order_exec/worker.py:148-155 | any field value but an empty text is parsed back as it was written |
| `PositionHash.FlagReads` | backend/engines/order_exec/worker.py:261-262 | a flag reads as set exactly when its text spells true, in whatever case |
| `PositionHash.EmptyTextIsLost` | backend/engines/order_exec/worker.py:248-250 | an empty text reads as not given, so the schema default shows instead |
| `PositionHash.StoreLoadExactly` | backend/engines/order_exec/worker.py:534-540 | storing and loading gives the position back if and only if none of its text fields is empty |
| `PositionHash.LastRefreshWins` | backend/engines/order_exec/worker.py:158-170 | after any number of refreshes only the last one shows |
| `PositionHash.RefreshLoad` | backend/engines/order_exec/worker.py:67-75 | after any number of refreshes in which only the seven live fields changed, loading gives the latest position, a None written as the empty string included |
| `PositionHash.EmptyVersionNeverLoads` | backend/state/schemas/position.py:95 | a position with an empty strategy version never loads again |
| `StrikeBasket.FillTokens` | backend/engines/strategy/strategies/bid_ask_imbalance/basket.py:100-108 | the loop fills exactly the strikes for which the instrument master has a non-empty token |
| `StrikeBasket.AtmNearSpot` | backend/engines/strategy/strategies/bid_ask_imbalance/basket.py:58-59 | the at-the-money strike is a multiple of the step within half a step of spot |
| `StrikeBasket.StrikesContiguous` | backend/engines/strategy/strategies/bid_ask_imbalance/basket.py:62-70 | strikes are the ascending 2n+1 multiples one step apart, symmetric about the money |
| `StrikeBasket.LastShiftRecorded` | backend/engines/strategy/strategies/bid_ask_imbalance/basket.py:98 | with a forward clock the basket's shift time is never before any shift of the run |
| `StrikeBasket.ShiftsKeepTheirDistance` | backend/engines/strategy/strategies/bid_ask_imbalance/basket.py:91-94 | any two shifts of a run are at least the hysteresis apart |
| `StrikeBasket.StaleOnlyUnderHysteresis` | backend/engines/strategy/strategies/bid_ask_imbalance/basket.py:88-108 | after any check with a spot the basket is on the current at-the-money strike, unless a running hysteresis left it as it was; a shifted basket has the strikes around it and, on each side, exactly the tokens listed for them |
| `StrikeBasket.ShiftTimeIsReal` | backend/engines/strategy/strategies/bid_ask_imbalance/basket.py:93-98 | a shift time in the basket is the time of an actual shift of the run |
| `StrikeBasket.StaleMeansRecentShift` | backend/engines/strategy/strategies/bid_ask_imbalance/basket.py:88-98 | a basket that a check leaves off the current at-the-money strike made an actual shift earlier in this run, less than the hysteresis ago |
| `StrikeBasket.ShiftsExactlyWhenDue` | backend/engines/strategy/strategies/bid_ask_imbalance/basket.py:88-98 | a check of a run shifts if and only if it has a spot on another strike than the basket, or the basket has no CE token, with no hysteresis running; otherwise the basket stays, its shift time included |
| `StrikeBasket.LastDueDecides` | backend/engines/strategy/strategies/bid_ask_imbalance/basket.py:88-98 | after any run the basket is the one its last due check left, with the time of that check |
| `StrikeBasket.ShiftLandsOnSpot` | backend/engines/strategy/strategies/bid_ask_imbalance/basket.py:90-98 | a shift puts the basket on the at-the-money strike of that check |
| `StrikeBasket.SteadySpotShiftsOnce` | backend/engines/strategy/strategies/bid_ask_imbalance/basket.py:91-92 | spots that keep one at-the-money strike shift a populated basket at most once |
| `TickRouter.RemoveExact` | backend/engines/strategy/ingestion.py:55-57 | removing a listed vessel removes it and no other |
| `TickRouter.DesiredExact` | backend/engines/strategy/ingestion.py:61-62 | the channel `market_data:pub:tick:` followed by a token is desired exactly when the token is routed |
| `TickRouter.Router.constructor` | backend/engines/strategy/ingestion.py:42-48 | a new router agrees with an empty fleet |
| `TickRouter.Router.Register` | backend/engines/strategy/ingestion.py:50-53 | adds exactly one pair; repeating it changes nothing; no list is empty or repeats a vessel |
| `TickRouter.Router.Unregister` | backend/engines/strategy/ingestion.py:55-59 | removes exactly one pair, and a token with its last vessel |
| `TickRouter.Router.Reconcile` | backend/engines/strategy/ingestion.py:64-81 | once connected the subscribed set becomes exactly the desired channels; before that nothing changes |
| `TickRouter.Router.Connect` | backend/engines/strategy/ingestion.py:95-96 | when the connection comes up everything registered before is subscribed |
| `TickRouter.Router.Reroute` | backend/engines/strategy/runner.py:317-321 | routes of one vessel change by exactly the added and dropped tokens, other vessels' routes do not change |
| `TickRouter.AgreesAfterShift` | backend/engines/strategy/runner.py:302-321 | routing by difference equals routing recomputed from the baskets |
| `TickRouter.EnsureBasket` | backend/engines/strategy/runner.py:285-322 | one basket check leaves routes in agreement with all baskets and, when it shifts on a live connection, subscriptions equal to the desired channels |
| `TickRouter.RunFleet` | backend/engines/strategy/runner.py:285-329 | after any checks of any vessels in any order, each vessel with its own configuration and the router connecting at any time, each vessel has the basket its own checks lead to, an event is routed for a token if and only if the token is in that vessel's basket, and from the connection on the subscribed channels are exactly the desired ones |
| `OptionChain.ProcessSyncedExactly` | backend/engines/data_pipeline/tick_processor.py:121-132 | a tick keeps store and memory equal outside the dirty set if and only if its stream write succeeds, or nothing was at stake |
| `OptionChain.BuildIndex` | backend/engines/data_pipeline/main.py:97-115 | the boot loop indexes every non-empty token, at the last slot that lists it |
| `OptionChain.BootIndexExact` | backend/engines/data_pipeline/main.py:97-115 | with distinct tokens the boot index is an exact inverse of the leaf tokens |
| `OptionChain.ProcessKeepsInverse` | backend/engines/data_pipeline/aggregator.py:52-90 | a tick never moves a token: the index stays an exact inverse |
| `OptionChain.AfterKeepsInverse` | backend/engines/data_pipeline/tick_processor.py:51-84 | after any ticks the index is still an exact inverse and unchanged |
| `OptionChain.MergeExactly` | backend/engines/data_pipeline/aggregator.py:59-88 | field by field, scalars and ladders: what the tick sends wins, then what was there, then zero or five unknown levels; the leaf keeps its token and takes the tick's time |
| `OptionChain.UpdateExactly` | backend/engines/data_pipeline/aggregator.py:52-89 | a strike outside the window is ignored, one inside takes the merge, and every other slot stays |
| `OptionChain.OtherTicksIgnored` | backend/engines/data_pipeline/tick_processor.py:123-132 | a tick of an unknown token or of a spot changes no chain and marks nothing |
| `OptionChain.OneTick` | backend/engines/data_pipeline/tick_processor.py:69-71 | a leaf takes the merge of ticks of its own token and is untouched by other tokens |
| `OptionChain.LeafHoldsLastSent` | backend/engines/data_pipeline/aggregator.py:59-89 | after any ticks each scalar of a leaf is the last value sent for its token and each ladder the last one sent |
| `OptionChain.AfterInBatches` | backend/engines/data_pipeline/tick_processor.py:120-138 | memory depends on the ticks alone, not on how they were framed or flushed |
| `OptionChain.TickProcessor.constructor` | backend/engines/data_pipeline/main.py:89-95 | after boot memory and store agree and nothing is dirty |
| `OptionChain.LoopSynced` | backend/engines/data_pipeline/tick_processor.py:105-138 | when every stream write succeeds, store and memory agree outside the dirty set after every turn of the loop |
| `OptionChain.LoopChains` | backend/engines/data_pipeline/tick_processor.py:105-138 | the memory of the loop is the ticks of all frames in order, whatever was flushed in between |
| `OptionChain.FlushesEvery50Ms` | backend/engines/data_pipeline/tick_processor.py:134-138 | a turn flushes exactly when something is dirty and 50 ms have passed since the last flush; then every dirty chain is stored and no other, otherwise the store is untouched |
| `OptionChain.TickProcessor.FlushChains` | backend/engines/data_pipeline/tick_processor.py:87-95 | a flush writes every dirty chain and no other |
| `OptionChain.TickProcessor.ApplyFrame` | backend/engines/data_pipeline/tick_processor.py:120-132 | a frame applies its ticks in order, a failed stream write skipping only the dirty mark |
| `OptionChain.TickProcessor.Run` | backend/engines/data_pipeline/tick_processor.py:99-142 | memory has taken every tick in order; if all stream writes succeeded, store and memory agree outside the dirty set after every turn, and everywhere after the shutdown flush |
| `StrikeBuffer.CollapseKeepsLastTs` | backend/engines/strategy/strategies/bid_ask_imbalance/buffer.py:47-53 | the collapsed history ends at the newest timestamp pushed |
| `StrikeBuffer.LastNAppend` | backend/engines/strategy/strategies/bid_ask_imbalance/buffer.py:44-53 | appending and dropping an overflow gives the newest items of the longer history |
| `StrikeBuffer.StrikeBuffer.constructor` | backend/engines/strategy/strategies/bid_ask_imbalance/buffer.py:44-45 | an empty buffer of the given capacity |
| `StrikeBuffer.StrikeBuffer.Push` | backend/engines/strategy/strategies/bid_ask_imbalance/buffer.py:47-53 | the contents stay the newest `capacity` items of the whole push history with runs of equal timestamps collapsed |
| `StrikeBuffer.StrikeBuffer.Latest` | backend/engines/strategy/strategies/bid_ask_imbalance/buffer.py:55-56 | the last item of the buffer and of the collapsed history, missing only when nothing was pushed or nothing can be kept |
| `StrikeBuffer.ConsecutiveUpticks` | backend/engines/strategy/strategies/bid_ask_imbalance/metrics/tick_speed.py:18-45 | the loop computes the streak of the newest 50 items |
| `StrikeBuffer.ConsecutiveDownticks` | backend/engines/strategy/strategies/bid_ask_imbalance/metrics/tick_speed.py:48-72 | the loop computes the streak of the negated prices, over the buffer's capacity |
| `StrikeBuffer.StreakIsGreatest` | backend/engines/strategy/strategies/bid_ask_imbalance/metrics/tick_speed.py:30-45 | the streak is the greatest length of a strictly rising run ending at the newest item inside the window, and zero when there is none |
| `StrikeBuffer.UpticksReach` | backend/engines/strategy/strategies/bid_ask_imbalance/metrics/tick_speed.py:18-45 | the up counter reaches k exactly when k is at most 50 and the newest k prices rise strictly within the window |
| `StrikeBuffer.DownticksReach` | backend/engines/strategy/strategies/bid_ask_imbalance/metrics/tick_speed.py:48-72 | the down counter reaches k exactly when k is at most the capacity and the newest k prices fall strictly within the window |
| `StrikeBuffer.WindowByOldest` | backend/engines/strategy/strategies/bid_ask_imbalance/metrics/tick_speed.py:31-36 | with ordered timestamps, the window test on the oldest item of a run tests them all |
| `StrikeBuffer.CappedStreak` | backend/engines/strategy/strategies/bid_ask_imbalance/metrics/tick_speed.py:22-45 | the streak read from the newest n items is the streak of the whole buffer cut at n |
| `StrikeBuffer.CountersMirrorExactly` | backend/engines/strategy/strategies/bid_ask_imbalance/metrics/tick_speed.py:18-72 | for every buffer of any capacity the up counter on mirrored prices is the down counter cut at 50; the two are equal if and only if the newest 51 prices do not fall strictly within the window |
| `StrikeBuffer.DowntickSymmetry` | backend/engines/strategy/strategies/bid_ask_imbalance/metrics/tick_speed.py:48-72 | for capacities up to 50 downticks are the upticks of the negated prices |
| `StrikeBuffer.DowntickAsymmetryBeyond50` | backend/engines/strategy/strategies/bid_ask_imbalance/metrics/tick_speed.py:52 | for every capacity above 50 some buffer counts a fall further than the same rise |
| `Imbalance.ImbalanceExactly` | backend/engines/strategy/strategies/bid_ask_imbalance/metrics/imbalance.py:33-41 | a leg has an imbalance exactly when both totals are known, bids not negative and asks positive, and it is then bids per ask |
| `Imbalance.CumulativeExactly` | backend/engines/strategy/strategies/bid_ask_imbalance/metrics/cumulative.py:15-32 | a side has a ratio exactly when some bid total is known and the asks known sum to more than zero, and it is then the bids known per asks known |
| `Imbalance.DominantIsFirstMaximum` | backend/engines/strategy/strategies/bid_ask_imbalance/strategy.py:151-160 | a dominant strike exists as soon as one imbalance can be computed, and it is the first maximum |
| `Imbalance.PickDominantStrike` | backend/engines/strategy/strategies/bid_ask_imbalance/strategy.py:151-160 | the loop with a running best finds it |
| `Imbalance.SumsBelow` | backend/engines/strategy/strategies/bid_ask_imbalance/metrics/cumulative.py:22-32 | a bound on every leg's imbalance is a bound on the ratio of the totals |
| `Imbalance.MediantDominance` | backend/engines/strategy/strategies/bid_ask_imbalance/metrics/cumulative.py:22-32 | without orphan bids the dominant strike is at least as imbalanced as its side, and a side with a positive ratio has one |
| `Imbalance.StoredSideHasDominant` | backend/engines/strategy/strategies/bid_ask_imbalance/metrics/cumulative.py:22-32 | a side whose legs have both totals or neither, none negative, has a dominant strike as soon as it has a ratio |
| `Imbalance.RatioBelowExactly` | backend/engines/strategy/strategies/bid_ask_imbalance/metrics/cumulative.py:22-32 | for any side and any mark, the ratio is at most the mark if and only if the bids of legs without a computable imbalance are at most the mark times all asks less the bids of the other legs |
| `Imbalance.TopImbalance` | backend/engines/strategy/strategies/bid_ask_imbalance/strategy.py:151-160 | the imbalance of the dominant strike, the first maximum of the side |
| `Imbalance.DominanceExactly` | backend/engines/strategy/strategies/bid_ask_imbalance/metrics/cumulative.py:22-32 | on any side the dominant strike is at least as imbalanced as the side if and only if its orphan bids fit under it in that sense |
| `Imbalance.OrphanKeepsDominant` | backend/engines/strategy/strategies/bid_ask_imbalance/strategy.py:154-160 | a leg without a computable imbalance never changes the dominant strike |
| `Imbalance.OrphanBidBreaksDominance` | backend/engines/strategy/strategies/bid_ask_imbalance/metrics/imbalance.py:37-38 | dominance does fail: a side with a leg whose ask total is zero, as the chain stores it, has a ratio above its dominant strike |
| `Decisions.ReversalExcludesContinuation` | backend/engines/strategy/strategies/bid_ask_imbalance/decisions/reversal.py:84-126 | a triggered reversal always fails continuation, on the wall and on the spread, and on the aggressor when the moderate spread is at least twice the tolerance |
| `Decisions.FallingWallNeverRefreshes` | backend/engines/strategy/strategies/bid_ask_imbalance/metrics/ask_wall.py:63-81 | a window of ask quantities that never rises and ends at the leg's own is never classed REFRESHING |
| `Decisions.OrderQtyBounds` | backend/engines/strategy/strategies/bid_ask_imbalance/strategy.py:393-404 | a quantity lies between one lot and the configured one, and is the configured one at full size |
| `Decisions.EnterCoherence` | backend/engines/strategy/strategies/bid_ask_imbalance/strategy.py:342-416 | every ENTER has two ask-wall points, a score of 6, 8 or 10 that meets the minimum of the window in force, a bounded quantity, and full size only with a GOOD spread and a score of at least 8 |
| `Decisions.WindowContains` | backend/engines/strategy/strategies/bid_ask_imbalance/decisions/timing.py:58-63 | the window in force is a configured one that contains the minute |
| `Decisions.DirectionHasDominantStrike` | backend/engines/strategy/strategies/bid_ask_imbalance/strategy.py:329-339 | once gate 1 passes on a snapshot as the chain stores it, or one without orphan bids, the chosen side has a dominant strike; without orphan bids its imbalance exceeds a non-negative entry threshold |
| `Decisions.EnteredIsDominant` | backend/engines/strategy/strategies/bid_ask_imbalance/strategy.py:329-340 | on any snapshot an entered strike is the first maximum of the side gate 1 chose |
| `Decisions.FlipTargetIsDominant` | backend/engines/strategy/strategies/bid_ask_imbalance/strategy.py:266-290 | a flip goes to the first maximum of the other side |
| `Decisions.EntersDominantStrike` | backend/engines/strategy/strategies/bid_ask_imbalance/strategy.py:328-416 | on any snapshot as the chain stores it, held or flat, no tick ends for lack of a dominant strike; without orphan bids an entered strike exceeds a non-negative entry threshold |
| `Decisions.HoldsExactlyOnContinuation` | backend/engines/strategy/strategies/bid_ask_imbalance/strategy.py:254-318 | a held position is kept exactly when every continuation check passes, though reversal is tested first, and flipped exactly when the reversal triggers and the other side has a dominant strike |
| `Decisions.ActionMatchesState` | backend/engines/strategy/strategies/bid_ask_imbalance/strategy.py:240-338 | a held vessel never enters, a flat one never holds, exits or flips, and a flip goes to a listed leg of the other side |
| `DecisionFields.WallExactly` | backend/engines/strategy/strategies/bid_ask_imbalance/metrics/ask_wall.py:39-94 | the five wall classes in quantities: no wall unless the ask exceeds the multiple of a positive bid, or faces an empty one; refreshing, absorbing and holding by pairs of ask quantities among the newest five observations, the last price and the bid |
| `DecisionFields.SpreadExactly` | backend/engines/strategy/strategies/bid_ask_imbalance/metrics/spread.py:24-46 | the four spread classes by the gap of an uncrossed book |
| `DecisionFields.AggressorExactly` | backend/engines/strategy/strategies/bid_ask_imbalance/metrics/aggressor.py:25-32 | who took the last price, by its distance from ask and bid |
| `DecisionFields.PointsExactly` | backend/engines/strategy/strategies/bid_ask_imbalance/metrics/quality_score.py:57-107 | each of the five points in fields: gap, bids against asks, wall, strictly running prices, last price |
| `DecisionFields.AdmitsExactly` | backend/engines/strategy/strategies/bid_ask_imbalance/decisions/timing.py:58-77 | an entry is in time exactly when the first configured window that contains the minute takes entries and asks for no more than the score |
| `DecisionFields.DirectionExactly` | backend/engines/strategy/strategies/bid_ask_imbalance/decisions/entry_gates.py:28-40 | gate 1 chooses the side whose ratio beats the other by more than the threshold, calls first |
| `DecisionFields.EntryExactly` | backend/engines/strategy/strategies/bid_ask_imbalance/strategy.py:342-416 | gates 2 to 4 on a strike: each refusal and the entry exactly when the wall, the book, the window and the score, in fields, say so; full size exactly for a score of 8 and a good spread |
| `DecisionFields.HalfSizeExactly` | backend/engines/strategy/strategies/bid_ask_imbalance/strategy.py:404 | a half-size order is half the configured lots to the nearest lot, and at least one |
| `DecisionFields.FlatExactly` | backend/engines/strategy/strategies/bid_ask_imbalance/strategy.py:320-340 | a flat vessel is suppressed exactly before its time, has no direction exactly without one, and otherwise puts the dominant strike of the chosen side through gates 2 to 4 |
| `DecisionFields.ReversalExactly` | backend/engines/strategy/strategies/bid_ask_imbalance/decisions/reversal.py:78-126 | the four triggers in fields of the leg and of the buffer, and that all four are needed |
| `DecisionFields.ContinuationExactly` | backend/engines/strategy/strategies/bid_ask_imbalance/decisions/continuation.py:52-103 | a position goes on exactly when bids reach the threshold of asks, the bid did not shrink, no wall blocks, the book is no wider than allowed and the last price is not on the wrong side |
| `DecisionFields.LegFound` | backend/engines/strategy/strategies/bid_ask_imbalance/strategy.py:242-244 | the held leg is the first of the snapshot with the held token |
| `DecisionFields.HeldExactly` | backend/engines/strategy/strategies/bid_ask_imbalance/strategy.py:240-318 | with a position: no leg, nothing; HOLD exactly when it goes on; FLIP exactly on a reversal with a dominant strike opposite; EXIT in every other case |
| `RateLimiter.LimitTable` | backend/engines/api_gateway/middleware/rate_limit_middleware.py:41-46 | five for a login, ten for a command, sixty for anything else, and for nothing else |
| `RateLimiter.WindowNeverOverfull` | backend/engines/api_gateway/middleware/rate_limit_middleware.py:29-37 | if acceptances `limit` apart span more than 60 seconds, no closed 60-second window holds more than `limit` |
| `RateLimiter.CountBucket` | backend/engines/api_gateway/middleware/rate_limit_middleware.py:28-31 | after eviction the deque's length is the number of acceptances of the last 60 seconds in the full history |
| `RateLimiter.FaithfulAfterAccept` | backend/engines/api_gateway/middleware/rate_limit_middleware.py:37 | accepting below the limit keeps the deque a faithful tail of the history and the spacing of acceptances |
| `RateLimiter.Evict` | backend/engines/api_gateway/middleware/rate_limit_middleware.py:29-30 | the eviction loop leaves exactly the recent part of the history |
| `RateLimiter.RateLimitMiddleware.constructor` | backend/engines/api_gateway/middleware/rate_limit_middleware.py:17-19 | a limiter with no history |
| `RateLimiter.RateLimitMiddleware.Admit` | backend/engines/api_gateway/middleware/rate_limit_middleware.py:25-38 | a request is served exactly when the full history of its key has fewer than `limit` acceptances in the last 60 seconds |
| `RateLimiter.RateLimitMiddleware.Dispatch` | backend/engines/api_gateway/middleware/rate_limit_middleware.py:21-38 | exempt paths pass; otherwise as above, no other key is affected, and over the whole run every closed 60-second window of every key holds at most its limit |

## Left out

- Broker REST and WebSocket wrappers, HTTP routers, authentication, encryption, database and Redis clients, migrations, logging and scripts: input and output of foreign libraries.
- The init sequence, scheduler jobs, health probes, view router, tick parser and holiday predicates: one-branch facts.
- `vessel:state`, cooldown and counter keys: written after the release and never read by `process_signal`, so they promise nothing under interleaving.
- Cleanup is one step that succeeds; the code also goes on to the release when the cleanup pipeline fails, which leaves the position keys behind. Per-order keys (`orders:orders`, broker hashes) are not modelled.
- A flip's exit order and report push are not steps of their own; an exit order that raises is the abort step. The hash that the old owner keeps refreshing after a flip deleted it is not followed, nor is a flip cleanup or release whose pipeline fails.
- A release whose pipeline fails counts as an exception at that point (the slot leaks). An EXEC that commits but whose reply is lost is not modelled; it would leak a slot that no lifecycle owns. A report push that fails silently is not modelled in the step system either.
- The `total` field of the counter hashes is kept apart from the per-index fields, so an index named `total` is not covered.
- Position identifiers are assumed fresh. The client library's own retry after a failed EXEC is left open: each failed EXEC may or may not use up an attempt.
- Exact reals stand for floats and for HINCRBYFLOAT; accumulated floating-point error is not modelled.
- Configuration defaults (`spread_skip_pct`, `lot_size`, thresholds) are taken as already applied; the kill-switch snapshot is reduced to its verdict.
- The order-event stream is read from the moment of the first XREAD, so an event published earlier is missed; nothing is claimed about fills that are never read. The live exit submission and paper-mode fills are not modelled.
- Profit and loss figures, holding seconds and trailing history written in the exit loop are not modelled; `PositionHash` covers how they are stored and refreshed.
- `PositionHash` takes the conversions of the language library (integers, floats, ISO timestamps, JSON) as lossless and never empty.
- A chain flush that fails ends the loop in the code and is not modelled; spot snapshots are not modelled.
- Route changes by another vessel while a reconcile awaits the server are not modelled; the subscription count published to Redis is not either.
- The buffer pushes and telemetry of the first phase of `on_tick`, and the buffer store that creates and discards buffers by token, are not modelled; `Decisions` starts from the buffers as they are after the pushes.
- Per-strike imbalance classes and pressure labels are reporting only.
