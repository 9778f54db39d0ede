# Tick: a verified model of the scheduling core

Tick keeps tasks in one Postgres table. Workers claim due rows, run a handler, and report; a
sweeper takes back rows whose worker went silent; scheduler nodes expand cron rules into keyed
tasks. This project models those three protocols over one database clock (microseconds, never
running backward) and proves what the system promises about them.

**The task table** (`Tasks`, `Effects`, `History`, `TaskStore`, `Drain`, `SkipLocked`). `Tasks`
holds the columns of a row and the effect of each SQL statement: a statement is an `Event`, an
`UPDATE ... WHERE` is a function of one row applied to every row, and a run is any sequence of
statements by any number of clients, workers and sweepers. The safety argument is the table-wide
invariant `Tasks.Inv` (running exactly when claimed, running implies a heartbeat, pending implies
attempts remain, dead implies none do, one row per key), which no statement tests. `Effects` says
column by column what each statement amounts to. `TaskStore.Store` is the same table as a class:
one method per store call, with the loops of the code, each proved equal to its event and recorded
in a ghost history. `SkipLocked` replaces the atomic claim by one that takes a snapshot, visits
rows in rank order, skips locked rows, drops rows that no longer qualify and later commits; it is
proved to refine the atomic one. `Drain` proves that tasks end even if every claimer crashes.

**The worker** (`Worker`, `Capacity`, `DoubleExecution`, `KeepAlive`, `Fencing`, `Shutdown`,
`LostClaim`, `WorkerLoops`). `Worker` is the process as interleaved steps of the claim loop, the
dispatch goroutines (handler, store write, `remove`, `<-sem`, `wg.Done`, each a step), the
heartbeat loop and shutdown. Store calls may fail before or after taking effect, workers may crash,
everyone else is the environment. Zero double execution, capacity, shutdown and lost-claim
detection are proved over all runs, with their exact conditions. `WorkerLoops` has the same code as
a class with loops and the in-flight map, where other processes, and the worker's own other
goroutines, act between any two calls.

**Recurring schedules** (`Keys`, `Cron`, `Materializer`, `GapFree`, `KeyOwner`). `Cron` is `NextN`
over a fixed set of whole-second instants and an arbitrary pair of functions between instants and
wall clocks; nothing is assumed about `time.Date`, so the results hold for every zone. `Keys` is
the idempotency key with the civil calendar behind the date-time format of section 5.6 of RFC 3339.
`Materializer` is plan, insert and advance as code; `GapFree` lets any number of nodes run passes
with stale snapshots, failed inserts and crashes between insert and advance; `KeyOwner` says whose
row stands under a key.

`Retry` is the backoff curve, in Go and in SQL; `Wrappers` holds `Option`.

## Where the code and its documentation differ

The model follows the code.

- `internal/cron/nextn.go:44-51` says an ambiguous wall clock fires on its first, pre-transition
  occurrence. The code accepts an instant only when `time.Date` of its wall clock gives the instant
  back, so it fires on the one `time.Date` picks, which Go leaves unspecified
  (`Cron.AmbiguousFiresOnce`). The comparison with the previous wall clock can only ever reject a
  repeat of a seed that is not itself a fire (`Cron.CanonicalOwed`, `Cron.PendingAfterAccepted`).
- `Complete` and `Fail` are fenced by worker id, not by claim, and `remove` by task id. A worker that
  reclaims a task before its old dispatch has unwound loses the new entry, and shutdown then returns
  with a claimed row (`Shutdown.EscapesFromTheStart`); when the remove is harmless is said exactly
  by `Shutdown.RemoveHarmlessIff`. In the same way a heartbeat pass can cancel a healthy dispatch
  (`LostClaim.OwnerCancelledFromTheStart`); the exact condition is `LostClaim.CancelHitsOwnerIff`.
- The promise that a resurrected worker cannot report on a reassigned task
  (`internal/store/postgres/complete.go:10-14`) fails when the task was reassigned to the same
  worker: the old handler's report then ends the newer attempt (`Fencing.MisreportFromTheStart`);
  exactly when is `Fencing.ReportEndsOwnIff`, and `Fencing.ReportsEndTheirOwn` says where it cannot.
- The claim loop passes its cancellable context to Claim and goes straight to shutdown when the call
  fails. A claim that took effect all the same is forgotten, and Run returns with the row claimed
  (`Shutdown.LostReplyFromTheStart`); exactly when is `Shutdown.LostReplyHarmlessIff`.
- `power(2, attempts) * 5` overflows a double from 1022 attempts on, and Postgres then fails the
  statement. For the sweeper that means the whole sweep (`Drain.PoisonBlocksSweeper`). The HTTP layer
  caps `max_attempts` at 100 (`internal/api/validate.go:31`); the store does not.
- Two passes that both read a NULL watermark at different clock readings can leave a gap
  (`GapFree.TwoFirstPassesLeaveGap`). An advance leaves none exactly when every accepted fire it
  jumps over already has a row (`GapFree.AdvanceGapFreeIff`).
- A forced release at shutdown hands a task back while its handler may still be executing
  (`DoubleExecution.ForcedReleaseBreaksIt`). Whether two workers can then execute it together is
  decided exactly by whether it has attempts left (`DoubleExecution.ReleaseTwiceIff`, and
  `DoubleExecution.SweepTwiceIff` for a late heartbeat).
- The sweeper uses the literal 90 seconds; the configured heartbeat TTL never reaches it.
- `internal/materializer/plan.go:21-25` asks for the database clock; the run loop passes the node's
  own. A pass therefore carries an arbitrary `now`.

## Model

| member | source | states |
|---|---|---|
| `Retry.CeilingMonotone` | internal/retry/backoff.go:32-37 | the retry delay never shrinks as attempts grow |
| `Retry.CeilingSaturates` | internal/store/postgres/fail.go:28 | the 300 second cap is reached exactly from the sixth attempt on |
| `Retry.ProductFits` | internal/store/postgres/fail.go:28 | power(2, attempts) * 5 stays below 2^1024, the bound of a double, exactly up to 1021 attempts |
| `Retry.CeilingAgrees` | internal/retry/backoff.go:25-37 | the delay inside the SQL statements has a value exactly while that product is a double, and then it equals the Go curve under its default configuration |
| `Tasks.InvStep` | internal/store/postgres/claim.go:39-57 | every statement, including a claim without an attempts guard and writes without a status guard, keeps the table-wide invariant |
| `Tasks.ReachableInv` | internal/migrate/sql/0001_tasks.sql:60-76 | in every table reachable from the empty one: running iff claimed, running has a heartbeat, pending and cancelled have attempts left, dead has none, attempts never exceed max_attempts, one row per (queue, key) |
| `Tasks.RowStep` | internal/store/postgres/recover_orphans.go:20-28 | a statement changes a row by its own SET clause or not at all, never its identity columns, and a failed statement changes nothing; a claim takes only candidates at its own clock (the columns are in the rows of `Effects`) |
| `Tasks.RunGrows` | internal/migrate/sql/0001_tasks.sql:9-58 | no run deletes a row or rewrites its identity columns, and the clock never runs back |
| `Effects.ClaimInRun` | internal/store/postgres/claim.go:39-53 | in every run, every row a claim takes was pending, due at the claim's clock and of the queue asked for; it becomes running under the worker with that instant as heartbeat and one more attempt, and no other column changes |
| `Effects.SelectionTakesBest` | internal/store/postgres/claim.go:46-52 | a selection takes rows of the queue that are pending and due, by priority and then run time, and leaves one behind only when the limit is reached and it comes no earlier than any row taken |
| `Effects.SweepEffect` | internal/store/postgres/recover_orphans.go:20-28 | a sweep gives every row that was running and silent for more than 90 seconds the orphan text and no owner, keeps its attempts and heartbeat, and sets it pending at now plus the ceiling of the Go curve if attempts are left, else dead with its run time unchanged; every other row stays |
| `Effects.SweepFailsIff` | internal/store/postgres/recover_orphans.go:22-24 | the sweep fails as a whole if and only if one such row has attempts left and at least 1022 behind it |
| `Effects.FailEffect` | internal/store/postgres/fail.go:24-33 | a failure records its message, gives up claim and heartbeat, keeps the attempts, and sets the row pending at now plus the jittered ceiling, rounded down to a microsecond, or dead where it was; every other row stays |
| `Effects.CompleteEffect` | internal/store/postgres/complete.go:15-20 | a completion changes status, owner and heartbeat of the owned row and nothing else |
| `Effects.HeartbeatEffect` | internal/store/postgres/heartbeat.go:8-11 | a heartbeat writes now to the listed rows of the worker and nothing else |
| `Effects.CancelEffect` | internal/store/postgres/get_cancel.go:30-33 | a cancellation changes the status of a pending row and nothing else |
| `Effects.InsertEffect` | internal/store/postgres/enqueue.go:38-77 | an insert adds one row under the next id exactly if the submission is storable and its key free in its queue, with every column as submitted, run_at defaulting to now and max_attempts to 5, and changes no other row |
| `History.HistoryGrammar` | internal/store/postgres/complete.go:15-33 | in every run the effective statements on a task spell (Claim_w Heartbeat_w* (Fail_w or Recover))* followed by nothing, an open claim, a completed claim, or a cancellation; the word alone fixes status, owner and attempts |
| `History.LifeStep` | internal/store/postgres/fail.go:24-51 | an effective statement can follow the history so far: only the owner or the sweeper touches a held task, nothing touches a terminal one; an ineffective one leaves the row as it is |
| `History.AttemptAccounting` | internal/domain/task.go:108-111 | attempts equals the number of claims ever granted on the row; exactly one Complete has taken effect if the task succeeded and none otherwise |
| `History.GrantedOnce` | internal/store/postgres/claim.go:41-45 | of two claims of a task in one run the later stamps a higher attempts value, so no pair (id, attempts) is granted twice |
| `History.TerminalFrozen` | internal/domain/task.go:66-74 | a terminal row is frozen field for field under every continuation |
| `History.TrailRun` | internal/store/postgres/fail.go:15-33 | in every run: a heartbeat on an idle row only ever comes from an orphan recovery, a task tried without success shows an error, no task runs before its run_at, and no retried task waits longer than its backoff ceiling |
| `History.BudgetStep` | internal/store/postgres/recover_orphans.go:12-28 | a statement changes a task's status exactly when it is an effective non-heartbeat one, and then strictly lowers 2 * (max_attempts - attempts), plus one while running |
| `History.BoundedLife` | internal/store/postgres/recover_orphans.go:12-28 | in any run a task changes status at most 2 * max_attempts times |
| `History.PoisonSpacing` | internal/store/postgres/recover_orphans.go:20-28 | while a task is only taken back by the sweeper, its row carries the summed delay of all orphan cycles since its first claim |
| `History.NextClaimIsLate` | internal/store/postgres/recover_orphans.go:20-28 | a claim after k orphan cycles happens more than the sum of 90 s + min(300, 5 * 2^attempts) s after the first claim |
| `History.NextClaimWaits` | internal/store/postgres/claim.go:48 | the next claim of a pending task, in any continuation, reads a clock not before the task's run time |
| `History.ClaimAfterSweep` | internal/store/postgres/recover_orphans.go:23-25 | the claim after a recovery is at least the whole ceiling later than the sweep, however late the sweep came |
| `History.StableKey` | internal/migrate/sql/0002_schedules.sql:55-60 | once bound, a key belongs to that one row in every later table, and inserting under it adds nothing |
| `TaskStore.SameAnswer` | internal/store/postgres/enqueue.go:91-98 | after any run, enqueueing under a bound key, alone or anywhere in a batch, returns the row it was first bound to, in whatever status that is |
| `TaskStore.Store.Enqueue` | internal/store/postgres/enqueue.go:62-99 | creates exactly when the submission is storable and no row of the queue holds the key, with every column as submitted or defaulted; otherwise returns the row of that queue and key with the duplicate marker, or refuses; no other row changes |
| `TaskStore.Store.InsertPass` | internal/store/postgres/enqueue_bulk.go:51-70 | the first pass inserts in order and lists exactly the skipped items, or stops at the first refused one |
| `TaskStore.Store.ResolvePass` | internal/store/postgres/enqueue_bulk.go:72-79 | resolving the skipped items at the end gives the results of one-by-one enqueueing |
| `TaskStore.Store.EnqueueBulk` | internal/store/postgres/enqueue_bulk.go:21-85 | same table and same results as enqueueing the items one by one at one database time, keys repeated inside the batch included; fails exactly when an item is unacceptable, and then leaves every row as it was |
| `TaskStore.ResolvedLate` | internal/store/postgres/enqueue_bulk.go:47-50 | the row found for a duplicate after the whole batch is the one a call on the spot would have returned |
| `TaskStore.InsertAllRun` | internal/store/postgres/enqueue_bulk.go:32-45 | a batch is a run of single inserts: it adds rows, changes none and keeps the invariant |
| `TaskStore.Store.Select` | internal/store/postgres/claim.go:46-52 | the selection, in columns: pending rows of the queue with run_at not after now, at most limit, by priority and run_at, and one left behind only when the limit is reached and it comes no earlier than any row taken |
| `TaskStore.Store.ClaimRows` | internal/store/postgres/claim.go:41-45 | exactly the selected rows are stamped, and handed back in their order |
| `TaskStore.Store.Claim` | internal/store/postgres/claim.go:62-81 | the same of one claim call, with the columns of every row it takes before and after, every other row unchanged, and the tasks returned in order, running under this worker within their attempts |
| `TaskStore.Store.Complete` | internal/store/postgres/complete.go:24-33 | succeeds exactly for the owner of a claim, whose row was therefore running, and changes its status, owner and heartbeat alone; otherwise ErrClaimLost and no change |
| `TaskStore.Store.Fail` | internal/store/postgres/fail.go:38-52 | releases a running row of the owner with message, attempts, status and run time as the retry policy says, and no other row; ErrClaimLost exactly for everyone else; a statement error exactly with attempts left and at least 1022 made |
| `TaskStore.Store.Heartbeat` | internal/store/postgres/heartbeat.go:17-27 | writes now to exactly the running rows of this worker among the ids, changes nothing else, and returns their number |
| `TaskStore.Store.Cancel` | internal/store/postgres/get_cancel.go:38-54 | cancels exactly a pending row, changing its status alone; ErrNotFound exactly for a missing id; otherwise ErrNotCancellable |
| `TaskStore.Store.RecoverOrphans` | internal/store/postgres/recover_orphans.go:33-39 | recovers every row running and silent for over 90 seconds, column by column with the backoff from now, and no other; counts them, and leaves none silent; or, exactly when one of them is out of bounds, fails as a whole |
| `Drain.SweepCompleteIff` | internal/store/postgres/recover_orphans.go:20-28 | a sweep leaves no expired row behind if and only if no expired row overflows the backoff expression |
| `Drain.PoisonBlocksSweeper` | internal/store/postgres/recover_orphans.go:22-24 | one abandoned overflowing row makes every later sweep fail for as long as its owner stays silent |
| `Drain.PoisonExample` | internal/store/postgres/recover_orphans.go:20-28 | a run from the empty table: any task with a limit above 1022 fails 1021 times, is claimed once more and abandoned next to any other task under another key; from then on the sweep changes nothing, and the innocent neighbour stays abandoned |
| `Drain.BoundedNeverErrs` | internal/api/validate.go:31 | while no open task has an attempt limit above 1022 (the HTTP layer admits 100) no statement ever overflows |
| `Drain.CrashRound` | internal/store/postgres/recover_orphans.go:12-19 | one round of letting time pass, sweeping, claiming and crashing strictly lowers the total budget of any table with an open task, if no open task has a limit above 1022 |
| `Drain.DrainByCrashing` | internal/store/postgres/recover_orphans.go:12-19 | the loop of crashing claimers terminates on every table whose open tasks have limits of at most 1022; tasks already terminal are untouched, all the others end dead with all attempts used |
| `SkipLocked.StepOk` | internal/store/postgres/claim.go:10-57 | in every interleaving of scanning claims and other statements row locks are exclusive, and each locked row is still pending and due for the claim that holds it |
| `SkipLocked.LockedFrozen` | internal/store/postgres/claim.go:16-20 | no step of anyone else changes a locked row |
| `SkipLocked.CommitIsAtomicClaim` | internal/store/postgres/claim.go:41-53 | each commit is one enabled atomic claim of distinct pending due rows |
| `SkipLocked.PassedForAReason` | internal/store/postgres/claim.go:21-27 | in every interleaving, a row an open scan passed over was locked by another claim, or no longer pending and due, at the moment this very scan came to it |
| `SkipLocked.OverlappingClaimSelects` | internal/store/postgres/claim.go:46-52 | in every interleaving, a finished claim holds rows of its queue that are still pending and due, the best of its snapshot in the order of the snapshot, within its limit, but for the rows passed over, each for one of those two reasons |
| `SkipLocked.LockingRefinesAtomicClaims` | internal/store/postgres/claim.go:10-57 | every interleaved run with locks is, on the table, a run of atomic statements, so all laws of runs carry over |
| `SkipLocked.UninterruptedClaim` | internal/store/postgres/claim.go:21-27 | the special case of a scan nobody interrupts: it passes over nothing but rows locked by other claims and takes the best of the rest of the current table |
| `Capacity.CapacityStep` | internal/worker/worker.go:108-120 | no interleaving of the claim loop with finishing dispatches lets slots exceed Concurrency or a claim exceed the free slots |
| `Capacity.CapacityRun` | internal/worker/worker.go:142-156 | over every run from start: slots in use equal dispatches holding one, the wait group counts all dispatches, never more than Concurrency |
| `Capacity.NeverBlocks` | internal/worker/worker.go:191-195 | the send that launches a claimed task never blocks, nor do the deferred receives; every claim limit is the smaller of ClaimBatch and the free slots, and at least 1; stopping, draining and the other steps are possible when the code could take them |
| `DoubleExecution.HoldsStep` | internal/store/postgres/recover_orphans.go:20-28 | a held claim survives a statement of others if and only if that is not a sweep of its expired row |
| `DoubleExecution.SafeStep` | internal/store/postgres/recover_orphans.go:20-28 | a live claim stays its worker's or becomes one that nobody can repeat, unless a sweep finds its row expired with attempts left |
| `DoubleExecution.SweepSafeIff` | internal/worker/heartbeat.go:65-72 | a sweep hands no live task to others if and only if no live claim with attempts left has been silent for more than 90 seconds |
| `DoubleExecution.ReleaseSafeIff` | internal/worker/worker.go:177-189 | a forced release hands no live task to others if and only if it does not take effect on a task with attempts left whose handler is executing |
| `DoubleExecution.LiveOwn` | internal/worker/worker.go:142-157 | no other step of a worker puts one of its live tasks at risk or makes a task live twice |
| `DoubleExecution.FleetStepOk` | internal/worker/worker.go:97-159 | the same across a fleet whose workers start, crash and fail to reach the store, beside sweeps and clients |
| `DoubleExecution.ZeroDoubleExecution` | internal/store/postgres/claim.go:10-12 | in every run from the empty system in which no sweep finds a live claim with attempts left silent for over 90 seconds and no forced release takes effect on such a task while it executes, at most one handler in the whole fleet executes a task at any moment |
| `DoubleExecution.SweepTwiceIff` | internal/store/postgres/recover_orphans.go:22 | in any fleet that is safe so far, after a sweep of a running expired task two workers can come to execute it together if and only if it had attempts left |
| `DoubleExecution.ReleaseTwiceIff` | internal/store/postgres/fail.go:26 | the same of a forced release of a running task that takes effect |
| `DoubleExecution.StaleSweepBreaksIt` | internal/store/postgres/recover_orphans.go:8-10 | from the empty system, with any retryable task and no forced release, a sweep of a claim silent for 91 seconds leads to two workers executing it together |
| `DoubleExecution.ForcedReleaseBreaksIt` | internal/worker/worker.go:177-189 | from the empty system, with any retryable task and no sweep, a forced release of it while it executes leads to the same |
| `Shutdown.ShutdownStep` | internal/worker/worker.go:140-189 | at every step each row claimed by the worker is in its in-flight map or in the batch being launched, and while releasing in the list still to release |
| `Shutdown.NothingLeftClaimed` | internal/worker/worker.go:161-175 | when Run returns, by either path, no row is claimed by the worker, if its writes took effect, no claim took effect without its reply arriving, and no task was reclaimed before its earlier dispatch had left the map |
| `Shutdown.LateReportsVoid` | internal/worker/worker.go:217-225 | whatever a dispatch still running after that reports has no effect on the table |
| `Shutdown.ReleasedRow` | internal/worker/worker.go:185 | a released row keeps its attempts, carries the shutdown error and is pending with backoff or dead |
| `Shutdown.RemoveHarmlessIff` | internal/worker/heartbeat.go:27-31 | the deferred remove of an old dispatch keeps every claimed row findable if and only if the worker does not own that task again outside the batch being launched |
| `Shutdown.EscapesFromTheStart` | internal/worker/worker.go:153 | from an empty table and a fresh worker, with every store call taking effect, a reclaim before the old remove lets Run return with the row still claimed |
| `Shutdown.LostReplyHarmlessIff` | internal/worker/worker.go:120-124 | a failed claim call leaves every claimed row findable if and only if each row it claimed unseen is in the in-flight map already |
| `Shutdown.LostReplyFromTheStart` | internal/worker/worker.go:120-124 | from an empty table and a fresh worker, a claim that takes effect while its context is cancelled lets Run return with the row still claimed |
| `Fencing.ReportEndsOwnIff` | internal/store/postgres/complete.go:10-20 | an effective report ends the attempt the row is at, and that is the reporting dispatch's own if and only if the row has not moved on to a later attempt |
| `Fencing.ReportSays` | internal/worker/worker.go:200-226 | a report of success completes the row, one of failure fails it with its message, if the row is the worker's; nothing else changes, nor anything if it is not written |
| `Fencing.ReportsEndTheirOwn` | internal/store/postgres/complete.go:10-20 | in every fleet run that meets the hypotheses of zero double execution, every effective report ends the dispatch's own attempt |
| `Fencing.SweptClaimMisreports` | internal/store/postgres/complete.go:20 | a worker with a free slot whose executing claim is swept, with attempts left, can come to mark the newer attempt succeeded by the old handler's report |
| `Fencing.MisreportFromTheStart` | internal/store/postgres/fail.go:33 | such a run from an empty table and a fresh worker, with any retryable task and no failed store call |
| `KeepAlive.KeptAlive` | internal/worker/heartbeat.go:50-63 | over every interleaving with everybody else, a claim whose heartbeats take effect at least every 90 seconds of database time stays with its worker until the worker gives it up, and no sweep finds it expired |
| `KeepAlive.SilentClaimIsSweptIff` | internal/store/postgres/recover_orphans.go:28 | a sweep that does not fail takes a held claim away if and only if its last refresh is more than 90 seconds old |
| `KeepAlive.PassNamesListed` | internal/worker/heartbeat.go:74 | a heartbeat pass names every task in the in-flight map when it starts |
| `LostClaim.FullCountIff` | internal/worker/heartbeat.go:79-86 | the heartbeat returns the number of ids sent if and only if every one of them is still owned by the worker |
| `LostClaim.LostForever` | internal/worker/heartbeat.go:65-72 | an attempt not owned at one moment is never owned again, in any continuation |
| `LostClaim.CancelsOnlyLostClaims` | internal/worker/heartbeat.go:88-99 | over every run of a worker: if the task was not launched between the Get that saw it lost and the cancel, the cancel adds exactly its in-flight entry, if any, to the cancelled dispatches, and that dispatch does not own its claim |
| `LostClaim.EntryOwnsIff` | internal/worker/worker.go:149 | at every moment of every run without a lost claim reply for a listed task, the dispatch in the in-flight map owns its claim if and only if the row is this worker's and the task is not in the batch being launched |
| `LostClaim.CancelHitsOwnerIff` | internal/worker/heartbeat.go:96-98 | so the cancel of a heartbeat pass newly hits a dispatch that owns its claim exactly under that condition |
| `LostClaim.PassCancels` | internal/worker/heartbeat.go:73-100 | over every interleaving of one pass with finishing and launching dispatches: nothing is cancelled if the heartbeat failed or its count was full; otherwise every id sent is read once, and exactly the entries found at their own cancel for the ids read and not owned at their own Get are cancelled (beside what a forced release cancels meanwhile) |
| `LostClaim.OwnerCancelledFromTheStart` | internal/worker/heartbeat.go:93-98 | from an empty table and a fresh worker, without a failed store call or a forced release, a reclaim between Get and cancel makes the pass cancel a dispatch that owns its task |
| `WorkerLoops.InFlightSet.Ids` | internal/worker/heartbeat.go:33-41 | every listed id exactly once |
| `WorkerLoops.Process.LaunchBatch` | internal/worker/worker.go:142-157 | while dispatches finish beside it, every send finds a free slot, every task of the batch takes one and is registered under its own dispatch, and the map gains nothing else |
| `WorkerLoops.Process.ClaimPass` | internal/worker/worker.go:108-158 | while dispatches finish and everybody else acts: one pass claims the best due rows of its queue that fit ClaimBatch and the free slots at the call, launches them all, or none if the claim's reply is lost or the call fails, gains no other row, and sets the idle delay between 50 ms and 2 s |
| `WorkerLoops.Process.CheckAll` | internal/worker/heartbeat.go:88-99 | while the map changes and others act between any two calls, reads each id once and cancels exactly the entries found, at their own lookup, for the tasks read and not owned at their own Get |
| `WorkerLoops.Process.SendBeat` | internal/worker/heartbeat.go:79-86 | every listed row still owned carries the present instant afterwards, no other row changes, and the count is full if and only if every one was still owned |
| `WorkerLoops.Process.HeartbeatOnce` | internal/worker/heartbeat.go:73-100 | if the heartbeat is sent, the table passes through the refreshed rows; cancels nothing when the heartbeat fails or every listed row was still owned, otherwise exactly what the loop finds, with the map changing and Gets failing meanwhile |
| `WorkerLoops.Process.ReleaseOne` | internal/worker/worker.go:181-188 | cancels the listed dispatch and, if the write is made while the row is owned, leaves it failed with the shutdown error, its attempts kept, pending with backoff or dead; no other row changes |
| `WorkerLoops.Process.ReleaseRemaining` | internal/worker/worker.go:180-189 | while dispatches finish and others act: afterwards no task that was in flight is owned by the worker unless a store call failed or its backoff overflows, none has succeeded but by somebody else's statement, every dispatch still listed has been cancelled and no unlisted one, and no row was gained |
| `WorkerLoops.NoClaimNoGain` | internal/store/postgres/claim.go:39-45 | over any run without a claim of its own a worker gains no row, and keeps those it keeps at the same attempt |
| `Keys.DayRoundTrip` | internal/domain/schedule.go:70-72 | every day number has a valid civil date that counts back to it |
| `Keys.DateRoundTrip` | internal/domain/schedule.go:70-72 | every civil date is recovered from its day number |
| `Keys.YearStartClosed` | internal/domain/schedule.go:70-72 | the leap-year recursion has the Gregorian closed form |
| `Keys.MonthStartTable` | internal/domain/schedule.go:70-72 | the month lengths sum up to the Gregorian table, with one more day from March on in leap years |
| `Keys.InstantShown` | internal/domain/schedule.go:70-72 | an instant is shown as the civil date and time of day that lie as far behind the first of January 1970 as it lies behind zero |
| `Keys.Anchors` | internal/domain/schedule.go:70-72 | the Unix epoch and the end of year 9999 lie at the day numbers used |
| `Keys.TimestampRoundTrip` | internal/domain/schedule.go:65-72 | a whole-second instant of the years 0 to 9999 can be read back from its UTC timestamp |
| `Keys.KeyRoundTrip` | internal/domain/schedule.go:62-72 | schedule id and instant can be read back from the key, by a reader that insists on every separator |
| `Keys.KeyInjective` | internal/domain/schedule.go:62-72 | two keys are equal if and only if schedule and instant are |
| `Cron.NextN` | internal/cron/nextn.go:52-79 | from any seed, the loop with its two filters returns exactly the first n owed fires |
| `Cron.OwedSpec` | internal/cron/nextn.go:32-51 | the owed fires are ascending, later than the seed, and all accepted fires there, but for the first one exactly if it repeats the wall clock of the seed |
| `Cron.CanonicalOwed` | internal/cron/nextn.go:47-51 | from a seed NextN itself could have returned, nothing is dropped |
| `Cron.NextIsLeast` | internal/cron/nextn.go:60-64 | spec.Next is the least fire strictly after its argument |
| `Cron.AcceptedAfterSpec` | internal/cron/nextn.go:66-68 | the enumeration is exactly the set of genuine fires after a point, in order |
| `Cron.PendingAfterAccepted` | internal/cron/nextn.go:70-74 | after an accepted fire the wall-clock test rejects nothing that follows |
| `Cron.Resume` | internal/cron/nextn.go:47-51 | the first n + m fires are the first n followed by the first m from the last of those: resuming loses and repeats nothing |
| `Cron.NoWallClockTwice` | internal/cron/nextn.go:58-74 | no two different instants returned by any calls from any seeds show the same wall clock |
| `Cron.AmbiguousFiresOnce` | internal/cron/nextn.go:86-89 | of several fires showing one wall clock only the instant time.Date picks can fire, and it does |
| `Materializer.Plan` | internal/materializer/plan.go:26-53 | an error exactly when the rule does not load; otherwise the clamped owed fires from the watermark, or from now, cut at the horizon |
| `Materializer.CutAt` | internal/materializer/plan.go:45-51 | the loop with its break keeps exactly the longest prefix within the horizon |
| `Materializer.PlanIsFullRun` | internal/materializer/plan.go:42-51 | clamping before cutting equals cutting before clamping: the full owed run up to the horizon or its first 10000 |
| `Materializer.PlanContiguous` | internal/materializer/plan.go:18-25 | a plan is exactly the accepted fires between its start and its last element |
| `Materializer.BuildTasks` | internal/materializer/materialize.go:32-35 | one keyed submission per fire, in order |
| `Materializer.FireRow` | internal/domain/schedule.go:87-102 | a fire whose key was free is materialized as a pending row with the rule's queue, handler, payload, priority, attempt limit and id, the key, no attempts and the fire as run time |
| `Materializer.Materialize` | internal/materializer/materialize.go:27-38 | the table after the batch, in which every fire has a row under its key, and where the key was free that row carries the rule's own columns at the fire's time |
| `Materializer.InsertMaterializes` | internal/materializer/materialize.go:19-26 | whether a fire was new or a duplicate, after the batch it has a row |
| `Materializer.KeyStays` | internal/store/postgres/enqueue.go:38-42 | a key once taken stays taken under every statement |
| `Materializer.Schedules.SetEnabled` | internal/store/postgres/schedule.go:122-131 | changes exactly the flag of exactly that rule, and reports a missing one |
| `Materializer.Schedules.AdvanceLastMaterializedAt` | internal/store/postgres/schedule.go:137-148 | moves exactly that rule's watermark, forward only |
| `Materializer.Schedules.MaterializeOne` | internal/materializer/run.go:110-124 | one pass: the whole task table afterwards is the old one with the planned fires inserted, each carrying the rule's own columns at its own time where the key was free; the rule and only it advances, and if the watermark moved every accepted fire from the start of the plan up to it has a row |
| `Materializer.Schedules.RunOnce` | internal/materializer/run.go:90-104 | every enabled rule gets its full pass whatever happens to the others, in order, on the task table and on the watermarks; disabled and unloadable rules change nothing |
| `Materializer.Schedules.Repeat` | internal/materializer/run.go:69-82 | n passes over a rule are n times the pass, on the task table and on the rule |
| `Materializer.CatchUp` | internal/materializer/plan.go:11-16 | after ceil(k / 10000) of those passes over a rule with k due fires, and not before, nothing is due; the task table is then exactly what one unclamped insert of all k would leave, and the watermark stands at the last of them |
| `Materializer.RuleCatchesUp` | internal/materializer/run.go:119-123 | a pass has something to insert as long as fewer than ceil(k / 10000) have been made, and after those the watermark stands at the last due fire |
| `Materializer.NextTable` | internal/materializer/run.go:110-124 | a pass inserts the first of the due fires and leaves the others due: the table it is heading for does not change |
| `Materializer.CeilDivIsCeiling` | internal/materializer/plan.go:11-16 | the pass count used there is the ceiling of the quotient |
| `GapFree.MoveOk` | internal/materializer/run.go:110-124 | every move of every node and every statement on the table keeps the range behind the watermark filled |
| `GapFree.WatermarkMonotone` | internal/store/postgres/schedule.go:133-140 | the watermark never moves backward |
| `GapFree.GapFreeMaterialization` | internal/materializer/run.go:106-124 | in every run of any number of nodes, once the watermark is W it is an accepted fire and every accepted fire between the origin and W has exactly one row under its key |
| `GapFree.DistinctFiresDistinctRows` | internal/domain/schedule.go:62-72 | different fires have different rows |
| `KeyOwner.RowIsTheRulesIff` | internal/domain/schedule.go:87-102 | in every run, punctual or not, the one row under the key of a fire carries the rule's handler, payload, priority, attempt limit and id if and only if no client enqueued another task under that key first; and while it has not been claimed its run time is the fire as well if and only if no client took the key for another task or time |
| `GapFree.StartNotLater` | internal/materializer/plan.go:37-40 | a first pass whose clock is not behind an accepted watermark plans from no later than the watermark |
| `GapFree.AdvanceGapFreeIff` | internal/materializer/plan.go:37-40 | any advance over a set watermark leaves no gap if and only if every accepted fire between the watermark and the start of its plan already has a row |
| `GapFree.UnaidedAdvanceGapFreeIff` | internal/materializer/plan.go:37-40 | when nobody else has inserted those fires, if and only if there are none |
| `GapFree.TwoFirstPassesLeaveGap` | internal/materializer/plan.go:37-40 | for every calendar, clocks and horizons: if two nodes both make the first pass and the second plans from behind an unmaterialized fire that the first plan does not reach, the watermark can pass that fire with no row for it |
| `GapFree.MinuteTwoIsLost` | internal/materializer/plan.go:37-40 | an instance: the rule that fires every minute, in UTC, loses its second fire |

## Left out

- DoubleExecution.ZeroDoubleExecution: the handler counts as executing until its outcome reaches the store; a handler that runs on after its context is cancelled is only covered while its claim is live.
- GapFree.GapFreeMaterialization: assumes that a pass which read no watermark does not advance a set one from a clock reading ahead of it; without that it is false, see the counterexample and its exact condition.
- Shutdown.NothingLeftClaimed: assumes that writes take effect, that no claim takes effect without its reply arriving (an ordinary cancellation can break this), and that no task is reclaimed before its earlier dispatch left the map; the runs without the second and without the third hypothesis are lemmas.
- LostClaim.EntryOwnsIff: assumes that no claim took effect, with its reply lost, on a task still listed in the in-flight map; then the row is the worker's and no dispatch owns it.
- KeyOwner.RowIsTheRulesIff: the run time of a row that has been claimed is not part of it, since a retry rewrites it.
- KeepAlive.KeptAlive: the tick of the heartbeat loop and the speed of the database are not modelled; that heartbeats take effect in time is the hypothesis.
- Drain.DrainByCrashing: assumes that no open task has an attempt limit above 1022; beyond that the sweeper can be blocked, which is proved.
- Materializer.Schedules.MaterializeOne: the insert and the advance succeed and nobody interferes; failures, crashes and other nodes are in GapFree.
- Cron.NextN: spec.Next is the least element of a finite fixed set of whole-second instants, so `@every` rules (which step from the argument) and robfig's five-year give-up are not covered.
- Keys.KeyInjective: years 0 to 9999 and whole seconds, as the format requires.
- Retry.CeilingAgrees: real arithmetic otherwise; jittered delays are rounded down to a microsecond.
- Tasks.RowStep: integers are unbounded, so range errors of INT columns and parameters do not occur; error text is not truncated.
- TaskStore.Store.Enqueue: the foreign key on schedule_id is not checked, and run_at is any instant.
- Statements other than Claim start and commit at one instant of the clock; a claim may commit later than it reads the clock.
- Release at shutdown cancels the context and fails the task in one step of the machine; WorkerLoops lets others act between the two.
- HTTP handlers, JSON, request validation, command wiring, logging, metrics and configuration.
- Queue statistics, listing and pagination, schedule creation and deletion, and migrations.
- The pgx driver, pools, the query planner and statement timeouts; a statement has its documented effect.
- Cron parsing, the tz database, and which instant time.Date picks.
- The distribution of the jitter; any fraction in [0, 1) may occur.
- Handler bodies and panics; a handler succeeds, fails or never reports.
- The Redis hybrid, of which only a comment exists.
