# Schedy: a verified model

Schedy is a persistent HTTP task scheduler: one process, one key-ordered store, one runner that fires due
tasks, and an API that creates, edits, cancels, replays and deletes them. This project models its logic in
Dafny and proves what its parts promise, separately and together.

Two views of the program stand side by side.

* **Its methods, one at a time**, as imperative code over mutable objects: the keyed store (`BadgerStore.dfy`),
  the request handlers (`Handler.dfy`), the runner (`Runner.dfy`), the retry pacing and the attempt loop
  (`Retries.dfy`), the histograms and counters (`Metrics.dfy`). Each method is proved against a specification
  over plain values: a map from ids to tasks, the first n keys of a set, the list of observations.
* **The whole server, step by step**, as a transition system (`Delivery.dfy`, `Protocol.dfy`): ticks with
  batches that go stale, claims, one goroutine per task cut into sixteen kinds of step, slots, handlers that load
  and write back in separate steps, the create mutex with its paged walk, bulk deletes, expiry, shutdown,
  crashes at any point, failing store writes and restarts, all interleaved in any order. `Integrity.dfy` and
  `Claims.dfy` prove the invariants of every reachable state; `Firing.dfy`, `Chains.dfy`, `Cadence.dfy`,
  `Cancellation.dfy`, `Walks.dfy`, `Idempotency.dfy` and `Repeats.dfy` prove properties of whole runs from them.
  `Steps.dfy` reads off the transition system, once, what one step can change, and `Continuations.dfy` how a
  delivery under way goes on.

The world outside the process keeps a log of every request sent, with the time it goes out and what the store, the
claims and the slots show at that moment. The contracts of the runner's methods say exactly what a delivery adds to
it, so they fix the order of its writes and its calls too.

The two views share their vocabulary: `Records.dfy` holds the rewrites of a task that both use,
`Solo.DeliverIsSteps` shows that the steps of a delivery reach whatever outcome the runner's method may have, `Runners.DueScanIsBatch` that a due scan yields the batch a tick may take, and the contracts of the
handlers are stated with the same `Applied` that the atomic requests of the transition system use.

Where the code and its own comments or documentation disagree, the model follows the code, and a lemma says
exactly when they agree:

* the due window is open at `end` to the second, although `internal/scheduler/store.go:58-62` closes it
  (`Backlog.DueWindow`);
* a server's requested wait is counted from the start of the previous retry, and not at all before the first
  one, although `docs/concepts/retries.mdx:39-43` says no retry comes sooner than asked
  (`Retries.HintHonouredWhen`);
* the overflow test of the exponential backoff misses some overflows from a base of 5909875 ms on
  (`Backoff.CeilingExact`, `Backoff.CeilingShortJustAbove`, `Backoff.CeilingWhenExact`);
* a base of zero milliseconds in exponential mode waits like the largest base, and so do negative ones unless
  they wrap round (`Backoff.CeilingByResidue`, `Backoff.ZeroBaseGetsCap`, `Backoff.NegativeBaseMaySlip`).

Where a property fails in some runs, the condition under which it holds is exact, for single steps and for whole
runs, and what happens without it is shown: for one live member per chain (`Chains.SafeIsExact`,
`Chains.SafeRuns`, `Chains.UnsafeIsForking`), for the chain's beat (`Cadence.InStepIsExact`,
`Cadence.CadenceOfRuns`), for one pending task per key (`Idempotency.KeepsKeysIsExact`, `Idempotency.KeysOfRuns`,
`Repeats.UnkeptIsRepeating`) and for a cancel that stands (`Cancellation.CancelStandsWhen`).

Shared assumptions, as the source makes them: ids are free of colons (they are UUIDs) and `Save` gets a fresh
one; seconds since the epoch lie between 0 and 10^16 where key order matters; stored values decode; store
transactions are atomic; the clock never runs backwards and timers never fire early; jitter may be any value in
its range.

## Model

| member | source | states |
|---|---|---|
| `Keys.ParseRecovers` | `internal/scheduler/badger_store.go:366-376` | The status and second read back from a storage key are those of the task it was made from, for every second that fits 64 bits. |
| `Keys.KeyDeterminesTask` | `internal/scheduler/badger_store.go:25-27` | Two tasks with the same storage key have the same id and the same status: rows of different tasks never collide. |
| `Keys.PartitionPrefix` | `internal/scheduler/badger_store.go:29-31` | A task's key starts with a status prefix exactly when the task has that status, and always with the common prefix. |
| `Keys.PartitionOrder` | `internal/scheduler/badger_store.go:18-27` | Within one status, byte order of keys is order by second and then by id, for seconds of up to sixteen digits. |
| `Keys.PastSecond` | `internal/scheduler/badger_store.go:191-204` | Comparing a full key with a bare end key is comparing seconds, and a task of the end's own second already lies past it. |
| `Keys.SuffixScan` | `internal/scheduler/badger_store.go:129-141` | Exactly which looked-up texts match a task's key by suffix: its id, or its id preceded by the key's other parts. |
| `Keys.SuffixIsId` | `internal/scheduler/badger_store.go:129-141` | For ids without a colon the suffix scan is equality of ids. |
| `Rows.OneRowPerId` | `internal/scheduler/badger_store.go:126-141` | A task never has two rows, whatever its status was before. |
| `Rows.RepresentationUnique` | `internal/scheduler/badger_store.go:18-27` | The keyed rows and the plain map from ids to tasks determine each other. |
| `Rows.RepresentationExists` | `internal/scheduler/badger_store.go:143-149` | Every map from ids to tasks can be laid out in keyed rows. |
| `Rows.RowsAreTasks` | `internal/scheduler/badger_store.go:126-149` | There are always as many rows as tasks. |
| `Rows.ListingIsDeletion` | `internal/scheduler/badger_store.go:443-499` | Reading the status from the key prefix, as a listing does, and from the value, as a bulk delete does, selects the same rows. |
| `Rows.PartitionIsListing` | `internal/scheduler/badger_store.go:247-250` | A listing filtered by status alone is that status's whole partition. |
| `Selection.SmallestUnique` | `internal/scheduler/badger_store.go:184-223` | There is only one answer to `the first n keys of a set in byte order`, so the contracts of the bounded scans fix their results. |
| `Selection.ScanFindsSmallest` | `internal/scheduler/badger_store.go:198-207` | A scan in key order that stops at n hits, or where no hit can follow, has found exactly the n smallest. |
| `Storage.BadgerStore.PutKeepsLive` | `internal/scheduler/badger_store.go:114-124` | No write ever leaves a time to live on a pending or running row; a finished row gets exactly the store's, if one is set, and no other row's changes. |
| `Storage.BadgerStore.FindKey` | `internal/scheduler/badger_store.go:126-141` | Finds a row by id exactly when the map holds the id, and then that id's own row. |
| `Storage.BadgerStore.Save` | `internal/scheduler/badger_store.go:143-149` | Inserts the task as pending; every other task is as before, and the new row never expires. |
| `Storage.BadgerStore.Update` | `internal/scheduler/badger_store.go:151-162` | Upserts: whatever partition held the task before, afterwards the map holds the new record and the old row is gone; the row expires exactly when it is finished and a retention is set, after that retention, and what other rows have left is as before. |
| `Storage.BadgerStore.Delete` | `internal/scheduler/badger_store.go:164-172` | Removes the id, if it is there, and nothing else. |
| `Storage.BadgerStore.GetTask` | `internal/scheduler/badger_store.go:378-406` | Looks up the map for a colon-free id; for any other text, finds a task exactly when some key ends in it. |
| `Storage.BadgerStore.Expire` | `internal/scheduler/badger_store.go:119-122` | A row that runs out of time was a finished task, and only it goes. |
| `Storage.BadgerStore.GetDueTasks` | `internal/scheduler/badger_store.go:184-223` | Returns exactly the first min(clamped limit, available) pending tasks, in key order, whose second is strictly below the end's. |
| `Storage.BadgerStore.ListTasks` | `internal/scheduler/badger_store.go:239-313` | Rejects a cursor exactly when it does not decode or names another partition; otherwise returns the first matches after it, at most the clamped limit, and a cursor exactly when more follow. Every listed task has the url and status asked for and lies strictly between the time bounds, and a first page that hands on no cursor holds every stored task that does. |
| `Storage.BadgerStore.PageFrom` | `internal/scheduler/badger_store.go:270-307` | The listing scan, cursor row excluded, meets the meaning of a page for every filter and limit. |
| `Storage.BadgerStore.Count` | `internal/scheduler/badger_store.go:334-361` | Tallies from keys alone equal the sizes of the partitions, and the overdue count the pending tasks whose second is not after now's. |
| `Storage.BadgerStore.RecoverRunning` | `internal/scheduler/badger_store.go:408-441` | No task appears or disappears; every running one becomes pending and is otherwise unchanged, and every other one is unchanged. |
| `Storage.BadgerStore.CollectRunning` | `internal/scheduler/badger_store.go:411-428` | The first loop lists every running task, each once. |
| `Storage.BadgerStore.Requeue` | `internal/scheduler/badger_store.go:430-438` | The second loop moves each listed row between partitions without losing or duplicating any. |
| `Storage.BadgerStore.DeleteTasks` | `internal/scheduler/badger_store.go:448-499` | In terms of tasks alone: a task stays exactly when its url or status differs from the one asked for or it lies at or outside a time bound; all that stay are unchanged, and the count reported is the number of tasks fewer. |
| `Storage.BadgerStore.Selects` | `internal/scheduler/badger_store.go:467-481` | The four criteria, tested one after the other, amount to the filter. |
| `Storage.BadgerStore.DeleteMatching` | `internal/scheduler/badger_store.go:451-495` | Deleting while scanning removes and counts exactly the matching rows. |
| `Paging.CursorMeansMore` | `internal/scheduler/badger_store.go:298-305` | A page hands on a cursor exactly when another match lies beyond it; it is then full and the cursor is its last key. |
| `Paging.NoKeyTwice` | `internal/scheduler/badger_store.go:231-238` | However the store changes between pages, no walk returns a key twice, and keys come in increasing order across pages. |
| `Paging.SteadyKeyReturned` | `internal/scheduler/badger_store.go:231-238` | A record whose key and match never change during a walk is returned exactly once if the walk ends, whatever else is written or deleted between pages, the cursor's own row included. |
| `Paging.FrozenWalkIsListing` | `internal/scheduler/badger_store.go:270-307` | Over an unchanged store the pages of a completed walk concatenate to exactly the matching keys in order, for every filter and limit. |
| `Paging.FrozenWalkLength` | `internal/scheduler/badger_store.go:270-307` | All pages but the last are full, none after the first is empty, and the walk is no longer than the matches require, so it ends. |
| `Paging.WalkIsDeletion` | `internal/scheduler/badger_store.go:443-499` | What a bulk delete removes and counts is exactly what the pages of a completed listing walk with the same filter return, each once. |
| `Backlog.BacklogDrains` | `internal/scheduler/badger_store.go:181-183` | Over successive calls on a changing store, each of whose batches leaves the due set with nothing joining it, the due set is empty after n calls exactly when n is at least ceil(size / limit). |
| `Backlog.BacklogReturned` | `internal/runner/runner.go:140-153` | No two of those calls return the same task, none returns a task that was not due at the start, and when the due set is empty every task of it has been returned. |
| `Backlog.BacklogInOrder` | `internal/scheduler/badger_store.go:181-183` | Across the whole drain, and not only within a batch, tasks come by second and then by id. |
| `Batches.DrainedSoFar` | `internal/runner/runner.go:140-153` | After n batches the n * limit smallest keys are out, once each and in order, and the count of what is left, the drain's termination measure, has fallen by n * limit or to zero. |
| `Backlog.DueOrder` | `internal/scheduler/badger_store.go:181-183` | Within a batch, tasks come by second and then by id: oldest first. |
| `Backlog.DueWindow` | `internal/scheduler/store.go:58-62` | The interface's window, closed at `end`, is met exactly when no pending task due by `end` lies in `end`'s own second. |
| `Backlog.SameSecondIsMissed` | `internal/scheduler/badger_store.go:192-204` | A task due in the end's second is left out of the batch while the overdue count includes it. |
| `Backlog.ScanIsOldestDue` | `internal/scheduler/badger_store.go:181-223` | The keyed scan in terms of ids: it returns min(limit, how many are due) of the pending tasks whose second is before the end's, as stored, each once, oldest first, and leaves none behind that is due in an earlier second than one it took. |
| `Backlog.AllDueTaken` | `internal/runner/runner.go:141-147` | A batch with room for all due tasks holds every one of them. |
| `Backoff.CeilingExact` | `internal/runner/attempt.go:78-86` | For every base from 1 to 5909874 ms and every retry count, the ceiling from the wrapping shift and its overflow test is min(base * 2^count, 5 min) over unbounded integers. |
| `Backoff.CeilingShortJustAbove` | `internal/runner/attempt.go:78-86` | The bound is sharp: with a base of 5909875 ms, retry 27 draws from about 94.5 s instead of five minutes. |
| `Backoff.CeilingByResidue` | `internal/runner/attempt.go:79-84` | For every interval, zero and negative ones included, the ceiling is the exact product's residue modulo 2^64 if that lies strictly between zero and the cap, and otherwise the cap. |
| `Backoff.CeilingWhenExact` | `internal/runner/attempt.go:78-86` | For every positive interval the ceiling is positive and never above the promise, and it meets it exactly when the exact product is within the cap or its residue modulo 2^64 is zero or at least the cap. |
| `Backoff.ZeroBaseGetsCap` | `internal/runner/attempt.go:82-84` | A base of zero draws from the full cap, not from nothing. |
| `Backoff.NegativeBaseMaySlip` | `internal/runner/attempt.go:81-84` | A negative base draws from the full cap too, but not always: -8796093 ms wraps round to a ceiling of 46.6 s at retry 21. |
| `Retries.Attempts.ServerHint` | `internal/runner/attempt.go:37-45` | The hint kept is the requested wait, cut to five minutes. |
| `Retries.Attempts.Delay` | `internal/runner/attempt.go:74-93` | Every delay is one the strategy allows: the interval, or any jitter up to the ceiling, never below the hint. |
| `Retries.Attempts.Next` | `internal/runner/attempt.go:57-72` | Refuses exactly when the retries are used up; otherwise keeps the spacing of retries, consumes the hint, and sleeps exactly what is left of the delay since the previous retry began, which for the first retry is nothing. |
| `Retries.Attempts.RetryAfter` | `internal/runner/runner.go:265-271` | A failed answer's wait becomes the floor of the retry that follows it, and of no other. |
| `Retries.RetriesArePaced` | `internal/runner/attempt.go:57-93` | From the second retry on, retries start at least a delay apart that the strategy allows for that retry and answer: the drawn jitter or the interval, never below the answer's capped hint; and every request goes out after its own retry has begun and before the next one begins. |
| `Retries.HintHonouredWhen` | `docs/concepts/retries.mdx:39-43` | The documented promise, counted from the answer, holds for every possible delay exactly when this is not the first retry and no time has passed since the last one began or, in fixed mode, the interval still covers the hint. |
| `Retries.FirstRetryAtOnce` | `internal/runner/attempt.go:60-68` | However long the server asked for, the first retry begins without any sleep. |
| `Retries.Turn` | `internal/runner/runner.go:244-274` | One turn of the loop either ends the run with a status that fits its answer or leaves a retry begun, its attempt logged at its own time after those before. |
| `Retries.Fire` | `internal/runner/runner.go:240-279` | A run makes between 1 and max(retries, 0) + 1 attempts, logs each answer under the next number, succeeds iff its last attempt had no error, fails only when all are used, sends exactly one request per attempt, each after its retry began and with the attempts logged by then, and sleeps at most max(retries - 1, 0) times the longest wait (five minutes in exponential mode). |
| `Retries.LoopIsFinishedRun` | `internal/runner/runner.go:243-282` | The loop's result is what the transition system calls a finished run. |
| `Retries.StepsFollowLoop` | `internal/runner/runner.go:243-274` | Answer for answer, the transition system's calls and answers reach the same record as the loop. |
| `Records.RecordedLog` | `internal/runner/runner.go:244-258` | Logging an attempt keeps the numbering gapless, and the last entry has an error exactly when the answer had. |
| `Records.SkippedOk` | `internal/runner/runner.go:301-311` | A skipped task is a well-formed failed record with one more attempt. |
| `Records.SkippedIsSkip` | `internal/runner/runner.go:304-311` | Skipping a task means exactly this: failed, finished at the fire time, one more attempt at that time without a status code and with the reason, and all else as it was. |
| `Records.RewritesOk` | `internal/api/handler.go:304-387` | Marking running, editing, cancelling, replaying, requeueing and rescheduling each keep the record invariant. |
| `Records.EditReplacesAll` | `internal/api/handler.go:321-335` | An edit leaves no client-owned field of the old record and touches no server-owned one. |
| `Delivery.StepKeepsDelivery` | `internal/runner/runner.go:155-289` | Every step of a delivery goroutine keeps its invariant: due before it fires, fires its re-read record in time, attempts numbered, all but the last failed. |
| `Delivery.StepWritesOk` | `internal/runner/runner.go:235-288` | Whatever a goroutine writes is a well-formed record under its own id, or a fresh pending successor that is due later. |
| `Delivery.RunOutcome` | `internal/runner/runner.go:243-276` | A finished run added between 1 and max(retries, 0) + 1 attempts, succeeded exactly when the last has no error, and failed only after all of them. |
| `Integrity.InvAlways` | `internal/runner/runner.go:85-291` | Records, identities, claims, slots and counters are in order in every state of every run, stale writes, crashes and restarts included. |
| `Integrity.RecordsAlwaysOk` | `internal/api/handler.go:370-379` | No stored record is ever out of order: finished iff stamped, attempts numbered without a gap, the last one explaining the outcome. |
| `Integrity.SavedOk` | `internal/api/handler.go:467-471` | Whatever any step saves, stale write-backs included, is a well-formed record of an accepted task. |
| `Claims.StepKeepsControl` | `internal/runner/runner.go:85-189` | Each step keeps the in-flight set equal to the ids of the live goroutines, the slots and wait group equal to what they count, and the counters balanced. |
| `Claims.OneGoroutinePerTask` | `internal/runner/runner.go:87-101` | No two goroutines ever hold the same task. |
| `Claims.CallsWithinSlots` | `internal/runner/runner.go:180-189` | Calls in progress, failure callbacks included, never exceed the number of slots. |
| `Claims.StepBalance` | `internal/metrics/metrics.go:57-96` | Every counter moves in step with the phases it counts. |
| `Claims.CountersBalance` | `internal/metrics/metrics.go:57-96` | With no goroutine alive: successful deliveries equal succeeded runs, lateness observations equal succeeded plus failed minus skipped, and durations equal all deliveries. |
| `Firing.OneFiringPerArming` | `internal/runner/runner.go:201-238` | Between a recorded firing of a task and its next firing, some step made the task pending again, in every run with stale batches, stale handlers and crashes. |
| `Firing.FirstCallIsFresh` | `internal/runner/runner.go:191-246` | The first request of every run sends the record that its re-read found pending, not before that record's time and, under a limit, not too long after it. |
| `Firing.RereadDecides` | `internal/runner/runner.go:201-223` | In every run, exactly: a re-read task that is gone, not pending or moved in time is left alone, one later than the limit, if there is one, is retired, and any other is committed to firing as stored. |
| `Firing.FailureIsNoticed` | `internal/runner/runner.go:280-286` | In every run a goroutine that has written its terminal record goes on to the callback decision exactly when that record failed. |
| `Firing.FailureCallsBack` | `internal/runner/runner.go:363-370` | In every run a failed delivery calls back exactly when its task has a callback url of its own or there is a fallback; the test for missing attempts never decides. |
| `Firing.RereadHappened` | `internal/runner/runner.go:193-214` | A run under way always goes back to one re-read that found its base record in the store. |
| `Firing.CleanDrainIsFinal` | `internal/runner/runner.go:129-138` | If the drain ends because every delivery is done, no goroutine of the runner takes another step. |
| `Firing.CrashLosesNothing` | `internal/scheduler/badger_store.go:408-441` | Cut any run anywhere and restart: nothing is running, no id, time or attempt log has changed, and every accepted task is there unless deleted or expired. |
| `Firing.AcceptedKept` | `internal/scheduler/badger_store.go:114-149` | In every reachable state an accepted task is in the store or counts as removed. |
| `Firing.RemovedByStep` | `internal/scheduler/badger_store.go:443-499` | A task counts as removed only because a bulk delete or its expiry took it out of the store at some step of the run. |
| `Chains.SafeIsExact` | `internal/runner/runner.go:280-357` | One step, exactly: final writes stay in place and no chain has two live members after it if and only if a request that re-opens a task finds its chain without another live member and without a run about to hand over, and no recurring run loses its final write over an open record. |
| `Chains.SafeRuns` | `internal/runner/runner.go:323-357` | Whole runs, exactly: that holds of every state if and only if every step met that condition, crashes, restarts, edits, replays and late writes included. |
| `Chains.OneLiveMember` | `internal/runner/runner.go:323-357` | In a run of such steps no recurring chain ever has two live members. |
| `Chains.UnsafeIsForking` | `internal/runner/runner.go:334-357` | A step fails the condition if and only if the system can go on from it, by steps that meet it, to a chain with two live members. |
| `Chains.SuccessorTakesOver` | `internal/runner/runner.go:334-357` | Saving a successor hands the chain over: the predecessor is live before the step and dead after it. |
| `Chains.ReplayForks` | `internal/api/handler.go:365-387` | Replaying an earlier member while a later one is live makes both live. |
| `Chains.LateWriteForks` | `internal/api/handler.go:337-340` | So does the late write of an edit or a replay that loaded the earlier member before. |
| `Chains.LostFinalWriteForks` | `internal/runner/runner.go:280-288` | A lost final write followed by the reschedule leaves the old record open beside its successor. |
| `Cadence.CadenceOfRuns` | `internal/runner/runner.go:323-357` | Whole runs, exactly: every stored record is, in every state, due no earlier than its chain's first task plus one interval for every reschedule since, and on that task's schedule, if and only if every edit and replay, late ones included, kept to that beat; no failure, crash or restart can break it. |
| `Cadence.NeverCatchesUp` | `internal/runner/runner.go:323-357` | In such a run the k-th successor is due at least k intervals after the chain's first task. |
| `Cadence.SuccessorDue` | `internal/runner/runner.go:334-357` | In every run a saved successor is due exactly one interval after its predecessor's fire time, with the predecessor's request, retry settings, callback url and schedule, a fresh id, no key and no attempts; nothing else changes, and a task without a valid interval gets none. |
| `Cadence.InStepIsExact` | `internal/api/handler.go:321-377` | One step, exactly: every stored record is on its chain's beat after it if and only if the edit or replay it writes, if any, names a time no earlier than the beat and keeps the schedule. |
| `Cadence.AppliedOnBeat` | `internal/api/handler.go:321-377` | What one request writes, at once or late, is on the beat iff: always for a cancel, once the beat has come for a replay, for an edit when it keeps the schedule and names no earlier time. |
| `Cadence.EarlyReplayBreaksBeat` | `internal/api/handler.go:375-377` | Replaying a chain's first task, cancelled before its time, makes it due before that time. |
| `Cancellation.CancelStandsWhen` | `internal/runner/runner.go:329-333` | Exactly when a cancelled task stays cancelled: some continuation re-opens it, overwrites it or saves it a successor if and only if a run of it has still to write or an edit or replay of it is in flight. |
| `Cancellation.CancelStands` | `internal/runner/runner.go:329-333` | In whole runs: a cancel that finds neither is final; until a replay no step fires the task, re-opens it, overwrites it or saves it a successor. |
| `Cancellation.CancelLost` | `internal/runner/runner.go:331-333` | The final write of a run under way replaces the cancelled record with the run's own outcome. |
| `Idempotency.KeepsKeysIsExact` | `internal/api/handler.go:278-287` | One step, exactly: no key has two pending tasks and no create has passed one after it if and only if a request that leaves a task pending finds no rival of its key, pending or walked past, and a restart finds no two unfinished tasks of one key. |
| `Idempotency.KeysOfRuns` | `internal/api/handler.go:278-287` | Whole runs, exactly: that holds of every state if and only if the first store has at most one pending task per key and every step met that condition. |
| `Idempotency.OnePendingPerKey` | `internal/api/handler.go:278-287` | In a run of such steps, edits, replays, crashes and restarts among them, no idempotency key ever has two pending tasks. |
| `Walks.SteadyDuplicateNotMissed` | `internal/api/handler.go:221-250` | In every run, whatever else is edited, replayed or restarted, the walk of a create does not pass a duplicate that stayed pending throughout, keyed or keyless, nor conclude its absence, nor save. |
| `Walks.DuplicateWasPending` | `internal/api/handler.go:233-244` | In every run, a create answered with an existing task had read it from the store, as a pending duplicate, on one of its pages. |
| `Idempotency.WalkVerdict` | `internal/api/handler.go:282-287` | A keyed create about to save has no pending task with its key beside it, at that moment and not only when it looked, in every run whose steps met the condition. |
| `Idempotency.PageKeepsWalk` | `internal/api/handler.go:228-249` | A page without the duplicate leaves every carrier of the key beyond the next cursor, or none at all. |
| `Repeats.UnkeptIsRepeating` | `internal/api/handler.go:221-287` | A step fails the condition if and only if the system can go on from it, by steps that meet it, to two pending tasks of one key: the create under way reads its remaining pages, finds nothing and saves. |
| `Repeats.TwoAtOnce` | `internal/api/handler.go:304-387` | A replay, a restart and the late write of an edit can each give a key a second pending task at once. |
| `Repeats.EditSlipsBehind` | `internal/api/handler.go:321-337` | An edit that moves the key's only task behind the cursor during the walk can be followed by a second pending task for the key. |
| `Runners.Runner.Claim` | `internal/runner/runner.go:85-95` | Claims an id exactly when nobody holds it; afterwards it is held. |
| `Runners.Runner.RunOnce` | `internal/runner/runner.go:140-154` | A tick takes the due scan's batch of at most 1000, the oldest due tasks, and starts one goroutine for each of them that nobody holds and none for any other; when no more than 1000 are due, every due task that nobody holds is started. |
| `Runners.Runner.ClaimAll` | `internal/runner/runner.go:149-154` | The loop of a tick, over any batch of distinct tasks. |
| `Runners.Runner.Reschedule` | `internal/runner/runner.go:334-357` | Adds a task due exactly one interval after the fire time, with the predecessor's request, retry settings, callback url and schedule, the new id and no key, if there is a valid interval, and nothing otherwise; every other task is unchanged. |
| `Runners.Runner.NotifyFailure` | `internal/runner/runner.go:363-386` | Exactly one POST is sent, to the task's own url or else the fallback, with its id, status, number of attempts and last error, if there is a url and an attempt, and nothing is sent otherwise. |
| `Runners.Runner.SkipStale` | `internal/runner/runner.go:301-321` | Leaves the failed record and, if recurring, the successor, and sends the failure's report between the two writes, to the task's own url or else the fallback, if there is one. |
| `Runners.Runner.MarkAndFire` | `internal/runner/runner.go:229-274` | Leaves the task running in the store and returns the finished run, paced by the task's own retry settings; every request of it goes out while the store shows the task running. |
| `Runners.Runner.FinishTask` | `internal/runner/runner.go:278-288` | Leaves the terminal record and the successor; between the two writes a failed task sends exactly one report, to its own url or else the fallback, if there is a url and an attempt, and any other task sends nothing. |
| `Runners.Runner.RunTask` | `internal/runner/runner.go:225-288` | From re-read record to successor: the store ends with the finished run's record and its successor, and is otherwise unchanged; what is sent is one request per attempt and then the report of a failure. |
| `Runners.Runner.AwaitTimer` | `internal/runner/runner.go:158-172` | Sleeps exactly until the task's time, counted from its reading of the clock, and not at all if that is past. |
| `Runners.Runner.FireSlotted` | `internal/runner/runner.go:191-223` | Acts exactly when the stored task is still pending at the claimed time, otherwise the store is untouched and nothing is sent; it retires the task exactly when the fire time is past its time by more than the limit, and else runs it, sending its attempts and then the report of a failure. |
| `Runners.Runner.Deliver` | `internal/runner/runner.go:155-289` | Gives claim, slot and wait group back on every path; an abandoned or unwanted delivery leaves the store untouched and sends nothing, any other leaves one run's outcome, fired no earlier than its time, and sends its attempts and then the report of a failure, all of it while it holds the claim and one more slot. |
| `Runners.DueScanIsBatch` | `internal/scheduler/badger_store.go:184-223` | What the due scan returns is a batch in the transition system's sense: distinct, pending, as stored. |
| `Solo.DeliverIsSteps` | `internal/runner/runner.go:155-289` | Every outcome that the delivery method may have is reached, with the same store, by the steps of a delivery goroutine from its claim to the release of the claim. |
| `Solo.NoRunIsSteps` | `internal/runner/runner.go:167-213` | So is the untouched store of a delivery that is abandoned or no longer wanted. |
| `Solo.MoveIsStep` | `internal/runner/runner.go:155-289` | Each of those steps is a step of the whole transition system from any state that shows the same goroutine, store and time. |
| `Handlers.Handler.Match` | `internal/api/handler.go:233-244` | The first duplicate on a page, by key alone or by url and time. |
| `Handlers.Handler.FindDuplicate` | `internal/api/handler.go:221-250` | Over all pages: the first pending duplicate in key order, or none exactly when there is none. |
| `Handlers.Handler.CreateTask` | `internal/api/handler.go:278-297` | Creates exactly when no pending task has the same key or, without a key, the same url and a time less than one second away; otherwise answers with the first such task and leaves the store as it is. |
| `Handlers.Handler.UpdateTask` | `internal/api/handler.go:304-344` | Edits a pending task and only such a one: each client-owned field of the stored record is the request's field of that name, the key, status, attempts and finish time are as before; a missing or other task is refused and nothing changes. |
| `Handlers.Handler.ReplayTask` | `internal/api/handler.go:365-387` | Re-arms a finished task and only such a one: pending, due now, unfinished, and all else, its id and attempts included, as before. |
| `Handlers.Handler.DeleteTask` | `internal/api/handler.go:461-478` | Cancels an unfinished task, stamps it and changes nothing else of it; a finished one is left as it is without complaint. |
| `Handlers.TextIsId` | `internal/api/handler.go:193-204` | A request path without a colon stands for the task of that id alone; the handlers' answers, given for any text, are then answers about that task. |
| `Metrics.Histogram.constructor` | `internal/metrics/metrics.go:178-181` | Starts empty, with the given bounds in ascending order. |
| `Metrics.Histogram.Search` | `internal/metrics/metrics.go:183-187` | Finds the first bound that is not below the value. |
| `Metrics.Histogram.Observe` | `internal/metrics/metrics.go:183-190` | Adds one observation: every bucket, whose bounds are in seconds, the sum and the count again agree with the plain list of observations, modulo 2^64. |
| `Metrics.Histogram.Render` | `internal/metrics/metrics.go:225-238` | Line i counts exactly the observations at or below bound i, and the last line equals the count, modulo 2^64. |
| `Metrics.Histogram.Reset` | `internal/metrics/metrics.go:192-198` | Forgets every observation. |
| `Metrics.CumulativeIsAtMost` | `internal/metrics/metrics.go:228-234` | The running sum over buckets up to a bound counts the observations at or below it. |
| `Metrics.AllBuckets` | `internal/metrics/metrics.go:233-234` | All buckets together count every observation once. |
| `Metrics.SeriesGrows` | `internal/metrics/metrics.go:225-238` | Until a counter wraps, the rendered series is nondecreasing. |
| `Metrics.Meters.ObserveDelivery` | `internal/metrics/metrics.go:57-65` | Counts one outcome and times it, so that the duration histogram counts successes and failures together. |
| `Metrics.Meters.ObserveLateness` | `internal/metrics/metrics.go:92-96` | Observes lateness with early firings counted as on time. |

## Left out

- HTTP decoding and validation, routing, API keys, CORS, JSON encoding and status codes: plumbing around the handlers.
- The executor: how a request is encoded, signing, response bodies and the dial guard; a call of it returns any status, error, duration and non-negative requested wait.
- Response bodies and their truncation flag in attempts: no decision reads them.
- Badger itself, value-log collection, backup and restore, and the encoding of cursors: a sorted map with atomic transactions, and a cursor that decodes to its key or does not.
- Errors of reads, and values that do not decode: the imperative store always reads; the transition system lets re-reads, marks, finalizing writes, reschedules, saves and write-backs fail. A tick whose read fails is a tick that does not happen.
- The exact text of the skip reason, which names durations; the model keeps one non-empty reason.
- Concurrency in the imperative view: the methods of `Runner` and `Handler` run to their end undisturbed; every interleaving is in the transition system.
- The slot channel and the mutexes of the imperative view: `sem` is a count, and `Deliver` is told whether it gets a slot.
- The handler's own clock reading: a cancel or replay is stamped when it is written, not when it is loaded.
- Liveness: that a due task is eventually fired; only safety and the termination measures are proved.
- Whether a delivery starts after shutdown begins: a select may still take the ready branch, so nothing is claimed.
- Floating point in the histograms: observations and bounds are real numbers, and rendered counts are not rounded.
- Saturation of time differences beyond 292 years.
- The task, replay, skip and in-flight counters of the metrics class: single additions; the transition system counts finished tasks, skips and the in-flight gauge.
- Storage.BadgerStore.Save: requires an id that is not stored yet, as its callers guarantee with new UUIDs; saving an existing id could leave two rows.
- Idempotency.WalkVerdict: says nothing of keyless creates about to save, since the runner may save a successor with the same url and time behind the cursor; what does hold for them is `Walks.SteadyDuplicateNotMissed`.
