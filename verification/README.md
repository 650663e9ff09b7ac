# Verified models of Jitsu's control-plane state machines

A Dafny model of the parts of Jitsu that decide, over time and between processes, what is
served, who runs and what is removed. Everything is proved for every input and every run;
nothing is executed. `dafny verify dfyconfig.toml` checks the project.

| files | what they model |
|---|---|
| `Canonical`, `Breaker`, `BreakerRuns` | the repository circuit breaker of config-keeper: its canonical row encoding, the gate, and what holds over all runs of `Init`, `AcceptNext` and restarts |
| `Lease`, `LeaseGate` | the per-sync lease of sync-sidecar as a protocol of interleaved API calls, and the admission gate of sync-controller |
| `ReverseTask`, `ReverseRuns`, `EndedTasks`, `EndedRuns` | a reverse-sync task row, the controller's and the worker's guarded updates of it, and the watcher that removes pods, alone and against the rows it watches |
| `Operator`, `OperatorRuns`, `ConfigMaps` | the functions-server operator: grouping, two-pass delayed shutdown, and packing data into ConfigMaps |
| `Reprocess`, `WorkerFiles`, `JobTotals`, `Selector`, `Routing` | the reprocessing job: counters, file shares, all workers together, the stream selector written by the admin and read by the worker, and event routing |
| `CronJobs`, `CronJobRuns` | the two CronJob controllers of sync-controller on one cluster |
| `Dedup` | batch deduplication at ingest |

Objects that the source updates in place are classes whose methods are proved equal to a
specification function of the old state (`View() == InitStep(old(View()), ...)`); the theorems
are about those functions and about runs, sequences of steps chosen freely.

What the code turned out not to promise is proved too: a run or an input that shows it, and
for all inputs the condition under which the promise does hold.

- A list element `null` in `stream_ids` becomes the empty stream id on its way through the
  admin and widens the selection (`Selector.NullElementWidensSelection`); the selection is kept
  if and only if no null adds an id (`Selector.ForwardingKeepsMeaning`).
- Sync ids that differ only in case or punctuation share a CronJob name and never both get a
  CronJob (`CronJobs.CollidingIdsNeverConverge`), and a CronJob under a name that is not its
  sync's is never removed (`CronJobs.MisnamedIsNeverRemoved`); a reconcile converges if and only
  if the names are in order (`CronJobs.ReconcileConvergesIff`).
- A PUT answered by 404 counts as success in `Acquire`, so a DELETE landing between another
  pod's GET and PUT breaks mutual exclusion (`Lease.DeleteBreaksExclusion`). The DELETE goes by
  name, so one that is still under way when the lease has expired and been taken over removes
  the lease of the new holder (`Lease.LateDeleteBreaksExclusion`). Exclusion holds under the two
  premises of `Lease.MutualExclusion` that rule these out.
- Two unwanted deployments can vouch for each other and both be deleted
  (`OperatorRuns.MutualAlternativesLeaveGap`); a workspace stays served if and only if every
  event leaves it a deployment that stays (`OperatorRuns.ServedThroughoutIff`).
- A workspace that moves to a deployment of its own is taken off the free one after six minutes
  even if the new one never rolled out, and then nothing serves it
  (`OperatorRuns.HandOverCutShort`); when the hand-over is kept is `Operator.HandOverKeptIff`.
- A task cancelled while its worker is active can never be refreshed again
  (`ReverseRuns.CancelUnderWorkerSticks`); a cancelled task can change if and only if no worker
  is active, it has a schedule and attempts are left (`ReverseRuns.CancelledChangesIff`).
- An `AcceptNext` that arrives while a rejected payload is being fetched again is overlooked
  until the next poll (`BreakerRuns.ArmDuringCallIsOverlooked`); otherwise, and only then, the
  early return refines the full check (`BreakerRuns.ShortCircuitRefinesFullCheckIff`).
- A breaker with a negative limit trips on the payload its baseline came from and stays held
  (`BreakerRuns.NegativeLimitHoldsForever`); exactly when it recovers is
  `BreakerRuns.ZeroDiffClearsHeldIff`.
- A fetched payload without a tag can be taken for the bootstrap replay, so that a restart
  forgets rows (`BreakerRuns.UntaggedReplayShrinksBaseline`); a restart keeps the baseline if and
  only if the served payload accounts for all of it (`BreakerRuns.RestartKeepsBaselineIff`),
  which holds while fetched payloads carry tags (`BreakerRuns.TaggedServesBaseline`).
- Deduplication tells only neighbours of a key apart (`Dedup.ReturningEventIsKeptIff`). All kept
  pairs of a batch are apart if no timestamp comes back into a window it had left
  (`Dedup.KeptArePairwiseApart`); that is also necessary for it to hold of every selection of
  the batch's events (`Dedup.PairwiseApartIff`), though not of the one batch.

Where comments and code disagree the model follows the code: `allWorkspacesHandled` accepts
any other rolled-out deployment, not only one of another class; the hand-over to a dedicated
deployment ends six minutes after its creation, rolled out or not; the deduplication window
reaches up to one millisecond beyond the configured gap because differences are truncated.

Hashes (FNV, SHA-256 names) are uninterpreted functions. A theorem that needs two hashes to
differ says so in its `requires` (`NoCollision`, `DistinctNames`).

## Model

| member | source | states |
|---|---|---|
| Canonical.PrefixFree | bulker/config-keeper/breaker.go:315-363 | the canonical encoding is a prefix code: for all JSON values and all suffixes, equal bytes mean equal values and equal suffixes |
| Canonical.StringPrefixFree | bulker/config-keeper/breaker.go:358-363 | length-prefixed strings below 2^64 bytes are uniquely decodable in front of any suffix |
| Canonical.ItemsPrefixFree | bulker/config-keeper/breaker.go:335-341 | the bytes of an array determine its items, their number and where it ends |
| Canonical.FieldsPrefixFree | bulker/config-keeper/breaker.go:317-334 | the bytes of an object determine its keys, their values and where it ends |
| Canonical.SortedKeys | bulker/config-keeper/breaker.go:319-323 | the keys are written in strict byte order, each exactly once |
| Canonical.LittleEndianValue | bulker/config-keeper/breaker.go:358-363 | a length is written as the number it is, lowest byte first |
| Canonical.ScalarForms | bulker/config-keeper/breaker.go:342-356 | the bytes of null, booleans, strings and numbers, tag by tag |
| Canonical.ArrayForm | bulker/config-keeper/breaker.go:335-341 | appending an item appends its bytes and a comma, between the brackets |
| Canonical.DecodeEqualIffSame | bulker/config-keeper/breaker.go:285-309 | two row texts, strings already unescaped, decode to the same value if and only if they differ in nothing but the order of the members that count, the last of each key, at every depth |
| Canonical.SameBytesIffSameRow | bulker/config-keeper/breaker.go:311-363 | two such texts get the same canonical bytes if and only if they differ only in the order of object members and in members a later one overrides |
| Breaker.HashRows | bulker/config-keeper/breaker.go:285-309 | the loop computes the row hashes and the number of rows without an id that the specification gives |
| Breaker.RowHashesMeaning | bulker/config-keeper/breaker.go:285-309 | exactly the ids that occur are mapped, each to the hash of the last row with that id |
| Breaker.RowsWithoutIdCounted | bulker/config-keeper/breaker.go:285-309 | every row that is no object with a non-empty string under the key "id" is counted once |
| Breaker.RowIdsTracked | bulker/config-keeper/breaker.go:285-309 | the tracked ids are exactly those of the other rows |
| Breaker.DiffRows | bulker/config-keeper/breaker.go:365-378 | counts exactly the common ids and those of them whose hashes differ |
| Breaker.BreakerRepositoryData.constructor | bulker/config-keeper/breaker.go:78-91 | the baseline is that of the cached payload if it parses, empty otherwise; nothing is served, held or armed |
| Breaker.BreakerRepositoryData.Init | bulker/config-keeper/breaker.go:93-189 | one call, with AcceptNext calls arriving at any point of it, changes the state as the specification step says, in every outcome; a payload that cannot be read changes nothing |
| Breaker.BreakerRepositoryData.Compare | bulker/config-keeper/breaker.go:127-189 | the part under the lock: trip, bootstrap replay or acceptance, with the whole new state |
| Breaker.BreakerRepositoryData.Thresholds | bulker/config-keeper/breaker.go:127-160 | finds the first limit that the counted changes and removals exceed |
| Breaker.BreakerRepositoryData.Trip | bulker/config-keeper/breaker.go:145-160 | holds the breaker, keeps the time of an earlier hold, records reason and payload hash, serves nothing new |
| Breaker.BreakerRepositoryData.Store | bulker/config-keeper/breaker.go:161-189 | stores the payload; a zero-diff replay from the cache keeps the hold and the baseline, anything else resets both |
| Breaker.BreakerRepositoryData.Reject | bulker/config-keeper/breaker.go:195-212 | an invalid payload changes nothing but the alert time |
| Breaker.BreakerRepositoryData.AcceptNext | bulker/config-keeper/breaker.go:232-249 | arms one acceptance for the fixed time and changes nothing else |
| BreakerRuns.NoTripIffWithinLimits | bulker/config-keeper/breaker.go:127-160 | a generation does not trip if and only if changes and removals, compared by multiplication, are within both limits |
| BreakerRuns.TripReasonMeaning | bulker/config-keeper/breaker.go:127-144 | which limit is exceeded, changes before removals, by multiplication, and the numbers reported with it |
| BreakerRuns.RefusedAsInvalidIff | bulker/config-keeper/breaker.go:98-126 | from any state, exactly when a call returns early, refuses a payload that is no array, or refuses one with too large a share of rows without an id |
| BreakerRuns.ArmLasts | bulker/config-keeper/breaker.go:234-249 | an arm is valid for fifteen minutes and not at the end of them |
| BreakerRuns.HoldAndAlert | bulker/config-keeper/breaker.go:145-212 | a hold keeps the time of the generation that tripped first, which alerts at once; later refusals alert at most once a minute, and an acceptance resets that |
| BreakerRuns.HeldStep | bulker/config-keeper/breaker.go:93-189 | every event keeps: held implies a recorded time, a reason, a non-empty baseline, and a rejected payload that still trips against it |
| BreakerRuns.ServedStep | bulker/config-keeper/breaker.go:110-189 | every event keeps the relation between served bytes and baseline |
| BreakerRuns.ReachableState | bulker/config-keeper/breaker.go:78-189 | in every reachable state the served row hashes are a sub-map of the baseline, equal unless the bootstrap replay stored them, and the facts about being held hold |
| BreakerRuns.ShortCircuitRefinesFullCheckIff | bulker/config-keeper/breaker.go:98-109 | in every reachable state and for every timing, the early return for a rejected generation gives the verdict and state of the full check, up to the alert time, if and only if no arm is valid at the check under the lock |
| BreakerRuns.ArmDuringCallIsOverlooked | bulker/config-keeper/breaker.go:98-109 | an AcceptNext between the two tests is overlooked by the early return where the full check would accept, and is honoured by the next poll |
| BreakerRuns.ZeroDiffClearsHeldIff | bulker/config-keeper/breaker.go:110-189 | in every reachable state, for every timing and with or without a tag, a trackable payload equal to the baseline is accepted and clears held if and only if the limits, an arm or an empty baseline let it through and it is not taken for the bootstrap replay |
| BreakerRuns.NegativeLimitHoldsForever | bulker/config-keeper/breaker.go:127-157 | with a negative limit and no row floor the breaker trips on its own cached payload and stays held however often it comes again |
| BreakerRuns.BypassIsArmed | bulker/config-keeper/breaker.go:127-143 | a generation beyond a limit is served only while an unexpired arm stands at the check, and uses it up |
| BreakerRuns.BypassesNeedAccepts | bulker/config-keeper/breaker.go:127-249 | over every run, generations accepted beyond a limit plus a pending arm are at most the AcceptNext calls |
| BreakerRuns.ArmOrigin | bulker/config-keeper/breaker.go:232-249 | a pending arm goes back to an AcceptNext call since which nothing has been stored |
| BreakerRuns.BypassWasConfirmed | bulker/config-keeper/breaker.go:127-249 | every generation accepted beyond a limit was confirmed by an AcceptNext call whose time had not run out and which confirmed no other |
| BreakerRuns.RestartKeepsBaselineIff | bulker/config-keeper/breaker.go:35-37 | a restart at any point of any run never adds to the baseline and keeps it if and only if the served payload accounts for all of it, as it does unless a bootstrap replay is served |
| BreakerRuns.TaggedServesBaseline | bulker/jitsubase/appbase/abstract_repository.go:64-173 | over every run in which fetched payloads come with a tag, the served payload accounts for the whole baseline |
| BreakerRuns.UntaggedReplayShrinksBaseline | bulker/config-keeper/breaker.go:161-176 | a fetched payload without a tag and with rows missing can be served as the bootstrap replay, and a restart then seeds the smaller baseline |
| BreakerRuns.RestartCannotBypass | bulker/config-keeper/breaker.go:35-37 | where a restart keeps the baseline, the first payload after it trips if and only if it exceeds a limit against the baseline from before and no arm was made since |
| Lease.TakeoverIsSafe | bulker/sync-sidecar/lease.go:200-252 | a PUT over a lease that looked stale, even one landing after the client gave up on it, takes it from no pod that relies on it |
| Lease.StampedLeaseLasts | bulker/sync-sidecar/lease.go:283-297 | a stamped lease is good until its duration, sixty seconds if unset, after the stamp, on every clock |
| Lease.RenewExtends | bulker/sync-sidecar/lease.go:254-274 | from any state, Renew of an idle holder goes through and leaves the lease with its holder and duration, stamped with the holder's clock |
| Lease.RenewedLeaseIsFresh | bulker/sync-sidecar/lease.go:254-297 | no clock up to the new expiry finds the renewed lease stale |
| Lease.UndisturbedAcquireSucceeds | bulker/sync-sidecar/lease.go:200-252 | an undisturbed pod that finds no lease or a stale one runs, with the lease its own for sixty seconds from its clock |
| Lease.FreshLeaseIsRespected | bulker/sync-sidecar/lease.go:225-234 | a pod that finds a fresh lease gives up and changes nothing |
| Lease.LostLeaseIsNoticed | bulker/sync-sidecar/lease.go:254-262 | a holder whose lease is gone or another's ends at its next renewal |
| Lease.ConflictingRenewLoses | bulker/sync-sidecar/lease.go:254-274 | a renewal that finds the lease changed leaves it alone and loses it if the answer comes through |
| Lease.ReleaseDeletesOnce | bulker/sync-sidecar/lease.go:276-281 | a release ends the hold and sends one DELETE, which removes whatever is stored when it lands |
| Lease.OneCallAtATime | bulker/sync-sidecar/lease.go:200-274 | a pod starts a call only when idle, and any answer, loss or giving up leaves it idle |
| Lease.LateWriteLandsOnce | bulker/sync-sidecar/lease.go:147-185 | a write the client gave up on lands once, with the effect it would have had in time and no report |
| Lease.AnythingMayHappen | bulker/sync-sidecar/lease.go:147-185 | the protocol is not protected from trouble: clocks advance, pods crash, answers are lost and writes land late at any point |
| Lease.StepKeepsInv | bulker/sync-sidecar/lease.go:147-281 | every API step, clock tick, lost answer, late write, release and crash keeps the protocol invariant |
| Lease.MutualExclusion | bulker/sync-sidecar/lease.go:147-281 | over every interleaving of any number of pods, at most one is between a successful Acquire and its loss, release or crash, and the stored holder is that pod, if no relied-on lease expires on any clock and no DELETE lands between a GET and its PUT |
| Lease.ExpiryBreaksExclusion | bulker/sync-sidecar/lease.go:283-297 | with the lease of a running holder expired, two pods hold at once: that half of the first premise is needed |
| Lease.LateDeleteBreaksExclusion | bulker/sync-sidecar/lease.go:276-281 | with a released lease expired before its DELETE lands, two pods hold at once though no running holder expires and no DELETE lands between a GET and its PUT: the other half is needed too |
| Lease.DeleteBreaksExclusion | bulker/sync-sidecar/lease.go:147-281 | with a DELETE between GET and PUT, two pods hold at once: the second premise is needed |
| Lease.FalseSuccess | bulker/sync-sidecar/lease.go:171-252 | Acquire reports success for a PUT on a deleted object, leaving a holder without a lease |
| LeaseGate.K8sName | bulker/sync-controller/cronjob_controller.go:52-66 | the string builder computes the safe name; the sidecar's lease name is the same function |
| LeaseGate.SafeNameIsLegal | bulker/sync-sidecar/lease.go:456-470 | every name is legal, is empty exactly when the id has no ASCII letter or digit, and is its own name |
| LeaseGate.NameWindow | bulker/sync-controller/cronjob_controller.go:52-66 | the name is the sanitized id without the dashes at its two ends, and nothing more is cut |
| LeaseGate.SanitizeMeaning | bulker/sync-controller/cronjob_controller.go:56-63 | character by character, what a name keeps, lowers or replaces by a dash |
| LeaseGate.AlphanumericName | bulker/sync-controller/cronjob_controller.go:52-66 | an id of letters and digits is named by itself in lower case |
| LeaseGate.AlikeIdsCollide | bulker/sync-controller/cronjob_controller.go:52-66 | any two ids of one length that agree up to case and punctuation share a name |
| LeaseGate.NamesCollide | bulker/sync-controller/cronjob_controller.go:52-66 | two such pairs, written out |
| LeaseGate.FreshnessAgreesExcept | bulker/sync-controller/lease.go:28-51 | the gate's and the sidecar's freshness tests agree if and only if it is not the exact expiry instant nor the window of a negative duration |
| LeaseGate.FreshLeaseIsFound | bulker/sync-controller/lease.go:28-51 | for every id of letters and digits, upper case included, the sync is held exactly while a lease under its name was stamped less than its duration ago |
| LeaseGate.NamelessIsNotHeld | bulker/sync-controller/lease.go:32-35 | an id without a letter or digit is never held |
| LeaseGate.GateImpliesNoAcquireIff | bulker/sync-sidecar/lease.go:200-234 | when the gate finds the lease held, Acquire on that object writes nothing and reports no success if and only if the stored duration is not negative or its expiry is still ahead |
| ReverseTask.DelayBounds | bulker/sync-controller/reverse_refresh_failure.go:68-87 | the delay before the next check is 30 to 60 minutes, at least 39 after the first attempt |
| ReverseTask.DelayValues | bulker/sync-controller/reverse_refresh_failure.go:74 | the delay is 30, 39 and 50.7 minutes, and an hour from the third attempt on |
| ReverseTask.SourceTask.RefreshReverseTask | bulker/sync-controller/reverse_tasks.go:101-129 | the guarded update queues the row for a new attempt or changes nothing, and reports the attempt it wrote |
| ReverseTask.SourceTask.ReverseCancel | bulker/sync-controller/reverse_tasks.go:151-196 | cancels exactly the rows the statement's guard admits |
| ReverseTask.SourceTask.CloseStaleReverseTask | bulker/sync-controller/reverse_tasks.go:198-244 | a run without heartbeat is failed and its worker released; anything else is unchanged |
| ReverseTask.SourceTask.RecordReverseRefreshFailure | bulker/sync-controller/reverse_refresh_failure.go:16-103 | the transaction's fencing, backoff, deadline and status restore, field by field |
| ReverseTask.SourceTask.FailReverseWorker | bulker/sync-controller/reverse_tasks.go:327-343 | a failure notice is charged to the recovery worker or to the run, as the pod was started; a run without a row gets one that has failed |
| ReverseRuns.StepKeepsInv | bulker/sync-controller/reverse_refresh_failure.go:16-103 | every controller and worker step keeps the row invariant, and closes no refresh worker closed before |
| ReverseRuns.ClosedOnce | bulker/sync-controller/reverse_refresh_failure.go:34-87 | over every run each deterministic worker name is charged at most once, however many late or repeated notices arrive |
| ReverseRuns.AttemptsOnlyGrow | bulker/sync-controller/reverse_refresh_failure.go:34-87 | over every run the attempt never decreases and never passes the largest 32-bit integer |
| ReverseRuns.RestStatusKept | bulker/sync-controller/reverse_tasks.go:101-244 | refreshes, claims and failed checks keep the status the row returns to, cancellation excepted |
| ReverseRuns.FailedChecksRestoreStatus | bulker/sync-controller/reverse_refresh_failure.go:25-67 | after any number of refreshes and failed checks, recording a failure brings back the first status, or CANCELLED if cancelled on the way |
| ReverseRuns.CancelledIsFinal | bulker/sync-controller/reverse_tasks.go:151-196 | a cancelled row never changes without a user refresh, and not even with one if a worker was active |
| ReverseRuns.CancelledChangesIff | bulker/sync-controller/reverse_tasks.go:101-196 | some run changes a cancelled row if and only if no worker is active on it, it has a schedule and attempts are left |
| ReverseRuns.CancelUnderWorkerSticks | bulker/sync-controller/reverse_tasks.go:151-196 | from the creation of a task, through a wait, a claim and a cancel, a row is reached that no run changes although attempts are left |
| ReverseRuns.ChecksAreDueInTime | bulker/sync-controller/reverse_recovery.go:57-69 | over every run a check that is due automatically is due by the deadline |
| ReverseRuns.ClosingPutsOff | bulker/sync-controller/reverse_refresh_failure.go:68-87 | each failure ends the automatic checks or puts the next one off by 39 minutes or to the deadline |
| ReverseRuns.ChecksEnd | bulker/sync-controller/reverse_recovery.go:57-69 | in every run without a user refresh at most 38 workers finish before the checks stop |
| ReverseRuns.ChecksEndAfterRefresh | bulker/sync-controller/reverse_recovery.go:57-69 | the same bound after a user refresh at any point in the life of a task, the Node worker's own updates included |
| ReverseRuns.ChecksEndFromCreation | services/retl-runner/src/recovery-schedule.ts:15-27 | from the creation of a task that is never refreshed at most 39 workers finish, the first one and 38 checks |
| ReverseRuns.FailureRecordedIff | bulker/sync-controller/reverse_refresh_failure.go:25-67 | exactly which failure notices are recorded: for the active worker, or the unrecorded one of the current attempt, on open rows older than the cutoff |
| ReverseRuns.FailureGoesOn | bulker/sync-controller/reverse_refresh_failure.go:67-87 | a recorded failure in the open window moves to the next attempt, puts its check off by the delay or to the deadline and suspends nothing; out of the window it suspends |
| ReverseRuns.WorkerGoesOn | services/retl-runner/src/tasks.ts:107-165 | a worker that waits or fails without calling the checks off does the same; out of the window the task fails or is suspended |
| ReverseRuns.FirstWaitOpensWindow | services/retl-runner/src/recovery-schedule.ts:15-27 | the first wait opens a window of a day with a check in half an hour |
| ReverseRuns.AwaitedCheckHappens | bulker/sync-controller/reverse_recovery.go:37-112 | an awaited check is launched once its time has come, and its worker gets the row |
| ReverseRuns.RetryFollowsFailure | bulker/sync-controller/reverse_refresh_failure.go:16-103 | in the open window a recorded failure is followed by the launch of the next attempt, whose worker gets the row |
| ReverseRuns.RefreshStartsCheck | bulker/sync-controller/reverse_tasks.go:101-129 | a user refresh starts a check at once, whatever was suspended, with a new day ahead |
| ReverseRuns.RefreshAllowedIff | bulker/sync-controller/reverse_tasks.go:101-129 | exactly when a refresh is allowed |
| ReverseRuns.RefreshRemembers | bulker/sync-controller/reverse_tasks.go:101-116 | a refresh remembers the status of the first of several refreshes, and CANCELLED if cancelled |
| ReverseRuns.LaunchedIff | bulker/sync-controller/reverse_recovery.go:57-112 | the scheduler launches exactly the awaited, due checks of the run in control |
| ReverseRuns.ClaimedIff | services/retl-runner/src/tasks.ts:19-53 | exactly when a worker gets the row, and what it then records |
| ReverseRuns.WritesAreStamped | services/retl-runner/src/tasks.ts:19-199 | every statement that writes the row stamps it with the clock |
| ReverseRuns.ClosingIsRecorded | bulker/sync-controller/reverse_refresh_failure.go:85-87 | every closing records its worker as done |
| ReverseRuns.ActiveWorkerIsHeard | services/retl-runner/src/tasks.ts:77-165 | exactly when the active worker may beat, wait or report a failed check |
| ReverseRuns.OthersAreFenced | services/retl-runner/src/tasks.ts:77-199 | beats, waits, failures and endings of any but the active worker change nothing |
| ReverseRuns.SweepIff | bulker/sync-controller/reverse_tasks.go:198-244 | a run is failed and its worker released exactly when it has not been heard of for more than two minutes |
| ReverseRuns.HeartbeatKeepsRun | services/retl-runner/src/tasks.ts:77-85 | a worker that beats is left alone for two minutes |
| ReverseRuns.RunFailureIff | bulker/sync-controller/reverse_tasks.go:327-343 | a failure notice fails a run exactly while it runs under that pod or under none recorded |
| ReverseRuns.FinishMeaning | services/retl-runner/src/tasks.ts:177-199 | exactly when a worker may finish, and that only a failed task keeps its schedule and can be refreshed |
| EndedTasks.EndedReverseTasks | bulker/sync-controller/reverse_tasks.go:246-323 | the paged loops mark exactly the pods that the merged rows show ended, and only listed pods |
| EndedTasks.EndedIff | bulker/sync-controller/reverse_tasks.go:298-321 | status by status, exactly when a pod is removed, the final statuses and the running case included |
| EndedTasks.QueriedIds | bulker/sync-controller/reverse_tasks.go:253-264 | the ids queried are exactly the task ids of the reverse pods, their names standing in for missing ones |
| EndedTasks.QueuedTaskKeepsOnePod | bulker/sync-controller/reverse_tasks.go:246-323 | of a queued task at most one pod survives, and the recorded active worker is never removed |
| EndedTasks.FailedPagesRemoveLessIff | bulker/sync-controller/reverse_tasks.go:265-296 | whatever rows the pages hold, failed pages only shrink the removed set if and only if no page shows the row of the pod ended while the last page listing it does not |
| EndedRuns.EndedStep | bulker/sync-controller/reverse_tasks.go:298-321 | no step of the controller or of a worker takes back the verdict that a pod of the task is ended |
| EndedRuns.EndedForGood | bulker/sync-controller/reverse_tasks.go:246-323 | over every run a pod of the task found ended, its first worker or a launched refresh pod, is found ended ever after |
| EndedRuns.FailedPagesRemoveLess | bulker/sync-controller/reverse_tasks.go:246-323 | a failed query page can only make the set of removed pods smaller, whatever is done to the rows between the queries and however the pods of a task spread over the pages |
| Operator.GroupWorkspaces | bulker/operator/operator.go:205-253 | the loop yields exactly the dedicated workspaces and the free list with its multiplicities |
| Operator.PlaceWorkspace | bulker/operator/operator.go:209-251 | how often one workspace joins the free list and whether it is dedicated |
| Operator.EveryWorkspacePlaced | bulker/operator/operator.go:205-253 | by the classes it asks for and what it has to run, exactly which workspaces get a deployment of their own, join the free list, join it twice, or are left out |
| Operator.HandOverKeptIff | bulker/operator/operator.go:235-248 | a workspace stays on the free list until its dedicated deployment has been rolled out for five minutes if and only if that one is ready, missing or younger than six minutes |
| Operator.FunctionsOperator.Reconcile | bulker/operator/operator.go:282-360 | one reconcile leaves of every deployment exactly what the per-deployment specification says |
| Operator.FunctionsOperator.CreateOrUpdate | bulker/operator/operator.go:282-322 | desired deployments are created or brought up to date, which clears a shutdown mark, and no other is touched |
| Operator.FunctionsOperator.MarkForShutdown | bulker/operator/operator.go:324-344 | pass 1 marks exactly the unwanted, unmarked deployments whose workspaces are handled |
| Operator.FunctionsOperator.DeleteExpired | bulker/operator/operator.go:346-360 | pass 2 deletes exactly the unwanted ones whose time, as read at the start, is up |
| Operator.FunctionsOperator.WorkspacesHandled | bulker/operator/operator.go:395-419 | the nested search decides whether every workspace is gone or in another rolled-out deployment |
| OperatorRuns.MarkOrigin | bulker/operator/operator.go:324-344 | over every run a shutdown mark goes back to the reconcile that set it, the deployment being unwanted ever since |
| OperatorRuns.DeletionWasAnnounced | bulker/operator/operator.go:282-360 | over every run a deletion was marked at least fifteen minutes earlier, to whole seconds, with every remaining workspace in another rolled-out deployment, and the deployment was unwanted or unwritable at every reconcile between |
| OperatorRuns.MarkIsNotDelete | bulker/operator/operator.go:324-360 | no reconcile both marks and deletes a deployment |
| OperatorRuns.MarkedIsDeletedInTime | bulker/operator/operator.go:324-360 | a marked deployment still unwanted is deleted by the first reconcile fifteen minutes after the mark and by none a second or more before |
| OperatorRuns.MarkedIff | bulker/operator/operator.go:395-419 | an unwanted deployment is marked exactly when none of its workspaces is still known and served by no other rolled-out deployment |
| OperatorRuns.DesiredIsWritten | bulker/operator/operator.go:282-322 | every desired deployment that can be written ends with the wanted class and hashes, and with the wanted workspaces unless it was left as it is |
| OperatorRuns.SecondReconcileLeavesDesired | bulker/operator/operator.go:293-322 | a second reconcile that wants the same leaves it alone |
| OperatorRuns.OthersStay | bulker/operator/operator.go:324-360 | what is neither desired nor due stays, but for its mark, and nothing appears that is not desired |
| OperatorRuns.WantedAgainIsKept | bulker/operator/operator.go:293-322 | a deployment wanted again before its time is up is kept, loses its mark, and stays rolled out if and only if its pods are not to change |
| OperatorRuns.MutualAlternativesLeaveGap | bulker/operator/operator.go:395-419 | two unwanted deployments vouch for each other, and after two reconciles nothing rolled out serves the workspace |
| OperatorRuns.ServedAfterReconcileIff | bulker/operator/operator.go:282-360 | a workspace is served after a reconcile if and only if a rolled-out deployment that has it stays: unwritable, wanted with the same pods, marked or not, or unwanted and not yet due |
| OperatorRuns.ServedThroughoutIff | bulker/operator/operator.go:282-360 | over every stretch of every run a workspace is served throughout if and only if it is at the start and every event leaves it a rolled-out deployment that stays |
| OperatorRuns.WantedAlternativeServes | bulker/operator/operator.go:293-344 | a rolled-out deployment wanted with the same pods at every reconcile serves its workspaces all along, whoever is marked and deleted meanwhile |
| OperatorRuns.HandOverCutShort | bulker/operator/operator.go:235-253 | a workspace whose own deployment is six minutes old and never rolled out loses its last rolled-out deployment in a reconcile if and only if that one, the free deployment, is redeployed |
| ConfigMaps.Split | bulker/operator/operator.go:981-1065 | the loop with running data and size yields the greedy packing |
| ConfigMaps.PackedIsGreedy | bulker/operator/operator.go:981-1065 | packing keeps every entry in order, every part is non-empty and within the limit unless it is one oversize entry, and a part is opened only when the one before has no room |
| ConfigMaps.PartsFitInBytes | bulker/operator/operator.go:1010-1021 | keys, data and ten bytes an entry of a part stay within 921600 unless it has one entry, and with the first entry of the next part exceed it |
| ConfigMaps.NeighboursExceedLimit | bulker/operator/operator.go:1112-1198 | any two adjacent parts together exceed the limit |
| ConfigMaps.SplitLosesNothing | bulker/operator/operator.go:1220-1283 | the parts merged give back the data, and over distinct keys no key is in two parts |
| ConfigMaps.UpdateReplaces | bulker/operator/operator.go:786-838 | an update replaces one data set by another with no stale and no missing part |
| ConfigMaps.StoredPartsAreExact | bulker/operator/operator.go:469-523 | over every run of creates, updates and deletes the stored parts are exactly 0..n-1 of the last data set |
| ConfigMaps.PartStore.CreateOrUpdateConfigMaps | bulker/operator/operator.go:981-1065 | writes the parts over the stored ones and returns their number |
| ConfigMaps.PartStore.UpdateDeployment | bulker/operator/operator.go:783-838 | writes the new parts and deletes the surplus by number |
| ConfigMaps.PartStore.DeleteDeployment | bulker/operator/operator.go:876-918 | deletes as many parts as are counted |
| Reprocess.WorkerStatus.SendBatch | bulker/reprocessing-worker/main.go:914-967 | a batch changes the counters and the queue as specified, also when it is aborted |
| Reprocess.WorkerStatus.ProcessFile | bulker/reprocessing-worker/main.go:577-674 | one attempt at a file, with batching by size and the rest sent at the end |
| Reprocess.WorkerStatus.ProcessWithRetries | bulker/reprocessing-worker/main.go:297-325 | retries start from rolled-back counters while the queue keeps what it was handed |
| Reprocess.WorkerStatus.ProcessFiles | bulker/reprocessing-worker/main.go:292-339 | the run over all files, with one error for each file given up |
| Reprocess.WorkerStatus.AccountUndelivered | bulker/reprocessing-worker/main.go:455-462 | moves the undelivered messages, at most the counted successes, from success to error |
| Reprocess.BatchConserves | bulker/reprocessing-worker/main.go:914-967 | every message of a batch is counted exactly once, aborted or not, and success grows as the queue does |
| Reprocess.AbortedRestIsError | bulker/reprocessing-worker/main.go:914-967 | up to the abort each message joins the counter of its route; the aborted one and the rest join the errors and reach no producer |
| Reprocess.LinesConserve | bulker/reprocessing-worker/main.go:617-674 | every line of a file is counted exactly once, for every batch size |
| Reprocess.ReportBalances | bulker/reprocessing-worker/main.go:292-352 | at the end of every run success + error + skipped is the lines read plus the files given up, success is never negative, and is at most what left the producer |
| Reprocess.ReportIsExact | bulker/reprocessing-worker/main.go:292-352 | when no attempt is rolled back the reported successes are exactly the messages that left the producer |
| Reprocess.CleanLines | bulker/reprocessing-worker/main.go:617-674 | without aborts the counters are the numbers of delivered and skipped lines, whatever the batch size |
| WorkerFiles.SelectWorkerFiles | bulker/reprocessing-worker/main.go:558-567 | the loop selects the worker's share |
| WorkerFiles.FilesPerWorker | bulker/admin/failover_reprocessor.go:258-287 | the admin's tally is the length of the share each worker will select |
| WorkerFiles.ShareIsBalanced | bulker/admin/failover_reprocessor.go:282-287 | the length of every share in closed form |
| WorkerFiles.FileHasOnePlace | bulker/reprocessing-worker/main.go:558-567 | file i is at place i / n of worker i % n |
| WorkerFiles.SharesPartition | bulker/reprocessing-worker/main.go:558-567 | every place of every share is one file, and shares differ in length by at most one |
| JobTotals.SharesSumUp | bulker/admin/failover_reprocessor.go:282-287 | any count over the files is the sum of the counts over the shares, for every number of workers |
| JobTotals.JobIsCovered | bulker/reprocessing-worker/main.go:292-352 | the final reports of all workers together count every line of every file of the job once, and one error more for each file given up |
| Selector.UnmarshalJson | bulker/admin/failover_reprocessor.go:71-99 | accepts and normalises exactly the values the specification says, with the errors |
| Selector.ParseConnectionList | bulker/admin/failover_reprocessor.go:104-121 | a string or a list of strings, any other value or element being an error |
| Selector.AcceptedIff | bulker/admin/failover_reprocessor.go:67-121 | exactly which values are accepted: null, a list of strings and nulls, a map to strings or lists of strings |
| Selector.SelectorRoundTrip | bulker/admin/failover_reprocessor.go:67-127 | writing a selector out and reading it back gives the same selector |
| Selector.ParseConnectionRules | bulker/reprocessing-worker/main.go:93-126 | the loops over a list or a map build the rules of the specification |
| Selector.Matches | bulker/reprocessing-worker/main.go:129-144 | a stream is matched if and only if it is selected by id, slug or wildcard |
| Selector.LookupPrecedence | bulker/reprocessing-worker/main.go:146-164 | in the map form the stream's id decides, then its slug, then "*" |
| Selector.ListedMeaning | bulker/reprocessing-worker/main.go:106-122 | an entry lists the string itself or the strings of a list, in order |
| Selector.ListSelectsIff | bulker/reprocessing-worker/main.go:129-144 | the list form selects exactly the streams named by id or slug |
| Selector.MapSelectsIff | bulker/reprocessing-worker/main.go:129-164 | the map form selects exactly the streams with an entry of their own or all by "*" |
| Selector.ForwardingKeepsMeaning | bulker/admin/failover_reprocessor.go:67-127 | for every accepted value the worker finds the same rule for every stream as in the original, and selects the same streams if and only if no null element adds the empty id |
| Selector.NullElementWidensSelection | bulker/admin/failover_reprocessor.go:92-97 | a list with a null selects an event without source id that the original does not |
| Selector.SelectsEverythingIff | bulker/reprocessing-worker/main.go:93-164 | for every value, all streams are selected if and only if it is absent or neither list nor map, or a map with "*"; an empty list or map selects none |
| Routing.ResolveConnections | bulker/reprocessing-worker/main.go:826-869 | the loops over rule and mapped connections compute the specified list, order and duplicates included |
| Routing.ResolvedMeaning | bulker/reprocessing-worker/main.go:826-869 | a connection is chosen if and only if the mode, the listed ids and "*" say so, without duplicates where "*" is expanded |
| Routing.ResolvedInOrder | bulker/reprocessing-worker/main.go:826-869 | filtering keeps the order and repetitions of the mapped connections, and a rule without "*" is followed as written |
| Routing.DeduplicatedMeaning | bulker/reprocessing-worker/main.go:860-868 | the expanded list has the same members, each once |
| Routing.DeduplicatedOrder | bulker/reprocessing-worker/main.go:860-868 | mapped connections come first, in their order |
| Routing.RouteOneEvent | bulker/reprocessing-worker/main.go:875-912 | destination, deliberateness and reason of one event as specified |
| Routing.RouteWithoutRule | bulker/reprocessing-worker/main.go:875-912 | without a rule an event goes where the repository maps its source id, or its slug without one, and otherwise the reason says what was missing |
| Routing.OwnEntryDecides | bulker/reprocessing-worker/main.go:146-164 | from the job setting to the destinations: a stream's own entry wins over "*" |
| Routing.OwnEntryRoutes | bulker/reprocessing-worker/main.go:810-912 | from the job setting to the destinations, in both modes: exactly the connections a stream with its own entry goes to |
| Routing.RepositoryIsNotAsked | bulker/reprocessing-worker/main.go:810-820 | in override mode a rule without "*" gives the same outcome for every repository and without one |
| Routing.MappedNeeded | bulker/reprocessing-worker/main.go:810-820 | the repository is asked exactly when there is no rule, in filter mode, or for "*" |
| Routing.UnaskedRepositoryIsIrrelevant | bulker/reprocessing-worker/main.go:875-912 | not asking the repository gives the destinations and the verdict that always asking would |
| Routing.DropsAreDeliberate | bulker/reprocessing-worker/main.go:899-911 | an event is skipped if and only if a rule resolves to nothing, and is an error if and only if no rule names it and nothing is mapped |
| Routing.ForwardingKeepsRoutes | bulker/reprocessing-worker/main.go:810-912 | a selector that went through the admin routes every event as the original would |
| CronJobs.DesiredMeaning | bulker/sync-controller/cronjob_controller.go:166-172 | exactly the ids with a non-blank schedule are desired, each by one of its entries |
| CronJobs.SpaceMeaning | bulker/sync-controller/cronjob_controller.go:168 | which characters count as blank, by code point |
| CronJobs.UnscheduledIsNotDesired | bulker/sync-controller/cronjob_controller.go:166-172 | an id whose entries all have an empty or white schedule is not desired |
| CronJobs.ScheduledIsDesired | bulker/sync-controller/cronjob_controller.go:166-172 | an entry with any visible character in its schedule is |
| CronJobs.DesiredIsLast | bulker/sync-controller/cronjob_controller.go:166-172 | of entries with one id the last scheduled one is the one desired |
| CronJobs.Cluster.BuildDesired | bulker/sync-controller/cronjob_controller.go:166-172 | the loop builds the desired set |
| CronJobs.Cluster.ListCurrent | bulker/sync-controller/cronjob_controller.go:175-192 | the listing by label yields one CronJob of the controller for each sync id that has any, under whatever names |
| CronJobs.Cluster.CreateOrUpdate | bulker/sync-controller/cronjob_controller.go:296-329 | create, leave or update one CronJob; a taken name is a silent success, an update of another CronJob than the one listed is refused |
| CronJobs.Cluster.Reconcile | bulker/sync-controller/cronjob_controller.go:158-226 | one reconcile of any cluster, in any order over listing and maps and with any API failures, changes the cluster as specified |
| CronJobs.ReconcileConvergesIff | bulker/sync-controller/cronjob_controller.go:158-226 | from any cluster a reconcile without API failures makes the own CronJobs exactly the scheduled syncs, under their names with matching hashes, if and only if desired names are distinct, prepared and not about to be deleted and every other own CronJob is about to be deleted |
| CronJobs.WellNamedInOrderIff | bulker/sync-controller/cronjob_controller.go:158-226 | where own CronJobs are named after their syncs, that condition is that every desired sync has its name to itself |
| CronJobs.MisnamedIsNeverRemoved | bulker/sync-controller/cronjob_controller.go:331-342 | a CronJob of the controller under a name that belongs to no listed or desired sync survives every reconcile unchanged, whether its sync is wanted or not |
| CronJobs.ForeignIsNotRewritten | bulker/sync-controller/cronjob_controller.go:89-113 | a CronJob that is unmanaged, of the other kind or without a sync id is never rewritten, and deleted only under the name of a listed sync no longer desired |
| CronJobs.CreatedIsLabelled | bulker/sync-controller/cronjob_controller.go:408-463 | what is created is managed, of the controller's kind, and bears the sync's id and hash |
| CronJobs.FreeMeansInjective | bulker/sync-controller/cronjob_controller.go:52-113 | where nothing foreign holds a name, that condition is injectivity of names on desired and existing syncs |
| CronJobs.SharedNameNeverConverges | bulker/sync-controller/cronjob_controller.go:296-311 | with two scheduled syncs of one name, among any others, no reconcile of any cluster gives both a CronJob |
| CronJobs.CollidingIdsNeverConverge | bulker/sync-controller/cronjob_controller.go:52-66 | connector syncs whose ids agree up to case and punctuation are such a case |
| CronJobs.SecondReconcileWritesNothing | bulker/sync-controller/cronjob_controller.go:196-226 | once exact, a further reconcile calls for no create, update or delete |
| CronJobRuns.ReconcileTouchesOwn | bulker/sync-controller/cronjob_controller.go:89-113 | whatever the syncs, order and failures, CronJobs of others stay as they are and additions bear the controller's kind and name |
| CronJobRuns.OtherLeavesOwn | bulker/sync-controller/cronjob_controller.go:89-113 | a run of the other controller, on any cluster, changes nothing among a controller's names |
| CronJobRuns.ControllersAreIndependent | bulker/sync-controller/cronjob_controller.go:158-226 | for every interleaving of the two controllers, each one's CronJobs end as if the other had never run |
| CronJobRuns.ExactIsStable | bulker/sync-controller/cronjob_controller.go:158-226 | once exact, a controller's CronJobs stay exact through every run of both over the same syncs, failures included |
| Dedup.DeduplicateBatch | bulker/ingest/router_batch_handler.go:94-167 | the loop with its map of last kept timestamps computes the specified result |
| Dedup.WithinMeaning | bulker/ingest/router_batch_handler.go:146-153 | for every gap, what the window means in true time, truncation and saturation included |
| Dedup.SeenIsLastKept | bulker/ingest/router_batch_handler.go:100-163 | what is remembered of a key is its last kept event, and nothing if there is none |
| Dedup.KeptPositionsMeaning | bulker/ingest/router_batch_handler.go:107-164 | the kept positions are strictly increasing and are exactly those of the kept events |
| Dedup.ResultIsSubsequence | bulker/ingest/router_batch_handler.go:94-167 | the result is the batch at exactly the kept positions |
| Dedup.DroppedHasEarlierKept | bulker/ingest/router_batch_handler.go:146-153 | a dropped event has an earlier kept event of its key, the last one, within the window |
| Dedup.ConsecutiveKeptAreApart | bulker/ingest/router_batch_handler.go:146-163 | consecutive kept events of a key are further apart than the window |
| Dedup.KeptIff | bulker/ingest/router_batch_handler.go:107-164 | an event is kept if and only if it has no timestamp, no kept predecessor of its key, or a last one outside the window |
| Dedup.DedupIsIdempotent | bulker/ingest/router_batch_handler.go:94-167 | running deduplication again changes nothing |
| Dedup.KeptArePairwiseApart | bulker/ingest/router_batch_handler.go:146-163 | where no timestamp of a key comes back into a window it had left, any two kept events of the key are further apart than the window |
| Dedup.OrderedHasNoReturn | bulker/ingest/router_batch_handler.go:146-163 | timestamps of a key that never go back are such a case |
| Dedup.ReturningEventIsKeptIff | bulker/ingest/router_batch_handler.go:146-163 | of three events of a key all are kept with the outer two within the window if and only if the last one comes back |
| Dedup.PairwiseApartIff | bulker/ingest/router_batch_handler.go:146-163 | kept events of a key are pairwise apart in every selection of the batch's events if and only if no timestamp comes back; for the batch alone this suffices |

## Left out

- Lease.MutualExclusion: stated under its two premises; each half of each is shown to be needed by a run without it, not characterised as an exact condition over runs.
- Canonical.SameBytesIffSameRow: string escapes and number spellings are read before the comparison, so texts that differ only in escapes are one text.
- CronJobs.Cluster.Reconcile: per-CronJob Secrets and the contents of the config hash are not modelled; the resource version of an update is modelled by the listed CronJob being unchanged.
- CronJobRuns.ControllersAreIndependent: stated from clusters whose managed CronJobs are named as the controllers name them, which every run keeps.
- OperatorRuns.DeletionWasAnnounced: a deployment that could not be written at a reconcile may have been wanted there, since a failed update leaves its mark; the statement allows for that.
- ReverseTask.SourceTask.RefreshReverseTask: access checks and the pod launch itself are not modelled, and all statements share the database clock.
- EndedTasks.EndedReverseTasks: pod names are taken to be distinct, as they are within a namespace, and one page answer per slice of ids is a parameter.
- EndedRuns.FailedPagesRemoveLess: sync ids are taken to carry no colon, and a task row is never deleted.
- Dedup.PairwiseApartIff: no condition on the input is given that is exact for one batch alone, where events outside the kept ones may come back without harm.
- Operator.FunctionsOperator.Reconcile: an update that changes neither hash nor class is taken to leave the running pods and their rollout as they are.
- Breaker.BreakerRepositoryData.Init: percentages are reals, and the JSON array parser and FNV are parameters.
- BreakerRuns.RestartCannotBypass: every stored payload is taken to reach the cached file; a write of that file that fails or is cut short is not modelled.
- Operator.GroupWorkspaces: sharding of the free list by workspace hash and the hash of a workspace's configuration are not modelled; the desired deployments of a reconcile are a parameter of it.
- Reprocess.WorkerStatus.ProcessFiles: opening, decompressing and reading files, event and date filters, and the producer's success are parameters; periodic status rows are not modelled.
- Routing.RouteOneEvent: log texts are reduced to their kind.
- HTTP handlers, admin pages and the ingest endpoints: input and output only.
- Kubernetes object construction (pod templates, services, autoscalers, budgets): large literals whose names and labels alone matter here.
- Kafka, S3, GCS, ClickHouse and Redis clients: foreign calls, of which only success or failure is modelled where a counter depends on it.
- SQL text: each statement is one guarded atomic transition of a row.
- Warehouse drivers and schema evolution of bulkerlib, failover log rotation, timestamp correction of batches: other components with no part in these protocols.
- Write-key hashing, origin checks and header masking: outside the properties proved here.
