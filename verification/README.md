# RhinoQ in Dafny

A model of the core of RhinoQ and proofs about it: the fenced job queue, the ledger of
external effects, the versioned Task aggregate, and the integrity scanner with its Rules.
`dafny verify dfyconfig.toml` checks all of it.

Each component has the same three layers.

* A **value layer**: the state of a store as a datatype and one function per operation
  (`Jobs`, `EffectLedger`, `Tasks`, `PageFold`, `Rules`, with their records beside them).
* A **store layer**: classes that hold the same maps in fields and update them in place,
  with the loops the stores have. Every method is proved equal to its function
  (`JobStores`, `EffectStores`, `EffectClients`, `TaskStores`, `TaskServices`, `FoldStores`, `RuleStores`,
  `Reaper`).
* A **run layer**: sequences of calls, in every order and with every argument, and theorems
  about all of them (`JobRuns`, `JobTheorems`, `JobTimes`, `JobWaits`, `JobCalls`,
  `LaneTheorems`, `EnqueueTheorems`, `ClaimAging`, `EffectProtocol`, `TaskRuns`,
  `TaskTheorems`, `TaskLifecycles`, `TaskCommands`, `TaskRetries`, `TaskWaits`,
  `ExecutionPages`, `ScanTheorems`, `FoldTheorems`, `FindingTheorems`, `RuleTheorems`,
  `RuleCalls`, `ScheduleTheorems`, `EvaluationTheorems`). Where a client reads and later
  writes, the read and the write are separate steps and anything may happen in between.

What an operation does is said twice: by its function, which follows the code, and by what
a later call can observe, in tables, instants and conditions that do not mention the function.

The clock is an argument of each call. Only the rate-limit bounds assume that claim times
do not decrease; fencing, logs, counters and versions hold for arbitrary times. A time is a
number of nanoseconds whose zero means "not set", a string is a sequence of bytes.

## What the proofs found

* **Claiming.** The set-based PostgreSQL claim takes a prefix of what the in-memory loop
  takes. The two agree exactly if the batch was filled or every candidate past the
  look-ahead sits in a lane without slots (`SqlRefinesMemory`). A busy lane with one slot
  can hide another lane (`BusyLaneHidesAnother`).
* **Aging.** Waiting protects a job from fresh work of at most five priorities more, and from
  no other: above that it can starve (`AgingProtectsUpToFive`).
* **Rate limits.** An interval as long as the window holds at most one grant less than twice
  the limit, and for every limit some history reaches that (`LaneRateIsBounded`,
  `LimitIsNotASlidingWindow`).
* **Admission.** Producers never exceed the budget; jobs that are put back can, because the
  policy is not asked (`BacklogIsBounded`, `GivingBackIgnoresTheBudget`).
* **Idempotency.** Keys find jobs of their own lane in all runs exactly if no two lanes in use
  are nested around a NUL byte; otherwise a key can get the job of another lane
  (`KeysNeedLanesApart`, `NestedLaneGetsAnothersJob`).
* **Effects.** All calls for one effect belong to one execution, until somebody records
  that the call never happened. From then on every later execution may call again and the
  ledger cannot record the result (`CallsShareOneEpoch`, `DeniedEntryIsStuck`). A confirmed
  entry is lost exactly to a worker that writes what it concluded from an older read
  (`ConfirmationIsLostOnlyToAStaleWriter`). An answered effect is not called again, except
  by a client that had read the entry before the answer (`AnsweredEffectIsNotCalledAgain`,
  `EarlierReaderStillCalls`).
* **Tasks.** Executions name the trimmed id of the task they were requested for. So the
  cached counters are exact in all runs if and only if no task id has white space around it
  (`CountersNeedCleanIds`), a version decides the whole aggregate if and only if no id in use
  is the trimmed form of another (`VersionsNeedIdsApart`), and a task is refused its first
  page exactly if its id has white space around it and it has executions
  (`FirstPageIsRefused`). Numbering, fencing and lifecycles hold for all ids.
* **NUL bytes.** Waitpoints of different tasks share a key exactly if the task ids are nested
  around a NUL byte (`OneWaitpointPerKey`, `NestedTasksClash`), and a retry for other work
  under a used command id can be taken for a repetition if a name holds one
  (`CommandIdIsUsedOnce`, `NulConfusesFingerprints`).
* **Scans.** All scans of a table see every row once exactly if the cursor of each row leads
  back to it (`ScansAreExact`). A subject that looks like a change cursor does not, and can
  hide rows from a scan that reports success (`ResumeIsExactForPlainSubjects`,
  `RowIsNeverSeen`); a time whose stamp does not read back sends a change walk to its
  baseline (`UnreadableStampStartsOver`).
* **Page fold.** The batched fold equals the one-by-one fold exactly on pages without a
  repeated subject (`FoldsAgreeExactly`). Walks by subject return no other pages, walks by
  change time do (`PagesHaveDistinctSubjects`). On such a page a subject can pass and keep
  the finding that the page opened (`PassedSubjectIsLiveExactly`).
* **Rules.** A reused version starts clean exactly if no evaluation writes after its version
  was deleted; otherwise it inherits the old outcomes (`ReusedVersionStartsClean`,
  `RemainsAreInherited`). A deleted version forgets the epochs of its schedule, so a lease
  whose run is over can come back to life, and only so (`DeletedVersionForgetsItsEpochs`,
  `LeaseStaysRefusedExactly`). A claim by a blank owner is accepted, but its lease cannot
  end the run (`LeasedRunIsExclusive`).

## Model

| member | source | states |
|---|---|---|
| RateLimit.TTLIsExact | internal/adapters/memory/job_store.go:360-375 | the waiting time is 0 iff a slot is free now; otherwise every earlier reservation fails and the one at that instant succeeds |
| RateLimit.WindowBounds | internal/adapters/memory/job_store.go:704-721 | after any history of attempts each window grants at most `max`, windows start at least `window` apart, and the counters describe the last one |
| RateLimit.GrantsFillTheWindows | internal/adapters/memory/job_store.go:704-721 | the grants of a history are exactly the contents of its windows in order |
| RateLimit.BurstIsBounded | internal/adapters/memory/job_store.go:704-721 | any half-open interval as long as the window holds at most 2*max - 1 grants |
| RateLimit.LimitIsNotASlidingWindow | internal/adapters/memory/job_store.go:704-721 | for every limit and every window longer than one tick some history puts exactly 2*max - 1 grants into such an interval |
| ClaimSelection.LaneShare | internal/adapters/postgres/job_store.go:445-577 | keeping ranks up to the allowance gives each lane the smaller of its demand and its allowance |
| ClaimSelection.GreedyIsRanked | internal/adapters/memory/job_store.go:313-337 | the sequential loop selects the ranked candidates within allowance and limit, in order, and leaves the counters of one reservation per lane |
| ClaimSelection.DroppingSaturatedLanes | internal/adapters/postgres/job_store.go:445-577 | leaving out lanes that are already saturated changes neither selection nor counters |
| ClaimSelection.GreedyExtends | internal/adapters/memory/job_store.go:313-337 | more candidates only append to the selection |
| ClaimSelection.GreedyStops | internal/adapters/memory/job_store.go:313-337 | further candidates change nothing iff the batch is full or all their lanes are out of slots |
| ClaimSelection.SqlIsGreedyOverLookAhead | internal/adapters/postgres/job_store.go:445-577 | the set-based statement equals the loop over the first candidateLimit unsaturated candidates |
| ClaimSelection.SqlRefinesMemory | internal/adapters/postgres/job_store.go:445-577 | PostgreSQL takes a prefix of the in-memory selection; equal jobs and counters iff the batch is full or all candidates beyond the look-ahead are out of slots |
| ClaimSelection.EnginesAgreeExactly | internal/adapters/postgres/job_store.go:445-577 | the engines agree iff the look-ahead holds enough candidates within their allowances for the batch, or uses up the allowance of every lane beyond it |
| ClaimSelection.EnginesAgreeWithinLookAhead | internal/adapters/postgres/job_store.go:414-443 | the engines agree when everything eligible fits the look-ahead of four times the batch, at most 1000 unless the batch is larger |
| ClaimSelection.BusyLaneHidesAnother | internal/adapters/postgres/job_store.go:445-577 | for every window and every batch size from 2 to 1000 a backlog in one lane makes the statement return one job where the loop returns more |
| Admission.CappedCountDecidesAlike | internal/adapters/postgres/job_store.go:211-251 | deciding on the count capped at capacity accepts, delays or rejects as the full count does |
| Admission.ReserveIsForCritical | internal/domain/admission/policy.go:78-110 | exactly within the last reservedCritical places is a critical job accepted and another not; a delaying lane never rejects |
| Jobs.ClaimOrderIsStrict | internal/adapters/memory/job_store.go:690-702 | effective priority, age and id order the candidates strictly |
| Jobs.SelectionIsLeasable | internal/adapters/memory/job_store.go:279-338 | every selected candidate is a waiting stored job, and no job is selected twice |
| ClaimAging.FifoWithinPriority | internal/domain/job/scheduling.go:38-41 | inside a priority the older job that was runnable first goes first |
| ClaimAging.BoostIsCapped | internal/domain/job/scheduling.go:42-63 | every hour of waiting earns one priority, up to five |
| ClaimAging.AgingProtectsUpToFive | internal/domain/job/scheduling.go:42-63 | a job eventually stays ahead of fresh jobs of a priority iff that priority is at most five higher |
| JobRuns.ApplyStep | internal/adapters/memory/job_store.go:105-642 | seen from any one job, every call is one of: untouched, leased, ended with an event, renewed, flagged, stopped, replayed, with every field of the record and the log after it; which one follows from the call |
| JobTimes.ClaimIsServed | internal/adapters/memory/job_store.go:285-293 | a claim is served iff it names an owner, a time, a lease and a batch of 1 to 1000 jobs from at most 256 named lanes; a refused one changes nothing |
| JobTimes.ClaimHandsOut | internal/adapters/memory/job_store.go:301-335 | every job handed out was waiting, due, in a lane asked for and not paused; it is stored as handed out, with the next epoch and attempt, its owner, and a lease of the asked length |
| JobTimes.ClaimedLeaseLasts | internal/adapters/memory/job_store.go:322-329 | in every run, through any calls that neither renew nor end it, the lease of a claim is good exactly before now + LeaseDuration, and a sweep finds it expired exactly from then on |
| JobTimes.RenewedLeaseLasts | internal/adapters/memory/job_store.go:463-476 | a renewal is granted iff the lease holds and the extension is positive; through any calls that do not disturb it the lease then lasts exactly the extension, and the answer names its end and the cancel flag |
| JobTimes.ClaimIsFair | internal/adapters/memory/job_store.go:301-337 | a ready job that is not handed out has no rate slot left in its lane, or the batch is full of jobs that come before it |
| JobTimes.ClaimLeavesTheRest | internal/adapters/memory/job_store.go:313-337 | a claim hands out distinct jobs, at most the limit, and changes no other |
| JobTimes.PausedLaneRests | internal/adapters/memory/job_store.go:431-449 | while a lane is paused no job of it is leased, old or new, whatever calls are made |
| JobWaits.WaitsUntilDue | internal/adapters/memory/job_store.go:500-642 | a job put in line by an enqueue, a release, a failure, a sweep or a replay is due at now + runAfter + delay, now, now + max(retryIn, 0), now, or the time of the request; through any calls whose claims come earlier it is not leased, and it is ready iff the claim does not come before that instant |
| JobWaits.FinishedStays | internal/adapters/memory/job_store.go:478-588 | a job that succeeded or was cancelled never changes again |
| JobWaits.CancelIsKept | internal/adapters/memory/job_store.go:566-588 | a cancelled running job is flagged and every renewal says so until a replay; a waiting or blocked one is cancelled for good |
| JobCalls.EnqueueIsExact | internal/adapters/memory/job_store.go:105-154 | a request that repeats no key is served iff it is well-formed and its lane has a place or delays; it stores one new job with exactly the fields asked for, and an overflow names backlog, places and waiting time |
| JobCalls.SettlingIsExact | internal/adapters/memory/job_store.go:478-564 | complete, release and fail are accepted iff the lease holds and the failure state is one of four; each appends one event with kind, result, failure class, reason and time, and leaves the record that event implies |
| JobCalls.ReapingIsExact | internal/adapters/memory/job_store.go:600-642 | a batch visits as many expired leases as the limit allows, 500 by default and at most 1000; each goes back to the queue at once, or is parked as poisoned at the crash that uses up its budget |
| JobCalls.ReplayingIsExact | internal/domain/recovery/recovery.go:81-100 | a replay is allowed iff the job is dead or blocked, actor, reason and time are given and no effect is pending, confirmed or uncertain; it resets state, due time, flag, reason and crash count only |
| JobCalls.ControlsTakeHold | internal/adapters/memory/job_store.go:340-449 | rate limits, admission policies and pauses are taken iff they make sense, hold at once for their lane and touch no other |
| JobTheorems.AttemptLogIsExact | internal/adapters/memory/job_store.go:646-650 | in every reachable state the log is one claim and one end per epoch 1..LeaseEpoch in order, the last end missing iff leased, sequence numbers increasing, Attempts equal to LeaseEpoch minus releases |
| JobTheorems.EpochSettlesOnce | internal/adapters/memory/job_store.go:478-564 | two ending events of one epoch are the same event |
| JobTheorems.OverStaysOver | internal/adapters/memory/job_store.go:654-672 | an epoch that is over stays over through any later calls |
| JobTheorems.StaleLeaseIsRefused | internal/adapters/memory/job_store.go:654-672 | a lease of an epoch that is over is refused by renew, complete, release and fail and changes nothing, at any time and after any calls |
| JobTheorems.SettledLeaseIsSpent | internal/adapters/memory/job_store.go:478-564 | a lease that settled its epoch cannot settle anything again |
| JobTheorems.CrashCountIsExact | internal/adapters/memory/recovery_store.go:154-163 | CrashCount equals the lease expiries in the log since the last replay |
| JobTheorems.NoRunnableJobIsPoisoned | internal/adapters/memory/job_store.go:600-642 | with one crash budget in force no waiting or leased job has reached it |
| LaneTheorems.StepIsAHistory | internal/adapters/memory/job_store.go:279-338 | only claims spend slots of a lane, and exactly as many as they lease |
| LaneTheorems.LaneRateIsBounded | internal/adapters/memory/job_store.go:313-337 | over any run with claim times in order, leases of a lane fall into windows of at most max, and any interval of a window's length sees at most 2*max - 1 |
| LaneTheorems.EnqueueRespectsCapacity | internal/adapters/memory/job_store.go:122-135 | an accepted enqueue adds one job to its lane and, unless overflow is delayed, stays within the share its class may use |
| LaneTheorems.BacklogIsBounded | internal/domain/admission/policy.go:94-110 | in reject mode the backlog of a lane exceeds MaxPending over any run by at most the number of jobs put back |
| LaneTheorems.GivingBackIgnoresTheBudget | internal/adapters/memory/job_store.go:500-642 | releases, retries, sweeps and replays put back exactly the jobs they are meant to, whatever the lane's policy says, and the backlog grows by their number |
| EnqueueTheorems.BatchIsAllOrNothing | internal/adapters/memory/job_store.go:70-103 | a failed batch leaves the store as it was, a successful one equals its enqueues in order; it fails iff its size or one input is refused in its turn |
| EnqueueTheorems.ScopesCollide | internal/adapters/memory/job_store.go:730-732 | two lanes share a scope for some keys iff one followed by NUL is a prefix of the other |
| EnqueueTheorems.IndexIsExact | internal/adapters/memory/job_store.go:105-154 | in every reachable state the index holds exactly the keyed jobs, each under its own scope |
| EnqueueTheorems.EntriesAreForever | internal/adapters/memory/job_store.go:105-154 | an index entry never changes or disappears |
| EnqueueTheorems.RepeatedKeyReturnsTheFirstId | internal/adapters/memory/job_store.go:105-111 | a repeated key returns the first id and changes nothing, after any calls |
| EnqueueTheorems.KeysNeedLanesApart | internal/adapters/memory/job_store.go:105-154 | every accepted enqueue, in all runs over a set of lanes, answers with a job of that lane and that key iff no two lanes of the set are nested around NUL |
| EnqueueTheorems.NestedLaneGetsAnothersJob | internal/adapters/memory/job_store.go:105-111 | where two scopes coincide, a key presented on one lane gets the job enqueued on the other |
| JobStores.JobStore.Enqueue | internal/adapters/memory/job_store.go:58-154 | new state and answer are those of `Jobs.Enqueue`, and ids stay consistent |
| JobStores.JobStore.EnqueueBatch | internal/adapters/memory/job_store.go:70-103 | the loop with its roll-back does what `Jobs.EnqueueBatch` says |
| JobStores.JobStore.PendingCount | internal/adapters/memory/job_store.go:674-682 | the loop returns the number of waiting jobs of the lane |
| JobStores.JobStore.ReserveRateSlot | internal/adapters/memory/job_store.go:704-721 | grant and new counters are those of `RateLimit.ReserveSlot` |
| JobStores.JobStore.Claim | internal/adapters/memory/job_store.go:279-338 | collecting, sorting and leasing in place leaves the state, log, counters and leased records of the greedy selection; every job handed out was ready and is leased for the asked time |
| JobStores.JobStore.RenewLease | internal/adapters/memory/job_store.go:463-476 | extends the lease of the live execution to now plus the extension, or refuses and changes nothing |
| JobStores.JobStore.Complete | internal/adapters/memory/job_store.go:478-498 | settles the live execution with its event or refuses and changes nothing |
| JobStores.JobStore.ReleaseLease | internal/adapters/memory/job_store.go:500-525 | gives the attempt back, due at once, with its event or refuses and changes nothing |
| JobStores.JobStore.Fail | internal/adapters/memory/job_store.go:527-564 | records the failure transition, due after its delay, with its event or refuses and changes nothing |
| JobStores.JobStore.RequestCancel | internal/adapters/memory/job_store.go:566-588 | stops a waiting or blocked job and flags a leased one |
| JobStores.JobStore.RequeueExpired | internal/adapters/memory/job_store.go:600-642 | reaps distinct expired leases up to the limit, names their epochs, counts as blocked exactly those whose job had used up the crash budget and as requeued the rest, and is saturated iff the limit was reached |
| JobStores.JobStore.Replay | internal/adapters/memory/recovery_store.go:120-166 | resets an allowed job and its crash count or refuses and changes nothing |
| JobStores.JobStore.QueueRateLimitTTL | internal/adapters/memory/job_store.go:360-375 | returns the exact waiting time of the lane |
| JobStores.JobStore.NextQueueRateLimitTTL | internal/adapters/memory/job_store.go:379-405 | returns the least positive waiting time of the lanes, or 0 |
| JobStores.JobStore.SetQueueRateLimit | internal/adapters/memory/job_store.go:340-348 | stores a valid limit with a fresh window, refuses others |
| JobStores.JobStore.SetQueueAdmission | internal/adapters/memory/job_store.go:407-419 | stores a valid normalized policy, refuses others |
| Reaper.Sweep | internal/runtime/lease/reaper.go:112-149 | every named lease is reaped once and its effects are marked; blocked and requeued count the jobs with and without crashes left; unsaturated means no expired lease is left, saturated means full batches used up the sweep's time |
| Reaper.PatientSweepDrains | internal/runtime/lease/reaper.go:112-149 | a sweep that allows for as many leases as had expired is not cut short |
| Reaper.BatchDrains | internal/adapters/memory/job_store.go:600-642 | each batch reduces the expired leases by its size, and a batch that is not full leaves none |
| Reaper.SweepGivesBack | internal/adapters/memory/job_store.go:600-642 | a sweep gives every lease it names back, due at once, or parks the job at its last crash, and changes no other job |
| Reaper.SweepSparesTheLiving | internal/adapters/memory/effect_store.go:119-145 | a sweep makes an entry uncertain iff it is pending at or below a reaped epoch of its job and changes no other; jobs that hold a lease are untouched |
| EffectLedger.NewestEpochDecides | internal/adapters/memory/effect_store.go:119-145 | comparing with the newest dead epoch per job decides the SQL disjunction over pairs |
| EffectLedger.MarkPendingComposes | internal/adapters/postgres/effect_store.go:250-269 | marking batch after batch is marking once for all of them |
| EffectStores.EffectStore.BeginEffect | internal/adapters/memory/effect_store.go:39-58 | opens an entry with the lease's epoch, returns the existing one, or refuses and changes nothing |
| EffectStores.EffectStore.SaveEffect | internal/adapters/memory/effect_store.go:106-117 | overwrites an existing entry except for the epoch that opened it |
| EffectStores.EffectStore.ConfirmEffect | internal/adapters/memory/effect_store.go:96-104 | saves for a live execution only |
| EffectStores.EffectStore.MarkPendingUncertain | internal/adapters/memory/effect_store.go:119-145 | downgrades exactly the orphaned pending entries and returns their number |
| EffectProtocol.CallsShareOneEpoch | pkg/rhinoq/effect.go:142-253 | in every interleaving all provider calls let through for one key carry one epoch, unless the key was recorded as not happened |
| EffectProtocol.OpenedCallIsOk | pkg/rhinoq/effect.go:173-207 | a call that is let through has the epoch its entry carries, however old the read was |
| EffectProtocol.EntriesNeverReopen | internal/adapters/memory/effect_store.go:39-145 | an entry is never deleted, keeps its epoch, and never returns to pending |
| EffectProtocol.AnsweredEffectIsNotCalledAgain | pkg/rhinoq/effect.go:185-197 | in every interleaving, once an entry is confirmed or uncertain and nobody is between reading and opening it, no call for it is let through again at any epoch, unless it is recorded as not happened |
| EffectProtocol.EarlierReaderStillCalls | pkg/rhinoq/effect.go:173-207 | a client that read the entry before the answer, under a lease that still holds, is let through after it |
| EffectProtocol.CalledJobIsNotReplayed | internal/domain/recovery/recovery.go:81-100 | a job that called a provider cannot be replayed unless the call was denied |
| EffectProtocol.StaleExecutionLeavesTheLedger | internal/adapters/postgres/effect_store.go:76-105 | begin and confirm with a lease whose epoch is over are refused and change nothing, after any calls |
| EffectProtocol.TokensStayIssued | pkg/rhinoq/worker_api.go:330-332 | a token once handed out is never ahead of its job's epoch |
| EffectProtocol.CleanUpSparesTheRunning | pkg/rhinoq/worker_api.go:266-307 | cleaning up after executions that are over leaves the entries of the running one |
| EffectProtocol.DeniedEntryIsStuck | internal/domain/effect/record.go:118-146 | after a not-happened record the next call is let through and neither its success nor its doubt changes the ledger |
| EffectProtocol.ConfirmationIsLostOnlyToAStaleWriter | pkg/rhinoq/effect.go:210-253 | a step unconfirms an entry iff it writes an unknown result read as pending, or a denial under a live lease |
| EffectProtocol.WebhookConfirmationCanBeLost | pkg/rhinoq/effect.go:269-290 | a timed-out worker that read before the webhook turns the confirmed entry uncertain |
| EffectClients.Begin | pkg/rhinoq/effect.go:173-207 | read, decision and fenced insert are the two opening steps of the protocol; a call is let through iff name and key are given, the lease holds, and there is no entry, or one that did not happen or was rejected, or one this execution left pending |
| EffectClients.Resolve | pkg/rhinoq/effect.go:210-253 | the three outcomes leave the ledger of the two resolving steps: a denial and a proven success only under a live lease, doubt and success only over a pending entry |
| EffectClients.SignalConfirmed | pkg/rhinoq/effect.go:269-290 | a webhook confirms iff the entry is pending, with its reference and without a lease |
| EffectClients.ConfirmedOnProofOnly | internal/application/effect/service.go:37-56 | a successful call is confirmed iff its policy confirms on return or the reference is the completed status; otherwise nothing is written |
| Tasks.NextAttemptIsUnique | internal/adapters/memory/task_store.go:250-255 | one past the highest attempt number is well defined |
| TaskRuns.TakeMakes | internal/adapters/memory/task_store.go:52-322 | every step of every interleaving is one of seven changes, each raising the version of the task it touches |
| TaskTheorems.CountersAreExact | internal/adapters/memory/task_store.go:263-341 | with clean ids each counter equals the number of the task's executions in that state, the total is their sum, and every execution is filed under its number |
| TaskTheorems.AttemptsAreNumbered | internal/adapters/memory/task_store.go:234-273 | in every run, whatever the ids, the attempts filed under a task are numbered 1..total, each under its own number |
| TaskTheorems.UncleanIdMiscounts | internal/domain/execution/record.go:95-121 | every id with white space around it miscounts after one execution |
| TaskTheorems.CountersNeedCleanIds | internal/contracts/task/snapshot.go:100-106 | the counters are exact in all runs over a set of ids iff all ids are clean |
| TaskTheorems.SameVersionSameAggregate | internal/adapters/memory/task_store.go:52-322 | if no id in use is an untrimmed double of another, then later in a run the version is not lower, and an equal version means the same task, executions and waitpoints |
| TaskTheorems.DoubleHidesAChange | internal/domain/execution/record.go:95-121 | with a task and any untrimmed double of it, an execution requested for the double appears under the task while its version stays |
| TaskTheorems.VersionsNeedIdsApart | internal/adapters/memory/task_store.go:234-273 | versions decide the aggregate in all runs over a set of ids iff no id's trimmed form is another id of the set |
| TaskTheorems.CommandSawTheTruth | internal/application/tasks/service.go:220-330 | in any run over any ids a task command changes the store only if the record it was computed from is the stored one |
| TaskTheorems.RepeatedRetryReplays | internal/adapters/memory/task_store.go:146-198 | a retry command that went through is answered with its first result and changes nothing, ever after |
| TaskLifecycles.NothingIsUndone | internal/domain/task/record.go:138-166 | in any run over any ids progress never goes back and a known total never changes, finished executions stay as they ended, bound ones keep their reference, answered waitpoints are never touched again |
| TaskLifecycles.CancellationFitsTheState | internal/domain/task/record.go:110-136 | in every reachable state the cancellation status fits the task's state, and progress is within its total |
| TaskLifecycles.AnswerOrExpiry | internal/domain/waitpoint/record.go:72-103 | with a deadline a waiting waitpoint can be answered strictly before it and expired from then on; a repeated answer is the same answer |
| ExecutionRecords.Cut | internal/domain/execution/record.go:194-202 | the longest prefix of at most so many UTF-8 characters, never cut inside one |
| TaskStores.TaskStore.CreateTask | internal/adapters/memory/task_store.go:200-211 | stores a new task of version 1 or refuses |
| TaskStores.TaskStore.UpdateTask | internal/adapters/memory/task_store.go:220-232 | swaps in the next version or refuses and changes nothing |
| TaskStores.TaskStore.NextNumber | internal/adapters/memory/task_store.go:250-255 | the loop finds one past the highest attempt number |
| TaskStores.TaskStore.CreateNextExecution | internal/adapters/memory/task_store.go:234-273 | files an execution under the next number and counts it in its task, or refuses |
| TaskStores.TaskStore.UpdateExecution | internal/adapters/memory/task_store.go:293-322 | swaps in the next version, moves the counters and raises the task's version, or refuses |
| TaskStores.TaskStore.RetryTask | internal/adapters/memory/task_store.go:146-198 | queues the task with a fresh execution, replays a known command, or refuses |
| TaskStores.TaskStore.CreateWaitpoint | internal/adapters/memory/task_store.go:52-77 | creates, returns the identical earlier one, or refuses |
| TaskStores.TaskStore.UpdateWaitpoint | internal/adapters/memory/task_store.go:96-120 | swaps in the next version and raises the task's, repeats a known resolution, or refuses |
| TaskStores.TaskStore.ListTaskExecutionsPage | internal/adapters/memory/task_store.go:359-393 | collecting, sorting and cutting yields the page past the cursor and whether more follows |
| TaskServices.ChangeTask | internal/application/tasks/service.go:220-330 | read, check, compute and swap of a task command, with answer and stored record fixed in every case without the transition code: a move succeeds iff it is in the table and stores that state with the cancellation status of the pair; progress, result, status and reason are stored as reported |
| TaskServices.ChangeExecution | internal/application/tasks/execution.go:113-171 | read, check, compute and swap of an execution command, likewise: a move succeeds iff it is in the table and the execution is bound or cancelled; reference, output and failure reason are stored trimmed, the reason cut at 512 characters |
| TaskServices.TaskAnswerIsRight | internal/domain/task/record.go:110-190 | for every record, version, command and time the answer is the one described by the tables |
| TaskServices.ExecutionAnswerIsRight | internal/domain/execution/record.go:125-192 | the same for executions |
| TaskCommands.CreationIsExact | internal/domain/task/record.go:92-108 | a task is created iff it has id, kind, definition and time, pending and empty |
| TaskLifecycles.MovesFollowTheTables | internal/domain/task/state.go:34-46 | in every run, with any stale reads, tasks and executions change state only along their tables |
| TaskLifecycles.StoredRecordsAreValid | internal/domain/task/record.go:192-202 | in every run with clean ids every stored task and execution passes the validity check that all commands make first |
| TaskLifecycles.TaskFollowsItsChildren | internal/adapters/memory/task_store.go:293-322 | whenever an execution or waitpoint changes, its task goes one version up and is as recent as the later of the two |
| TaskRetries.RetryIsExact | internal/adapters/memory/task_store.go:146-198 | a new retry command goes through iff it is complete and the task, at that version, is pending, failed or cancelled; it stores the queued task, a fresh attempt under the next number and its own answer |
| TaskRetries.CommandIdIsUsedOnce | internal/adapters/memory/task_store.go:150-158 | after any calls a retry under a used command id for another task, execution or piece of work is refused, if the names hold no NUL byte |
| TaskRetries.FingerprintTellsApart | internal/adapters/memory/task_store.go:150 | for names without NUL bytes the fingerprinted texts are equal iff runtime, queue, job and payload are |
| TaskRetries.NulConfusesFingerprints | internal/adapters/memory/task_store.go:150 | with a NUL byte two different pieces of work share a text |
| TaskWaits.WaitIsExact | internal/domain/waitpoint/record.go:60-70 | a waitpoint is created iff its names, kind, schema and time are given and its deadline is still to come |
| TaskWaits.AnswerIsExact | internal/domain/waitpoint/record.go:72-114 | a waitpoint takes an answer iff it waits and the answer is complete, in time and, except for expiry, for the current version; the stored answer is the one given |
| TaskWaits.AnsweringAgainIsHarmless | internal/adapters/memory/task_store.go:96-120 | storing an answer that is already there succeeds and changes nothing |
| TaskWaits.OneWaitpointPerKey | internal/adapters/memory/task_store.go:50-77 | in every run whose task ids are not nested around NUL there is one waitpoint per task and key; creating it again returns it or reports a conflict, and creating another succeeds |
| TaskWaits.NestedTasksClash | internal/adapters/memory/task_store.go:50-77 | of two task ids nested around NUL some waitpoint of the one makes some waitpoint of the other impossible |
| ExecutionPages.WalkIsSorted | internal/adapters/memory/task_store.go:374-393 | following cursors goes forward in strict (CreatedAt, ID) order |
| ExecutionPages.PageIsExact | internal/adapters/memory/task_store.go:374-393 | a page is ordered by creation time and id, holds at most the limit, and names a next page iff an execution past the cursor is not on it |
| ExecutionPages.FinishedWalkReturnsAll | internal/adapters/memory/task_store.go:359-393 | a finished walk over growing sets returned every key present at its start |
| ExecutionPages.WalkFinishes | internal/application/tasks/service.go:202-205 | the walk ends after at most as many pages as there are executions, plus one |
| ExecutionPages.FollowIsWalk | internal/application/tasks/service.go:155-206 | for a task with a clean id a client following the service's cursors makes that walk, whatever other ids are in the store |
| ExecutionPages.EveryExecutionOnce | internal/application/tasks/service.go:155-206 | over any growing chain of stores, following the cursors of a clean task returns every execution present at the start, none twice, in order, and ends |
| ExecutionPages.PagingReturnsEveryExecutionOnce | internal/application/tasks/service.go:155-206 | in every interleaving of commands and page requests, whatever other ids are in use, following the cursors of a clean task returns each execution present at the start once, in order, and ends |
| ExecutionPages.FirstPageIsRefused | internal/application/tasks/service.go:155-206 | in every run the first page of a task is refused iff its id has white space around it and it has executions |
| ExecutionPages.RunsAreChains | internal/adapters/memory/task_store.go:234-322 | the stores met between the pages of any interleaving satisfy the hypotheses of `EveryExecutionOnce` |
| Scan.ChangeCursorReadsBack | internal/domain/rule/rule.go:419-442 | a change cursor whose stamp reads back decodes to the time and subject it was made from, whatever the subject contains |
| Scan.EvaluateRows | internal/adapters/postgres/rule_evaluator.go:117-212 | the row loop accepts a page iff every row is valid and in strict cursor order, and returns its observations, next cursor and whether more may follow |
| Scan.ScanComposes | pkg/rhinoq/integrity.go:356-406 | a scan of n pages resumed for m pages is a scan of n+m pages |
| Scan.ScanPages | pkg/rhinoq/integrity.go:356-406 | the page loop does that scan, and its counters partition the observations by status |
| Scan.ScanTable | pkg/rhinoq/integrity.go:319-407 | budget and argument checks, the default budget, the single-subject scan, and the refusal of a Rule for jobs without a subject |
| ScanTheorems.ScanSeesTheRest | pkg/rhinoq/integrity.go:356-406 | a scan folds exactly the next budget*maxRows rows once and in order, and reports more iff that many were there, if the cursors of the rows that can end a page lead back |
| ScanTheorems.CompletedScanSeesEveryRow | internal/adapters/postgres/rule_evaluator.go:205-211 | if the cursor of each row leads back to it, a scan that runs to its end has folded every row past its cursor, also when the row count is a multiple of the page size |
| ScanTheorems.ScansAreExact | pkg/rhinoq/integrity.go:356-406 | for ordered rows past the start all scans, with every page size and budget, see each row once and in order iff the cursor of each row leads back to it |
| ScanTheorems.SubjectScansAreExact | internal/adapters/postgres/rule_evaluator.go:192-211 | the same for all tables of a subject walk |
| ScanTheorems.PlainRowLeadsBack | internal/domain/rule/rule.go:419-442 | a row leads back if its subject does not look like a change cursor, or in a change walk if its time is set and its stamp reads back |
| ScanTheorems.VerdictsAreCounted | internal/adapters/postgres/rule_evaluator.go:152-165 | passed, violated and unknown count the rows with that verdict and partition the page; an undecided row is never a pass and always has a reason |
| ScanTheorems.ResumeIsExactForPlainSubjects | internal/domain/rule/rule.go:429-442 | resuming after a subject is exact on all tables iff the subject does not look like a change cursor |
| ScanTheorems.RowIsNeverSeen | internal/adapters/postgres/rule_evaluator.go:48 | a subject that looks like a cursor can make a successful scan skip a row |
| ScanTheorems.UnreadableStampStartsOver | internal/domain/rule/rule.go:429-442 | a stamp that does not read back sends a change walk to the baseline: its page is folded twice and the scan fails |
| FoldTheorems.PageFoldIsOneByOne | internal/application/rules/service.go:206-310 | for distinct subjects the three-phase fold succeeds iff the one-by-one fold does, with the same outcomes, findings, history and changes |
| FoldTheorems.SkippedPass | internal/application/rules/service.go:286-307 | skipping a pass without a live finding is invisible |
| FoldTheorems.RepeatedSubjectIsCountedOnce | internal/application/rules/service.go:223-245 | of a page's inconclusive observations of a new subject the page fold counts one and the one-by-one fold all, on any page and state |
| FoldTheorems.FoldsAgreeExactly | internal/application/rules/service.go:206-310 | the two folds agree on all states, Rules, times and pages with a given list of subjects iff the subjects differ or one of them is invalid |
| FoldTheorems.PagesHaveDistinctSubjects | internal/adapters/postgres/rule_evaluator.go:175-191 | every page the evaluator accepts has distinct subjects iff the Rule does not walk by change time |
| FoldTheorems.ObservedTimesNeverDecrease | internal/adapters/memory/subject_outcome_store.go:75-94 | LastObservedAt never decreases, also when the fold fails halfway |
| FoldTheorems.StaleObservationTouchesNothing | internal/application/rules/service.go:247-252 | an observation older than its subject's outcome changes neither outcome nor finding nor history |
| EvaluationTheorems.PassedSubjectIsLiveExactly | internal/application/rules/service.go:254-307 | after a successful fold a subject whose latest observation passed has a live finding iff it had none before and the page itself reports drift of it |
| EvaluationTheorems.FoldIsItsCalls | internal/application/rules/service.go:254-307 | a successful fold does to the findings what its calls do in turn: drift is sighted with its evidence, lasting doubt with its explanation, a pass of a live finding resolves it, all for the subjects that are not outdated |
| EvaluationTheorems.ChangedSubjectPassesAndStaysOpen | internal/application/rules/service.go:286-307 | a page a change walk accepts leaves a passing outcome with a live finding |
| FindingTheorems.HistoryExplainsTheFinding | internal/domain/finding/finding.go:169-320 | after any sightings, passes and decisions each finding equals its history: status, number and times of sightings, latest evidence, last word, end of the dismissal in force, time of resolution; events are lawful, and a sighting opens a dismissed finding iff the dismissal had ended |
| FindingTheorems.DismissalEndsOnTime | internal/domain/finding/finding.go:191-203 | through any sightings before its end a dismissed finding keeps status and end, and the next sighting opens it iff it comes at the end or later |
| FindingTheorems.CallIsRecorded | internal/domain/finding/finding.go:169-320 | a sighting is taken iff it is proper, a pass iff the finding is not resolved, a decision iff it is in the table, by a named actor, with end and reason where they are due; what is taken adds one event to its history, all else changes nothing |
| EvaluationTheorems.HistoriesExplainTheFindings | internal/application/rules/service.go:187-311 | the same in every run of registrations, evaluations, decisions and deletions |
| FindingTheorems.StreakIsExact | internal/domain/subjectoutcome/outcome.go:42-87 | a subject's outcome is its latest sample, with its reason and evidence, and its unknown count and first unknown time are those of the inconclusive samples at the end of its history |
| EvaluationTheorems.StoredStreakIsExact | internal/adapters/memory/subject_outcome_store.go:75-94 | in every run the stored outcome is the latest sample applied, and its streak and its escalation are those of the inconclusive samples at the end of the ones applied since the version was last deleted |
| FindingTheorems.EscalationMeansLastingDoubt | internal/domain/subjectoutcome/outcome.go:89-92 | an unknown is escalated iff every sample for at least the grace period was inconclusive |
| FoldStores.OutcomeStore.SaveSubjectOutcome | internal/adapters/memory/subject_outcome_store.go:37-52 | saves unless outdated and says which |
| FoldStores.OutcomeStore.GetSubjectOutcomes | internal/adapters/memory/subject_outcome_store.go:57-73 | returns the stored outcome of every subject of the page that has one |
| FoldStores.OutcomeStore.SaveSubjectOutcomes | internal/adapters/memory/subject_outcome_store.go:75-94 | saves the batch in order and returns the applied subjects; an invalid key ends the batch, and what came before it stays saved |
| FoldStores.OutcomeStore.CountRuleOutcomes | internal/adapters/memory/subject_outcome_store.go:99-109 | counts the outcomes of a Rule version |
| FoldStores.OutcomeStore.DeleteRuleOutcomes | internal/adapters/memory/subject_outcome_store.go:111-122 | removes exactly the outcomes of a Rule version |
| FoldStores.FindingStore.ObserveFinding | internal/adapters/memory/finding_store.go:30-54 | opens, counts or regresses a finding, reopens it iff its dismissal has ended, and appends its event, or refuses |
| FoldStores.FindingStore.ObserveFindingPass | internal/adapters/memory/finding_store.go:56-80 | resolves a live finding with its event, otherwise nothing |
| FoldStores.FindingStore.TransitionFinding | internal/adapters/memory/finding_store.go:82-111 | applies an allowed operator decision with its event or refuses and changes nothing |
| FoldStores.FindingStore.CountRuleFindings | internal/adapters/memory/finding_store.go:208-220 | counts the findings of a Rule version and their events |
| FoldStores.FindingStore.DeleteRuleFindings | internal/adapters/memory/finding_store.go:222-235 | removes exactly the findings of a Rule version and their history |
| FoldStores.EvaluateRecord | internal/application/rules/service.go:187-311 | the three loops over the stores leave the state and the result of `PageFold.FoldPage`, except that an invalid key is reported before any other error |
| RuleTheorems.AtMostOneVersionIsEnabled | internal/adapters/memory/rule_store.go:162-198 | in every run at most one version of a Rule is enabled |
| RuleTheorems.DryRunForetellsTheDeletion | internal/adapters/memory/rule_store.go:203-272 | a dry run changes nothing and reports to the number what the applied call removes; all else stays, nothing of the deleted versions is left |
| RuleCalls.DeletionIsExact | internal/adapters/memory/rule_store.go:203-272 | a deletion is refused iff the request is malformed, covers no version, covers an enabled one, or covers findings that are not to be purged, in that order; it removes exactly the versions it covers |
| RuleCalls.SavingIsExact | internal/adapters/memory/rule_store.go:60-77 | a version is saved iff it is valid and new |
| RuleCalls.NextVersionIsNew | internal/application/rules/service.go:48-67 | the next version is 1 or one past the latest, and free |
| RuleCalls.ExplainingIsExact | internal/adapters/memory/rule_store.go:274-292 | an explanation is stored iff its version exists |
| RuleCalls.StatusIsExact | internal/adapters/memory/rule_store.go:162-198 | a status takes hold of its version, enabling disables the enabled one of the same Rule, nothing else changes; a table Rule is due from the instant it is enabled unless a run is leased |
| RuleCalls.ClaimOfRunsIsServed | internal/adapters/memory/rule_store.go:309-322 | a claim of runs is served iff it names an owner, a time, a lease and 1 to 100 runs |
| RuleCalls.ClaimedRunsAreDue | internal/adapters/memory/rule_store.go:323-351 | every lease handed out is on an enabled table Rule whose time has come and whose lease ran out, with the next epoch, the cursor and its own end |
| RuleCalls.DueRunsAreClaimed | internal/adapters/memory/rule_store.go:323-351 | a due run is handed out, or the claim is full of Rules whose ids come before |
| RuleCalls.EndingIsExact | internal/adapters/memory/rule_store.go:353-402 | a run is ended iff by the valid lease that holds it, with a cursor or a delay where one is due; it frees the schedule and sets cursor and next time |
| RuleTheorems.ReusedVersionStartsClean | internal/application/rules/service.go:171-185 | throughout a run nothing is kept for a version that does not exist iff no evaluation of the run has something to write for a version that is gone |
| ScheduleTheorems.RemainsAreInherited | internal/application/rules/service.go:171-185 | in a run that registers and enables a version, disables and deletes it, writes a page read before and registers it again, the new version owns the outcomes of the old one |
| ScheduleTheorems.EndedRunIsRefused | internal/adapters/memory/rule_store.go:386-402 | the lease of a run that is over is refused and changes nothing through any calls that do not in fact delete the version |
| ScheduleTheorems.EndingARunSettlesIt | internal/adapters/memory/rule_store.go:353-384 | advancing, completing or failing a run uses up its lease |
| ScheduleTheorems.NextRunIsDueExactly | internal/adapters/memory/rule_store.go:353-384 | an ended run of an enabled version is due again exactly from its follow-up time on, with the cursor of the next page, the retry, or the beginning, through any calls up to then that neither delete nor enable the version |
| ScheduleTheorems.LeasedRunIsExclusive | internal/adapters/memory/rule_store.go:309-351 | in every run, from a claim until its lease runs out no claim hands out the version again, through any calls that neither end the run nor delete the version; until then the lease can end its run iff its owner is not blank |
| ScheduleTheorems.DeletedVersionForgetsItsEpochs | internal/adapters/memory/rule_store.go:255-272 | in a run that claims and ends, deletes the version, registers and claims it again, the lease of the first claim ends the run of the second |
| ScheduleTheorems.LeaseStaysRefusedExactly | internal/adapters/memory/rule_store.go:255-272 | a lease whose run is over is refused after all runs, with any calls but only given deletions, iff none of these is meant to remove its version |
| RuleStores.RuleStore.SaveRule | internal/adapters/memory/rule_store.go:60-77 | stores a valid new version or refuses |
| RuleStores.RuleStore.LatestVersion | internal/adapters/memory/rule_store.go:97-107 | the loop finds the highest version |
| RuleStores.RuleStore.Register | internal/application/rules/service.go:48-67 | stores the next version as a draft and never collides |
| RuleStores.RuleStore.SaveRuleExplanation | internal/adapters/memory/rule_store.go:274-292 | stores the explanation of an existing version only |
| RuleStores.RuleStore.SetRuleStatus | internal/adapters/memory/rule_store.go:162-198 | sets the status, disables the other versions when enabling, and schedules a table Rule |
| RuleStores.RuleStore.DeleteRule | internal/adapters/memory/rule_store.go:203-272 | counting and removing version by version gives the report and the state of `Rules.DeleteRule` |
| RuleStores.RuleStore.ClaimDueRules | internal/adapters/memory/rule_store.go:309-351 | leases the due Rules in id order up to the limit, each with the next epoch |
| RuleStores.RuleStore.EndRun | internal/adapters/memory/rule_store.go:386-402 | ends the current run or refuses and changes nothing |

## Left out

- Where documentation and code differ the model follows the code: aging is capped although low priority work is said not to starve, a not-happened effect may be called again, a reused Rule version is clean only without overlapping evaluations, and the in-memory and PostgreSQL claims differ past the look-ahead.
- The in-memory effect store checks the lease before it takes its own lock; the model makes check and write one step, as the PostgreSQL statement does.
- PostgreSQL admits before it looks up an idempotency key; the model has the in-memory order and does not compare the two.
- Effects, outcomes, findings and Rule versions are keyed by their fields instead of the strings joined from them, and a Rule's versions are kept in one map instead of nested maps; idempotency scopes and waitpoint keys are kept as joined strings.
- EffectProtocol.CallsShareOneEpoch: covers entries of RhinoQ jobs; effects recorded for executions that another system ran have no lease to fence.
- Reaper.Sweep: the sweep's deadline is a number of batches, and the clock stands still during a sweep.
- JobStores.JobStore.Replay: the hash-chained audit record is not modelled, and the effects consulted are passed in; `EffectProtocol` passes the ledger's own.
- JobStores.JobStore.Claim: effective priority is compared exactly where the source uses floating point.
- TaskStores.TaskStore.RetryTask: the fingerprint is the fingerprinted text itself, JSON validity of the payload is a flag of the input, and the durable dispatch row is not modelled.
- TaskStores.TaskStore.CreateNextExecution: a refused request leaves no empty attempt map behind, and trace contexts are not modelled.
- TaskRuns.TakeMakes: the owner check on waitpoints and the size and JSON checks on their resolutions are not modelled.
- ExecutionPages.FollowIsWalk: the encoding of the cursor and the validation of the rendered page are not modelled; a cursor is the id it carries.
- Scan.EvaluateRows: column matching, statement settings and the transaction are not modelled; the rows are what the query returned.
- Scan.ScanTable: cancellation between pages and the requirement that a Rule accepts a subject filter are not modelled; rendering and parsing of time stamps are parameters.
- FoldStores.EvaluateRecord: the rendering of unknown evidence is a parameter.
- RuleStores.RuleStore.SaveRule: the checks of name, query text and query budgets are one flag of the record.
- RuleStores.RuleStore.DeleteRule: the report holds the versions as a set instead of a sorted list.
- Trimming and white space are modelled for single-byte characters, and cutting a failure reason for text that is valid UTF-8.
- Listing and counting queries and the attention inbox: they read the stores and change nothing, and no operation that is modelled depends on them.
- Provider operations, repairs, notifications, outbox and webhook senders, retention, schedulers and worker loops: outside the four components.
- Authorization, command line, HTTP, SDKs and user interfaces: outside the four components.
