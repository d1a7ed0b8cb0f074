/**
 When the queue serves a call and what the call then records, written out field by
 field: enqueuing, settling and reaping.
 */
module JobCalls {
  import opened Basics
  import opened Jobs
  import opened JobRuns
  import opened JobTheorems
  import opened JobWaits
  import opened LaneTheorems
  import opened RateLimit
  import Admission
  import EffectRecords

  // ------------------------------------------------------------------- enqueue

  /** The lane's policy, if it has one, has a place for the job or holds it back. */
  ghost predicate Admitted(s: Store, input: EnqueueInput) {
    var lane := Trim(input.lane);
    lane in s.admission ==>
      var policy := s.admission[lane];
      || policy.onOverflow == Admission.Delay
      || |Backlogged(s.jobs, lane)|
         < policy.maxPending - if input.resourceClass == "critical" then 0 else policy.reservedCritical
  }

  /** The request is well-formed. */
  ghost predicate Sound(input: EnqueueInput) {
    && 1 <= |Trim(input.lane)| <= 128 && 1 <= |Trim(input.jobName)| <= 128 && |Trim(input.groupKey)| <= 128
    && input.resourceClass in {"", "critical", "interactive", "standard", "batch", "maintenance"}
    && input.payloadBytes.Some? && input.payloadBytes.value <= 1_048_576
    && input.now != ZERO_TIME && input.runAfter >= 0 && -100 <= input.priority <= 100
  }

  /** A new job is exactly what was asked for. */
  ghost predicate AsAsked(s: Store, input: EnqueueInput, job: Job) {
    && job.lane == Trim(input.lane) && job.jobName == Trim(input.jobName) && job.groupKey == Trim(input.groupKey)
    && job.resourceClass == (if input.resourceClass == "" then "standard" else input.resourceClass)
    && job.priority == input.priority && job.idempotencyKey == input.idempotencyKey
    && job.createdAt == input.now && job.notBefore == EnqueuedFor(s, input)
    && job.state == Pending && job.attempts == 0 && job.crashCount == 0 && job.leaseEpoch == 0
    && job.blockedReason == "" && job.leaseOwner == "" && job.leaseUntil == ZERO_TIME && !job.cancelRequested
  }

  /** What a producer is told of a full lane: how long the line is, how long it may be and
      when to come back, after thirty seconds unless configured otherwise. */
  ghost predicate Overflow(s: Store, input: EnqueueInput, error: JobError)
    requires Trim(input.lane) in s.admission && error.OverCapacity?
  {
    var policy := s.admission[Trim(input.lane)];
    && error.pending == |Backlogged(s.jobs, Trim(input.lane))|
    && error.capacity == policy.maxPending - (if input.resourceClass == "critical" then 0 else policy.reservedCritical)
    && error.retryAfter == if policy.retryAfter > 0 then policy.retryAfter else 30_000_000_000
  }

  ghost predicate Repeated(s: Store, input: EnqueueInput) {
    input.idempotencyKey != "" && Scope(Trim(input.lane), input.idempotencyKey) in s.byIdem
  }

  /** A request that repeats no key is served exactly when it is well-formed and its lane
      admits it; a served request stores one new job, the one asked for, and a refused one
      nothing. */
  lemma EnqueueIsExact(s: Store, input: EnqueueInput)
    requires WellNamed(s) && !Repeated(s, input)
    ensures var (after, id) := Jobs.Enqueue(s, input);
            && (id.Ok? <==> Sound(input) && Admitted(s, input))
            && (id.Err? ==> after == s)
            && (id.Err? && id.error.OverCapacity? ==> !Admitted(s, input) && Overflow(s, input, id.error))
            && (id.Ok? ==> id.value !in s.jobs && id.value in after.jobs && after.jobs - {id.value} == s.jobs
                           && after.jobs[id.value].id == id.value && AsAsked(s, input, after.jobs[id.value]))
  {
    FreshId(s);
    hide Trim, Backlogged, WellNamed, JobIdFor;
    var (after, id) := Jobs.Enqueue(s, input);
    if id.Ok? { assert after.jobs - {id.value} == s.jobs; }
  }

  // ------------------------------------------------------------------ settling

  /** A settlement is accepted exactly from the holder of the lease, a failure only into a
      state a failure may lead to. It adds one event to the log of its job, which says what
      happened and when; the record is what the event makes of it, due when announced. */
  lemma SettlingIsExact(s: Store, lease: Lease, now: Instant, how: Settlement)
    requires WellNamed(s)
    ensures var (after, result) := SettleWith(s, lease, now, how);
            && (result.Ok? <==>
                && LeaseHolds(s, lease, now)
                && (how.Failing? ==> how.transition.state in {RetryWait, JobState.Dead, JobState.Blocked,
                                                              JobState.Cancelled}))
            && (result.Err? ==> after == s)
            && (result.Ok? ==>
                && lease.jobId in after.jobs && Log(after, lease.jobId) != []
                && var e := Last(Log(after, lease.jobId));
                   && Log(after, lease.jobId) == Log(s, lease.jobId) + [e]
                   && EndedBy(s.jobs[lease.jobId], after.jobs[lease.jobId], e) && EndsAs(e, how)
                   && e.occurredAt == now
                   && (!how.Completing? ==>
                         Announces(s, Op.Settle(lease, now, how), after.jobs[lease.jobId].notBefore)))
  {
    if LeaseHolds(s, lease, now) {
      var change := SettleStep(s, lease, now, how, lease.jobId);
    }
  }

  // ------------------------------------------------------------------- reaping

  /** An expired job as a sweep leaves it. */
  function GivenBack(job: Job, now: Instant, budget: int): Job {
    var parked := job.crashCount + 1 >= budget;
    job.(state := if parked then JobState.Blocked else RetryWait, crashCount := job.crashCount + 1,
         blockedReason := if parked then "poison_job" else job.blockedReason, notBefore := now, leaseOwner := "",
         leaseUntil := ZERO_TIME)
  }

  /** A batch of the sweep gives every lease it visits back to the queue, due at once, or
      parks the job at the crash that uses up its budget, three crashes unless configured
      otherwise. It leaves every other job alone, and it visits as many expired leases as
      its limit allows, five hundred by default and never more than a thousand. */
  lemma ReapingIsExact(s: Store, op: Op, id: JobId)
    requires IdsMatch(s) && id in s.jobs && op.Reap? && ReapsNow(s, op)
    ensures id in Apply(s, op).jobs
    ensures Apply(s, op).jobs[id] ==
            if id in op.victims then GivenBack(s.jobs[id], op.now, if op.budget <= 0 then 3 else op.budget)
            else s.jobs[id]
    ensures |op.victims| == Min(if op.limit <= 0 then 500 else Min(op.limit, 1000), |ExpiredJobs(s, op.now)|)
    ensures id in op.victims ==> LeaseExpiredAt(s.jobs[id], op.now)
  {
    ReapAllEffect(s, op.victims, op.now, CrashBudget(op.budget), id);
    hide ReapAll;
  }

  // -------------------------------------------------------------------- replay

  /** An operator may replay exactly a dead or blocked job none of whose effects is open,
      confirmed or in doubt, and has to say who asks and why. The job starts over from the
      time of the request, with a full crash budget and its attempts and epochs kept. */
  lemma ReplayingIsExact(s: Store, request: ReplayRequest, effects: set<EffectRecords.EffectState>)
    requires WellNamed(s)
    ensures var (after, result) := Jobs.Replay(s, request, effects);
            && (result.Ok? <==>
                && request.jobId in s.jobs && s.jobs[request.jobId].state in {JobState.Dead, JobState.Blocked}
                && Trim(request.actor) != "" && Trim(request.reason) != "" && request.requestedAt != ZERO_TIME
                && effects <= {EffectRecords.Rejected, EffectRecords.NotHappened})
            && (result.Err? ==> after == s)
            && (result.Ok? ==>
                && after == s.(jobs := after.jobs)
                && after.jobs == s.jobs[request.jobId :=
                     s.jobs[request.jobId].(state := Pending, notBefore := request.requestedAt, leaseOwner := "",
                                            leaseUntil := ZERO_TIME, cancelRequested := false, blockedReason := "",
                                            crashCount := 0)])
  {
    hide Trim;
    if request.jobId in s.jobs {
      var n: nat :| 1 <= n <= s.nextID && JobIdFor(n) == request.jobId;
      assert |JobIdFor(n)| >= 4;
    }
    if effects <= {EffectRecords.Rejected, EffectRecords.NotHappened} {
    } else {
      var e :| e in effects && e != EffectRecords.Rejected && e != EffectRecords.NotHappened;
    }
  }

  // ------------------------------------------------------------------ controls

  /** The controls of a named lane take hold at once, when they make sense: a rate of at
      least one job per window of at least a millisecond, a budget whose reserve leaves
      places, a pause. */
  lemma ControlsTakeHold(s: Store, lane: string, max: int, window: int, policy: Admission.Policy, pause: bool)
    ensures var (limited, done) := SetRateLimit(s, lane, max, window);
            && (done.Ok? <==> lane != "" && max >= 1 && window >= 1_000_000)
            && (if done.Ok?
                then && lane in limited.rates && Fresh(limited.rates[lane]) && limited.rates[lane].max == max
                     && limited.rates[lane].window == window && limited.rates - {lane} == s.rates - {lane}
                else limited == s)
    ensures var (budgeted, done) := SetAdmission(s, lane, policy);
            && (done.Ok? <==> lane != "" && 0 <= policy.reservedCritical < policy.maxPending
                              && policy.onOverflow != Admission.Unsupported)
            && (if done.Ok?
                then && lane in budgeted.admission && budgeted.admission[lane].maxPending == policy.maxPending
                     && budgeted.admission[lane].reservedCritical == policy.reservedCritical
                     && (policy.onOverflow != Admission.Delay ==> Rejecting(budgeted, lane, budgeted.admission[lane]))
                     && (policy.onOverflow == Admission.Delay ==>
                         budgeted.admission[lane].onOverflow == Admission.Delay)
                     && budgeted.admission - {lane} == s.admission - {lane}
                else budgeted == s)
    ensures var (paused, done) := SetPaused(s, lane, pause);
            && (done.Ok? <==> lane != "")
            && (if done.Ok? then (lane in paused.paused <==> pause) && paused.paused - {lane} == s.paused - {lane}
                else paused == s)
  {
  }
}
