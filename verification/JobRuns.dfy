/**
 Whole runs of the job queue: what every reachable state looks like.

 An `Op` is one store call with all its arguments, the current time included. A
 run is any finite sequence of them, in any order and with any times.
 */
module JobRuns {
  import opened Basics
  import opened ClaimSelection
  import opened Jobs
  import Admission
  import EffectRecords

  /** How a worker ends its execution. */
  datatype Settlement = Completing | Releasing | Failing(transition: FailureTransition)

  /** A change of the controls of one lane. */
  datatype Setting =
    | RateLimit(lane: string, max: int, window: int)
    | NoRateLimit(lane: string)
    | AdmissionPolicy(lane: string, policy: Admission.Policy)
    | NoAdmissionPolicy(lane: string)
    | Paused(lane: string, paused: bool)

  datatype Op =
    | Enqueue(input: EnqueueInput)
    | EnqueueBatch(inputs: seq<EnqueueInput>)
    | Claim(claim: ClaimInput)
    | Renew(lease: Lease, now: Instant, extension: int)
    | Settle(lease: Lease, now: Instant, how: Settlement)
    | Cancel(id: JobId)
    | Reap(victims: seq<JobId>, now: Instant, budget: int, limit: int)
    | Replay(request: ReplayRequest, effects: set<EffectRecords.EffectState>)
    | Configure(setting: Setting)

  function SettleWith(s: Store, lease: Lease, now: Instant, how: Settlement): (Store, Result<(), JobError>) {
    match how
    case Completing => Complete(s, lease, now)
    case Releasing => Release(s, lease, now)
    case Failing(transition) => Fail(s, lease, now, transition)
  }

  function ConfigureWith(s: Store, setting: Setting): Store {
    match setting
    case RateLimit(lane, max, window) => SetRateLimit(s, lane, max, window).0
    case NoRateLimit(lane) => RemoveRateLimit(s, lane).0
    case AdmissionPolicy(lane, policy) => SetAdmission(s, lane, policy).0
    case NoAdmissionPolicy(lane) => RemoveAdmission(s, lane).0
    case Paused(lane, paused) => SetPaused(s, lane, paused).0
  }

  ghost predicate ReapsNow(s: Store, op: Op)
    requires op.Reap?
  {
    op.now != ZERO_TIME && ReapBatch(s, op.victims, op.now, op.limit)
  }

  /** One store call. A sweep names the batch it visited; a batch the store could
      not have picked does nothing. */
  ghost function Apply(s: Store, op: Op): (after: Store)
    requires IdsMatch(s)
    ensures IdsMatch(after)
  {
    match op
    case Enqueue(input) => Jobs.Enqueue(s, input).0
    case EnqueueBatch(inputs) => BatchKeepsIds(s, inputs); Jobs.EnqueueBatch(s, inputs).0
    case Claim(input) => Jobs.Claim(s, input).0
    case Renew(lease, now, extension) => Jobs.Renew(s, lease, now, extension).0
    case Settle(lease, now, how) => SettleWith(s, lease, now, how).0
    case Cancel(id) => RequestCancel(s, id).0
    case Reap(victims, now, budget, limit) =>
      if ReapsNow(s, op) then ReapAll(s, victims, now, CrashBudget(budget)) else s
    case Replay(request, effects) => Jobs.Replay(s, request, effects).0
    case Configure(setting) => ConfigureWith(s, setting)
  }

  lemma {:induction false} BatchKeepsIds(s: Store, inputs: seq<EnqueueInput>)
    requires IdsMatch(s)
    ensures IdsMatch(EnqueueInOrder(s, inputs).0)
  {
    if inputs != [] { BatchKeepsIds(s, Front(inputs)); }
  }

  /** Once an input of a batch was refused, the rest is not attempted. */
  lemma {:induction false} FailureStays(s: Store, inputs: seq<EnqueueInput>, k: nat)
    requires k <= |inputs| && EnqueueInOrder(s, inputs[..k]).1.Err?
    ensures EnqueueInOrder(s, inputs) == EnqueueInOrder(s, inputs[..k])
  {
    if k == |inputs| {
      assert inputs[..k] == inputs;
    } else {
      assert Front(inputs)[..k] == inputs[..k];
      FailureStays(s, Front(inputs), k);
    }
  }

  ghost function Run(s: Store, ops: seq<Op>): (after: Store)
    requires IdsMatch(s)
    ensures IdsMatch(after)
  {
    if ops == [] then s else Apply(Run(s, Front(ops)), Last(ops))
  }

  // --------------------------------------------------- one job through a step

  /** Everything the store keeps about one job. */
  datatype JobView = JobView(job: Job, log: seq<Event>, nextEvent: nat)

  function View(s: Store, id: JobId): JobView
    requires id in s.jobs
  {
    JobView(s.jobs[id], Log(s, id), s.nextEvent)
  }

  /** What a single store call may do to a single job. */
  datatype Change =
    | Untouched
    | Leasing(input: ClaimInput, sequence: int)
    | Ending(event: Event)
    | Renewing(until: Instant)
    | Flagging
    | Stopping
    | Replaying(at: Instant)

  /** How `next` leaves the execution that `e` reports as over. */
  ghost predicate EndedBy(job: Job, next: Job, e: Event) {
    && e.jobId == job.id && e.epoch == job.leaseEpoch && e.owner == job.leaseOwner && e.attempt == job.attempts
    && next == job.(state := e.resultState, leaseOwner := "", leaseUntil := ZERO_TIME,
                    notBefore := next.notBefore, blockedReason := next.blockedReason,
                    attempts := if e.kind == Released && job.attempts > 0 then job.attempts - 1 else job.attempts,
                    crashCount := if e.kind == LeaseExpired then job.crashCount + 1 else job.crashCount)
    && (e.kind == Kind.Succeeded || e.kind == Released ==> next.blockedReason == job.blockedReason)
    && (e.kind != Kind.Succeeded && e.kind != Released ==> next.blockedReason == e.blockedReason)
    && match e.kind
       case Claimed => false
       case Succeeded => e.resultState == JobState.Succeeded && next.notBefore == job.notBefore
       case RetryScheduled => e.resultState == RetryWait && next.notBefore >= e.occurredAt
       case Released => e.resultState == RetryWait && next.notBefore == e.occurredAt
       case Dead => e.resultState == JobState.Dead && next.notBefore >= e.occurredAt
       case Blocked => e.resultState == JobState.Blocked && next.notBefore >= e.occurredAt
       case Cancelled => e.resultState == JobState.Cancelled && next.notBefore >= e.occurredAt
       case LeaseExpired =>
         && (e.resultState == RetryWait || e.resultState == JobState.Blocked)
         && next.notBefore == e.occurredAt
  }

  ghost predicate Steps(v: JobView, change: Change, w: JobView) {
    && v.nextEvent <= w.nextEvent
    && match change
       case Untouched => w.job == v.job && w.log == v.log
       case Leasing(input, sequence) =>
         && Waiting(v.job) && v.job.notBefore <= input.now
         && input.owner != "" && v.nextEvent < sequence <= w.nextEvent
         && w.job == v.job.(state := Leased, attempts := v.job.attempts + 1, blockedReason := "",
                            leaseOwner := input.owner, leaseEpoch := v.job.leaseEpoch + 1,
                            leaseUntil := input.now + input.leaseDuration)
         && w.log == v.log + [Event(sequence, v.job.id, v.job.attempts + 1, input.owner, v.job.leaseEpoch + 1, Claimed,
                                    Leased, "", "", input.now)]
       case Ending(e) =>
         && v.job.state == Leased && v.nextEvent < e.sequence <= w.nextEvent
         && EndedBy(v.job, w.job, e) && w.log == v.log + [e]
       case Renewing(until) => v.job.state == Leased && w.job == v.job.(leaseUntil := until) && w.log == v.log
       case Flagging => v.job.state == Leased && w.job == v.job.(cancelRequested := true) && w.log == v.log
       case Stopping =>
         && (Waiting(v.job) || v.job.state == JobState.Blocked) && w.log == v.log
         && w.job == v.job.(state := JobState.Cancelled, blockedReason := "", leaseOwner := "", leaseUntil := ZERO_TIME)
       case Replaying(at) =>
         && (v.job.state == JobState.Dead || v.job.state == JobState.Blocked) && w.log == v.log
         && w.job == v.job.(state := Pending, notBefore := at, leaseOwner := "", leaseUntil := ZERO_TIME,
                            cancelRequested := false, blockedReason := "", crashCount := 0)
  }

  /** Ids come from the counter, and only stored jobs have a log. */
  ghost predicate WellNamed(s: Store) {
    && IdsMatch(s)
    && s.attempts.Keys <= s.jobs.Keys
    && forall id | id in s.jobs :: Generated(id, s.nextID)
  }

  ghost predicate Generated(id: JobId, upTo: nat) {
    exists n: nat | 1 <= n <= upTo :: JobIdFor(n) == id
  }

  lemma FreshId(s: Store)
    requires WellNamed(s)
    ensures JobIdFor(s.nextID + 1) !in s.jobs
  {
    var id := JobIdFor(s.nextID + 1);
    if id in s.jobs {
      var n: nat :| 1 <= n <= s.nextID && JobIdFor(n) == id;
      JobIdsAreDistinct(n, s.nextID + 1);
    }
  }

  lemma EnqueueShape(s: Store, input: EnqueueInput)
    requires WellNamed(s)
    ensures var after := Jobs.Enqueue(s, input).0;
            var id := JobIdFor(s.nextID + 1);
            && after.attempts == s.attempts && after.nextEvent == s.nextEvent
            && (after == s || (id !in s.jobs && after.nextID == s.nextID + 1 && id in after.jobs
                               && after.jobs == s.jobs[id := after.jobs[id]] && after.jobs[id].id == id))
  {
    FreshId(s);
    hide Admit;
  }

  lemma EnqueueOnlyAdds(s: Store, input: EnqueueInput)
    requires WellNamed(s)
    ensures WellNamed(Jobs.Enqueue(s, input).0)
    ensures var after := Jobs.Enqueue(s, input).0;
            && after.attempts == s.attempts && after.nextEvent == s.nextEvent
            && (forall id | id in s.jobs :: id in after.jobs && after.jobs[id] == s.jobs[id])
  {
    EnqueueShape(s, input);
    hide Jobs.Enqueue;
    var after := Jobs.Enqueue(s, input).0;
    forall id | id in after.jobs ensures Generated(id, after.nextID) {
      if id in s.jobs { assert Generated(id, s.nextID); } else { assert JobIdFor(s.nextID + 1) == id; }
    }
  }

  lemma {:induction false} BatchOnlyAdds(s: Store, inputs: seq<EnqueueInput>)
    requires WellNamed(s)
    ensures WellNamed(EnqueueInOrder(s, inputs).0)
    ensures var after := EnqueueInOrder(s, inputs).0;
            && after.attempts == s.attempts && after.nextEvent == s.nextEvent
            && (forall id | id in s.jobs :: id in after.jobs && after.jobs[id] == s.jobs[id])
  {
    if inputs != [] {
      BatchOnlyAdds(s, Front(inputs));
      EnqueueOnlyAdds(EnqueueInOrder(s, Front(inputs)).0, Last(inputs));
    }
  }

  /** Appending evidence for one job leaves the view of another alone. */
  lemma AppendAt(s: Store, target: JobId, next: Job, e: Event, id: JobId)
    requires target in s.jobs && id in s.jobs && e.jobId == target
    ensures var after := AppendAttempt(s.(jobs := s.jobs[target := next]), e);
            && id in after.jobs
            && View(after, id)
               == if id == target then JobView(next, Log(s, id) + [e.(sequence := s.nextEvent + 1)], s.nextEvent + 1)
                  else View(s, id).(nextEvent := s.nextEvent + 1)
  {
  }

  lemma LeaseOneAt(s: Store, target: JobId, input: ClaimInput, id: JobId)
    requires target in s.jobs && id in s.jobs && s.jobs[target].id == target
    ensures id in LeaseOne(s, target, input).jobs
    ensures View(LeaseOne(s, target, input), id)
            == if id == target then LeasedView(s.jobs[id], Log(s, id), input, s.nextEvent + 1, s.nextEvent + 1)
               else View(s, id).(nextEvent := s.nextEvent + 1)
  {
    var next := LeasedRecord(s.jobs[target], input);
    AppendAt(s, target, next, ClaimedEvent(next, input.now), id);
  }

  /** A view after its job was leased with the given sequence number. */
  function LeasedView(job: Job, log: seq<Event>, input: ClaimInput, sequence: int, nextEvent: nat): JobView {
    var next := LeasedRecord(job, input);
    JobView(next, log + [ClaimedEvent(next, input.now).(sequence := sequence)], nextEvent)
  }

  lemma {:induction false} LeaseAllElsewhere(s: Store, chosen: seq<Candidate>, input: ClaimInput, id: JobId)
    requires forall i | 0 <= i < |chosen| :: chosen[i].id in s.jobs
    requires id in s.jobs && IdsMatch(s) && (forall i | 0 <= i < |chosen| :: chosen[i].id != id)
    ensures View(LeaseAll(s, chosen, input), id) == View(s, id).(nextEvent := s.nextEvent + |chosen|)
  {
    if chosen != [] {
      LeaseAllElsewhere(s, Front(chosen), input, id);
      hide LeaseOne;
      LeaseOneAt(LeaseAll(s, Front(chosen), input), Last(chosen).id, input, id);
    }
  }

  lemma LeaseAllLast(s: Store, chosen: seq<Candidate>, input: ClaimInput)
    requires forall i | 0 <= i < |chosen| :: chosen[i].id in s.jobs
    requires chosen != [] && IdsMatch(s)
    requires forall i | 0 <= i < |chosen| - 1 :: chosen[i].id != Last(chosen).id
    ensures View(LeaseAll(s, chosen, input), Last(chosen).id)
            == LeasedView(s.jobs[Last(chosen).id], Log(s, Last(chosen).id), input, s.nextEvent + |chosen|,
                          s.nextEvent + |chosen|)
  {
    hide LeaseOne, LeasedView;
    LeaseAllElsewhere(s, Front(chosen), input, Last(chosen).id);
    LeaseOneAt(LeaseAll(s, Front(chosen), input), Last(chosen).id, input, Last(chosen).id);
  }

  /** Leasing a batch of distinct jobs leases each of them once. */
  lemma {:induction false} LeaseAllThere(s: Store, chosen: seq<Candidate>, input: ClaimInput, k: nat)
    requires forall i | 0 <= i < |chosen| :: chosen[i].id in s.jobs
    requires k < |chosen| && IdsMatch(s)
    requires forall i | 0 <= i < |chosen| && i != k :: chosen[i].id != chosen[k].id
    ensures View(LeaseAll(s, chosen, input), chosen[k].id)
            == LeasedView(s.jobs[chosen[k].id], Log(s, chosen[k].id), input, s.nextEvent + k + 1,
                          s.nextEvent + |chosen|)
  {
    hide LeaseOne;
    if k == |chosen| - 1 {
      LeaseAllLast(s, chosen, input);
    } else {
      LeaseAllThere(s, Front(chosen), input, k);
      LeaseOneAt(LeaseAll(s, Front(chosen), input), Last(chosen).id, input, chosen[k].id);
    }
  }

  function ReapEvent(job: Job, now: Instant, budget: int, sequence: int): Event {
    var next := ReapedRecord(job, now, budget);
    Event(sequence, job.id, job.attempts, job.leaseOwner, job.leaseEpoch, LeaseExpired, next.state, "",
          next.blockedReason, now)
  }

  /** A view after its lease was reaped. */
  function ReapedView(job: Job, log: seq<Event>, now: Instant, budget: int, sequence: int, nextEvent: nat): JobView {
    JobView(ReapedRecord(job, now, budget), log + [ReapEvent(job, now, budget, sequence)], nextEvent)
  }

  lemma ReapOneAt(s: Store, target: JobId, now: Instant, budget: int, id: JobId)
    requires target in s.jobs && id in s.jobs && s.jobs[target].id == target
    ensures id in ReapOne(s, target, now, budget).jobs
    ensures View(ReapOne(s, target, now, budget), id)
            == if id == target then ReapedView(s.jobs[id], Log(s, id), now, budget, s.nextEvent + 1, s.nextEvent + 1)
               else View(s, id).(nextEvent := s.nextEvent + 1)
  {
    var job := s.jobs[target];
    AppendAt(s, target, ReapedRecord(job, now, budget), ReapEvent(job, now, budget, 0), id);
  }

  lemma {:induction false} ReapAllElsewhere(s: Store, victims: seq<JobId>, now: Instant, budget: int, id: JobId)
    requires forall i | 0 <= i < |victims| :: victims[i] in s.jobs
    requires id in s.jobs && IdsMatch(s) && (forall i | 0 <= i < |victims| :: victims[i] != id)
    ensures View(ReapAll(s, victims, now, budget), id) == View(s, id).(nextEvent := s.nextEvent + |victims|)
  {
    if victims != [] {
      ReapAllElsewhere(s, Front(victims), now, budget, id);
      hide ReapOne;
      ReapOneAt(ReapAll(s, Front(victims), now, budget), Last(victims), now, budget, id);
    }
  }

  lemma ReapAllLast(s: Store, victims: seq<JobId>, now: Instant, budget: int)
    requires forall i | 0 <= i < |victims| :: victims[i] in s.jobs
    requires victims != [] && IdsMatch(s)
    requires forall i | 0 <= i < |victims| - 1 :: victims[i] != Last(victims)
    ensures View(ReapAll(s, victims, now, budget), Last(victims))
            == ReapedView(s.jobs[Last(victims)], Log(s, Last(victims)), now, budget, s.nextEvent + |victims|,
                          s.nextEvent + |victims|)
  {
    hide ReapOne, ReapedView;
    ReapAllElsewhere(s, Front(victims), now, budget, Last(victims));
    ReapOneAt(ReapAll(s, Front(victims), now, budget), Last(victims), now, budget, Last(victims));
  }

  lemma {:induction false} ReapAllThere(s: Store, victims: seq<JobId>, now: Instant, budget: int, k: nat)
    requires forall i | 0 <= i < |victims| :: victims[i] in s.jobs
    requires k < |victims| && IdsMatch(s)
    requires forall i | 0 <= i < |victims| && i != k :: victims[i] != victims[k]
    ensures View(ReapAll(s, victims, now, budget), victims[k])
            == ReapedView(s.jobs[victims[k]], Log(s, victims[k]), now, budget, s.nextEvent + k + 1,
                          s.nextEvent + |victims|)
  {
    hide ReapOne;
    if k == |victims| - 1 {
      ReapAllLast(s, victims, now, budget);
    } else {
      ReapAllThere(s, Front(victims), now, budget, k);
      ReapOneAt(ReapAll(s, Front(victims), now, budget), Last(victims), now, budget, victims[k]);
    }
  }

  /** Reaping changes exactly the victims, each exactly once. */
  lemma ReapAllEffect(s: Store, victims: seq<JobId>, now: Instant, budget: int, id: JobId)
    requires IdsMatch(s) && Distinct(victims) && id in s.jobs
    requires forall i | 0 <= i < |victims| :: victims[i] in s.jobs
    ensures var after := ReapAll(s, victims, now, budget);
            after.jobs[id] == if id in victims then ReapedRecord(s.jobs[id], now, budget) else s.jobs[id]
  {
    hide ReapAll, ReapedRecord;
    if id in victims {
      var k :| 0 <= k < |victims| && victims[k] == id;
      ReapAllThere(s, victims, now, budget, k);
      assert View(ReapAll(s, victims, now, budget), id).job == ReapedRecord(s.jobs[id], now, budget);
    } else {
      ReapAllElsewhere(s, victims, now, budget, id);
      assert View(ReapAll(s, victims, now, budget), id).job == s.jobs[id];
    }
  }

  lemma UntouchedSteps(v: JobView, nextEvent: nat)
    requires v.nextEvent <= nextEvent
    ensures Steps(v, Untouched, v.(nextEvent := nextEvent))
  {
  }

  lemma LeasedViewSteps(v: JobView, input: ClaimInput, sequence: int, nextEvent: nat)
    requires Claimable(v.job, input.now) && input.owner != "" && v.nextEvent < sequence <= nextEvent
    ensures Steps(v, Leasing(input, sequence), LeasedView(v.job, v.log, input, sequence, nextEvent))
  {
  }

  /** Which change each call makes to each job. */
  ghost predicate Causes(s: Store, op: Op, id: JobId, change: Change)
    requires id in s.jobs
  {
    var job := s.jobs[id];
    match op
    case Enqueue(_) => change == Untouched
    case EnqueueBatch(_) => change == Untouched
    case Claim(input) =>
      change == Untouched ||
      (change.Leasing? && change.input == input && job.lane !in s.paused
       && (input.lanes == [] || job.lane in input.lanes))
    case Renew(lease, now, extension) =>
      change == if lease.jobId == id && extension > 0 && LeaseHolds(s, lease, now) then Renewing(now + extension)
                else Untouched
    case Settle(lease, now, how) =>
      if lease.jobId == id && LeaseHolds(s, lease, now) && (how.Failing? ==> FailureState(how.transition.state))
      then change.Ending? && change.event.occurredAt == now && EndsAs(change.event, how)
      else change == Untouched
    case Cancel(target) =>
      change == if target != id then Untouched else if job.state == Leased then Flagging
                else if Waiting(job) || job.state == JobState.Blocked then Stopping else Untouched
    case Reap(victims, now, _, _) =>
      if ReapsNow(s, op) && id in victims
      then change.Ending? && change.event.occurredAt == now && change.event.kind == LeaseExpired
      else change == Untouched
    case Replay(request, effects) =>
      change == if request.jobId == id && ReplayAllowed(s, request, effects) then Replaying(request.requestedAt)
                else Untouched
    case Configure(_) => change == Untouched
  }

  /** What the log says of an execution that ended in the given way. */
  predicate EndsAs(e: Event, how: Settlement) {
    match how
    case Completing => e.kind == Kind.Succeeded && e.failureClass == "" && e.blockedReason == ""
    case Releasing => e.kind == Released && e.failureClass == "" && e.blockedReason == ""
    case Failing(t) =>
      && e.resultState == t.state && e.failureClass == t.failureClass
      && e.kind != Kind.Succeeded && e.kind != Released && e.kind != LeaseExpired
      && e.blockedReason == if t.state != JobState.Blocked then "" else if t.blockedReason != "" then t.blockedReason
                            else "unclassified_error"
  }

  lemma ClaimStep(s: Store, input: ClaimInput, id: JobId) returns (change: Change)
    requires IdsMatch(s) && id in s.jobs
    ensures id in Jobs.Claim(s, input).0.jobs
    ensures Steps(View(s, id), change, View(Jobs.Claim(s, input).0, id))
    ensures Causes(s, Op.Claim(input), id, change)
  {
    hide Steps;
    change := Untouched;
    if ClaimAccepted(input) {
      SelectionIsLeasable(s, input);
      var chosen := SelectionOf(s, input).chosen;
      var charged := s.(rates := SelectionOf(s, input).rates);
      hide SelectionOf;
      change := LeaseAllStep(s, charged, chosen, input, id);
    } else {
      UntouchedSteps(View(s, id), s.nextEvent);
    }
  }

  lemma LeaseAllStep(s: Store, charged: Store, chosen: seq<Candidate>, input: ClaimInput, id: JobId)
      returns (change: Change)
    requires IdsMatch(charged) && id in s.jobs && charged.jobs == s.jobs && View(charged, id) == View(s, id)
    requires input.owner != ""
    requires forall i | 0 <= i < |chosen| ::
               chosen[i].id in s.jobs && EligibleJob(s, s.jobs[chosen[i].id], input)
    requires forall i, j | 0 <= i < j < |chosen| :: chosen[i].id != chosen[j].id
    ensures Steps(View(s, id), change, View(LeaseAll(charged, chosen, input), id))
    ensures Causes(s, Op.Claim(input), id, change)
  {
    hide LeaseAll, LeasedView, Steps;
    if k :| 0 <= k < |chosen| && chosen[k].id == id {
      assert forall i | 0 <= i < |chosen| && i != k :: chosen[i].id != chosen[k].id;
      LeaseAllThere(charged, chosen, input, k);
      assert EligibleJob(s, s.jobs[chosen[k].id], input);
      LeasedViewSteps(View(charged, id), input, s.nextEvent + k + 1, s.nextEvent + |chosen|);
      change := Leasing(input, s.nextEvent + k + 1);
    } else {
      LeaseAllElsewhere(charged, chosen, input, id);
      change := Untouched;
      UntouchedSteps(View(charged, id), s.nextEvent + |chosen|);
    }
  }

  lemma ReapedViewSteps(v: JobView, now: Instant, budget: int, sequence: int, nextEvent: nat)
    requires v.job.state == Leased && v.nextEvent < sequence <= nextEvent
    ensures Steps(v, Ending(ReapEvent(v.job, now, budget, sequence)),
                  ReapedView(v.job, v.log, now, budget, sequence, nextEvent))
  {
  }

  lemma ReapStep(s: Store, op: Op, id: JobId) returns (change: Change)
    requires IdsMatch(s) && id in s.jobs && op.Reap?
    ensures id in Apply(s, op).jobs
    ensures Steps(View(s, id), change, View(Apply(s, op), id))
    ensures Causes(s, op, id, change)
    ensures change == Untouched ||
            (change.Ending? && Apply(s, op).jobs[id] == ReapedRecord(s.jobs[id], op.now, CrashBudget(op.budget)))
  {
    hide Steps, ReapedRecord, ReapAll;
    change := Untouched;
    UntouchedSteps(View(s, id), s.nextEvent);
    if ReapsNow(s, op) {
      UntouchedSteps(View(s, id), s.nextEvent + |op.victims|);
      if k :| 0 <= k < |op.victims| && op.victims[k] == id {
        ReapAllThere(s, op.victims, op.now, CrashBudget(op.budget), k);
        ReapedViewSteps(View(s, id), op.now, CrashBudget(op.budget), s.nextEvent + k + 1, s.nextEvent + |op.victims|);
        change := Ending(ReapEvent(s.jobs[id], op.now, CrashBudget(op.budget), s.nextEvent + k + 1));
      } else {
        ReapAllElsewhere(s, op.victims, op.now, CrashBudget(op.budget), id);
      }
    }
  }

  /** A refused lease changes nothing, an accepted one ends its epoch. */
  lemma SettleStep(s: Store, lease: Lease, now: Instant, how: Settlement, id: JobId) returns (change: Change)
    requires IdsMatch(s) && id in s.jobs
    ensures id in SettleWith(s, lease, now, how).0.jobs
    ensures Steps(View(s, id), change, View(SettleWith(s, lease, now, how).0, id))
    ensures Causes(s, Op.Settle(lease, now, how), id, change)
  {
    change := Untouched;
    var (after, result) := SettleWith(s, lease, now, how);
    if result.Ok? {
      var job := s.jobs[lease.jobId];
      var e := match how
        case Completing => EndedEvent(lease, job.attempts, Kind.Succeeded, JobState.Succeeded, "", "", now)
        case Releasing => EndedEvent(lease, job.attempts, Released, RetryWait, "", "", now)
        case Failing(t) =>
          EndedEvent(lease, job.attempts, ResultKind(t.state), t.state, t.failureClass,
                     after.jobs[lease.jobId].blockedReason, now);
      AppendAt(s, lease.jobId, after.jobs[lease.jobId], e, id);
      if id == lease.jobId { change := Ending(e.(sequence := s.nextEvent + 1)); }
    }
  }

  lemma CancelAt(s: Store, target: JobId, id: JobId)
    requires id in s.jobs
    ensures var after := RequestCancel(s, target).0;
            && id in after.jobs && Log(after, id) == Log(s, id) && after.nextEvent == s.nextEvent
            && after.jobs[id] == if target == id then RequestCancel(s, id).0.jobs[id] else s.jobs[id]
  {
  }

  lemma CancelStep(s: Store, target: JobId, id: JobId) returns (change: Change)
    requires IdsMatch(s) && id in s.jobs
    ensures id in RequestCancel(s, target).0.jobs
    ensures Steps(View(s, id), change, View(RequestCancel(s, target).0, id))
    ensures Causes(s, Op.Cancel(target), id, change)
  {
    CancelAt(s, target, id);
    change := Untouched;
    if target == id {
      if s.jobs[id].state == Leased { change := Flagging; }
      if Waiting(s.jobs[id]) || s.jobs[id].state == JobState.Blocked { change := Stopping; }
    } else {
      hide RequestCancel;
    }
  }

  lemma RenewStep(s: Store, lease: Lease, now: Instant, extension: int, id: JobId) returns (change: Change)
    requires id in s.jobs
    ensures id in Jobs.Renew(s, lease, now, extension).0.jobs
    ensures Steps(View(s, id), change, View(Jobs.Renew(s, lease, now, extension).0, id))
    ensures Causes(s, Op.Renew(lease, now, extension), id, change)
  {
    change := Untouched;
    if extension > 0 && LeaseHolds(s, lease, now) && id == lease.jobId { change := Renewing(now + extension); }
  }

  lemma ReplayStep(s: Store, request: ReplayRequest, effects: set<EffectRecords.EffectState>, id: JobId)
      returns (change: Change)
    requires id in s.jobs
    ensures id in Jobs.Replay(s, request, effects).0.jobs
    ensures Steps(View(s, id), change, View(Jobs.Replay(s, request, effects).0, id))
    ensures Causes(s, Op.Replay(request, effects), id, change)
  {
    change := Untouched;
    if request.jobId == id && ReplayAllowed(s, request, effects) { change := Replaying(request.requestedAt); }
  }

  lemma ConfigureStep(s: Store, setting: Setting, id: JobId)
    requires id in s.jobs
    ensures id in ConfigureWith(s, setting).jobs
    ensures View(ConfigureWith(s, setting), id) == View(s, id)
  {
  }

  lemma EnqueueStep(s: Store, op: Op, id: JobId)
    requires WellNamed(s) && id in s.jobs && (op.Enqueue? || op.EnqueueBatch?)
    ensures id in Apply(s, op).jobs
    ensures View(Apply(s, op), id) == View(s, id)
  {
    if op.Enqueue? { EnqueueOnlyAdds(s, op.input); } else { BatchOnlyAdds(s, op.inputs); }
  }

  /** Every store call, seen from any one job, is one of the changes above, and which
      one follows from the call. */
  lemma ApplyStep(s: Store, op: Op, id: JobId) returns (change: Change)
    requires WellNamed(s) && id in s.jobs
    ensures id in Apply(s, op).jobs
    ensures Steps(View(s, id), change, View(Apply(s, op), id))
    ensures Causes(s, op, id, change)
    ensures change.Replaying? <==> op.Replay? && op.request.jobId == id && ReplayAllowed(s, op.request, op.effects)
    ensures change.Ending? && change.event.kind == LeaseExpired ==>
              op.Reap? && Apply(s, op).jobs[id] == ReapedRecord(s.jobs[id], op.now, CrashBudget(op.budget))
  {
    hide ReapAll, SettleWith, ConfigureWith;
    change := Untouched;
    match op
    case Enqueue(_) => EnqueueStep(s, op, id);
    case EnqueueBatch(_) => EnqueueStep(s, op, id);
    case Claim(input) => change := ClaimStep(s, input, id);
    case Renew(lease, now, extension) => change := RenewStep(s, lease, now, extension, id);
    case Settle(lease, now, how) => change := SettleStep(s, lease, now, how, id);
    case Cancel(target) => change := CancelStep(s, target, id);
    case Reap(_, _, _, _) => change := ReapStep(s, op, id);
    case Replay(request, effects) => change := ReplayStep(s, request, effects, id);
    case Configure(setting) => ConfigureStep(s, setting, id);
  }
}
