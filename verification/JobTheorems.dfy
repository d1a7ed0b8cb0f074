/**
 What holds of every job in every reachable state of the queue, whatever calls
 were made, in whatever order and with whatever times.
 */
module JobTheorems {
  import opened Basics
  import opened Jobs
  import opened JobRuns
  import EffectRecords

  // -------------------------------------------------------- the shape of a log

  /** Position `i` of a log belongs to epoch `i/2 + 1`: first the claim, then its end. */
  ghost predicate EventAt(e: Event, i: nat, jobId: JobId) {
    && e.jobId == jobId
    && e.epoch == i / 2 + 1
    && (e.kind == Claimed <==> i % 2 == 0)
  }

  ghost predicate PairedWith(end: Event, begin: Event) {
    end.owner == begin.owner && end.attempt == begin.attempt
  }

  /** One claim and one end per epoch, in order, the last end missing exactly while
      the job is leased; both events of an epoch name the same owner and attempt. */
  ghost predicate LogShape(job: Job, log: seq<Event>) {
    && |log| == 2 * job.leaseEpoch - (if job.state == Leased then 1 else 0)
    && (forall i | 0 <= i < |log| :: EventAt(log[i], i, job.id))
    && (forall i | 0 < i < |log| && i % 2 == 1 :: PairedWith(log[i], log[i - 1]))
    && (forall i, j | 0 <= i < j < |log| :: log[i].sequence < log[j].sequence)
  }

  function CountKind(log: seq<Event>, kind: Kind): nat {
    if log == [] then 0 else CountKind(Front(log), kind) + if Last(log).kind == kind then 1 else 0
  }

  /** The record agrees with its log: a released attempt is given back, and only a
      leased job has an owner, namely the one its open claim names. */
  ghost predicate Accounted(job: Job, log: seq<Event>) {
    && job.attempts == job.leaseEpoch - CountKind(log, Released)
    && job.attempts >= (if job.state == Leased then 1 else 0)
    && job.leaseEpoch >= 0 && job.crashCount >= 0
    && (job.state != Leased ==> job.leaseOwner == "" && job.leaseUntil == ZERO_TIME)
    && (job.state == Leased ==>
        log != [] && job.leaseOwner == Last(log).owner != "" && job.attempts == Last(log).attempt)
  }

  ghost predicate JobOk(v: JobView) {
    && LogShape(v.job, v.log)
    && Accounted(v.job, v.log)
    && (forall i | 0 <= i < |v.log| :: v.log[i].sequence <= v.nextEvent)
  }

  /** One more event keeps the shape when it is the one the position asks for. */
  lemma LogGrows(job: Job, log: seq<Event>, next: Job, e: Event)
    requires LogShape(job, log) && next.id == job.id && job.leaseEpoch >= 0
    requires EventAt(e, |log|, job.id)
    requires |log| + 1 == 2 * next.leaseEpoch - (if next.state == Leased then 1 else 0)
    requires |log| % 2 == 1 ==> PairedWith(e, Last(log))
    requires forall i | 0 <= i < |log| :: log[i].sequence < e.sequence
    ensures LogShape(next, log + [e])
  {
  }

  lemma LeasingKeepsJobOk(v: JobView, change: Change, w: JobView)
    requires JobOk(v) && Steps(v, change, w) && change.Leasing?
    ensures JobOk(w)
  {
    assert Front(w.log) == v.log;
    LogGrows(v.job, v.log, w.job, Last(w.log));
    hide LogShape;
  }

  lemma EndingKeepsJobOk(v: JobView, change: Change, w: JobView)
    requires JobOk(v) && Steps(v, change, w) && change.Ending?
    ensures JobOk(w)
  {
    assert Front(w.log) == v.log;
    assert v.log != [] && EventAt(Last(v.log), |v.log| - 1, v.job.id);
    LogGrows(v.job, v.log, w.job, change.event);
    hide LogShape;
  }

  lemma StepKeepsJobOk(v: JobView, change: Change, w: JobView)
    requires JobOk(v) && Steps(v, change, w)
    ensures JobOk(w)
  {
    if change.Leasing? { LeasingKeepsJobOk(v, change, w); }
    if change.Ending? { EndingKeepsJobOk(v, change, w); }
  }

  // -------------------------------------------------------- jobs being created

  lemma {:induction false} LeaseAllKeepsLogKeys(s: Store, chosen: seq<ClaimSelection.Candidate>, input: ClaimInput)
    requires forall i | 0 <= i < |chosen| :: chosen[i].id in s.jobs
    requires IdsMatch(s) && s.attempts.Keys <= s.jobs.Keys
    ensures LeaseAll(s, chosen, input).attempts.Keys <= s.jobs.Keys
    ensures LeaseAll(s, chosen, input).nextID == s.nextID
  {
    if chosen != [] { LeaseAllKeepsLogKeys(s, Front(chosen), input); }
  }

  lemma {:induction false} ReapAllKeepsLogKeys(s: Store, victims: seq<JobId>, now: Instant, budget: int)
    requires forall i | 0 <= i < |victims| :: victims[i] in s.jobs
    requires s.attempts.Keys <= s.jobs.Keys
    ensures ReapAll(s, victims, now, budget).attempts.Keys <= s.jobs.Keys
    ensures ReapAll(s, victims, now, budget).nextID == s.nextID
  {
    if victims != [] { ReapAllKeepsLogKeys(s, Front(victims), now, budget); }
  }

  ghost predicate SameJobs(s: Store, after: Store) {
    after.jobs.Keys == s.jobs.Keys && after.attempts.Keys <= s.jobs.Keys && after.nextID == s.nextID
  }

  lemma ClaimKeepsTheJobs(s: Store, input: ClaimInput)
    requires WellNamed(s)
    ensures SameJobs(s, Jobs.Claim(s, input).0)
  {
    hide LeaseAll;
    if ClaimAccepted(input) {
      SelectionIsLeasable(s, input);
      LeaseAllKeepsLogKeys(s.(rates := SelectionOf(s, input).rates), SelectionOf(s, input).chosen, input);
    }
  }

  lemma SettleKeepsTheJobs(s: Store, lease: Lease, now: Instant, how: Settlement)
    requires WellNamed(s)
    ensures SameJobs(s, SettleWith(s, lease, now, how).0)
  {
  }

  lemma RenewKeepsTheJobs(s: Store, lease: Lease, now: Instant, extension: int)
    requires WellNamed(s)
    ensures SameJobs(s, Jobs.Renew(s, lease, now, extension).0)
  {
  }

  lemma CancelKeepsTheJobs(s: Store, id: JobId)
    requires WellNamed(s)
    ensures SameJobs(s, RequestCancel(s, id).0)
  {
    CancelKeepsTheRest(s, id);
    hide RequestCancel;
  }

  lemma CancelKeepsTheRest(s: Store, id: JobId)
    requires Jobs.IdsMatch(s)
    ensures var after := RequestCancel(s, id).0;
            && after.jobs.Keys == s.jobs.Keys && Jobs.IdsMatch(after)
            && after == s.(jobs := after.jobs)
  {
    if id in s.jobs {
      var after := RequestCancel(s, id).0;
      assert after == s || (id in after.jobs && after == s.(jobs := s.jobs[id := after.jobs[id]]));
      assert after.jobs[id].id == s.jobs[id].id;
      hide RequestCancel;
    }
  }

  lemma ReplayKeepsTheJobs(s: Store, request: ReplayRequest, effects: set<EffectRecords.EffectState>)
    requires WellNamed(s)
    ensures SameJobs(s, Jobs.Replay(s, request, effects).0)
  {
  }

  lemma ConfigureKeepsTheJobs(s: Store, setting: Setting)
    requires WellNamed(s)
    ensures SameJobs(s, ConfigureWith(s, setting))
  {
  }

  /** Apart from enqueuing, no call creates or forgets a job. */
  lemma OthersKeepTheJobs(s: Store, op: Op)
    requires WellNamed(s) && !op.Enqueue? && !op.EnqueueBatch?
    ensures SameJobs(s, Apply(s, op))
  {
    hide ReapAll, SettleWith, Jobs.Claim, Jobs.Renew, Jobs.Replay, RequestCancel, ConfigureWith;
    match op
    case Claim(input) => ClaimKeepsTheJobs(s, input);
    case Renew(lease, now, extension) => RenewKeepsTheJobs(s, lease, now, extension);
    case Settle(lease, now, how) => SettleKeepsTheJobs(s, lease, now, how);
    case Cancel(id) => CancelKeepsTheJobs(s, id);
    case Reap(_, _, _, _) =>
      if ReapsNow(s, op) { ReapAllKeepsLogKeys(s, op.victims, op.now, CrashBudget(op.budget)); }
    case Replay(request, effects) => ReplayKeepsTheJobs(s, request, effects);
    case Configure(setting) => ConfigureKeepsTheJobs(s, setting);
  }

  lemma ApplyKeepsWellNamed(s: Store, op: Op)
    requires WellNamed(s)
    ensures WellNamed(Apply(s, op))
  {
    if op.Enqueue? {
      EnqueueOnlyAdds(s, op.input);
    } else if op.EnqueueBatch? {
      BatchOnlyAdds(s, op.inputs);
    } else {
      OthersKeepTheJobs(s, op);
      hide Apply;
      assert forall id | id in Apply(s, op).jobs :: Generated(id, s.nextID);
    }
  }

  lemma {:induction false} RunKeepsWellNamed(s: Store, ops: seq<Op>)
    requires WellNamed(s)
    ensures WellNamed(Run(s, ops))
  {
    if ops != [] {
      RunKeepsWellNamed(s, Front(ops));
      ApplyKeepsWellNamed(Run(s, Front(ops)), Last(ops));
    }
  }

  /** A job that appears starts pending, unclaimed and with an empty log. */
  ghost predicate Newborn(v: JobView) {
    && v.log == []
    && v.job.state == Pending && v.job.leaseEpoch == 0 && v.job.attempts == 0 && v.job.crashCount == 0
    && v.job.leaseOwner == "" && v.job.leaseUntil == ZERO_TIME
  }

  lemma {:induction false} BatchAddsNewborns(s: Store, inputs: seq<EnqueueInput>, id: JobId)
    requires WellNamed(s) && id !in s.jobs && id in EnqueueInOrder(s, inputs).0.jobs
    ensures Newborn(View(EnqueueInOrder(s, inputs).0, id))
  {
    var before := EnqueueInOrder(s, Front(inputs)).0;
    BatchOnlyAdds(s, Front(inputs));
    if EnqueueInOrder(s, Front(inputs)).1.Ok? {
      FreshId(before);
      EnqueueOnlyAdds(before, Last(inputs));
    }
    if id in before.jobs { BatchAddsNewborns(s, Front(inputs), id); }
  }

  lemma NewJobsAreNewborn(s: Store, op: Op, id: JobId)
    requires WellNamed(s) && id !in s.jobs && id in Apply(s, op).jobs
    ensures Newborn(View(Apply(s, op), id))
  {
    if op.Enqueue? {
    } else if op.EnqueueBatch? {
      BatchAddsNewborns(s, op.inputs, id);
    } else {
      OthersKeepTheJobs(s, op);
    }
  }

  // ------------------------------------------------------ every reachable state

  ghost function Reached(ops: seq<Op>): (s: Store)
    ensures WellNamed(s)
  {
    RunKeepsWellNamed(EMPTY_STORE, ops);
    Run(EMPTY_STORE, ops)
  }

  lemma ReachedStep(ops: seq<Op>)
    requires ops != []
    ensures Reached(ops) == Apply(Reached(Front(ops)), Last(ops))
  {
  }

  /** In every reachable state the attempt log of every job is exactly one claim and
      one end per epoch, and the record's counters are what the log says. */
  lemma {:induction false} AttemptLogIsExact(ops: seq<Op>, id: JobId)
    requires id in Reached(ops).jobs
    ensures JobOk(View(Reached(ops), id))
  {
    hide Steps, Apply, JobOk;
    if ops == [] {
      assert false;
    } else {
      var before := Reached(Front(ops));
      ReachedStep(ops);
      if id in before.jobs {
        AttemptLogIsExact(Front(ops), id);
        var change := ApplyStep(before, Last(ops), id);
        StepKeepsJobOk(View(before, id), change, View(Reached(ops), id));
      } else {
        NewJobsAreNewborn(before, Last(ops), id);
        NewbornIsOk(View(Reached(ops), id));
      }
    }
  }

  lemma NewbornIsOk(v: JobView)
    requires Newborn(v)
    ensures JobOk(v)
  {
  }

  /** An epoch is settled at most once. */
  lemma EpochSettlesOnce(ops: seq<Op>, id: JobId, i: nat, j: nat)
    requires id in Reached(ops).jobs
    requires var log := Log(Reached(ops), id);
             i < |log| && j < |log| && log[i].kind != Claimed && log[j].kind != Claimed && log[i].epoch == log[j].epoch
    ensures i == j
  {
    AttemptLogIsExact(ops, id);
    var v := View(Reached(ops), id);
    assert EventAt(v.log[i], i, v.job.id) && EventAt(v.log[j], j, v.job.id);
  }

  // ------------------------------------------------------------------ fencing

  /** Epoch `epoch` of the job was started and is over. */
  ghost predicate EpochOver(s: Store, id: JobId, epoch: int) {
    && id in s.jobs
    && (s.jobs[id].leaseEpoch > epoch || (s.jobs[id].leaseEpoch == epoch && s.jobs[id].state != Leased))
  }

  lemma {:induction false} OverStaysOver(s: Store, ops: seq<Op>, id: JobId, epoch: int)
    requires WellNamed(s) && EpochOver(s, id, epoch)
    ensures EpochOver(Run(s, ops), id, epoch)
  {
    hide Apply;
    if ops != [] {
      OverStaysOver(s, Front(ops), id, epoch);
      RunKeepsWellNamed(s, Front(ops));
      var change := ApplyStep(Run(s, Front(ops)), Last(ops), id);
    }
  }

  /** Once an epoch is over, a lease of that epoch is refused for good: through any
      later calls, with any owner and at any time, it authorizes nothing and every
      call that presents it leaves the store as it was. */
  lemma StaleLeaseIsRefused(s: Store, ops: seq<Op>, lease: Lease, now: Instant, extension: int, how: Settlement)
    requires WellNamed(s) && EpochOver(s, lease.jobId, lease.epoch)
    ensures !LeaseHolds(Run(s, ops), lease, now)
    ensures Jobs.Renew(Run(s, ops), lease, now, extension) == (Run(s, ops), Err(LeaseLost))
    ensures var (after, result) := SettleWith(Run(s, ops), lease, now, how);
            after == Run(s, ops) && result.Err?
  {
    OverStaysOver(s, ops, lease.jobId, lease.epoch);
  }

  /** Settling is what ends an epoch: a successful settlement leaves its own lease
      stale, so the same token can never settle twice. */
  lemma SettledLeaseIsSpent(s: Store, lease: Lease, now: Instant, how: Settlement, later: seq<Op>, again: Instant,
                            how2: Settlement)
    requires WellNamed(s) && SettleWith(s, lease, now, how).1.Ok?
    ensures var settled := SettleWith(s, lease, now, how).0;
            && IdsMatch(settled)
            && SettleWith(Run(settled, later), lease, again, how2).0 == Run(settled, later)
            && SettleWith(Run(settled, later), lease, again, how2).1.Err?
  {
    var op := Op.Settle(lease, now, how);
    var settled := Apply(s, op);
    ApplyKeepsWellNamed(s, op);
    assert EpochOver(settled, lease.jobId, lease.epoch);
    StaleLeaseIsRefused(settled, later, lease, again, 1, how2);
  }

  // ------------------------------------------------------------ crash budgets

  /** The length of the job's log when it was last replayed. */
  ghost function ReplayMark(ops: seq<Op>, id: JobId): nat {
    if ops == [] then 0
    else
      var before := Reached(Front(ops));
      var op := Last(ops);
      if op.Replay? && op.request.jobId == id && ReplayAllowed(before, op.request, op.effects)
      then |Log(before, id)| else ReplayMark(Front(ops), id)
  }

  lemma {:induction false} CountKindAppend(log: seq<Event>, e: Event, kind: Kind)
    ensures CountKind(log + [e], kind) == CountKind(log, kind) + if e.kind == kind then 1 else 0
  {
    assert Front(log + [e]) == log;
  }

  ghost predicate CrashesSince(v: JobView, mark: nat) {
    mark <= |v.log| && v.job.crashCount == CountKind(v.log[mark..], LeaseExpired)
  }

  lemma StepCountsCrashes(v: JobView, change: Change, w: JobView, mark: nat)
    requires CrashesSince(v, mark) && Steps(v, change, w)
    ensures CrashesSince(w, if change.Replaying? then |v.log| else mark)
  {
    if |w.log| == |v.log| + 1 {
      assert w.log[mark..] == v.log[mark..] + [Last(w.log)];
      CountKindAppend(v.log[mark..], Last(w.log), LeaseExpired);
    } else if change.Replaying? {
      assert w.log[|v.log|..] == [];
    }
  }

  /** The crash count is the number of lease expiries since the last replay. */
  lemma {:induction false} CrashCountIsExact(ops: seq<Op>, id: JobId)
    requires id in Reached(ops).jobs
    ensures CrashesSince(View(Reached(ops), id), ReplayMark(ops, id))
  {
    hide Steps, Apply, CrashesSince;
    if ops == [] {
      assert false;
    } else {
      var before := Reached(Front(ops));
      ReachedStep(ops);
      if id in before.jobs {
        CrashCountIsExact(Front(ops), id);
        var change := ApplyStep(before, Last(ops), id);
        StepCountsCrashes(View(before, id), change, View(Reached(ops), id), ReplayMark(Front(ops), id));
      } else {
        NewJobsAreNewborn(before, Last(ops), id);
        UnbornIsUnmarked(Front(ops), id);
        NewbornNeverCrashed(View(Reached(ops), id));
      }
    }
  }

  lemma NewbornNeverCrashed(v: JobView)
    requires Newborn(v)
    ensures CrashesSince(v, 0)
  {
  }

  lemma {:induction false} UnbornIsUnmarked(ops: seq<Op>, id: JobId)
    requires id !in Reached(ops).jobs
    ensures ReplayMark(ops, id) == 0
  {
    hide Steps, Apply;
    if ops != [] {
      ReachedStep(ops);
      if id in Reached(Front(ops)).jobs {
        var change := ApplyStep(Reached(Front(ops)), Last(ops), id);
      } else {
        UnbornIsUnmarked(Front(ops), id);
      }
    }
  }

  ghost predicate BudgetIs(ops: seq<Op>, budget: int) {
    forall i | 0 <= i < |ops| && ops[i].Reap? :: CrashBudget(ops[i].budget) == budget
  }

  ghost predicate WithinBudget(job: Job, budget: int) {
    Waiting(job) || job.state == Leased ==> job.crashCount < budget
  }

  lemma StepKeepsBudget(v: JobView, change: Change, w: JobView, budget: int, now: Instant)
    requires WithinBudget(v.job, budget) && Steps(v, change, w) && budget > 0
    requires change.Ending? && change.event.kind == LeaseExpired ==> w.job == ReapedRecord(v.job, now, budget)
    ensures WithinBudget(w.job, budget)
  {
  }

  /** While one crash budget is in force, no job that can still run has used it up:
      the sweep parks it at the crash that reaches the budget. */
  lemma {:induction false} NoRunnableJobIsPoisoned(ops: seq<Op>, id: JobId, budget: int)
    requires id in Reached(ops).jobs && budget > 0 && BudgetIs(ops, budget)
    ensures WithinBudget(Reached(ops).jobs[id], budget)
  {
    hide Steps, Apply, ReapedRecord;
    if ops == [] {
      assert false;
    } else {
      var before := Reached(Front(ops));
      var op := Last(ops);
      ReachedStep(ops);
      if id in before.jobs {
        NoRunnableJobIsPoisoned(Front(ops), id, budget);
        var change := ApplyStep(before, op, id);
        StepKeepsBudget(View(before, id), change, View(Reached(ops), id), budget, if op.Reap? then op.now else 0);
      } else {
        NewJobsAreNewborn(before, op, id);
      }
    }
  }
}
