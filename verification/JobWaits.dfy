/**
 From when on a job may be claimed: after it was enqueued, given back, failed, reaped or
 replayed, and what a cancellation stops. Every result holds through any later calls.
 */
module JobWaits {
  import opened Basics
  import opened Jobs
  import opened JobRuns
  import opened JobTheorems
  import opened JobTimes
  import Admission
  import EffectRecords

  // --------------------------------------------------------- until a job is due

  /** The job has not been leased since epoch `epoch`: it waits for `due`, or was cancelled. */
  ghost predicate RestsUntil(s: Store, id: JobId, due: Instant, epoch: int) {
    id in s.jobs && Rests(s.jobs[id], due, epoch)
  }

  ghost predicate Rests(job: Job, due: Instant, epoch: int) {
    job.leaseEpoch == epoch && (job.state == JobState.Cancelled || (Waiting(job) && job.notBefore == due))
  }

  /** Claims come before `due`; all other calls may carry any time. */
  ghost predicate ClaimsBefore(ops: seq<Op>, due: Instant) {
    forall i | 0 <= i < |ops| && ops[i].Claim? :: ops[i].claim.now < due
  }

  lemma RestingSteps(v: JobView, change: Change, w: JobView, due: Instant, epoch: int)
    requires Rests(v.job, due, epoch) && Steps(v, change, w) && (change.Leasing? ==> change.input.now < due)
    ensures Rests(w.job, due, epoch)
  {
  }

  lemma OnlyClaimsLease(s: Store, op: Op, id: JobId, change: Change)
    requires id in s.jobs && Causes(s, op, id, change) && change.Leasing?
    ensures op.Claim? && op.claim == change.input
  {
  }

  lemma RestStep(s: Store, op: Op, id: JobId, due: Instant, epoch: int)
    requires WellNamed(s) && RestsUntil(s, id, due, epoch) && (op.Claim? ==> op.claim.now < due)
    ensures RestsUntil(Apply(s, op), id, due, epoch)
  {
    var change := ApplyStep(s, op, id);
    if change.Leasing? { OnlyClaimsLease(s, op, id, change); }
    hide Apply, Steps, Causes, Rests;
    RestingSteps(View(s, id), change, View(Apply(s, op), id), due, epoch);
  }

  lemma {:induction false} RestsThrough(s: Store, ops: seq<Op>, id: JobId, due: Instant, epoch: int)
    requires WellNamed(s) && RestsUntil(s, id, due, epoch) && ClaimsBefore(ops, due)
    ensures RestsUntil(Run(s, ops), id, due, epoch)
  {
    hide Apply, RestsUntil;
    if ops != [] {
      RestsThrough(s, Front(ops), id, due, epoch);
      RunKeepsWellNamed(s, Front(ops));
      RestStep(Run(s, Front(ops)), Last(ops), id, due, epoch);
    }
  }

  /** How long the admission policy of its lane holds a new job back. */
  function HeldBack(s: Store, input: EnqueueInput): int {
    var lane := Trim(input.lane);
    if lane !in s.admission then 0
    else
      var policy := s.admission[lane];
      var places := policy.maxPending - if input.resourceClass == "critical" then 0 else policy.reservedCritical;
      if |Backlogged(s.jobs, lane)| < places then 0
      else if policy.delayBy > 0 then policy.delayBy else 30_000_000_000
  }

  function EnqueuedFor(s: Store, input: EnqueueInput): Instant {
    var due := input.now + input.runAfter + HeldBack(s, input);
    if due == ZERO_TIME then input.now else due
  }

  /** The instant for which the call announces the job it puts in line. */
  ghost predicate Announces(s: Store, op: Op, due: Instant) {
    match op
    case Enqueue(input) => due == EnqueuedFor(s, input)
    case EnqueueBatch(inputs) =>
      exists k | 0 <= k < |inputs| :: due == EnqueuedFor(EnqueueInOrder(s, inputs[..k]).0, inputs[k])
    case Settle(_, now, how) => due == if how.Failing? then now + Max(how.transition.retryIn, 0) else now
    case Reap(_, now, _, _) => due == now
    case Replay(request, _) => due == request.requestedAt
    case _ => false
  }

  /** The call puts the job in line: it waits afterwards and did not before. */
  ghost predicate PutsInLine(s: Store, op: Op, id: JobId)
    requires IdsMatch(s)
  {
    id in Apply(s, op).jobs && Waiting(Apply(s, op).jobs[id]) && (id in s.jobs ==> !Waiting(s.jobs[id]))
  }

  lemma EnqueuedIsDue(s: Store, input: EnqueueInput, id: JobId)
    requires WellNamed(s) && id !in s.jobs && id in Jobs.Enqueue(s, input).0.jobs
    ensures Jobs.Enqueue(s, input).0.jobs[id].notBefore == EnqueuedFor(s, input)
  {
    hide Trim, Backlogged;
  }

  lemma {:induction false} BatchIsDue(s: Store, inputs: seq<EnqueueInput>, id: JobId) returns (k: nat)
    requires WellNamed(s) && id !in s.jobs && id in EnqueueInOrder(s, inputs).0.jobs
    ensures k < |inputs|
    ensures EnqueueInOrder(s, inputs).0.jobs[id].notBefore
            == EnqueuedFor(EnqueueInOrder(s, inputs[..k]).0, inputs[k])
  {
    hide Jobs.Enqueue, EnqueuedFor, WellNamed;
    var front := Front(inputs);
    var before := EnqueueInOrder(s, front).0;
    BatchOnlyAdds(s, front);
    if id in before.jobs {
      k := BatchIsDue(s, front, id);
      assert front[..k] == inputs[..k];
      EnqueueOnlyAdds(before, Last(inputs));
    } else {
      k := |inputs| - 1;
      assert inputs[..k] == front;
      EnqueuedIsDue(before, Last(inputs), id);
    }
  }

  lemma SettledIsDue(s: Store, lease: Lease, now: Instant, how: Settlement, id: JobId)
    requires IdsMatch(s) && id in s.jobs && !Waiting(s.jobs[id])
    requires Waiting(SettleWith(s, lease, now, how).0.jobs[id])
    ensures Announces(s, Op.Settle(lease, now, how), SettleWith(s, lease, now, how).0.jobs[id].notBefore)
  {
  }

  lemma ReapedIsDue(s: Store, op: Op, id: JobId)
    requires WellNamed(s) && op.Reap? && id in s.jobs && PutsInLine(s, op, id)
    ensures Apply(s, op).jobs[id].notBefore == op.now
  {
    var change := ApplyStep(s, op, id);
    hide Apply;
  }

  lemma NewIsDue(s: Store, op: Op, id: JobId)
    requires WellNamed(s) && id !in s.jobs && id in Apply(s, op).jobs
    ensures Announces(s, op, Apply(s, op).jobs[id].notBefore)
  {
    if op.Enqueue? {
      EnqueuedIsDue(s, op.input, id);
    } else if op.EnqueueBatch? {
      var k := BatchIsDue(s, op.inputs, id);
    } else {
      OthersKeepTheJobs(s, op);
    }
  }

  /** Only these calls put a job in line, and it is due at the instant they announce. */
  lemma InLineIsDue(s: Store, op: Op, id: JobId)
    requires WellNamed(s) && PutsInLine(s, op, id)
    ensures Announces(s, op, Apply(s, op).jobs[id].notBefore)
  {
    if id in s.jobs {
      var change := ApplyStep(s, op, id);
      if op.Settle? { SettledIsDue(s, op.lease, op.now, op.how, id); }
      hide Apply, SettleWith;
      if op.Reap? { ReapedIsDue(s, op, id); }
    } else {
      NewIsDue(s, op, id);
    }
  }

  /** A job that a call put in line may be claimed exactly from its announced instant on:
      through any calls whose claims come earlier it is not leased, and, unless it was
      cancelled, it is ready for a claim of its lane if and only if the claim does not come
      too early. */
  lemma WaitsUntilDue(s: Store, op: Op, id: JobId, ops: seq<Op>, input: ClaimInput, due: Instant)
    requires WellNamed(s) && PutsInLine(s, op, id)
    requires due == Apply(s, op).jobs[id].notBefore && ClaimsBefore(ops, due)
    ensures Announces(s, op, due)
    ensures var after := Run(Apply(s, op), ops);
            && id in after.jobs && after.jobs[id].state != Leased
            && after.jobs[id].leaseEpoch == Apply(s, op).jobs[id].leaseEpoch
            && (Ready(after, id, input) <==>
                && after.jobs[id].state != JobState.Cancelled && due <= input.now
                && (input.lanes == [] || after.jobs[id].lane in input.lanes) && after.jobs[id].lane !in after.paused)
  {
    ApplyKeepsWellNamed(s, op);
    InLineIsDue(s, op, id);
    hide Apply, Announces, Run, ClaimsBefore;
    RestsThrough(Apply(s, op), ops, id, due, Apply(s, op).jobs[id].leaseEpoch);
  }

  // ------------------------------------------------------------ jobs that ended

  predicate Finished(job: Job) { job.state == JobState.Succeeded || job.state == JobState.Cancelled }

  /** A job that succeeded or was cancelled never changes again. */
  lemma {:induction false} FinishedStays(s: Store, ops: seq<Op>, id: JobId)
    requires WellNamed(s) && id in s.jobs && Finished(s.jobs[id])
    ensures id in Run(s, ops).jobs && Run(s, ops).jobs[id] == s.jobs[id]
  {
    hide Apply;
    if ops != [] {
      FinishedStays(s, Front(ops), id);
      RunKeepsWellNamed(s, Front(ops));
      var change := ApplyStep(Run(s, Front(ops)), Last(ops), id);
    }
  }

  ghost predicate Replayed(s: Store, op: Op, id: JobId) {
    op.Replay? && op.request.jobId == id && ReplayAllowed(s, op.request, op.effects)
  }

  ghost predicate NeverReplayed(s: Store, ops: seq<Op>, id: JobId)
    requires IdsMatch(s)
  {
    ops == [] || (NeverReplayed(s, Front(ops), id) && !Replayed(Run(s, Front(ops)), Last(ops), id))
  }

  lemma {:induction false} FlagStays(s: Store, ops: seq<Op>, id: JobId)
    requires WellNamed(s) && id in s.jobs && s.jobs[id].cancelRequested && NeverReplayed(s, ops, id)
    ensures id in Run(s, ops).jobs && Run(s, ops).jobs[id].cancelRequested
  {
    hide Apply;
    if ops != [] {
      FlagStays(s, Front(ops), id);
      RunKeepsWellNamed(s, Front(ops));
      var change := ApplyStep(Run(s, Front(ops)), Last(ops), id);
    }
  }

  lemma CancelEffect(s: Store, id: JobId)
    requires WellNamed(s) && id in s.jobs
    ensures var after := RequestCancel(s, id).0;
            && RequestCancel(s, id).1.Ok? && WellNamed(after) && id in after.jobs
            && (s.jobs[id].state == Leased ==> after.jobs[id] == s.jobs[id].(cancelRequested := true))
            && (Waiting(s.jobs[id]) || s.jobs[id].state == JobState.Blocked ==>
                  after.jobs[id].state == JobState.Cancelled)
  {
    ApplyKeepsWellNamed(s, Op.Cancel(id));
    assert Apply(s, Op.Cancel(id)) == RequestCancel(s, id).0;
    hide Apply, WellNamed;
  }

  /** A cancellation is not lost. A running job is flagged, and every renewal reports the
      flag until the job is replayed; a job that was waiting or blocked is cancelled and
      never changes again. */
  lemma CancelIsKept(s: Store, id: JobId, ops: seq<Op>, lease: Lease, now: Instant, extension: int)
    requires WellNamed(s) && id in s.jobs && lease.jobId == id
    ensures var after := RequestCancel(s, id).0;
            && RequestCancel(s, id).1.Ok? && IdsMatch(after) && id in after.jobs
            && (s.jobs[id].state == Leased && NeverReplayed(after, ops, id) ==>
                  var status := Jobs.Renew(Run(after, ops), lease, now, extension).1;
                  status.Ok? ==> status.value.cancelRequested)
            && (Waiting(s.jobs[id]) || s.jobs[id].state == JobState.Blocked ==>
                  && after.jobs[id].state == JobState.Cancelled
                  && id in Run(after, ops).jobs && Run(after, ops).jobs[id] == after.jobs[id])
  {
    CancelEffect(s, id);
    hide RequestCancel, Run, NeverReplayed;
    var after := RequestCancel(s, id).0;
    if s.jobs[id].state == Leased && NeverReplayed(after, ops, id) { FlagStays(after, ops, id); }
    if Waiting(s.jobs[id]) || s.jobs[id].state == JobState.Blocked { FinishedStays(after, ops, id); }
  }
}
