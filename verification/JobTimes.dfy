/**
 What the calls promise about time, told by what later calls can observe: how long a
 lease lasts, from when on a job may be claimed, what a claim takes and what it leaves.
 Every result holds over whole runs and at all times.
 */
module JobTimes {
  import opened Basics
  import opened ClaimSelection
  import opened RateLimit
  import opened Jobs
  import opened JobRuns
  import opened JobTheorems
  import opened LaneTheorems
  import opened SortedSets
  import Admission
  import EffectRecords

  // ------------------------------------------------------------ leases in time

  ghost predicate LeasedUntil(s: Store, lease: Lease, until: Instant) {
    && lease.jobId in s.jobs
    && s.jobs[lease.jobId].state == Leased && LeaseFor(s.jobs[lease.jobId]) == lease
    && s.jobs[lease.jobId].leaseUntil == until
  }

  /** The call renews the lease, settles it, or takes it away. */
  ghost predicate Disturbs(s: Store, op: Op, lease: Lease) {
    || (op.Renew? && op.lease == lease && Jobs.Renew(s, lease, op.now, op.extension).1.Ok?)
    || (op.Settle? && op.lease == lease && SettleWith(s, lease, op.now, op.how).1.Ok?)
    || (op.Reap? && ReapsNow(s, op) && lease.jobId in op.victims)
  }

  ghost predicate Undisturbed(s: Store, ops: seq<Op>, lease: Lease)
    requires IdsMatch(s)
  {
    ops == [] || (Undisturbed(s, Front(ops), lease) && !Disturbs(Run(s, Front(ops)), Last(ops), lease))
  }

  lemma LeaseStays(s: Store, op: Op, lease: Lease, until: Instant)
    requires WellNamed(s) && LeasedUntil(s, lease, until) && !Disturbs(s, op, lease)
    ensures LeasedUntil(Apply(s, op), lease, until)
  {
    var change := ApplyStep(s, op, lease.jobId);
    hide Apply;
  }

  lemma {:induction false} LeaseStaysOn(s: Store, ops: seq<Op>, lease: Lease, until: Instant)
    requires WellNamed(s) && LeasedUntil(s, lease, until) && Undisturbed(s, ops, lease)
    ensures LeasedUntil(Run(s, ops), lease, until)
  {
    hide Apply, Disturbs, LeasedUntil;
    if ops != [] {
      LeaseStaysOn(s, Front(ops), lease, until);
      RunKeepsWellNamed(s, Front(ops));
      LeaseStays(Run(s, Front(ops)), Last(ops), lease, until);
    }
  }

  /** The lease is good exactly before `until`, and exactly from then on a sweep finds it
      expired. A lease that ends at the zero instant is never swept. */
  ghost predicate LastsUntil(s: Store, lease: Lease, until: Instant) {
    forall t: Instant ::
      && (LeaseHolds(s, lease, t) <==> t != ZERO_TIME && t < until)
      && (lease.jobId in ExpiredJobs(s, t) <==> until != ZERO_TIME && until <= t)
  }

  lemma {:induction false} LeaseLasts(s: Store, ops: seq<Op>, lease: Lease, until: Instant)
    requires WellNamed(s) && LeaseComplete(lease) && LeasedUntil(s, lease, until) && Undisturbed(s, ops, lease)
    ensures LastsUntil(Run(s, ops), lease, until)
  {
    LeaseStaysOn(s, ops, lease, until);
    hide Run;
  }

  lemma {:induction false} LeasedJobsAt(s: Store, chosen: seq<Candidate>, input: ClaimInput, k: nat)
    requires forall i | 0 <= i < |chosen| :: chosen[i].id in s.jobs
    requires k < |chosen|
    ensures |LeasedJobs(s, chosen, input)| == |chosen|
    ensures LeasedJobs(s, chosen, input)[k] == LeasedRecord(s.jobs[chosen[k].id], input)
  {
    hide LeasedRecord;
    if |chosen| > 1 { LeasedJobsAt(s, Front(chosen), input, if k < |chosen| - 1 then k else 0); }
  }

  /** What a lease does to a record. */
  ghost predicate Taken(was: Job, job: Job, input: ClaimInput) {
    job == was.(state := Leased, attempts := was.attempts + 1, blockedReason := "", leaseOwner := input.owner,
                leaseEpoch := was.leaseEpoch + 1, leaseUntil := input.now + input.leaseDuration)
  }

  /** The job is waiting, due, in a lane that was asked for and is not paused. */
  ghost predicate Ready(s: Store, id: JobId, input: ClaimInput) {
    && id in s.jobs
    && (s.jobs[id].state == Pending || s.jobs[id].state == RetryWait)
    && s.jobs[id].notBefore <= input.now
    && (input.lanes == [] || s.jobs[id].lane in input.lanes)
    && s.jobs[id].lane !in s.paused
  }

  /** A claim is served exactly when it names an owner, a time, a lease and a batch of at
      most 1000 jobs from at most 256 named lanes. */
  lemma ClaimIsServed(s: Store, input: ClaimInput)
    requires IdsMatch(s)
    ensures Jobs.Claim(s, input).1.Ok? <==>
            && input.owner != "" && input.now != ZERO_TIME && input.leaseDuration > 0
            && 1 <= input.limit <= 1000 && |input.lanes| <= 256 && "" !in input.lanes
    ensures Jobs.Claim(s, input).1.Err? ==> Jobs.Claim(s, input).0 == s
  {
  }

  lemma ChosenAt(s: Store, input: ClaimInput, k: nat)
    requires IdsMatch(s) && ClaimAccepted(input) && k < |SelectionOf(s, input).chosen|
    ensures var (after, jobs) := Jobs.Claim(s, input);
            var id := SelectionOf(s, input).chosen[k].id;
            && id in s.jobs && k < |jobs.value| && id in after.jobs
            && after.jobs[id] == jobs.value[k] == LeasedRecord(s.jobs[id], input)
            && EligibleJob(s, s.jobs[id], input)
  {
    SelectionIsLeasable(s, input);
    var chosen := SelectionOf(s, input).chosen;
    var charged := s.(rates := SelectionOf(s, input).rates);
    LeasedJobsAt(s, chosen, input, k);
    assert forall i | 0 <= i < |chosen| && i != k :: chosen[i].id != chosen[k].id;
    hide LeaseAll, LeasedJobs, LeasedRecord, SelectionOf;
    LeaseAllThere(charged, chosen, input, k);
    assert View(LeaseAll(charged, chosen, input), chosen[k].id).job == LeasedRecord(s.jobs[chosen[k].id], input);
  }

  lemma HandedOutIsChosen(s: Store, input: ClaimInput)
    requires IdsMatch(s) && ClaimAccepted(input)
    ensures |Jobs.Claim(s, input).1.value| == |SelectionOf(s, input).chosen|
  {
    SelectionIsLeasable(s, input);
    var chosen := SelectionOf(s, input).chosen;
    hide SelectionOf, LeasedRecord, LeaseAll;
    if chosen != [] { LeasedJobsAt(s, chosen, input, 0); }
  }

  /** Every job a claim hands out was ready, is stored as handed out, and carries a new
      lease of the asked length. */
  lemma ClaimHandsOut(s: Store, input: ClaimInput, k: nat)
    requires IdsMatch(s) && Jobs.Claim(s, input).1.Ok? && k < |Jobs.Claim(s, input).1.value|
    ensures var (after, jobs) := Jobs.Claim(s, input);
            var job := jobs.value[k];
            && Ready(s, job.id, input) && job.id in after.jobs && after.jobs[job.id] == job
            && Taken(s.jobs[job.id], job, input)
  {
    HandedOutIsChosen(s, input);
    ChosenAt(s, input, k);
    hide Jobs.Claim, SelectionOf;
  }

  /** All of them at once. */
  ghost predicate RightlyHandedOut(s: Store, input: ClaimInput, after: Store, jobs: seq<Job>) {
    forall k | 0 <= k < |jobs| ::
      && Ready(s, jobs[k].id, input) && jobs[k].id in after.jobs && after.jobs[jobs[k].id] == jobs[k]
      && Taken(s.jobs[jobs[k].id], jobs[k], input)
  }

  lemma ClaimIsRight(s: Store, input: ClaimInput)
    requires IdsMatch(s) && Jobs.Claim(s, input).1.Ok?
    ensures RightlyHandedOut(s, input, Jobs.Claim(s, input).0, Jobs.Claim(s, input).1.value)
  {
    forall k | 0 <= k < |Jobs.Claim(s, input).1.value|
      ensures var job := Jobs.Claim(s, input).1.value[k];
              && Ready(s, job.id, input) && job.id in Jobs.Claim(s, input).0.jobs
              && Jobs.Claim(s, input).0.jobs[job.id] == job && Taken(s.jobs[job.id], job, input)
    {
      ClaimHandsOut(s, input, k);
    }
    hide Jobs.Claim, Ready, Taken;
  }

  lemma ReachedLeases(ops: seq<Op>)
    ensures forall id | id in Reached(ops).jobs :: id != "" && Reached(ops).jobs[id].leaseEpoch >= 0
  {
    hide Reached;
    forall id | id in Reached(ops).jobs ensures id != "" && Reached(ops).jobs[id].leaseEpoch >= 0 {
      AttemptLogIsExact(ops, id);
      var n: nat :| 1 <= n <= Reached(ops).nextID && JobIdFor(n) == id;
      assert |JobIdFor(n)| >= 4;
    }
  }

  lemma HandedOutLease(before: seq<Op>, input: ClaimInput, k: nat)
    requires Jobs.Claim(Reached(before), input).1.Ok?
    requires k < |Jobs.Claim(Reached(before), input).1.value|
    ensures var (after, jobs) := Jobs.Claim(Reached(before), input);
            && WellNamed(after) && LeaseComplete(LeaseFor(jobs.value[k]))
            && LeasedUntil(after, LeaseFor(jobs.value[k]), input.now + input.leaseDuration)
  {
    var s := Reached(before);
    var (after, jobs) := Jobs.Claim(s, input);
    ApplyKeepsWellNamed(s, Op.Claim(input));
    assert after == Apply(s, Op.Claim(input));
    ClaimIsServed(s, input);
    ReachedLeases(before);
    hide Reached, Jobs.Claim, Apply, WellNamed;
    ClaimHandsOut(s, input, k);
  }

  /** The lease a claim hands out lasts exactly its duration: through any calls that
      neither renew nor end it, it is good before `now + leaseDuration` and expired from
      then on. */
  lemma ClaimedLeaseLasts(before: seq<Op>, input: ClaimInput, k: nat, ops: seq<Op>)
    requires Jobs.Claim(Reached(before), input).1.Ok?
    requires k < |Jobs.Claim(Reached(before), input).1.value|
    requires var (after, jobs) := Jobs.Claim(Reached(before), input);
             IdsMatch(after) && Undisturbed(after, ops, LeaseFor(jobs.value[k]))
    ensures var (after, jobs) := Jobs.Claim(Reached(before), input);
            LastsUntil(Run(after, ops), LeaseFor(jobs.value[k]), input.now + input.leaseDuration)
  {
    hide Reached, Jobs.Claim, Run, Undisturbed, LastsUntil, LeasedUntil, LeaseComplete;
    var (after, jobs) := Jobs.Claim(Reached(before), input);
    HandedOutLease(before, input, k);
    LeaseLasts(after, ops, LeaseFor(jobs.value[k]), input.now + input.leaseDuration);
  }

  /** A renewal is granted exactly to the holder, and the renewed lease lasts exactly the
      extension. The answer names the end and whether the job is to be cancelled. */
  lemma RenewedLeaseLasts(s: Store, lease: Lease, now: Instant, extension: int, ops: seq<Op>)
    requires WellNamed(s)
    ensures var (after, status) := Jobs.Renew(s, lease, now, extension);
            && (status.Ok? <==> extension > 0 && LeaseHolds(s, lease, now))
            && (status.Err? ==> after == s && status.error == LeaseLost)
            && (status.Ok? ==> status.value == LeaseStatus(now + extension, s.jobs[lease.jobId].cancelRequested)
                               && IdsMatch(after)
                               && (Undisturbed(after, ops, lease) ==>
                                   LastsUntil(Run(after, ops), lease, now + extension)))
  {
    var (after, status) := Jobs.Renew(s, lease, now, extension);
    if status.Ok? {
      ApplyKeepsWellNamed(s, Op.Renew(lease, now, extension));
      assert after == Apply(s, Op.Renew(lease, now, extension));
      assert LeasedUntil(after, lease, now + extension);
      hide Apply, Jobs.Renew, Undisturbed, Run, LastsUntil;
      if Undisturbed(after, ops, lease) { LeaseLasts(after, ops, lease, now + extension); }
    }
  }

  // ------------------------------------------------------ what a claim leaves

  /** A lane without a slot at some instant stays without one while others are served. */
  lemma NoSlotStays(rates: Rates, lane: string, other: string, now: Instant)
    requires !ReserveSlot(rates, lane, now).0
    ensures !ReserveSlot(ReserveSlot(rates, other, now).1, lane, now).0
  {
  }

  /** A candidate that is passed over finds its lane out of slots, or the batch full of
      candidates that come before it. */
  lemma {:induction false} PassedOver(cands: seq<Candidate>, rates: Rates, now: Instant, limit: nat, i: nat)
    requires i < |cands| && cands[i] !in Greedy(cands, rates, now, limit).chosen
    ensures var selection := Greedy(cands, rates, now, limit);
            || !ReserveSlot(selection.rates, cands[i].lane, now).0
            || (|selection.chosen| == limit && forall c | c in selection.chosen :: c in cands[..i])
  {
    var earlier := Greedy(Front(cands), rates, now, limit);
    ChosenAreCandidates(Front(cands), rates, now, limit);
    if i < |cands| - 1 {
      assert Front(cands)[..i] == cands[..i];
      PassedOver(Front(cands), rates, now, limit, i);
      if !ReserveSlot(earlier.rates, cands[i].lane, now).0 {
        NoSlotStays(earlier.rates, cands[i].lane, Last(cands).lane, now);
      }
    } else {
      assert cands[..i] == Front(cands);
    }
  }

  lemma ReadyIsACandidate(s: Store, input: ClaimInput, id: JobId) returns (i: nat)
    requires IdsMatch(s) && Ready(s, id, input)
    ensures i < |Candidates(s, input)| && Candidates(s, input)[i] == Candidate(id, s.jobs[id].lane)
    ensures forall c | c in Candidates(s, input)[..i] ::
              c.id in s.jobs && ClaimBefore(s.jobs[c.id], s.jobs[id], input.now)
  {
    EligibleIsOrdered(s, input);
    SortedLists(ClaimOrder(input.now), Eligible(s, input));
    var order := Sorted(ClaimOrder(input.now), Eligible(s, input));
    assert s.jobs[id] in Eligible(s, input);
    i :| 0 <= i < |order| && order[i] == s.jobs[id];
    var cands := Candidates(s, input);
    hide Eligible, ClaimBefore;
    forall c | c in cands[..i] ensures c.id in s.jobs && ClaimBefore(s.jobs[c.id], s.jobs[id], input.now) {
      var j :| 0 <= j < i && cands[j] == c;
      assert order[j] in Elements(order);
      assert ClaimOrder(input.now)(order[j], order[i]);
    }
  }

  ghost predicate HandedOut(jobs: seq<Job>, id: JobId) { exists k :: 0 <= k < |jobs| && jobs[k].id == id }

  lemma NotHandedOut(s: Store, input: ClaimInput, id: JobId)
    requires IdsMatch(s) && Jobs.Claim(s, input).1.Ok? && !HandedOut(Jobs.Claim(s, input).1.value, id)
    ensures forall c | c in SelectionOf(s, input).chosen :: c.id != id
  {
    var chosen := SelectionOf(s, input).chosen;
    forall c | c in chosen ensures c.id != id {
      var k :| 0 <= k < |chosen| && chosen[k] == c;
      ChosenAt(s, input, k);
      assert Jobs.Claim(s, input).1.value[k].id == s.jobs[c.id].id;
    }
  }

  /** A claim is fair: a ready job it does not hand out has no rate slot left in its lane,
      or the batch is full of jobs that come before it. */
  lemma ClaimIsFair(s: Store, input: ClaimInput, id: JobId)
    requires IdsMatch(s) && Jobs.Claim(s, input).1.Ok? && Ready(s, id, input)
    requires !HandedOut(Jobs.Claim(s, input).1.value, id)
    ensures var (after, jobs) := Jobs.Claim(s, input);
            || !ReserveSlot(after.rates, s.jobs[id].lane, input.now).0
            || (|jobs.value| == input.limit
                && forall k | 0 <= k < |jobs.value| ::
                     jobs.value[k].id in s.jobs && ClaimBefore(s.jobs[jobs.value[k].id], s.jobs[id], input.now))
  {
    var selection := SelectionOf(s, input);
    var (after, jobs) := Jobs.Claim(s, input);
    SelectionIsLeasable(s, input);
    LeaseAllKeepsControls(s.(rates := selection.rates), selection.chosen, input);
    HandedOutIsChosen(s, input);
    NotHandedOut(s, input, id);
    var i := ReadyIsACandidate(s, input, id);
    PassedOver(Candidates(s, input), s.rates, input.now, input.limit, i);
    if ReserveSlot(after.rates, s.jobs[id].lane, input.now).0 {
      forall k | 0 <= k < |jobs.value|
        ensures jobs.value[k].id in s.jobs && ClaimBefore(s.jobs[jobs.value[k].id], s.jobs[id], input.now)
      {
        ChosenAt(s, input, k);
        hide ClaimBefore, Jobs.Claim;
        assert selection.chosen[k] in selection.chosen;
        assert jobs.value[k].id == selection.chosen[k].id;
      }
    }
  }

  /** A claim hands out distinct jobs, at most `limit` of them, and leaves every other job alone. */
  lemma ClaimLeavesTheRest(s: Store, input: ClaimInput)
    requires IdsMatch(s) && Jobs.Claim(s, input).1.Ok?
    ensures var (after, jobs) := Jobs.Claim(s, input);
            && |jobs.value| <= input.limit
            && (forall i, j | 0 <= i < j < |jobs.value| :: jobs.value[i].id != jobs.value[j].id)
            && after.jobs.Keys == s.jobs.Keys
            && (forall id | id in s.jobs && !HandedOut(jobs.value, id) :: after.jobs[id] == s.jobs[id])
  {
    var selection := SelectionOf(s, input);
    var charged := s.(rates := selection.rates);
    var (after, jobs) := Jobs.Claim(s, input);
    SelectionIsLeasable(s, input);
    HandedOutIsChosen(s, input);
    forall i, j | 0 <= i < j < |jobs.value| ensures jobs.value[i].id != jobs.value[j].id {
      ChosenAt(s, input, i);
      ChosenAt(s, input, j);
    }
    forall id | id in s.jobs && !HandedOut(jobs.value, id) ensures after.jobs[id] == s.jobs[id] {
      NotHandedOut(s, input, id);
      assert forall i | 0 <= i < |selection.chosen| :: selection.chosen[i] in selection.chosen;
      LeaseAllElsewhere(charged, selection.chosen, input, id);
      assert View(after, id).job == s.jobs[id];
    }
  }

  // -------------------------------------------------------------- paused lanes

  lemma StepKeepsPause(s: Store, op: Op, lane: string)
    requires WellNamed(s) && lane in s.paused && op != Configure(Paused(lane, false))
    ensures lane in Apply(s, op).paused
  {
    hide LeaseAll, ReapAll, SettleWith, RequestCancel, Jobs.Renew, Jobs.Replay, Jobs.Enqueue;
    match op
    case Enqueue(input) => BatchKeepsControls(s, [input]); SingleBatch(s, input);
    case EnqueueBatch(inputs) => BatchKeepsControls(s, inputs);
    case Claim(input) =>
      if ClaimAccepted(input) {
        SelectionIsLeasable(s, input);
        LeaseAllKeepsControls(s.(rates := SelectionOf(s, input).rates), SelectionOf(s, input).chosen, input);
      }
    case Renew(lease, now, extension) => RenewKeepsTheRest(s, lease, now, extension);
    case Settle(lease, now, how) => SettleKeepsControls(s, lease, now, how);
    case Cancel(id) => CancelKeepsControls(s, id);
    case Reap(victims, now, budget, limit) =>
      if ReapsNow(s, op) { ReapAllKeepsControls(s, victims, now, CrashBudget(budget)); }
    case Replay(request, effects) => ReplayKeepsTheRest(s, request, effects);
    case Configure(_) =>
  }

  lemma SingleBatch(s: Store, input: EnqueueInput)
    ensures EnqueueInOrder(s, [input]).0 == Jobs.Enqueue(s, input).0
  {
    assert Front([input]) == [];
  }

  lemma RenewKeepsTheRest(s: Store, lease: Lease, now: Instant, extension: int)
    ensures var after := Jobs.Renew(s, lease, now, extension).0; after == s.(jobs := after.jobs)
  {
  }

  lemma ReplayKeepsTheRest(s: Store, request: ReplayRequest, effects: set<EffectRecords.EffectState>)
    ensures var after := Jobs.Replay(s, request, effects).0; after == s.(jobs := after.jobs)
  {
    hide Trim;
  }

  /** How often the job was leased; a job that does not exist yet never was. */
  function Epoch(s: Store, id: JobId): int { if id in s.jobs then s.jobs[id].leaseEpoch else 0 }

  lemma PausedStep(s: Store, op: Op, lane: string, id: JobId)
    requires WellNamed(s) && lane in s.paused && id in Apply(s, op).jobs && Apply(s, op).jobs[id].lane == lane
    ensures id in s.jobs ==> s.jobs[id].lane == lane
    ensures Epoch(Apply(s, op), id) == Epoch(s, id)
  {
    if id in s.jobs {
      var change := ApplyStep(s, op, id);
      hide Apply;
    } else {
      NewJobsAreNewborn(s, op, id);
      hide Apply;
    }
  }

  /** While a lane is paused no job of it is leased, whatever else happens. */
  lemma {:induction false} PausedLaneRests(s: Store, ops: seq<Op>, lane: string, id: JobId)
    requires WellNamed(s) && lane in s.paused
    requires forall i | 0 <= i < |ops| :: ops[i] != Configure(Paused(lane, false))
    ensures lane in Run(s, ops).paused
    ensures id in Run(s, ops).jobs && Run(s, ops).jobs[id].lane == lane ==> Epoch(Run(s, ops), id) == Epoch(s, id)
  {
    hide Apply;
    if ops != [] {
      var before := Run(s, Front(ops));
      RunKeepsWellNamed(s, Front(ops));
      PausedLaneRests(s, Front(ops), lane, id);
      StepKeepsPause(before, Last(ops), lane);
      if id in Run(s, ops).jobs && Run(s, ops).jobs[id].lane == lane {
        PausedStep(before, Last(ops), lane, id);
        if id !in before.jobs { KeptThrough(s, Front(ops), id); }
      }
    }
  }

  /** No call forgets a job. */
  lemma {:induction false} KeptThrough(s: Store, ops: seq<Op>, id: JobId)
    requires WellNamed(s)
    ensures id in s.jobs ==> id in Run(s, ops).jobs
  {
    hide Apply;
    if ops != [] && id in s.jobs {
      KeptThrough(s, Front(ops), id);
      RunKeepsWellNamed(s, Front(ops));
      var change := ApplyStep(Run(s, Front(ops)), Last(ops), id);
    }
  }
}
