/**
 What the controls of a lane guarantee over whole runs of the queue: the rate of
 its claims and the size of its backlog.
 */
module LaneTheorems {
  import opened Basics
  import opened RateLimit
  import opened ClaimSelection
  import opened Jobs
  import opened JobRuns
  import opened JobTheorems
  import Admission

  // ---------------------------------------------- one claim as a rate history

  /** How often the greedy loop asks this lane for a slot. */
  function Asked(cands: seq<Candidate>, rates: Rates, now: Instant, limit: nat, lane: string): nat {
    if cands == [] then 0
    else
      Asked(Front(cands), rates, now, limit, lane)
      + if Last(cands).lane == lane && |Greedy(Front(cands), rates, now, limit).chosen| != limit then 1 else 0
  }

  lemma HistorySnoc(s: RateState, times: seq<Instant>, t: Instant)
    ensures After(s, times + [t]) == Reserve(After(s, times), t).1
    ensures Grants(s, times + [t]) == Grants(s, times) + if Reserve(After(s, times), t).0 then [t] else []
  {
    assert Front(times + [t]) == times;
  }

  /** A lane's part of one claim is a history of reservations at one instant. */
  lemma {:induction false} ClaimIsAHistory(cands: seq<Candidate>, rates: Rates, now: Instant, limit: nat, lane: string)
    requires lane in rates
    ensures var asked := Repeat(now, Asked(cands, rates, now, limit, lane));
            var selection := Greedy(cands, rates, now, limit);
            && lane in selection.rates
            && selection.rates[lane] == After(rates[lane], asked)
            && Grants(rates[lane], asked) == Repeat(now, CountLane(selection.chosen, lane))
  {
    if cands != [] {
      hide ReserveSlot, Reserve, After, Grants;
      ClaimIsAHistory(Front(cands), rates, now, limit, lane);
      var before := Greedy(Front(cands), rates, now, limit);
      if |before.chosen| != limit {
        SlotOfLane(before.rates, Last(cands).lane, now, lane);
        CountLaneSnoc(before.chosen, Last(cands), lane);
        if Last(cands).lane == lane {
          HistorySnoc(rates[lane], Repeat(now, Asked(Front(cands), rates, now, limit, lane)), now);
        }
      }
    }
  }

  /** A reservation is `Reserve` on its own lane and nothing on any other. */
  lemma SlotOfLane(rates: Rates, asking: string, now: Instant, lane: string)
    requires lane in rates
    ensures var (granted, next) := ReserveSlot(rates, asking, now);
            && lane in next
            && if asking == lane then (granted, next[lane]) == Reserve(rates[lane], now) else next[lane] == rates[lane]
  {
    RefusedChangesNothing(rates[lane], now);
  }

  lemma RefusedChangesNothing(s: RateState, now: Instant)
    ensures !Reserve(s, now).0 ==> Reserve(s, now).1 == s
  {
  }

  lemma {:induction false} HistoriesConcat(s: RateState, a: seq<Instant>, b: seq<Instant>)
    ensures After(s, a + b) == After(After(s, a), b)
    ensures Grants(s, a + b) == Grants(s, a) + Grants(After(s, a), b)
  {
    if b == [] {
      assert a + b == a;
    } else {
      HistoriesConcat(s, a, Front(b));
      assert Front(a + b) == a + Front(b);
    }
  }

  // -------------------------------------------------------- whole runs of a lane

  /** The reservation attempts one call makes on the lane. */
  ghost function StepAttempts(s: Store, op: Op, lane: string): seq<Instant>
    requires IdsMatch(s)
  {
    if op.Claim? && ClaimAccepted(op.claim)
    then Repeat(op.claim.now, Asked(Candidates(s, op.claim), s.rates, op.claim.now, op.claim.limit, lane)) else []
  }

  /** The instants at which one call leased a job of the lane, one per job. */
  ghost function StepClaims(s: Store, op: Op, lane: string): seq<Instant>
    requires IdsMatch(s)
  {
    if op.Claim? && ClaimAccepted(op.claim)
    then Repeat(op.claim.now, CountLane(SelectionOf(s, op.claim).chosen, lane)) else []
  }

  ghost function LaneAttempts(s: Store, ops: seq<Op>, lane: string): seq<Instant>
    requires IdsMatch(s)
  {
    if ops == [] then [] else LaneAttempts(s, Front(ops), lane) + StepAttempts(Run(s, Front(ops)), Last(ops), lane)
  }

  ghost function LaneClaims(s: Store, ops: seq<Op>, lane: string): seq<Instant>
    requires IdsMatch(s)
  {
    if ops == [] then [] else LaneClaims(s, Front(ops), lane) + StepClaims(Run(s, Front(ops)), Last(ops), lane)
  }

  predicate LimitUnchanged(op: Op, lane: string) {
    !(op.Configure? && (op.setting.RateLimit? || op.setting.NoRateLimit?) && op.setting.lane == lane)
  }

  lemma {:induction false} LeaseAllKeepsControls(s: Store, chosen: seq<Candidate>, input: ClaimInput)
    requires forall i | 0 <= i < |chosen| :: chosen[i].id in s.jobs
    ensures LeaseAll(s, chosen, input).rates == s.rates && LeaseAll(s, chosen, input).admission == s.admission
    ensures LeaseAll(s, chosen, input).byIdem == s.byIdem && LeaseAll(s, chosen, input).paused == s.paused
  {
    if chosen != [] { LeaseAllKeepsControls(s, Front(chosen), input); }
  }

  lemma {:induction false} ReapAllKeepsControls(s: Store, victims: seq<JobId>, now: Instant, budget: int)
    requires forall i | 0 <= i < |victims| :: victims[i] in s.jobs
    ensures ReapAll(s, victims, now, budget).rates == s.rates
    ensures ReapAll(s, victims, now, budget).admission == s.admission
    ensures ReapAll(s, victims, now, budget).byIdem == s.byIdem
    ensures ReapAll(s, victims, now, budget).paused == s.paused
  {
    if victims != [] { ReapAllKeepsControls(s, Front(victims), now, budget); }
  }

  lemma {:induction false} BatchKeepsControls(s: Store, inputs: seq<EnqueueInput>)
    ensures EnqueueInOrder(s, inputs).0.rates == s.rates && EnqueueInOrder(s, inputs).0.admission == s.admission
    ensures EnqueueInOrder(s, inputs).0.paused == s.paused
  {
    if inputs != [] { BatchKeepsControls(s, Front(inputs)); }
  }

  lemma SettleKeepsControls(s: Store, lease: Lease, now: Instant, how: Settlement)
    ensures var after := SettleWith(s, lease, now, how).0;
            after == s.(jobs := after.jobs, attempts := after.attempts, nextEvent := after.nextEvent)
  {
  }

  lemma CancelKeepsControls(s: Store, id: JobId)
    ensures var after := RequestCancel(s, id).0;
            after == s.(jobs := after.jobs, attempts := after.attempts, nextEvent := after.nextEvent)
  {
  }

  /** Only a claim spends rate slots, and it spends exactly what it takes. */
  lemma StepIsAHistory(s: Store, op: Op, lane: string)
    requires IdsMatch(s) && lane in s.rates && LimitUnchanged(op, lane)
    ensures lane in Apply(s, op).rates
    ensures Apply(s, op).rates[lane] == After(s.rates[lane], StepAttempts(s, op, lane))
    ensures StepClaims(s, op, lane) == Grants(s.rates[lane], StepAttempts(s, op, lane))
  {
    hide LeaseAll, ReapAll, SettleWith, RequestCancel;
    match op
    case Enqueue(_) =>
    case EnqueueBatch(inputs) => BatchKeepsControls(s, inputs);
    case Claim(input) =>
      if ClaimAccepted(input) {
        SelectionIsLeasable(s, input);
        LeaseAllKeepsControls(s.(rates := SelectionOf(s, input).rates), SelectionOf(s, input).chosen, input);
        ClaimIsAHistory(Candidates(s, input), s.rates, input.now, input.limit, lane);
      }
    case Renew(_, _, _) =>
    case Settle(lease, now, how) => SettleKeepsControls(s, lease, now, how);
    case Cancel(id) => CancelKeepsControls(s, id);
    case Reap(victims, now, budget, limit) =>
      if ReapsNow(s, op) { ReapAllKeepsControls(s, victims, now, CrashBudget(budget)); }
    case Replay(_, _) =>
    case Configure(_) =>
  }

  lemma {:induction false} RunIsAHistory(s: Store, ops: seq<Op>, lane: string)
    requires IdsMatch(s) && lane in s.rates
    requires forall i | 0 <= i < |ops| :: LimitUnchanged(ops[i], lane)
    ensures lane in Run(s, ops).rates
    ensures Run(s, ops).rates[lane] == After(s.rates[lane], LaneAttempts(s, ops, lane))
    ensures LaneClaims(s, ops, lane) == Grants(s.rates[lane], LaneAttempts(s, ops, lane))
  {
    if ops != [] {
      hide Apply;
      var before := Run(s, Front(ops));
      RunIsAHistory(s, Front(ops), lane);
      StepIsAHistory(before, Last(ops), lane);
      HistoriesConcat(s.rates[lane], LaneAttempts(s, Front(ops), lane), StepAttempts(before, Last(ops), lane));
    }
  }

  predicate IsClaim(op: Op) { op.Claim? && ClaimAccepted(op.claim) }

  /** Claims come with non-decreasing times; all other calls may carry any time. */
  ghost predicate ClaimsInOrder(ops: seq<Op>) {
    forall i, j | 0 <= i < j < |ops| && IsClaim(ops[i]) && IsClaim(ops[j]) :: ops[i].claim.now <= ops[j].claim.now
  }

  ghost predicate TimeOfAClaim(t: Instant, ops: seq<Op>) {
    exists i | 0 <= i < |ops| && IsClaim(ops[i]) :: ops[i].claim.now == t
  }

  lemma ClockedConcat(a: seq<Instant>, b: seq<Instant>, t: Instant)
    requires Clocked(a) && t != ZERO_TIME
    requires (forall x | x in a :: x <= t) && (forall i | 0 <= i < |b| :: b[i] == t)
    ensures Clocked(a + b)
  {
    assert forall i | 0 <= i < |a| :: a[i] in a;
  }

  lemma EarlierClaims(ops: seq<Op>, t: Instant)
    requires ops != [] && ClaimsInOrder(ops) && TimeOfAClaim(t, Front(ops))
    ensures TimeOfAClaim(t, ops)
    ensures IsClaim(Last(ops)) ==> t <= Last(ops).claim.now
  {
    var i :| 0 <= i < |Front(ops)| && IsClaim(Front(ops)[i]) && Front(ops)[i].claim.now == t;
    assert ops[i] == Front(ops)[i];
  }

  lemma LastClaim(ops: seq<Op>)
    requires ops != [] && IsClaim(Last(ops))
    ensures TimeOfAClaim(Last(ops).claim.now, ops)
  {
  }

  lemma {:induction false} AttemptsAreClocked(s: Store, ops: seq<Op>, lane: string)
    requires IdsMatch(s) && ClaimsInOrder(ops)
    ensures Clocked(LaneAttempts(s, ops, lane))
    ensures forall t | t in LaneAttempts(s, ops, lane) :: TimeOfAClaim(t, ops)
  {
    if ops != [] {
      hide Run, Asked, Clocked, TimeOfAClaim;
      AttemptsAreClocked(s, Front(ops), lane);
      var before := Run(s, Front(ops));
      var earlier := LaneAttempts(s, Front(ops), lane);
      forall t | t in earlier
        ensures TimeOfAClaim(t, ops) && (IsClaim(Last(ops)) ==> t <= Last(ops).claim.now)
      {
        EarlierClaims(ops, t);
      }
      if IsClaim(Last(ops)) {
        StepIsConstant(before, Last(ops), lane);
        ClockedConcat(earlier, StepAttempts(before, Last(ops), lane), Last(ops).claim.now);
        LastClaim(ops);
      } else {
        assert LaneAttempts(s, ops, lane) == earlier;
      }
    } else {
      assert Clocked([]);
    }
  }

  lemma StepIsConstant(s: Store, op: Op, lane: string)
    requires IdsMatch(s) && IsClaim(op)
    ensures forall t | t in StepAttempts(s, op, lane) :: t == op.claim.now
    ensures forall i | 0 <= i < |StepAttempts(s, op, lane)| :: StepAttempts(s, op, lane)[i] == op.claim.now
  {
  }

  /** Through any calls on any jobs, from the moment a limit is set and for as long as
      it stays, an interval as long as the window sees less than twice `max` jobs of the
      lane leased; and the leases fall into windows of at most `max` each. */
  lemma LaneRateIsBounded(s: Store, ops: seq<Op>, lane: string, from: Instant)
    requires IdsMatch(s) && lane in s.rates && Fresh(s.rates[lane])
    requires (forall i | 0 <= i < |ops| :: LimitUnchanged(ops[i], lane)) && ClaimsInOrder(ops)
    ensures CountIn(LaneClaims(s, ops, lane), from, from + s.rates[lane].window) <= 2 * s.rates[lane].max - 1
    ensures exists ws ::
              LimitedWindows(ws, s.rates[lane].max, s.rates[lane].window) && Flatten(ws) == LaneClaims(s, ops, lane)
  {
    hide Run, LaneAttempts, LaneClaims, CountIn, Flatten, LimitedWindows, Windows, Clocked, Grants, Describes, After;
    var attempts := LaneAttempts(s, ops, lane);
    RunIsAHistory(s, ops, lane);
    AttemptsAreClocked(s, ops, lane);
    BurstIsBounded(s.rates[lane], attempts, from);
    WindowBounds(s.rates[lane], attempts);
    GrantsFillTheWindows(s.rates[lane], attempts);
  }

  // ------------------------------------------------------------------- backlog

  lemma BacklogGrows(jobs: map<JobId, Job>, job: Job, lane: string)
    requires job.id !in jobs && Waiting(job)
    ensures Backlogged(jobs[job.id := job], lane) == Backlogged(jobs, lane) + if job.lane == lane then {job.id} else {}
    ensures job.id !in Backlogged(jobs, lane)
  {
  }

  /** An enqueue either leaves the jobs alone, or adds one waiting job to a lane whose
      policy had room for it. */
  lemma EnqueueAddsOne(s: Store, input: EnqueueInput)
    requires WellNamed(s)
    ensures var lane := Trim(input.lane);
            var after := Jobs.Enqueue(s, input).0;
            var id := JobIdFor(s.nextID + 1);
            || after.jobs == s.jobs
            || (&& id !in s.jobs && id in after.jobs && after.jobs == s.jobs[id := after.jobs[id]]
                && after.jobs[id].id == id && after.jobs[id].lane == lane && Waiting(after.jobs[id])
                && !Admit(s, lane, input.resourceClass == "critical").OverCapacity?)
  {
    FreshId(s);
    hide Admit;
  }

  /** An accepted job leaves the backlog of its lane within the share of the budget
      its class may use; a job that is refused changes nothing. */
  lemma EnqueueRespectsCapacity(s: Store, input: EnqueueInput, lane: string)
    requires WellNamed(s)
    ensures var before := |Backlogged(s.jobs, lane)|;
            var after := |Backlogged(Jobs.Enqueue(s, input).0.jobs, lane)|;
            && (after == before || (after == before + 1 && lane == Trim(input.lane)))
            && (after > before && lane in s.admission
                && Admission.Normalize(s.admission[lane]).onOverflow != Admission.Delay ==>
                  after <= Admission.Capacity(s.admission[lane], input.resourceClass == "critical"))
  {
    EnqueueAddsOne(s, input);
    hide Jobs.Enqueue;
    var after := Jobs.Enqueue(s, input).0;
    if after.jobs != s.jobs {
      BacklogGrows(s.jobs, after.jobs[JobIdFor(s.nextID + 1)], lane);
    }
  }

  /** The lane refuses work beyond `policy.maxPending`, and nobody changes that. */
  ghost predicate Rejecting(s: Store, lane: string, policy: Admission.Policy) {
    lane in s.admission && s.admission[lane] == policy && Admission.Validate(policy)
      && policy.onOverflow == Admission.Reject
  }

  predicate AdmissionUnchanged(op: Op, lane: string) {
    !(op.Configure? && (op.setting.AdmissionPolicy? || op.setting.NoAdmissionPolicy?) && op.setting.lane == lane)
  }

  /** The jobs of the lane that a call put back into the queue. */
  ghost function Returned(s: Store, op: Op, lane: string): set<JobId>
    requires IdsMatch(s)
  {
    if op.Settle? || op.Reap? || op.Replay? then Backlogged(Apply(s, op).jobs, lane) - Backlogged(s.jobs, lane) else {}
  }

  ghost function TotalReturned(s: Store, ops: seq<Op>, lane: string): nat
    requires IdsMatch(s)
  {
    if ops == [] then 0 else TotalReturned(s, Front(ops), lane) + |Returned(Run(s, Front(ops)), Last(ops), lane)|
  }

  lemma {:induction false} BatchRespectsCapacity(s: Store, inputs: seq<EnqueueInput>, lane: string,
                                                 policy: Admission.Policy)
    requires WellNamed(s) && Rejecting(s, lane, policy)
    ensures |Backlogged(EnqueueInOrder(s, inputs).0.jobs, lane)| <= Max(|Backlogged(s.jobs, lane)|, policy.maxPending)
  {
    if inputs != [] {
      var before := EnqueueInOrder(s, Front(inputs)).0;
      BatchRespectsCapacity(s, Front(inputs), lane, policy);
      BatchOnlyAdds(s, Front(inputs));
      BatchKeepsControls(s, Front(inputs));
      EnqueueRespectsCapacity(before, Last(inputs), lane);
      hide Jobs.Enqueue;
    }
  }

  /** A call other than an enqueue adds to the backlog only what it puts back. */
  lemma StepBacklog(s: Store, op: Op, lane: string)
    requires WellNamed(s) && !op.Enqueue? && !op.EnqueueBatch?
    ensures Backlogged(Apply(s, op).jobs, lane) <= Backlogged(s.jobs, lane) + Returned(s, op, lane)
  {
    hide Apply;
    OthersKeepTheJobs(s, op);
    forall id | id in Backlogged(Apply(s, op).jobs, lane) ensures id in Backlogged(s.jobs, lane) + Returned(s, op, lane)
    {
      var change := ApplyStep(s, op, id);
      if !op.Settle? && !op.Reap? && !op.Replay? { QuietStep(s, op, id, change); }
    }
  }

  lemma QuietStep(s: Store, op: Op, id: JobId, change: Change)
    requires WellNamed(s) && id in s.jobs && id in Apply(s, op).jobs
    requires Steps(View(s, id), change, View(Apply(s, op), id))
    requires !op.Settle? && !op.Reap? && !op.Replay? && Waiting(Apply(s, op).jobs[id])
    requires op.Claim? || op.Renew? || op.Cancel? || op.Configure?
    ensures Waiting(s.jobs[id]) && Apply(s, op).jobs[id].lane == s.jobs[id].lane
  {
    match op
    case Claim(input) => var c := ClaimStep(s, input, id);
    case Renew(lease, now, extension) => var c := RenewStep(s, lease, now, extension, id);
    case Cancel(target) => var c := CancelStep(s, target, id);
    case Configure(setting) => ConfigureStep(s, setting, id);
  }

  lemma StepBacklogBound(s: Store, op: Op, lane: string, policy: Admission.Policy)
    requires WellNamed(s) && Rejecting(s, lane, policy)
    ensures |Backlogged(Apply(s, op).jobs, lane)| <= Max(|Backlogged(s.jobs, lane)|, policy.maxPending)
            + |Returned(s, op, lane)|
  {
    if op.Enqueue? {
      EnqueueRespectsCapacity(s, op.input, lane);
    } else if op.EnqueueBatch? {
      BatchRespectsCapacity(s, op.inputs, lane, policy);
    } else {
      hide Apply;
      StepBacklog(s, op, lane);
      var kept, back := Backlogged(s.jobs, lane), Returned(s, op, lane);
      SubsetCardinality(Backlogged(Apply(s, op).jobs, lane), kept + back);
      assert |kept + back| <= |kept| + |back|;
    }
  }

  lemma StepKeepsAdmission(s: Store, op: Op, lane: string, policy: Admission.Policy)
    requires IdsMatch(s) && Rejecting(s, lane, policy) && AdmissionUnchanged(op, lane)
    ensures Rejecting(Apply(s, op), lane, policy)
  {
    hide LeaseAll, ReapAll, SettleWith, RequestCancel;
    match op
    case Enqueue(_) =>
    case EnqueueBatch(inputs) => BatchKeepsControls(s, inputs);
    case Claim(input) =>
      if ClaimAccepted(input) {
        SelectionIsLeasable(s, input);
        LeaseAllKeepsControls(s.(rates := SelectionOf(s, input).rates), SelectionOf(s, input).chosen, input);
      }
    case Renew(_, _, _) =>
    case Settle(lease, now, how) => SettleKeepsControls(s, lease, now, how);
    case Cancel(id) => CancelKeepsControls(s, id);
    case Reap(victims, now, budget, limit) =>
      if ReapsNow(s, op) { ReapAllKeepsControls(s, victims, now, CrashBudget(budget)); }
    case Replay(_, _) =>
    case Configure(_) =>
  }

  /** Producers never take a rejecting lane past its budget: over any run the backlog
      exceeds `maxPending` by at most the number of jobs workers, sweeps and operators
      put back. In particular a run that puts nothing back stays within the budget. */
  lemma {:induction false} BacklogIsBounded(s: Store, ops: seq<Op>, lane: string, policy: Admission.Policy)
    requires WellNamed(s) && Rejecting(s, lane, policy) && |Backlogged(s.jobs, lane)| <= policy.maxPending
    requires forall i | 0 <= i < |ops| :: AdmissionUnchanged(ops[i], lane)
    ensures |Backlogged(Run(s, ops).jobs, lane)| <= policy.maxPending + TotalReturned(s, ops, lane)
    ensures Rejecting(Run(s, ops), lane, policy)
  {
    if ops != [] {
      hide Apply, Rejecting;
      var before := Run(s, Front(ops));
      BacklogIsBounded(s, Front(ops), lane, policy);
      RunKeepsWellNamed(s, Front(ops));
      StepBacklogBound(before, Last(ops), lane, policy);
      StepKeepsAdmission(before, Last(ops), lane, policy);
    }
  }

  /** The jobs of the lane that the call is meant to put back: a lease given up or to be
      retried, an expired lease whose job has crashes left, a job handed back by an operator. */
  ghost function PutBack(s: Store, op: Op, lane: string): set<JobId>
    requires IdsMatch(s) && (op.Settle? || op.Reap? || op.Replay?)
  {
    match op
    case Settle(lease, now, how) =>
      if && LeaseHolds(s, lease, now) && s.jobs[lease.jobId].lane == lane
         && (how.Releasing? || (how.Failing? && how.transition.state == RetryWait))
      then {lease.jobId} else {}
    case Reap(victims, now, budget, limit) =>
      if ReapsNow(s, op)
      then set id | id in victims && id in s.jobs && s.jobs[id].lane == lane
          && s.jobs[id].crashCount + 1 < CrashBudget(budget)
      else {}
    case Replay(request, effects) =>
      if ReplayAllowed(s, request, effects) && s.jobs[request.jobId].lane == lane then {request.jobId} else {}
  }

  lemma SettlingPutsBack(s: Store, op: Op, lane: string)
    requires IdsMatch(s) && op.Settle?
    ensures Backlogged(Apply(s, op).jobs, lane) == Backlogged(s.jobs, lane) + PutBack(s, op, lane)
    ensures Backlogged(s.jobs, lane) !! PutBack(s, op, lane)
  {
    var jobs := SettledJobs(s, op);
    hide Apply, SettleWith;
  }

  /** A settlement changes the job of the lease and no other. */
  lemma SettledJobs(s: Store, op: Op) returns (jobs: map<JobId, Job>)
    requires IdsMatch(s) && op.Settle?
    ensures Apply(s, op).jobs == jobs
    ensures || jobs == s.jobs
            || (&& LeaseHolds(s, op.lease, op.now) && op.lease.jobId in jobs
                && jobs == s.jobs[op.lease.jobId := jobs[op.lease.jobId]])
    ensures LeaseHolds(s, op.lease, op.now) && (op.how.Failing? ==> FailureState(op.how.transition.state)) ==>
              && op.lease.jobId in jobs && jobs[op.lease.jobId].lane == s.jobs[op.lease.jobId].lane
              && jobs[op.lease.jobId].state ==
                 (match op.how case Completing => JobState.Succeeded case Releasing => RetryWait
                  case Failing(t) => t.state)
    ensures !LeaseHolds(s, op.lease, op.now) || (op.how.Failing? && !FailureState(op.how.transition.state)) ==>
            jobs == s.jobs
  {
    jobs := Apply(s, op).jobs;
  }

  lemma ReplayingPutsBack(s: Store, op: Op, lane: string)
    requires IdsMatch(s) && op.Replay?
    ensures Backlogged(Apply(s, op).jobs, lane) == Backlogged(s.jobs, lane) + PutBack(s, op, lane)
    ensures Backlogged(s.jobs, lane) !! PutBack(s, op, lane)
  {
    hide ReplayAllowed;
    assert ReplayAllowed(s, op.request, op.effects) ==> !Waiting(s.jobs[op.request.jobId]) by {
      ReplayedIsNotWaiting(s, op);
    }
  }

  lemma ReplayedIsNotWaiting(s: Store, op: Op)
    requires op.Replay?
    ensures ReplayAllowed(s, op.request, op.effects) ==>
            op.request.jobId in s.jobs && !Waiting(s.jobs[op.request.jobId])
  {
  }

  lemma ReapedWaits(job: Job, now: Instant, budget: int)
    ensures ReapedRecord(job, now, budget).lane == job.lane
    ensures Waiting(ReapedRecord(job, now, budget)) <==> job.crashCount + 1 < budget
  {
  }

  lemma ReapedMember(s: Store, op: Op, lane: string, id: JobId)
    requires IdsMatch(s) && op.Reap? && ReapsNow(s, op) && id in s.jobs
    ensures var after := ReapAll(s, op.victims, op.now, CrashBudget(op.budget));
            && (id in Backlogged(after.jobs, lane) <==> id in Backlogged(s.jobs, lane) || id in PutBack(s, op, lane))
            && !(id in Backlogged(s.jobs, lane) && id in PutBack(s, op, lane))
  {
    hide ReapAll, ReapedRecord;
    ReapAllEffect(s, op.victims, op.now, CrashBudget(op.budget), id);
    assert id in op.victims ==> id in ExpiredJobs(s, op.now);
    hide IdsMatch, ReapsNow;
    ReapedWaits(s.jobs[id], op.now, CrashBudget(op.budget));
  }

  lemma ReapingPutsBack(s: Store, op: Op, lane: string)
    requires IdsMatch(s) && op.Reap?
    ensures Backlogged(Apply(s, op).jobs, lane) == Backlogged(s.jobs, lane) + PutBack(s, op, lane)
    ensures Backlogged(s.jobs, lane) !! PutBack(s, op, lane)
  {
    if ReapsNow(s, op) {
      var after := ReapAll(s, op.victims, op.now, CrashBudget(op.budget));
      assert Apply(s, op) == after && after.jobs.Keys == s.jobs.Keys;
      assert forall id | id in PutBack(s, op, lane) :: id in s.jobs;
      hide ReapAll, Apply, PutBack, ReapsNow, IdsMatch;
      forall id | id in s.jobs
        ensures id in Backlogged(after.jobs, lane) <==> id in Backlogged(s.jobs, lane) || id in PutBack(s, op, lane)
        ensures !(id in Backlogged(s.jobs, lane) && id in PutBack(s, op, lane))
      {
        ReapedMember(s, op, lane, id);
      }
    }
  }

  lemma CallsPutBack(s: Store, op: Op, lane: string)
    requires IdsMatch(s) && (op.Settle? || op.Reap? || op.Replay?)
    ensures Backlogged(Apply(s, op).jobs, lane) == Backlogged(s.jobs, lane) + PutBack(s, op, lane)
    ensures Backlogged(s.jobs, lane) !! PutBack(s, op, lane)
  {
    hide Apply, PutBack, Backlogged, IdsMatch;
    if op.Settle? { SettlingPutsBack(s, op, lane); }
    else if op.Reap? { ReapingPutsBack(s, op, lane); }
    else { ReplayingPutsBack(s, op, lane); }
  }

  lemma Joined<T>(whole: set<T>, a: set<T>, b: set<T>)
    requires whole == a + b && a !! b
    ensures |whole| == |a| + |b| && whole - a == b
  {
  }

  /** The excess is real: workers, sweeps and operators put back exactly the jobs they are
      meant to, whatever the lane's policy says, and the backlog grows by their number. */
  lemma GivingBackIgnoresTheBudget(s: Store, op: Op, lane: string)
    requires WellNamed(s) && (op.Settle? || op.Reap? || op.Replay?)
    ensures Returned(s, op, lane) == PutBack(s, op, lane)
    ensures |Backlogged(Apply(s, op).jobs, lane)| == |Backlogged(s.jobs, lane)| + |PutBack(s, op, lane)|
  {
    CallsPutBack(s, op, lane);
    Joined(Backlogged(Apply(s, op).jobs, lane), Backlogged(s.jobs, lane), PutBack(s, op, lane));
    hide Apply, PutBack, Backlogged, WellNamed;
  }
}
