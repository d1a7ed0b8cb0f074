/**
 The in-memory job store: the same state as `Jobs.Store`, updated in place. Every
 method is proved to do what the function of the same name describes.
 */
module JobStores {
  import opened Basics
  import opened RateLimit
  import opened ClaimSelection
  import opened SortedSets
  import opened Jobs
  import JobRuns
  import JobTimes
  import Admission
  import EffectRecords

  datatype ReapResult = ReapResult(requeued: nat, blocked: nat, expired: seq<ExpiredLease>, saturated: bool)

  function VictimIds(expired: seq<ExpiredLease>): (ids: seq<JobId>)
    ensures |ids| == |expired| && forall i | 0 <= i < |expired| :: ids[i] == expired[i].jobId
  {
    if expired == [] then [] else VictimIds(Front(expired)) + [Last(expired).jobId]
  }

  /** How many of these leases are the last crash their jobs had left. */
  function Poisoned(s: Store, expired: seq<ExpiredLease>, budget: int): (n: nat)
    requires NamesEpochs(s, expired)
    ensures n <= |expired|
  {
    if expired == [] then 0
    else Poisoned(s, Front(expired), budget) + if s.jobs[Last(expired).jobId].crashCount + 1 >= budget then 1 else 0
  }

  lemma PoisonedSnoc(s: Store, expired: seq<ExpiredLease>, item: ExpiredLease, budget: int)
    requires NamesEpochs(s, expired) && NamesEpochs(s, expired + [item]) && item.jobId in s.jobs
    ensures Poisoned(s, expired + [item], budget)
         == Poisoned(s, expired, budget) + if s.jobs[item.jobId].crashCount + 1 >= budget then 1 else 0
  {
    assert Front(expired + [item]) == expired;
  }

  /** The batch names the epochs that died. */
  ghost predicate NamesEpochs(s: Store, expired: seq<ExpiredLease>) {
    forall i | 0 <= i < |expired| ::
        expired[i].jobId in s.jobs && expired[i].epoch == s.jobs[expired[i].jobId].leaseEpoch
  }

  /** Once the batch is full, further candidates change nothing. */
  lemma FullBatchStops(order: seq<Candidate>, i: nat, rates: Rates, now: Instant, limit: nat)
    requires i <= |order| && |Greedy(order[..i], rates, now, limit).chosen| == limit
    ensures Greedy(order, rates, now, limit) == Greedy(order[..i], rates, now, limit)
  {
    assert order == order[..i] + order[i..];
    GreedyStops(order[..i], order[i..], rates, now, limit);
  }

  class JobStore {
    var nextID: nat
    var nextEvent: nat
    var jobs: map<JobId, Job>
    var attempts: map<JobId, seq<Event>>
    var byIdem: map<string, JobId>
    var paused: set<string>
    var rates: map<string, RateState>
    var admission: map<string, Admission.Policy>

    function Contents(): Store
      reads this
    {
      Store(nextID, nextEvent, jobs, attempts, byIdem, paused, rates, admission)
    }

    ghost predicate Valid()
      reads this
    {
      IdsMatch(Contents())
    }

    constructor ()
      ensures Valid() && Contents() == EMPTY_STORE
    {
      nextID, nextEvent := 0, 0;
      jobs, attempts, byIdem, paused, rates, admission := map[], map[], map[], {}, map[], map[];
    }

    method AppendAttempt(e: Event)
      modifies this`nextEvent, this`attempts
      ensures Contents() == Jobs.AppendAttempt(old(Contents()), e)
    {
      nextEvent := nextEvent + 1;
      var log := if e.jobId in attempts then attempts[e.jobId] else [];
      attempts := attempts[e.jobId := log + [e.(sequence := nextEvent)]];
    }

    // --------------------------------------------------------------- enqueue

    method PendingCount(lane: string) returns (count: nat)
      ensures count == |Backlogged(jobs, lane)|
    {
      count := 0;
      var todo := jobs.Keys;
      ghost var seen: set<JobId> := {};
      while todo != {}
        invariant todo <= jobs.Keys
        invariant seen == (set id | id in jobs && id !in todo && jobs[id].lane == lane && Waiting(jobs[id]))
        invariant count == |seen|
        decreases todo
      {
        var id :| id in todo;
        if jobs[id].lane == lane && Waiting(jobs[id]) {
          count := count + 1;
          seen := seen + {id};
        }
        todo := todo - {id};
      }
      assert seen == Backlogged(jobs, lane);
    }

    method Enqueue(input: EnqueueInput) returns (result: Result<JobId, JobError>)
      requires Valid()
      modifies this`nextID, this`jobs, this`byIdem
      ensures Valid() && (Contents(), result) == Jobs.Enqueue(old(Contents()), input)
    {
      var lane := Trim(input.lane);
      var scope := Scope(lane, input.idempotencyKey);
      if input.idempotencyKey != "" && scope in byIdem { return Ok(byIdem[scope]); }
      if !IdentityAccepted(input) || input.runAfter < 0 { return Err(InvalidInput); }
      var notBefore := input.now + input.runAfter;
      if lane in admission {
        var pending := PendingCount(lane);
        var decision := Admission.Decide(admission[lane], pending, input.resourceClass == "critical");
        if decision.OverCapacity? {
          return Err(OverCapacity(decision.pending, decision.capacity, decision.retryAfter));
        }
        if decision.Defer? { notBefore := notBefore + decision.deferBy; }
      }
      if !SpecAccepted(input) { return Err(InvalidInput); }
      nextID := nextID + 1;
      var id := JobIdFor(nextID);
      jobs := jobs[id := NewJob(id, input, notBefore)];
      if input.idempotencyKey != "" { byIdem := byIdem[scope := id]; }
      return Ok(id);
    }

    /** All inputs or none: the producer state is put back if any of them fails. */
    method EnqueueBatch(inputs: seq<EnqueueInput>) returns (result: Result<seq<JobId>, JobError>)
      requires Valid()
      modifies this`nextID, this`jobs, this`byIdem
      ensures Valid() && (Contents(), result) == Jobs.EnqueueBatch(old(Contents()), inputs)
    {
      if |inputs| == 0 || |inputs| > MAX_ENQUEUE_BATCH { return Err(InvalidInput); }
      var savedJobs, savedIndex, savedID := jobs, byIdem, nextID;
      ghost var s0 := Contents();
      var ids: seq<JobId> := [];
      for i := 0 to |inputs|
        invariant Valid() && s0 == old(Contents())
        invariant (Contents(), Result.Ok(ids)) == EnqueueInOrder(s0, inputs[..i])
        invariant Contents() == s0.(jobs := jobs, byIdem := byIdem, nextID := nextID)
      {
        hide Jobs.Enqueue;
        var id := Enqueue(inputs[i]);
        assert Front(inputs[..i + 1]) == inputs[..i];
        if id.Err? {
          JobRuns.FailureStays(s0, inputs, i + 1);
          jobs, byIdem, nextID := savedJobs, savedIndex, savedID;
          return Err(id.error);
        }
        ids := ids + [id.value];
      }
      assert inputs[..|inputs|] == inputs;
      return Ok(ids);
    }

    // ----------------------------------------------------------------- claim

    method CollectEligible(input: ClaimInput) returns (eligible: set<Job>)
      ensures eligible == Eligible(Contents(), input)
    {
      eligible := {};
      var todo := jobs.Keys;
      while todo != {}
        invariant todo <= jobs.Keys
        invariant eligible == set id | id in jobs && id !in todo && EligibleJob(Contents(), jobs[id], input) :: jobs[id]
        decreases todo
      {
        var id :| id in todo;
        var job := jobs[id];
        if (input.lanes == [] || job.lane in input.lanes) && Claimable(job, input.now) && job.lane !in paused {
          eligible := eligible + {job};
        }
        todo := todo - {id};
      }
    }

    method ReserveRateSlot(lane: string, now: Instant) returns (granted: bool)
      modifies this`rates
      ensures (granted, rates) == ReserveSlot(old(rates), lane, now)
    {
      if lane !in rates { return true; }
      var state := rates[lane];
      if state.started == ZERO_TIME || now >= state.started + state.window {
        rates := rates[lane := state.(started := now, count := 1)];
        return true;
      }
      if state.count >= state.max { return false; }
      rates := rates[lane := state.(count := state.count + 1)];
      return true;
    }

    /** Lease the eligible jobs in claim order, as many as rate slots and limit allow. Every
        job handed out was ready and is leased for the asked time. */
    method Claim(input: ClaimInput) returns (result: Result<seq<Job>, JobError>)
      requires Valid()
      modifies this`nextEvent, this`jobs, this`attempts, this`rates
      ensures Valid() && (Contents(), result) == Jobs.Claim(old(Contents()), input)
      ensures result.Ok? ==> JobTimes.RightlyHandedOut(old(Contents()), input, Contents(), result.value)
    {
      hide JobTimes.RightlyHandedOut;
      if !ClaimAccepted(input) { return Err(InvalidInput); }
      ghost var s0 := Contents();
      var eligible := CollectEligible(input);
      EligibleIsOrdered(s0, input);
      var order := SortSet(ClaimOrder(input.now), eligible);
      CandidatesAreJobs(s0, input);
      OrderListsJobs(s0, input, order);
      var claimed := LeaseInOrder(order, input, s0);
      JobTimes.ClaimIsRight(s0, input);
      return Ok(claimed);
    }

    method LeaseInOrder(order: seq<Job>, input: ClaimInput, ghost s0: Store) returns (claimed: seq<Job>)
      requires Valid() && s0 == Contents() && ClaimAccepted(input)
      requires AsCandidates(order) == Candidates(s0, input) && ListsJobs(s0, order)
      modifies this`nextEvent, this`jobs, this`attempts, this`rates
      ensures HandedOut(s0, SelectionOf(s0, input), input, Contents(), claimed)
    {
      hide HandedOut, Jobs.AppendAttempt, LeasedRecord, ClaimedEvent, Greedy, Candidates;
      ghost var cands := AsCandidates(order);
      claimed := [];
      var i := 0;
      NothingLeased(s0, order, input);
      while i < |order| && |claimed| != input.limit
        invariant 0 <= i <= |order|
        invariant HandedOut(s0, Chosen(s0, order, i, input), input, Contents(), claimed)
        invariant |claimed| == |Chosen(s0, order, i, input).chosen|
      {
        var job := order[i];
        ghost var was := Contents();
        NextCandidate(s0, order, i, input, was, claimed);
        var granted := ReserveRateSlot(job.lane, input.now);
        if granted {
          var leased := LeasedRecord(job, input);
          jobs := jobs[job.id := leased];
          AppendAttempt(ClaimedEvent(leased, input.now));
          claimed := claimed + [leased];
        }
        i := i + 1;
      }
      assert cands[..|order|] == cands;
      if |claimed| == input.limit { FullBatchStops(cands, i, s0.rates, input.now, input.limit); }
    }

    // ------------------------------------------------------- leases, settling

    method RenewLease(lease: Lease, now: Instant, extension: int) returns (result: Result<LeaseStatus, JobError>)
      requires Valid()
      modifies this`jobs
      ensures Valid() && (Contents(), result) == Renew(old(Contents()), lease, now, extension)
      ensures result.Ok? ==> lease.jobId in jobs && jobs[lease.jobId].leaseUntil == now + extension
    {
      if extension <= 0 || !LeaseHolds(Contents(), lease, now) { return Err(LeaseLost); }
      var job := jobs[lease.jobId].(leaseUntil := now + extension);
      jobs := jobs[job.id := job];
      return Ok(LeaseStatus(job.leaseUntil, job.cancelRequested));
    }

    method Complete(lease: Lease, now: Instant) returns (result: Result<(), JobError>)
      requires Valid()
      modifies this`jobs, this`nextEvent, this`attempts
      ensures Valid() && (Contents(), result) == Jobs.Complete(old(Contents()), lease, now)
    {
      if !LeaseHolds(Contents(), lease, now) { return Err(LeaseLost); }
      var job := jobs[lease.jobId].(state := JobState.Succeeded, leaseOwner := "", leaseUntil := ZERO_TIME);
      jobs := jobs[job.id := job];
      AppendAttempt(EndedEvent(lease, job.attempts, Kind.Succeeded, JobState.Succeeded, "", "", now));
      return Ok(());
    }

    method ReleaseLease(lease: Lease, now: Instant) returns (result: Result<(), JobError>)
      requires Valid()
      modifies this`jobs, this`nextEvent, this`attempts
      ensures Valid() && (Contents(), result) == Release(old(Contents()), lease, now)
      ensures result.Ok? ==>
              lease.jobId in jobs && jobs[lease.jobId].state == RetryWait && jobs[lease.jobId].notBefore == now
    {
      if !LeaseHolds(Contents(), lease, now) { return Err(LeaseLost); }
      var job := jobs[lease.jobId];
      var releasedAttempt := job.attempts;
      job := job.(state := RetryWait, notBefore := now, leaseOwner := "", leaseUntil := ZERO_TIME);
      if job.attempts > 0 { job := job.(attempts := job.attempts - 1); }
      jobs := jobs[job.id := job];
      AppendAttempt(EndedEvent(lease, releasedAttempt, Released, RetryWait, "", "", now));
      return Ok(());
    }

    method Fail(lease: Lease, now: Instant, transition: FailureTransition) returns (result: Result<(), JobError>)
      requires Valid()
      modifies this`jobs, this`nextEvent, this`attempts
      ensures Valid() && (Contents(), result) == Jobs.Fail(old(Contents()), lease, now, transition)
      ensures result.Ok? ==>
              && lease.jobId in jobs && jobs[lease.jobId].state == transition.state
              && jobs[lease.jobId].notBefore == (if transition.retryIn > 0 then now + transition.retryIn else now)
    {
      if !LeaseComplete(lease) || now == ZERO_TIME { return Err(LeaseLost); }
      if !FailureState(transition.state) { return Err(InvalidInput); }
      if !Authoritative(Contents(), lease, now) { return Err(LeaseLost); }
      var job := jobs[lease.jobId];
      var retryIn := if transition.retryIn < 0 then 0 else transition.retryIn;
      job := job.(state := transition.state, notBefore := now + retryIn, blockedReason := "", leaseOwner := "",
                  leaseUntil := ZERO_TIME);
      if transition.state == JobState.Blocked {
        job := job.(blockedReason := transition.blockedReason);
        if job.blockedReason == "" { job := job.(blockedReason := BLOCKED_UNCLASSIFIED); }
      }
      jobs := jobs[job.id := job];
      AppendAttempt(EndedEvent(lease, job.attempts, ResultKind(transition.state), transition.state,
                               transition.failureClass, job.blockedReason, now));
      return Ok(());
    }

    method RequestCancel(id: JobId) returns (result: Result<(), JobError>)
      requires Valid()
      modifies this`jobs
      ensures Valid() && (Contents(), result) == Jobs.RequestCancel(old(Contents()), id)
    {
      if id !in jobs { return Err(JobNotFound); }
      var job := jobs[id];
      if Waiting(job) || job.state == JobState.Blocked {
        job := job.(state := JobState.Cancelled, blockedReason := "", leaseOwner := "", leaseUntil := ZERO_TIME);
      } else if job.state == Leased {
        job := job.(cancelRequested := true);
      } else {
        return Ok(());
      }
      jobs := jobs[id := job];
      return Ok(());
    }

    // ------------------------------------------------------------------ reap

    /** Take an expired lease away: park the job if it has crashed too many workers. */
    method ReapLease(id: JobId, now: Instant, crashBudget: int) returns (parked: bool)
      requires id in jobs
      modifies this`jobs, this`nextEvent, this`attempts
      ensures Contents() == ReapOne(old(Contents()), id, now, crashBudget)
      ensures parked <==> jobs[id].state == JobState.Blocked
      ensures parked <==> old(jobs)[id].crashCount + 1 >= crashBudget
    {
      var job := jobs[id];
      var owner := job.leaseOwner;
      job := job.(crashCount := job.crashCount + 1, leaseOwner := "", leaseUntil := ZERO_TIME, notBefore := now);
      parked := job.crashCount >= crashBudget;
      if parked {
        job := job.(state := JobState.Blocked, blockedReason := BLOCKED_POISON_JOB);
      } else {
        job := job.(state := RetryWait);
      }
      jobs := jobs[id := job];
      AppendAttempt(Event(0, id, job.attempts, owner, job.leaseEpoch, LeaseExpired, job.state, "", job.blockedReason,
                          now));
    }

    /** One bounded batch over the expired leases, in whatever order they come up. */
    method RequeueExpired(now: Instant, budget: int, limit: int) returns (result: Result<ReapResult, JobError>)
      requires Valid()
      modifies this`jobs, this`nextEvent, this`attempts
      ensures Valid()
      ensures now == ZERO_TIME ==> result == Err(InvalidInput) && Contents() == old(Contents())
      ensures now != ZERO_TIME ==>
                && result.Ok?
                && var victims := VictimIds(result.value.expired);
                   && ReapBatch(old(Contents()), victims, now, limit)
                   && NamesEpochs(old(Contents()), result.value.expired)
                   && Contents() == ReapAll(old(Contents()), victims, now, CrashBudget(budget))
                   && result.value.saturated == (|victims| >= NormalizeReapLimit(limit))
                   && result.value.blocked == Poisoned(old(Contents()), result.value.expired, CrashBudget(budget))
                   && result.value.requeued == |victims| - result.value.blocked
    {
      if now == ZERO_TIME { return Err(InvalidInput); }
      hide Reaping, ReapAll, ReapOne, Poisoned, NamesEpochs;
      var crashBudget, bound := CrashBudget(budget), NormalizeReapLimit(limit);
      ghost var s0 := Contents();
      var expired: seq<ExpiredLease> := [];
      var requeued, blocked := 0, 0;
      var todo := jobs.Keys;
      NothingReaped(s0, now, crashBudget);
      while todo != {} && |expired| < bound
        invariant s0 == old(Contents()) && |expired| <= bound && requeued + blocked == |expired|
        invariant NamesEpochs(s0, expired) && blocked == Poisoned(s0, expired, crashBudget)
        invariant Reaping(s0, expired, todo, now, crashBudget, Contents())
        decreases todo
      {
        var id :| id in todo;
        ReapingVisits(s0, expired, todo, now, crashBudget, Contents(), id);
        var job := jobs[id];
        if LeaseExpiredAt(job, now) {
          NamesEpochsSnoc(s0, expired, ExpiredLease(id, job.leaseEpoch));
          PoisonedSnoc(s0, expired, ExpiredLease(id, job.leaseEpoch), crashBudget);
          expired := expired + [ExpiredLease(id, job.leaseEpoch)];
          var parked := ReapLease(id, now, crashBudget);
          if parked { blocked := blocked + 1; } else { requeued := requeued + 1; }
        }
        todo := todo - {id};
      }
      ReapingEnds(s0, expired, todo, now, crashBudget, Contents(), bound);
      return Ok(ReapResult(requeued, blocked, expired, |expired| >= bound));
    }

    /** An operator hands a dead or blocked job back, with a fresh crash budget. */
    method Replay(request: ReplayRequest, effects: set<EffectRecords.EffectState>)
        returns (result: Result<(), JobError>)
      requires Valid()
      modifies this`jobs
      ensures Valid() && (Contents(), result) == Jobs.Replay(old(Contents()), request, effects)
    {
      if !ReplayAllowed(Contents(), request, effects) { return Err(ReplayDenied); }
      var job := jobs[request.jobId];
      job := job.(state := Pending, notBefore := request.requestedAt, leaseOwner := "", leaseUntil := ZERO_TIME,
                  cancelRequested := false, blockedReason := "", crashCount := 0);
      jobs := jobs[request.jobId := job];
      return Ok(());
    }

    // -------------------------------------------------------------- controls

    method QueueRateLimitTTL(lane: string, now: Instant) returns (result: Result<int, JobError>)
      ensures result == if lane == "" || now == ZERO_TIME then Err(InvalidInput) else Ok(TTL(rates, lane, now))
    {
      if lane == "" || now == ZERO_TIME { return Err(InvalidInput); }
      if lane !in rates || rates[lane].count < rates[lane].max || rates[lane].started == ZERO_TIME { return Ok(0); }
      var ttl := rates[lane].started + rates[lane].window - now;
      if ttl < 0 { return Ok(0); }
      return Ok(ttl);
    }

    /** The least positive waiting time among the lanes, or zero when none is throttled. */
    method NextQueueRateLimitTTL(lanes: seq<string>, now: Instant) returns (result: Result<int, JobError>)
      ensures result.Err? <==> now == ZERO_TIME
      ensures result.Ok? ==>
                && (result.value == 0 <==> forall i | 0 <= i < |lanes| :: TTL(rates, lanes[i], now) == 0)
                && (result.value != 0 ==> exists i | 0 <= i < |lanes| :: TTL(rates, lanes[i], now) == result.value)
                && (forall i | 0 <= i < |lanes| && TTL(rates, lanes[i], now) > 0 ::
                    result.value <= TTL(rates, lanes[i], now))
    {
      if now == ZERO_TIME { return Err(InvalidInput); }
      var next := 0;
      for i := 0 to |lanes|
        invariant next >= 0
        invariant next == 0 <==> forall j | 0 <= j < i :: TTL(rates, lanes[j], now) == 0
        invariant next != 0 ==> exists j | 0 <= j < i :: TTL(rates, lanes[j], now) == next
        invariant forall j | 0 <= j < i && TTL(rates, lanes[j], now) > 0 :: next <= TTL(rates, lanes[j], now)
      {
        var lane := lanes[i];
        if lane in rates && rates[lane].count >= rates[lane].max && rates[lane].started != ZERO_TIME {
          var ttl := rates[lane].started + rates[lane].window - now;
          if ttl > 0 && (next == 0 || ttl < next) { next := ttl; }
        }
      }
      return Ok(next);
    }

    method SetQueueRateLimit(lane: string, max: int, window: int) returns (result: Result<(), JobError>)
      modifies this`rates
      ensures (Contents(), result) == SetRateLimit(old(Contents()), lane, max, window)
    {
      if lane == "" || max <= 0 || window < MILLISECOND { return Err(InvalidInput); }
      rates := rates[lane := RateState(max, window, ZERO_TIME, 0)];
      return Ok(());
    }

    method SetQueueAdmission(lane: string, policy: Admission.Policy) returns (result: Result<(), JobError>)
      modifies this`admission
      ensures (Contents(), result) == SetAdmission(old(Contents()), lane, policy)
    {
      var normalized := Admission.Normalize(policy);
      if lane == "" || !Admission.Validate(normalized) { return Err(InvalidInput); }
      admission := admission[lane := normalized];
      return Ok(());
    }
  }

  // ------------------------------------------------------ the claim loop's steps

  /** What the loop has selected after `i` candidates. */
  ghost function Chosen(s: Store, order: seq<Job>, i: nat, input: ClaimInput): Selection
    requires i <= |order| && input.limit >= 0
  {
    Greedy(AsCandidates(order)[..i], s.rates, input.now, input.limit)
  }

  /** The records come from the store, and no job comes up twice. */
  ghost predicate ListsJobs(s: Store, order: seq<Job>) {
    && (forall i | 0 <= i < |order| :: order[i].id in s.jobs && s.jobs[order[i].id] == order[i])
    && (forall i, j | 0 <= i < j < |order| :: order[i].id != order[j].id)
  }

  lemma OrderListsJobs(s: Store, input: ClaimInput, order: seq<Job>)
    requires IdsMatch(s) && StrictOrder(ClaimOrder(input.now), Eligible(s, input))
    requires order == Sorted(ClaimOrder(input.now), Eligible(s, input))
    ensures ListsJobs(s, order) && AsCandidates(order) == Candidates(s, input)
  {
    SortedLists(ClaimOrder(input.now), Eligible(s, input));
    assert forall i | 0 <= i < |order| :: order[i] in Elements(order);
  }

  lemma PrefixIsLeasable(s: Store, order: seq<Job>, i: nat, input: ClaimInput)
    requires ListsJobs(s, order) && i <= |order| && input.limit >= 0
    ensures forall k | 0 <= k < |Chosen(s, order, i, input).chosen| ::
              exists j | 0 <= j < i :: Chosen(s, order, i, input).chosen[k] == Candidate(order[j].id, order[j].lane)
    ensures forall k | 0 <= k < |Chosen(s, order, i, input).chosen| :: Chosen(s, order, i, input).chosen[k].id in s.jobs
  {
    var cands := AsCandidates(order)[..i];
    var chosen := Chosen(s, order, i, input).chosen;
    ChosenAreCandidates(cands, s.rates, input.now, input.limit);
    forall k | 0 <= k < |chosen| ensures exists j | 0 <= j < i :: chosen[k] == Candidate(order[j].id, order[j].lane) {
      assert chosen[k] in cands;
      var j :| 0 <= j < |cands| && cands[j] == chosen[k];
      assert chosen[k] == Candidate(order[j].id, order[j].lane);
    }
  }

  /** The store after leasing a selection, and the records handed out. */
  ghost predicate HandedOut(s: Store, selection: Selection, input: ClaimInput, now: Store, claimed: seq<Job>) {
    && (forall i | 0 <= i < |selection.chosen| :: selection.chosen[i].id in s.jobs)
    && now == LeaseAll(s.(rates := selection.rates), selection.chosen, input)
    && claimed == LeasedJobs(s, selection.chosen, input)
  }

  lemma NothingLeased(s: Store, order: seq<Job>, input: ClaimInput)
    requires input.limit >= 0
    ensures HandedOut(s, Chosen(s, order, 0, input), input, s, []) && Chosen(s, order, 0, input).chosen == []
  {
    assert AsCandidates(order)[..0] == [];
  }

  lemma {:induction false} LeaseAllIgnoresRates(s: Store, a: Rates, b: Rates, chosen: seq<Candidate>, input: ClaimInput)
    requires forall i | 0 <= i < |chosen| :: chosen[i].id in s.jobs
    ensures LeaseAll(s.(rates := a), chosen, input).(rates := b) == LeaseAll(s.(rates := b), chosen, input)
    ensures LeaseAll(s.(rates := a), chosen, input).rates == a
  {
    if chosen != [] {
      hide LeaseOne;
      LeaseAllIgnoresRates(s, a, b, Front(chosen), input);
      LeaseOneIgnoresRates(LeaseAll(s.(rates := a), Front(chosen), input), b, Last(chosen).id, input);
    }
  }

  lemma LeaseOneIgnoresRates(s: Store, b: Rates, id: JobId, input: ClaimInput)
    requires id in s.jobs
    ensures LeaseOne(s, id, input).(rates := b) == LeaseOne(s.(rates := b), id, input)
    ensures LeaseOne(s, id, input).rates == s.rates
  {
  }

  /** The job is still as the store listed it when its turn comes. */
  lemma StillListed(s: Store, order: seq<Job>, i: nat, input: ClaimInput)
    requires IdsMatch(s) && ListsJobs(s, order) && i < |order| && input.limit >= 0
    requires forall k | 0 <= k < |Chosen(s, order, i, input).chosen| ::
               Chosen(s, order, i, input).chosen[k].id in s.jobs
    ensures var before := Chosen(s, order, i, input);
            LeaseAll(s.(rates := before.rates), before.chosen, input).jobs[order[i].id] == order[i]
  {
    var before := Chosen(s, order, i, input);
    PrefixIsLeasable(s, order, i, input);
    JobRuns.LeaseAllElsewhere(s.(rates := before.rates), before.chosen, input, order[i].id);
    assert JobRuns.View(s.(rates := before.rates), order[i].id).job == order[i];
  }

  lemma ChosenStep(s: Store, order: seq<Job>, i: nat, input: ClaimInput)
    requires i < |order| && input.limit >= 0 && |Chosen(s, order, i, input).chosen| != input.limit
    ensures var before := Chosen(s, order, i, input);
            var (granted, next) := ReserveSlot(before.rates, order[i].lane, input.now);
            Chosen(s, order, i + 1, input)
            == Selection(if granted then before.chosen + [Candidate(order[i].id, order[i].lane)] else before.chosen,
                         next)
  {
    var cands := AsCandidates(order);
    assert Front(cands[..i + 1]) == cands[..i];
  }

  lemma LeaseAllSnoc(s: Store, chosen: seq<Candidate>, c: Candidate, input: ClaimInput)
    requires (forall i | 0 <= i < |chosen| :: chosen[i].id in s.jobs) && c.id in s.jobs
    ensures LeaseAll(s, chosen + [c], input) == LeaseOne(LeaseAll(s, chosen, input), c.id, input)
    ensures LeasedJobs(s, chosen + [c], input) == LeasedJobs(s, chosen, input) + [LeasedRecord(s.jobs[c.id], input)]
  {
    assert Front(chosen + [c]) == chosen;
  }

  /** One turn of the claim loop. */
  lemma NextCandidate(s: Store, order: seq<Job>, i: nat, input: ClaimInput, now: Store, claimed: seq<Job>)
    requires IdsMatch(s) && ListsJobs(s, order) && i < |order| && input.limit >= 0
    requires HandedOut(s, Chosen(s, order, i, input), input, now, claimed)
    requires |Chosen(s, order, i, input).chosen| != input.limit
    ensures var job := order[i];
            var (granted, rates) := ReserveSlot(now.rates, job.lane, input.now);
            var leased := LeasedRecord(job, input);
            var charged := now.(rates := rates);
            var after :=
              if !granted then charged
              else AppendAttempt(charged.(jobs := charged.jobs[job.id := leased]), ClaimedEvent(leased, input.now));
            && HandedOut(s, Chosen(s, order, i + 1, input), input, after,
                         if granted then claimed + [leased] else claimed)
            && |Chosen(s, order, i + 1, input).chosen| == |Chosen(s, order, i, input).chosen| + if granted then 1 else 0
  {
    hide LeaseAll, LeasedJobs, ReserveSlot, Chosen;
    var before := Chosen(s, order, i, input);
    var job := order[i];
    var c := Candidate(job.id, job.lane);
    var rates := ReserveSlot(before.rates, job.lane, input.now).1;
    ChosenStep(s, order, i, input);
    StillListed(s, order, i, input);
    LeaseAllIgnoresRates(s, before.rates, rates, before.chosen, input);
    LeaseAllSnoc(s.(rates := rates), before.chosen, c, input);
    LeasedJobsIgnoreRates(s, rates, before.chosen + [c], input);
    LeasedJobsIgnoreRates(s, rates, before.chosen, input);
  }

  lemma {:induction false} LeasedJobsIgnoreRates(s: Store, rates: Rates, chosen: seq<Candidate>, input: ClaimInput)
    requires forall i | 0 <= i < |chosen| :: chosen[i].id in s.jobs
    ensures LeasedJobs(s.(rates := rates), chosen, input) == LeasedJobs(s, chosen, input)
  {
    if chosen != [] { LeasedJobsIgnoreRates(s, rates, Front(chosen), input); }
  }

  // -------------------------------------------------------- the sweep's steps

  /** What the sweep has done so far, and what it has not visited. */
  ghost predicate Reaping(s: Store, expired: seq<ExpiredLease>, todo: set<JobId>, now: Instant, budget: int,
                          after: Store)
  {
    && IdsMatch(s) && IdsMatch(after)
    && todo <= s.jobs.Keys && NamesEpochs(s, expired) && Distinct(VictimIds(expired))
    && (forall i | 0 <= i < |expired| :: expired[i].jobId in ExpiredJobs(s, now) && expired[i].jobId !in todo)
    && (forall id | id in ExpiredJobs(s, now) :: id in todo || id in VictimIds(expired))
    && after == ReapAll(s, VictimIds(expired), now, budget)
  }

  lemma NothingReaped(s: Store, now: Instant, budget: int)
    requires IdsMatch(s)
    ensures Reaping(s, [], s.jobs.Keys, now, budget, s)
  {
  }

  lemma VictimIdsSnoc(expired: seq<ExpiredLease>, item: ExpiredLease)
    ensures VictimIds(expired + [item]) == VictimIds(expired) + [item.jobId]
  {
    assert Front(expired + [item]) == expired;
  }

  lemma ReapAllSnoc(s: Store, victims: seq<JobId>, id: JobId, now: Instant, budget: int)
    requires (forall i | 0 <= i < |victims| :: victims[i] in s.jobs) && id in s.jobs
    ensures ReapAll(s, victims + [id], now, budget) == ReapOne(ReapAll(s, victims, now, budget), id, now, budget)
  {
    assert Front(victims + [id]) == victims;
  }

  lemma StillLeased(s: Store, expired: seq<ExpiredLease>, todo: set<JobId>, now: Instant, budget: int, after: Store,
                    id: JobId)
    requires Reaping(s, expired, todo, now, budget, after) && id in todo
    ensures id in after.jobs && after.jobs[id] == s.jobs[id] && s.jobs[id].id == id
  {
    JobRuns.ReapAllElsewhere(s, VictimIds(expired), now, budget, id);
    assert JobRuns.View(after, id).job == JobRuns.View(s, id).job;
  }

  lemma NamesEpochsSnoc(s: Store, expired: seq<ExpiredLease>, item: ExpiredLease)
    requires NamesEpochs(s, expired) && item.jobId in s.jobs && item.epoch == s.jobs[item.jobId].leaseEpoch
    ensures NamesEpochs(s, expired + [item])
  {
  }

  lemma ReapingTakes(s: Store, expired: seq<ExpiredLease>, todo: set<JobId>, now: Instant, budget: int, after: Store,
                     id: JobId)
    requires Reaping(s, expired, todo, now, budget, after) && id in todo && id in ExpiredJobs(s, now)
    requires id in after.jobs && after.jobs[id] == s.jobs[id]
    ensures Reaping(s, expired + [ExpiredLease(id, s.jobs[id].leaseEpoch)], todo - {id}, now, budget,
                    ReapOne(after, id, now, budget))
  {
    hide ReapAll, ExpiredJobs, NamesEpochs, Distinct;
    var item := ExpiredLease(id, s.jobs[id].leaseEpoch);
    var victims := VictimIds(expired);
    VictimIdsSnoc(expired, item);
    NamesEpochsSnoc(s, expired, item);
    DistinctSnoc(victims, id);
    ReapAllSnoc(s, victims, id, now, budget);
  }

  /** One visit of the sweep: a live lease is passed over, an expired one is reaped. */
  lemma ReapingVisits(s: Store, expired: seq<ExpiredLease>, todo: set<JobId>, now: Instant, budget: int, after: Store,
                      id: JobId)
    requires Reaping(s, expired, todo, now, budget, after) && id in todo
    ensures id in after.jobs && after.jobs[id] == s.jobs[id]
    ensures !LeaseExpiredAt(s.jobs[id], now) ==> Reaping(s, expired, todo - {id}, now, budget, after)
    ensures LeaseExpiredAt(s.jobs[id], now) ==>
              Reaping(s, expired + [ExpiredLease(id, s.jobs[id].leaseEpoch)], todo - {id}, now, budget,
                      ReapOne(after, id, now, budget))
  {
    hide ReapOne;
    StillLeased(s, expired, todo, now, budget, after, id);
    if LeaseExpiredAt(s.jobs[id], now) { ReapingTakes(s, expired, todo, now, budget, after, id); }
  }

  lemma ReapingEnds(s: Store, expired: seq<ExpiredLease>, todo: set<JobId>, now: Instant, budget: int, after: Store,
                    bound: int)
    requires Reaping(s, expired, todo, now, budget, after) && |expired| <= bound && (todo == {} || |expired| >= bound)
    ensures IdsMatch(after) && Distinct(VictimIds(expired)) && NamesEpochs(s, expired)
    ensures forall i | 0 <= i < |expired| :: VictimIds(expired)[i] in ExpiredJobs(s, now)
    ensures |expired| == Min(bound, |ExpiredJobs(s, now)|)
    ensures after == ReapAll(s, VictimIds(expired), now, budget)
  {
    BatchIsFull(s, VictimIds(expired), now, bound, todo);
  }

  /** A batch that stopped at its bound, or ran out of jobs, is as large as it may be. */
  lemma BatchIsFull(s: Store, victims: seq<JobId>, now: Instant, bound: int, todo: set<JobId>)
    requires Distinct(victims) && |victims| <= bound && (todo == {} || |victims| >= bound)
    requires forall i | 0 <= i < |victims| :: victims[i] in ExpiredJobs(s, now)
    requires forall id | id in ExpiredJobs(s, now) :: id in todo || id in victims
    ensures |victims| == Min(bound, |ExpiredJobs(s, now)|)
  {
    DistinctCardinality(victims);
    SubsetCardinality(Elements(victims), ExpiredJobs(s, now));
    if todo == {} { assert Elements(victims) == ExpiredJobs(s, now); }
  }
}
