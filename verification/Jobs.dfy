/**
 The job queue as a value: every record, the attempt log, the idempotency index
 and the per-lane controls, with one function per store operation. `JobStore`
 updates the same state in place and is proved against these functions.

 The current time is an argument of every operation; nothing assumes that it
 moves forward.
 */
module Jobs {
  import opened Basics
  import opened RateLimit
  import opened ClaimSelection
  import opened SortedSets
  import Admission
  import EffectRecords

  type JobId = string

  datatype JobState = Pending | Leased | Succeeded | RetryWait | Dead | Cancelled | Blocked

  const BLOCKED_UNCLASSIFIED := "unclassified_error"
  const BLOCKED_POISON_JOB := "poison_job"

  datatype Job = Job(
    id: JobId, lane: string, jobName: string, groupKey: string, resourceClass: string,
    state: JobState, priority: int, attempts: int, crashCount: int, blockedReason: string,
    idempotencyKey: string, createdAt: Instant, notBefore: Instant,
    leaseOwner: string, leaseEpoch: int, leaseUntil: Instant, cancelRequested: bool)

  datatype Kind = Claimed | Succeeded | RetryScheduled | Dead | Blocked | Cancelled | Released | LeaseExpired

  /** Append-only evidence for one lease epoch. */
  datatype Event = Event(
    sequence: int, jobId: JobId, attempt: int, owner: string, epoch: int, kind: Kind,
    resultState: JobState, failureClass: string, blockedReason: string, occurredAt: Instant)

  datatype Store = Store(
    nextID: nat, nextEvent: nat,
    jobs: map<JobId, Job>, attempts: map<JobId, seq<Event>>, byIdem: map<string, JobId>,
    paused: set<string>, rates: Rates, admission: map<string, Admission.Policy>)

  const EMPTY_STORE: Store := Store(0, 0, map[], map[], map[], {}, map[], map[])

  datatype JobError =
    | LeaseLost | JobNotFound | InvalidInput | ReplayDenied
    | OverCapacity(pending: int, capacity: int, retryAfter: int)

  /** The attempt log of a job; a job that was never claimed has none yet. */
  function Log(s: Store, id: JobId): seq<Event> {
    if id in s.attempts then s.attempts[id] else []
  }

  /** `appendAttempt`. */
  function AppendAttempt(s: Store, e: Event): Store {
    s.(nextEvent := s.nextEvent + 1,
       attempts := s.attempts[e.jobId := Log(s, e.jobId) + [e.(sequence := s.nextEvent + 1)]])
  }

  // ----------------------------------------------------------------- enqueue

  datatype EnqueueInput = EnqueueInput(
    lane: string, jobName: string, groupKey: string, resourceClass: string,
    payloadBytes: Option<nat>, idempotencyKey: string, runAfter: int, priority: int,
    now: Instant)

  const MAX_IDENTITY_PART_BYTES := 128
  const MAX_PAYLOAD_BYTES := 1_048_576
  const MIN_PRIORITY := -100
  const MAX_PRIORITY := 100
  const MAX_ENQUEUE_BATCH := 1000

  const CLASSES: set<string> := {"critical", "interactive", "standard", "batch", "maintenance"}

  /** `Identity.Normalize` succeeds. */
  predicate IdentityAccepted(input: EnqueueInput) {
    && 0 < |Trim(input.lane)| <= MAX_IDENTITY_PART_BYTES
    && 0 < |Trim(input.jobName)| <= MAX_IDENTITY_PART_BYTES
    && |Trim(input.groupKey)| <= MAX_IDENTITY_PART_BYTES
    && (input.resourceClass == "" || input.resourceClass in CLASSES)
  }

  /** `job.NewRecord` succeeds on an identity that is already normalized. */
  predicate SpecAccepted(input: EnqueueInput) {
    && input.payloadBytes.Some? && input.payloadBytes.value <= MAX_PAYLOAD_BYTES
    && input.now != ZERO_TIME
    && MIN_PRIORITY <= input.priority <= MAX_PRIORITY
  }

  function NewJob(id: JobId, input: EnqueueInput, notBefore: Instant): Job {
    Job(id, Trim(input.lane), Trim(input.jobName), Trim(input.groupKey),
        if input.resourceClass == "" then "standard" else input.resourceClass,
        Pending, input.priority, 0, 0, "", input.idempotencyKey, input.now,
        if notBefore == ZERO_TIME then input.now else notBefore, "", 0, ZERO_TIME, false)
  }

  /** `idempotencyScope`: the lane and the key joined by a NUL byte. */
  function Scope(lane: string, key: string): string { lane + "\0" + key }

  predicate Waiting(job: Job) { job.state == Pending || job.state == RetryWait }

  /** The jobs `pendingCount` counts. */
  function Backlogged(jobs: map<JobId, Job>, lane: string): set<JobId> {
    set id | id in jobs && jobs[id].lane == lane && Waiting(jobs[id])
  }

  function Admit(s: Store, lane: string, critical: bool): Admission.Decision {
    if lane in s.admission then Admission.Decide(s.admission[lane], |Backlogged(s.jobs, lane)|, critical)
    else Admission.Accept
  }

  /** `enqueueLocked`. */
  function Enqueue(s: Store, input: EnqueueInput): (Store, Result<JobId, JobError>) {
    var lane := Trim(input.lane);
    var scope := Scope(lane, input.idempotencyKey);
    if input.idempotencyKey != "" && scope in s.byIdem then (s, Ok(s.byIdem[scope]))
    else if !IdentityAccepted(input) || input.runAfter < 0 then (s, Err(InvalidInput))
    else
      var decision := Admit(s, lane, input.resourceClass == "critical");
      if decision.OverCapacity? then
        (s, Err(OverCapacity(decision.pending, decision.capacity, decision.retryAfter)))
      else if !SpecAccepted(input) then (s, Err(InvalidInput))
      else
        var deferBy := if decision.Defer? then decision.deferBy else 0;
        var id := JobIdFor(s.nextID + 1);
        var job := NewJob(id, input, input.now + input.runAfter + deferBy);
        (s.(nextID := s.nextID + 1,
            jobs := s.jobs[id := job],
            byIdem := if input.idempotencyKey != "" then s.byIdem[scope := id] else s.byIdem),
         Ok(id))
  }

  /** The same inputs enqueued one after the other, stopping at the first error. */
  function EnqueueInOrder(s: Store, inputs: seq<EnqueueInput>): (Store, Result<seq<JobId>, JobError>) {
    if inputs == [] then (s, Ok([]))
    else
      var (before, ids) := EnqueueInOrder(s, Front(inputs));
      if ids.Err? then (before, ids)
      else
        var (after, id) := Enqueue(before, Last(inputs));
        if id.Ok? then (after, Ok(ids.value + [id.value])) else (after, Err(id.error))
  }

  /** `EnqueueBatch`: everything or nothing. */
  function EnqueueBatch(s: Store, inputs: seq<EnqueueInput>): (Store, Result<seq<JobId>, JobError>) {
    if |inputs| == 0 || |inputs| > MAX_ENQUEUE_BATCH then (s, Err(InvalidInput))
    else
      var (after, ids) := EnqueueInOrder(s, inputs);
      (if ids.Ok? then after else s, ids)
  }

  // ------------------------------------------------------------------- claim

  datatype ClaimInput = ClaimInput(owner: string, now: Instant, limit: int, leaseDuration: int, lanes: seq<string>)

  const MAX_CLAIM_QUEUES := 256
  const MAX_CLAIM_LIMIT := 1000

  predicate ClaimAccepted(input: ClaimInput) {
    && input.owner != "" && 0 < input.limit <= MAX_CLAIM_LIMIT && input.leaseDuration > 0 && input.now != ZERO_TIME
    && |input.lanes| <= MAX_CLAIM_QUEUES && "" !in input.lanes
  }

  predicate Claimable(job: Job, now: Instant) { Waiting(job) && job.notBefore <= now }

  predicate EligibleJob(s: Store, job: Job, input: ClaimInput) {
    && Claimable(job, input.now)
    && (input.lanes == [] || job.lane in input.lanes)
    && job.lane !in s.paused
  }

  function Eligible(s: Store, input: ClaimInput): set<Job> {
    set id | id in s.jobs && EligibleJob(s, s.jobs[id], input) :: s.jobs[id]
  }

  /** `job.EffectivePriority`: waiting raises the priority, up to a cap. */
  function EffectivePriority(priority: int, notBefore: Instant, now: Instant): real {
    var waited := now - notBefore;
    if waited <= 0 then priority as real
    else
      var boost := waited as real / 3_600_000_000_000.0;
      priority as real + if boost > 5.0 then 5.0 else boost
  }

  /** `sortByClaimOrder`: effective priority, then age, then id. */
  predicate ClaimBefore(a: Job, b: Job, now: Instant) {
    var left := EffectivePriority(a.priority, a.notBefore, now);
    var right := EffectivePriority(b.priority, b.notBefore, now);
    if left != right then left > right
    else if a.createdAt != b.createdAt then a.createdAt < b.createdAt
    else StringLess(a.id, b.id)
  }

  function ClaimOrder(now: Instant): (Job, Job) -> bool { (a: Job, b: Job) => ClaimBefore(a, b, now) }

  /** Distinct ids make the claim order a strict total order. */
  lemma ClaimOrderIsStrict(jobs: set<Job>, now: Instant)
    requires forall a, b | a in jobs && b in jobs && a.id == b.id :: a == b
    ensures StrictOrder(ClaimOrder(now), jobs)
  {
    forall a | a in jobs ensures !ClaimBefore(a, a, now) { StringLessIrreflexive(a.id); }
    forall a, b | a in jobs && b in jobs && a != b ensures ClaimBefore(a, b, now) || ClaimBefore(b, a, now) {
      StringLessTotal(a.id, b.id);
    }
    forall a, b, c | a in jobs && b in jobs && c in jobs && ClaimBefore(a, b, now) && ClaimBefore(b, c, now)
      ensures ClaimBefore(a, c, now)
    {
      if StringLess(a.id, b.id) && StringLess(b.id, c.id) { StringLessTransitive(a.id, b.id, c.id); }
    }
  }

  /** Every record is stored under its own id. */
  ghost predicate IdsMatch(s: Store) { forall id | id in s.jobs :: s.jobs[id].id == id }

  lemma EligibleIsOrdered(s: Store, input: ClaimInput)
    requires IdsMatch(s)
    ensures StrictOrder(ClaimOrder(input.now), Eligible(s, input))
  {
    ClaimOrderIsStrict(Eligible(s, input), input.now);
  }

  function AsCandidates(jobs: seq<Job>): (cands: seq<Candidate>)
    ensures |cands| == |jobs|
    ensures forall i | 0 <= i < |jobs| :: cands[i] == Candidate(jobs[i].id, jobs[i].lane)
  {
    if jobs == [] then [] else AsCandidates(Front(jobs)) + [Candidate(Last(jobs).id, Last(jobs).lane)]
  }

  /** The candidates of one claim, in claim order. */
  ghost function Candidates(s: Store, input: ClaimInput): seq<Candidate>
    requires IdsMatch(s)
  {
    EligibleIsOrdered(s, input);
    AsCandidates(Sorted(ClaimOrder(input.now), Eligible(s, input)))
  }

  function LeasedRecord(job: Job, input: ClaimInput): Job {
    job.(state := Leased, attempts := job.attempts + 1, blockedReason := "", leaseOwner := input.owner,
         leaseEpoch := job.leaseEpoch + 1, leaseUntil := input.now + input.leaseDuration)
  }

  function ClaimedEvent(job: Job, now: Instant): Event {
    Event(0, job.id, job.attempts, job.leaseOwner, job.leaseEpoch, Claimed, Leased, "", "", now)
  }

  /** Take the lease of one job and log it. */
  function LeaseOne(s: Store, id: JobId, input: ClaimInput): Store
    requires id in s.jobs
  {
    var job := LeasedRecord(s.jobs[id], input);
    AppendAttempt(s.(jobs := s.jobs[id := job]), ClaimedEvent(job, input.now))
  }

  function LeaseAll(s: Store, chosen: seq<Candidate>, input: ClaimInput): (after: Store)
    requires forall i | 0 <= i < |chosen| :: chosen[i].id in s.jobs
    ensures after.jobs.Keys == s.jobs.Keys
    ensures IdsMatch(s) ==> IdsMatch(after)
  {
    if chosen == [] then s
    else
      var before := LeaseAll(s, Front(chosen), input);
      LeaseOne(before, Last(chosen).id, input)
  }

  ghost function SelectionOf(s: Store, input: ClaimInput): Selection
    requires IdsMatch(s) && ClaimAccepted(input)
  {
    Greedy(Candidates(s, input), s.rates, input.now, input.limit)
  }

  /** What is chosen was a candidate, in order and without repetition. */
  lemma {:induction false} ChosenAreCandidates(cands: seq<Candidate>, rates: Rates, now: Instant, limit: nat)
    ensures forall c | c in Greedy(cands, rates, now, limit).chosen :: c in cands
    ensures Distinct(cands) ==> Distinct(Greedy(cands, rates, now, limit).chosen)
    ensures |Greedy(cands, rates, now, limit).chosen| <= limit
  {
    if cands != [] {
      ChosenAreCandidates(Front(cands), rates, now, limit);
      FrontLast(cands);
      assert Distinct(cands) ==> Last(cands) !in Front(cands);
    }
  }

  lemma CandidatesAreJobs(s: Store, input: ClaimInput)
    requires IdsMatch(s)
    ensures forall c | c in Candidates(s, input) ::
              c.id in s.jobs && c.lane == s.jobs[c.id].lane && EligibleJob(s, s.jobs[c.id], input)
    ensures forall i, j | 0 <= i < j < |Candidates(s, input)| ::
              Candidates(s, input)[i].id != Candidates(s, input)[j].id
  {
    EligibleIsOrdered(s, input);
    var order := Sorted(ClaimOrder(input.now), Eligible(s, input));
    SortedLists(ClaimOrder(input.now), Eligible(s, input));
    assert forall i | 0 <= i < |order| :: order[i] in Elements(order);
  }

  lemma SelectionIsLeasable(s: Store, input: ClaimInput)
    requires IdsMatch(s) && ClaimAccepted(input)
    ensures var chosen := SelectionOf(s, input).chosen;
            && (forall i | 0 <= i < |chosen| ::
                  chosen[i].id in s.jobs && chosen[i].lane == s.jobs[chosen[i].id].lane
                    && EligibleJob(s, s.jobs[chosen[i].id], input))
            && (forall i, j | 0 <= i < j < |chosen| :: chosen[i].id != chosen[j].id)
            && |chosen| <= input.limit
  {
    var cands := Candidates(s, input);
    CandidatesAreJobs(s, input);
    ChosenAreCandidates(cands, s.rates, input.now, input.limit);
    var chosen := SelectionOf(s, input).chosen;
    forall i, j | 0 <= i < j < |chosen| ensures chosen[i].id != chosen[j].id {
      assert chosen[i] in chosen && chosen[j] in chosen;
      var k :| 0 <= k < |cands| && cands[k] == chosen[i];
      var l :| 0 <= l < |cands| && cands[l] == chosen[j];
    }
    assert forall i | 0 <= i < |chosen| :: chosen[i] in chosen;
  }

  /** `Claim`: the store afterwards and the leased records in claim order. */
  ghost function Claim(s: Store, input: ClaimInput): (Store, Result<seq<Job>, JobError>)
    requires IdsMatch(s)
  {
    if !ClaimAccepted(input) then (s, Err(InvalidInput))
    else
      SelectionIsLeasable(s, input);
      var selection := SelectionOf(s, input);
      var after := LeaseAll(s.(rates := selection.rates), selection.chosen, input);
      (after, Ok(LeasedJobs(s, selection.chosen, input)))
  }

  function LeasedJobs(s: Store, chosen: seq<Candidate>, input: ClaimInput): seq<Job>
    requires forall i | 0 <= i < |chosen| :: chosen[i].id in s.jobs
  {
    if chosen == [] then [] else LeasedJobs(s, Front(chosen), input) + [LeasedRecord(s.jobs[Last(chosen).id], input)]
  }

  // ------------------------------------------------------- leases and settling

  /** The fencing token of one execution. */
  datatype Lease = Lease(jobId: JobId, owner: string, epoch: int)

  function LeaseFor(job: Job): Lease { Lease(job.id, job.leaseOwner, job.leaseEpoch) }

  predicate LeaseComplete(lease: Lease) { lease.jobId != "" && lease.owner != "" && lease.epoch > 0 }

  /** `authoritative`: the token names the live, unexpired execution. */
  predicate Authoritative(s: Store, lease: Lease, now: Instant) {
    && lease.jobId in s.jobs
    && var job := s.jobs[lease.jobId];
       job.state == Leased && job.leaseOwner == lease.owner && job.leaseEpoch == lease.epoch && job.leaseUntil > now
  }

  /** `CheckLease`. */
  predicate LeaseHolds(s: Store, lease: Lease, now: Instant) {
    LeaseComplete(lease) && now != ZERO_TIME && Authoritative(s, lease, now)
  }

  datatype LeaseStatus = LeaseStatus(expiresAt: Instant, cancelRequested: bool)

  function Renew(s: Store, lease: Lease, now: Instant, extension: int): (Store, Result<LeaseStatus, JobError>) {
    if extension <= 0 || !LeaseHolds(s, lease, now) then (s, Err(LeaseLost))
    else
      var job := s.jobs[lease.jobId].(leaseUntil := now + extension);
      (s.(jobs := s.jobs[lease.jobId := job]), Ok(LeaseStatus(job.leaseUntil, job.cancelRequested)))
  }

  function EndedEvent(lease: Lease, attempt: int, kind: Kind, result: JobState, failureClass: string, reason: string,
                      now: Instant): Event
  {
    Event(0, lease.jobId, attempt, lease.owner, lease.epoch, kind, result, failureClass, reason, now)
  }

  function Complete(s: Store, lease: Lease, now: Instant): (Store, Result<(), JobError>) {
    if !LeaseHolds(s, lease, now) then (s, Err(LeaseLost))
    else
      var job := s.jobs[lease.jobId];
      var next := job.(state := JobState.Succeeded, leaseOwner := "", leaseUntil := ZERO_TIME);
      (AppendAttempt(s.(jobs := s.jobs[lease.jobId := next]),
                     EndedEvent(lease, job.attempts, Kind.Succeeded, JobState.Succeeded, "", "", now)), Ok(()))
  }

  function Release(s: Store, lease: Lease, now: Instant): (Store, Result<(), JobError>) {
    if !LeaseHolds(s, lease, now) then (s, Err(LeaseLost))
    else
      var job := s.jobs[lease.jobId];
      var next := job.(state := RetryWait, notBefore := now, leaseOwner := "", leaseUntil := ZERO_TIME,
                       attempts := if job.attempts > 0 then job.attempts - 1 else job.attempts);
      (AppendAttempt(s.(jobs := s.jobs[lease.jobId := next]),
                     EndedEvent(lease, job.attempts, Released, RetryWait, "", "", now)), Ok(()))
  }

  datatype FailureTransition = FailureTransition(state: JobState, retryIn: int, blockedReason: string,
                                                 failureClass: string)

  predicate FailureState(state: JobState) {
    state == RetryWait || state == JobState.Dead || state == JobState.Blocked || state == JobState.Cancelled
  }

  /** `attempt.ResultKind`. */
  function ResultKind(state: JobState): Kind
    requires FailureState(state)
  {
    match state
    case RetryWait => RetryScheduled
    case Dead => Kind.Dead
    case Blocked => Kind.Blocked
    case Cancelled => Kind.Cancelled
  }

  function Fail(s: Store, lease: Lease, now: Instant, t: FailureTransition): (Store, Result<(), JobError>) {
    if !LeaseComplete(lease) || now == ZERO_TIME then (s, Err(LeaseLost))
    else if !FailureState(t.state) then (s, Err(InvalidInput))
    else if !Authoritative(s, lease, now) then (s, Err(LeaseLost))
    else
      var job := s.jobs[lease.jobId];
      var reason := if t.state != JobState.Blocked then "" else if t.blockedReason == "" then BLOCKED_UNCLASSIFIED
        else t.blockedReason;
      var next := job.(state := t.state, notBefore := now + Max(t.retryIn, 0), blockedReason := reason,
                       leaseOwner := "", leaseUntil := ZERO_TIME);
      (AppendAttempt(s.(jobs := s.jobs[lease.jobId := next]),
                     EndedEvent(lease, job.attempts, ResultKind(t.state), t.state, t.failureClass, reason, now)),
       Ok(()))
  }

  function RequestCancel(s: Store, id: JobId): (r: (Store, Result<(), JobError>))
    ensures r.0.jobs.Keys == s.jobs.Keys && (IdsMatch(s) ==> IdsMatch(r.0))
  {
    if id !in s.jobs then (s, Err(JobNotFound))
    else
      var job := s.jobs[id];
      match job.state
      case Leased => (s.(jobs := s.jobs[id := job.(cancelRequested := true)]), Ok(()))
      case Succeeded => (s, Ok(()))
      case Dead => (s, Ok(()))
      case Cancelled => (s, Ok(()))
      case _ =>
        var stopped :=
          job.(state := JobState.Cancelled, blockedReason := "", leaseOwner := "", leaseUntil := ZERO_TIME);
        (s.(jobs := s.jobs[id := stopped]), Ok(()))
  }

  // -------------------------------------------------------------------- reap

  const DEFAULT_REAP_BATCH_LIMIT := 500
  const MAX_REAP_BATCH_LIMIT := 1000
  const DEFAULT_MAX_WORKER_CRASHES := 3

  function NormalizeReapLimit(limit: int): (r: int)
    ensures 1 <= r <= MAX_REAP_BATCH_LIMIT
    ensures 1 <= limit <= MAX_REAP_BATCH_LIMIT ==> r == limit
  {
    if limit <= 0 then DEFAULT_REAP_BATCH_LIMIT else Min(limit, MAX_REAP_BATCH_LIMIT)
  }

  /** `Protection.Normalize`: the crash budget in force. */
  function CrashBudget(configured: int): int {
    if configured <= 0 then DEFAULT_MAX_WORKER_CRASHES else configured
  }

  predicate LeaseExpiredAt(job: Job, now: Instant) {
    job.state == Leased && job.leaseUntil != ZERO_TIME && job.leaseUntil <= now
  }

  function ExpiredJobs(s: Store, now: Instant): set<JobId> {
    set id | id in s.jobs && LeaseExpiredAt(s.jobs[id], now)
  }

  /** An execution that lost its lease. */
  datatype ExpiredLease = ExpiredLease(jobId: JobId, epoch: int)

  function ReapedRecord(job: Job, now: Instant, budget: int): Job {
    var crashes := job.crashCount + 1;
    var poisoned := crashes >= budget;
    job.(crashCount := crashes, leaseOwner := "", leaseUntil := ZERO_TIME, notBefore := now,
         state := if poisoned then JobState.Blocked else RetryWait,
         blockedReason := if poisoned then BLOCKED_POISON_JOB else job.blockedReason)
  }

  function ReapOne(s: Store, id: JobId, now: Instant, budget: int): Store
    requires id in s.jobs
  {
    var job := s.jobs[id];
    var next := ReapedRecord(job, now, budget);
    AppendAttempt(s.(jobs := s.jobs[id := next]),
                  Event(0, id, next.attempts, job.leaseOwner, next.leaseEpoch, LeaseExpired, next.state, "",
                        next.blockedReason, now))
  }

  /** One batch of the sweep, over the leases it happened to visit. */
  function ReapAll(s: Store, victims: seq<JobId>, now: Instant, budget: int): (after: Store)
    requires forall i | 0 <= i < |victims| :: victims[i] in s.jobs
    ensures after.jobs.Keys == s.jobs.Keys
    ensures IdsMatch(s) ==> IdsMatch(after)
  {
    if victims == [] then s else
    var before := ReapAll(s, Front(victims), now, budget);
    ReapOne(before, Last(victims), now, budget)
  }

  /** The batches `RequeueExpired` may pick: distinct expired leases, as many as the
      limit allows. Go visits the map in an arbitrary order. */
  ghost predicate ReapBatch(s: Store, victims: seq<JobId>, now: Instant, limit: int) {
    && Distinct(victims)
    && (forall i | 0 <= i < |victims| :: victims[i] in ExpiredJobs(s, now))
    && |victims| == Min(NormalizeReapLimit(limit), |ExpiredJobs(s, now)|)
  }

  // ------------------------------------------------------------------ replay

  datatype ReplayRequest = ReplayRequest(jobId: JobId, actor: string, reason: string, requestedAt: Instant)

  /** `ValidateReplay`, given the states of the job's ledger entries. */
  predicate ReplayAllowed(s: Store, request: ReplayRequest, effects: set<EffectRecords.EffectState>) {
    && request.jobId in s.jobs && request.jobId != ""
    && Trim(request.actor) != "" && Trim(request.reason) != "" && request.requestedAt != ZERO_TIME
    && (s.jobs[request.jobId].state == JobState.Dead || s.jobs[request.jobId].state == JobState.Blocked)
    && EffectRecords.Confirmed !in effects && EffectRecords.Uncertain !in effects && EffectRecords.Pending !in effects
  }

  function Replay(s: Store, request: ReplayRequest, effects: set<EffectRecords.EffectState>)
      : (Store, Result<(), JobError>)
  {
    if !ReplayAllowed(s, request, effects) then (s, Err(ReplayDenied))
    else
      var job := s.jobs[request.jobId].(state := Pending, notBefore := request.requestedAt, leaseOwner := "",
                                        leaseUntil := ZERO_TIME, cancelRequested := false, blockedReason := "",
                                        crashCount := 0);
      (s.(jobs := s.jobs[request.jobId := job]), Ok(()))
  }

  // ---------------------------------------------------------------- controls

  const MILLISECOND := 1_000_000

  function SetRateLimit(s: Store, lane: string, max: int, window: int): (Store, Result<(), JobError>) {
    if lane == "" || max <= 0 || window < MILLISECOND then (s, Err(InvalidInput))
    else (s.(rates := s.rates[lane := RateState(max, window, ZERO_TIME, 0)]), Ok(()))
  }

  function RemoveRateLimit(s: Store, lane: string): (Store, Result<(), JobError>) {
    if lane == "" then (s, Err(InvalidInput)) else (s.(rates := s.rates - {lane}), Ok(()))
  }

  function SetAdmission(s: Store, lane: string, policy: Admission.Policy): (Store, Result<(), JobError>) {
    var normalized := Admission.Normalize(policy);
    if lane == "" || !Admission.Validate(normalized) then (s, Err(InvalidInput))
    else (s.(admission := s.admission[lane := normalized]), Ok(()))
  }

  function RemoveAdmission(s: Store, lane: string): (Store, Result<(), JobError>) {
    if lane == "" then (s, Err(InvalidInput)) else (s.(admission := s.admission - {lane}), Ok(()))
  }

  function SetPaused(s: Store, lane: string, paused: bool): (Store, Result<(), JobError>) {
    if lane == "" then (s, Err(InvalidInput))
    else (s.(paused := if paused then s.paused + {lane} else s.paused - {lane}), Ok(()))
  }
}
