/**
 External effects under failures: workers that read the ledger, open an entry, call
 a provider and record the result, interleaved with crashes, lease expiry, new
 claims, sweeps, operators and provider webhooks.

 A read and the write that depends on it are separate steps, so any other step may
 fall between them. Only a single store call is atomic.
 */
module EffectProtocol {
  import opened Basics
  import opened EffectRecords
  import opened EffectLedger
  import Jobs
  import opened JobRuns
  import opened JobTheorems

  /** What a worker reports about a provider call that has run. */
  datatype Outcome =
    | CallSucceeded(policy: ConfirmationPolicy, reference: string)
    | ResultUnknown
    | NeverHappened

  /** A client between its read of the ledger and its write. */
  datatype Thread =
    | Opening(lease: Jobs.Lease, key: EffectKey, found: Option<Effect>)
    | Resolving(lease: Jobs.Lease, outcome: Outcome, seen: Effect)
    | Signalling(reference: string, seen: Effect)

  /** A provider call that was let through, and the execution that made it. */
  datatype Call = Call(key: EffectKey, epoch: int)

  /** `calls` and `denied` are history: the calls let through, and the entries for which
      somebody recorded that the call provably never happened. */
  datatype World = World(jobs: Jobs.Store, ledger: Ledger, threads: map<nat, Thread>, calls: seq<Call>,
                         denied: set<EffectKey>)

  datatype Step =
    | JobCall(op: Op)
    | ReadToOpen(t: nat, lease: Jobs.Lease, name: string, key: string)
    | Open(t: nat, now: Instant, irreversible: bool)
    | ReadToResolve(t: nat, lease: Jobs.Lease, name: string, key: string, outcome: Outcome)
    | Resolve(t: nat, now: Instant)
    | ReadToSignal(t: nat, target: EffectKey, reference: string)
    | Signal(t: nat)
    | CleanUp(expired: seq<Jobs.ExpiredLease>)
    | Crash(t: nat)

  // ------------------------------------------------------------ the operations

  /** Tokens come out of claims: an epoch nobody was given yet cannot be presented. */
  predicate Issued(jobs: Jobs.Store, lease: Jobs.Lease) {
    lease.jobId in jobs.jobs && lease.epoch <= jobs.jobs[lease.jobId].leaseEpoch
  }

  function Lookup(ledger: Ledger, k: EffectKey): Option<Effect> {
    if k in ledger then Some(ledger[k]) else None
  }

  /** The switch in `beginEffect`: may the provider call run, judging by the entry read? */
  predicate MayCall(seen: Option<Effect>, epoch: int) {
    seen.Some? ==>
      match seen.value.state
      case Confirmed => false
      case Uncertain => false
      case Pending => seen.value.leaseEpoch == epoch
      case Rejected => true
      case NotHappened => true
  }

  function EffectIdFor(k: EffectKey): string { "effect_" + k.jobId + "_" + k.name + "_" + k.key }

  /** The record `beginEffect` presents to the store. */
  function OpeningRecord(thread: Thread, now: Instant, irreversible: bool): Result<Effect, EffectError>
    requires thread.Opening?
  {
    var id :=
      if thread.found.Some? && thread.found.value.id != "" then thread.found.value.id else EffectIdFor(thread.key);
    NewRecord(id, thread.key, irreversible, now)
  }

  /** The ledger after `resolveEffect`, given the entry it read. */
  function Resolved(w: World, lease: Jobs.Lease, outcome: Outcome, seen: Effect, now: Instant): Ledger {
    match outcome
    case NeverHappened => ConfirmEffect(w.ledger, w.jobs, lease, now, seen.(state := NotHappened)).0
    case ResultUnknown =>
      var uncertain := MarkUncertain(seen);
      if uncertain.Ok? then SaveEffect(w.ledger, uncertain.value).0 else w.ledger
    case CallSucceeded(policy, reference) =>
      if !Jobs.LeaseHolds(w.jobs, lease, now) then w.ledger
      else
        var confirmed := Confirm(seen, policy, reference);
        if confirmed.Err? || confirmed.value.state == seen.state then w.ledger
        else ConfirmEffect(w.ledger, w.jobs, lease, now, confirmed.value).0
  }

  /** `Client.ConfirmEffect` after its read: no lease is left to present. */
  function Signalled(ledger: Ledger, reference: string, seen: Effect): Ledger {
    var confirmed := Confirm(seen, ConfirmationPolicy(OnReturn, ""), reference);
    if confirmed.Ok? then SaveEffect(ledger, confirmed.value).0 else ledger
  }

  function StatesOf(ledger: Ledger, jobId: string): set<EffectState> {
    set k | k in ledger && k.jobId == jobId :: ledger[k].state
  }

  /** An operator's replay consults the ledger as it is. */
  function Informed(ledger: Ledger, op: Op): Op {
    if op.Replay? then op.(effects := StatesOf(ledger, op.request.jobId)) else op
  }

  function OpenStep(w: World, t: nat, now: Instant, irreversible: bool): World
    requires t in w.threads && w.threads[t].Opening?
  {
    var thread := w.threads[t];
    var record := OpeningRecord(thread, now, irreversible);
    var rest := w.(threads := w.threads - {t});
    if record.Err? then rest
    else
      var (ledger, begun) := BeginEffect(w.ledger, w.jobs, thread.lease, now, record.value);
      if begun.Ok? then rest.(ledger := ledger, calls := w.calls + [Call(thread.key, thread.lease.epoch)]) else rest
  }

  function ResolveStep(w: World, t: nat, now: Instant): World
    requires t in w.threads && w.threads[t].Resolving?
  {
    var Resolving(lease, outcome, seen) := w.threads[t];
    var ledger := Resolved(w, lease, outcome, seen, now);
    w.(threads := w.threads - {t}, ledger := ledger,
       denied :=
         if seen.key in ledger && ledger[seen.key].state == NotHappened then w.denied + {seen.key} else w.denied)
  }

  ghost function Take(w: World, step: Step): (after: World)
    requires Jobs.IdsMatch(w.jobs)
    ensures Jobs.IdsMatch(after.jobs)
  {
    match step
    case JobCall(op) => w.(jobs := Apply(w.jobs, Informed(w.ledger, op)))
    case ReadToOpen(t, lease, name, key) =>
      var k := EffectKey(lease.jobId, name, key);
      if Issued(w.jobs, lease) && name != "" && key != "" && MayCall(Lookup(w.ledger, k), lease.epoch)
      then w.(threads := w.threads[t := Opening(lease, k, Lookup(w.ledger, k))]) else w
    case Open(t, now, irreversible) =>
      if t in w.threads && w.threads[t].Opening? then OpenStep(w, t, now, irreversible) else w
    case ReadToResolve(t, lease, name, key, outcome) =>
      var k := EffectKey(lease.jobId, name, key);
      if k in w.ledger then w.(threads := w.threads[t := Resolving(lease, outcome, w.ledger[k])]) else w
    case Resolve(t, now) =>
      if t in w.threads && w.threads[t].Resolving? then ResolveStep(w, t, now) else w
    case ReadToSignal(t, k, reference) =>
      if k in w.ledger then w.(threads := w.threads[t := Signalling(reference, w.ledger[k])]) else w
    case Signal(t) =>
      if t in w.threads && w.threads[t].Signalling?
      then w.(threads := w.threads - {t}, ledger := Signalled(w.ledger, w.threads[t].reference, w.threads[t].seen))
      else w
    case CleanUp(expired) => w.(ledger := MarkPending(w.ledger, expired))
    case Crash(t) => w.(threads := w.threads - {t})
  }

  // --------------------------------------------------------- entries of a ledger

  ghost predicate EntryOk(w: World, k: EffectKey)
    requires k in w.ledger
  {
    var e := w.ledger[k];
    && e.key == k && e.id != "" && e.state != Rejected
    && (e.state == NotHappened ==> k in w.denied)
    && k.jobId in w.jobs.jobs && e.leaseEpoch <= w.jobs.jobs[k.jobId].leaseEpoch
  }

  /** What a client knows from its read is still true in the ways that matter. */
  ghost predicate ThreadOk(w: World, thread: Thread) {
    match thread
    case Opening(lease, k, seen) =>
      && lease.jobId == k.jobId && Issued(w.jobs, lease) && MayCall(seen, lease.epoch)
      && (if seen.None? then k in w.ledger ==> w.ledger[k].leaseEpoch >= lease.epoch
          else SeenOk(w, k, seen.value))
    case Resolving(_, _, seen) => SeenOk(w, seen.key, seen)
    case Signalling(_, seen) => SeenOk(w, seen.key, seen)
  }

  ghost predicate SeenOk(w: World, k: EffectKey, seen: Effect) {
    && seen.key == k && k in w.ledger && seen.id == w.ledger[k].id != ""
    && seen.leaseEpoch == w.ledger[k].leaseEpoch
    && seen.state != Rejected && (seen.state == NotHappened ==> k in w.denied)
  }

  /** A call belongs to the execution that opened the entry, unless the entry was denied. */
  ghost predicate CallOk(w: World, c: Call) {
    c.key in w.ledger && (c.key in w.denied || w.ledger[c.key].leaseEpoch == c.epoch)
  }

  ghost predicate Inv(w: World) {
    && WellNamed(w.jobs)
    && (forall k | k in w.ledger :: EntryOk(w, k))
    && (forall t | t in w.threads :: ThreadOk(w, w.threads[t]))
    && (forall i | 0 <= i < |w.calls| :: CallOk(w, w.calls[i]))
  }

  /** How a step may change an entry: it stays, keeps its identity and its epoch, never
      goes back to pending, and is denied only on the record. */
  ghost predicate EntryEvolves(w: World, w': World, k: EffectKey)
    requires k in w.ledger
  {
    && k in w'.ledger
    && w'.ledger[k].key == w.ledger[k].key && w'.ledger[k].id == w.ledger[k].id
    && w'.ledger[k].leaseEpoch == w.ledger[k].leaseEpoch
    && (w'.ledger[k].state != w.ledger[k].state ==> w'.ledger[k].state != Pending && w'.ledger[k].state != Rejected)
    && (w'.ledger[k].state == NotHappened ==> w.ledger[k].state == NotHappened || k in w'.denied)
  }

  ghost predicate EpochsGrow(s: Jobs.Store, s': Jobs.Store) {
    forall id | id in s.jobs :: id in s'.jobs && s.jobs[id].leaseEpoch <= s'.jobs[id].leaseEpoch
  }

  /** A new entry belongs to the execution that is running when it is written. */
  ghost predicate Born(w: World, w': World, k: EffectKey)
    requires k in w'.ledger
  {
    EntryOk(w', k) && k.jobId in w.jobs.jobs && w'.ledger[k].leaseEpoch == w.jobs.jobs[k.jobId].leaseEpoch
  }

  /** What all steps have in common, as far as existing knowledge is concerned. */
  ghost predicate Evolves(w: World, w': World) {
    && w.denied <= w'.denied
    && (forall k | k in w.ledger :: EntryEvolves(w, w', k))
    && EpochsGrow(w.jobs, w'.jobs)
    && (forall k | k in w'.ledger && k !in w.ledger :: Born(w, w', k))
  }

  lemma JobCallsGrow(s: Jobs.Store, op: Op)
    requires WellNamed(s)
    ensures EpochsGrow(s, Apply(s, op))
  {
    hide Apply;
    forall id | id in s.jobs
        ensures id in Apply(s, op).jobs && s.jobs[id].leaseEpoch <= Apply(s, op).jobs[id].leaseEpoch
    {
      var change := ApplyStep(s, op, id);
    }
  }

  /** A write through `SaveEffect` of a changed copy of what was read. */
  lemma SaveEvolves(w: World, seen: Effect, next: Effect, denied: set<EffectKey>)
    requires Inv(w) && SeenOk(w, seen.key, seen) && w.denied <= denied
    requires next == seen.(state := next.state, externalRef := next.externalRef)
    requires next.state == Confirmed || next.state == Uncertain || next.state == NotHappened
    requires next.state == NotHappened ==> seen.key in denied
    ensures Evolves(w, w.(ledger := SaveEffect(w.ledger, next).0, denied := denied))
  {
    var w' := w.(ledger := SaveEffect(w.ledger, next).0, denied := denied);
    forall k | k in w.ledger ensures EntryEvolves(w, w', k) {
      assert EntryOk(w, k);
    }
  }

  lemma ResolveEvolves(w: World, t: nat, now: Instant)
    requires Inv(w) && t in w.threads && w.threads[t].Resolving?
    ensures Evolves(w, ResolveStep(w, t, now))
  {
    var Resolving(lease, outcome, seen) := w.threads[t];
    assert ThreadOk(w, w.threads[t]);
    var w' := ResolveStep(w, t, now);
    if w'.ledger != w.ledger {
      var next := ResolvedWrites(w, lease, outcome, seen, now);
      SaveEvolves(w, seen, next, w'.denied);
      EvolvesIgnoresThreads(w, w.(ledger := w'.ledger, denied := w'.denied), w');
    }
  }

  /** If resolving changes the ledger at all, it saves a copy of what was read with a new state. */
  lemma ResolvedWrites(w: World, lease: Jobs.Lease, outcome: Outcome, seen: Effect, now: Instant) returns (next: Effect)
    requires Resolved(w, lease, outcome, seen, now) != w.ledger && SeenOk(w, seen.key, seen)
    ensures Resolved(w, lease, outcome, seen, now) == SaveEffect(w.ledger, next).0
    ensures next == seen.(state := next.state, externalRef := next.externalRef)
    ensures next.state == Confirmed || next.state == Uncertain || next.state == NotHappened
  {
    match outcome
    case NeverHappened => next := seen.(state := NotHappened);
    case ResultUnknown => next := seen.(state := Uncertain);
    case CallSucceeded(policy, reference) => next := seen.(state := Confirmed, externalRef := reference);
  }

  lemma EvolvesIgnoresThreads(w: World, w1: World, w2: World)
    requires Evolves(w, w1) && w2.jobs == w1.jobs && w2.ledger == w1.ledger && w2.denied == w1.denied
    ensures Evolves(w, w2)
  {
    forall k | k in w.ledger ensures EntryEvolves(w, w2, k) { assert EntryEvolves(w, w1, k); }
    forall k | k in w2.ledger && k !in w.ledger ensures Born(w, w2, k) { assert Born(w, w1, k); }
  }

  lemma SignalEvolves(w: World, t: nat)
    requires Inv(w) && t in w.threads && w.threads[t].Signalling?
    ensures Evolves(w, w.(threads := w.threads - {t},
                          ledger := Signalled(w.ledger, w.threads[t].reference, w.threads[t].seen)))
  {
    var Signalling(reference, seen) := w.threads[t];
    assert ThreadOk(w, w.threads[t]);
    var w' := w.(threads := w.threads - {t}, ledger := Signalled(w.ledger, reference, seen));
    if seen.state == Pending {
      SaveEvolves(w, seen, seen.(state := Confirmed, externalRef := reference), w.denied);
      EvolvesIgnoresThreads(w, w.(ledger := w'.ledger), w');
    }
  }

  lemma OpenEvolves(w: World, t: nat, now: Instant, irreversible: bool)
    requires Inv(w) && t in w.threads && w.threads[t].Opening?
    ensures Evolves(w, OpenStep(w, t, now, irreversible))
  {
    assert ThreadOk(w, w.threads[t]);
  }

  lemma TakeEvolves(w: World, step: Step)
    requires Inv(w)
    ensures Evolves(w, Take(w, step))
  {
    assert Jobs.IdsMatch(w.jobs);
    if step.Open? || step.Resolve? || step.Signal? { ThreadEvolves(w, step); }
    else { OthersEvolve(w, step); }
    hide Take, Evolves, Inv, Jobs.IdsMatch;
  }

  lemma ThreadEvolves(w: World, step: Step)
    requires Inv(w) && Jobs.IdsMatch(w.jobs) && (step.Open? || step.Resolve? || step.Signal?)
    ensures Evolves(w, Take(w, step))
  {
    hide Inv, Evolves, Apply, OpenStep, ResolveStep, Signalled, MarkPending, Jobs.IdsMatch;
    if step.t !in w.threads { NothingEvolves(w, w); }
    else if step.Open? && w.threads[step.t].Opening? { OpenEvolves(w, step.t, step.now, step.irreversible); }
    else if step.Resolve? && w.threads[step.t].Resolving? { ResolveEvolves(w, step.t, step.now); }
    else if step.Signal? && w.threads[step.t].Signalling? { SignalEvolves(w, step.t); }
    else { NothingEvolves(w, w); }
  }

  lemma OthersEvolve(w: World, step: Step)
    requires Inv(w) && Jobs.IdsMatch(w.jobs) && !step.Open? && !step.Resolve? && !step.Signal?
    ensures Evolves(w, Take(w, step))
  {
    hide Inv, Evolves, Apply, MarkPending, Informed, Issued, MayCall, Jobs.IdsMatch;
    if step.JobCall? { JobCallEvolves(w, Informed(w.ledger, step.op)); }
    else if step.CleanUp? { CleanUpEvolves(w, step.expired); }
    else { NothingEvolves(w, Take(w, step)); }
  }

  lemma JobCallEvolves(w: World, op: Op)
    requires Inv(w)
    ensures Evolves(w, w.(jobs := Apply(w.jobs, op)))
  {
    hide Apply;
    JobCallsGrow(w.jobs, op);
  }

  lemma NothingEvolves(w: World, w': World)
    requires w'.jobs == w.jobs && w'.ledger == w.ledger && w'.denied == w.denied
    ensures Evolves(w, w')
  {
  }

  lemma CleanUpEvolves(w: World, expired: seq<Jobs.ExpiredLease>)
    requires Inv(w)
    ensures Evolves(w, w.(ledger := MarkPending(w.ledger, expired)))
  {
    var w' := w.(ledger := MarkPending(w.ledger, expired));
    forall k | k in w.ledger ensures EntryEvolves(w, w', k) { assert EntryOk(w, k); }
  }

  // ------------------------------------------------------ knowledge stays valid

  lemma EvolvedEntry(w: World, w': World, k: EffectKey)
    requires Evolves(w, w') && k in w.ledger && EntryOk(w, k)
    ensures k in w'.ledger && EntryOk(w', k)
  {
    assert EntryEvolves(w, w', k);
  }

  lemma EvolvedThread(w: World, w': World, thread: Thread)
    requires Evolves(w, w') && ThreadOk(w, thread)
    ensures ThreadOk(w', thread)
  {
    match thread
    case Opening(lease, k, seen) =>
      if k in w.ledger { assert EntryEvolves(w, w', k); } else if k in w'.ledger { assert Born(w, w', k); }
    case Resolving(_, _, seen) => assert EntryEvolves(w, w', seen.key);
    case Signalling(_, seen) => assert EntryEvolves(w, w', seen.key);
  }

  lemma EvolvedCall(w: World, w': World, c: Call)
    requires Evolves(w, w') && CallOk(w, c)
    ensures CallOk(w', c)
  {
    assert EntryEvolves(w, w', c.key);
  }

  /** A client that starts from a fresh read knows the truth. */
  lemma FreshReadIsOk(w: World, step: Step)
    requires Inv(w) && (step.ReadToOpen? || step.ReadToResolve? || step.ReadToSignal?)
    ensures var w' := Take(w, step);
            || w' == w
            || (&& step.t in w'.threads && ThreadOk(w, w'.threads[step.t])
                && w' == w.(threads := w.threads[step.t := w'.threads[step.t]]))
  {
    match step
    case ReadToOpen(t, lease, name, key) =>
      var k := EffectKey(lease.jobId, name, key);
      if k in w.ledger { assert EntryOk(w, k); }
    case ReadToResolve(t, lease, name, key, outcome) =>
      var k := EffectKey(lease.jobId, name, key);
      if k in w.ledger { assert EntryOk(w, k); }
    case ReadToSignal(t, k, reference) =>
      if k in w.ledger { assert EntryOk(w, k); }
  }

  /** The heart of the matter: a call that is let through belongs to the execution whose
      epoch the entry carries. Between the read and the fenced write no other execution
      can have run, or the fence would have refused. */
  lemma OpenedCallIsOk(w: World, t: nat, now: Instant, irreversible: bool)
    requires Inv(w) && t in w.threads && w.threads[t].Opening?
    ensures var w' := OpenStep(w, t, now, irreversible);
            w'.calls == w.calls || (w'.calls == w.calls + [Last(w'.calls)] && CallOk(w', Last(w'.calls)))
  {
    var thread := w.threads[t];
    assert ThreadOk(w, thread);
    if thread.key in w.ledger { assert EntryOk(w, thread.key); }
  }

  lemma NewThreadsAreOk(w: World, step: Step)
    requires Inv(w)
    ensures forall t | t in Take(w, step).threads :: ThreadOk(w, Take(w, step).threads[t])
  {
    if step.ReadToOpen? || step.ReadToResolve? || step.ReadToSignal? { FreshReadIsOk(w, step); }
  }

  lemma TakeKeepsInv(w: World, step: Step)
    requires Inv(w)
    ensures Inv(Take(w, step))
  {
    var w' := Take(w, step);
    TakeEvolves(w, step);
    NewThreadsAreOk(w, step);
    if step.JobCall? { ApplyKeepsWellNamed(w.jobs, Informed(w.ledger, step.op)); }
    if step.Open? && step.t in w.threads && w.threads[step.t].Opening? {
      OpenedCallIsOk(w, step.t, step.now, step.irreversible);
    }
    CallsComeFromOpening(w, step);
    hide Take, Evolves, EntryOk, ThreadOk, CallOk, WellNamed;
    forall k | k in w'.ledger ensures EntryOk(w', k) {
      if k in w.ledger { EvolvedEntry(w, w', k); } else { NewEntryOk(w, w', k); }
    }
    forall t | t in w'.threads ensures ThreadOk(w', w'.threads[t]) { EvolvedThread(w, w', w'.threads[t]); }
    forall i | 0 <= i < |w'.calls| ensures CallOk(w', w'.calls[i]) {
      if i < |w.calls| { assert w'.calls[i] == w.calls[i]; EvolvedCall(w, w', w.calls[i]); }
    }
  }

  lemma NewEntryOk(w: World, w': World, k: EffectKey)
    requires Evolves(w, w') && k in w'.ledger && k !in w.ledger
    ensures EntryOk(w', k)
  {
    assert Born(w, w', k);
  }

  lemma CallsComeFromOpening(w: World, step: Step)
    requires Inv(w)
    ensures var w' := Take(w, step);
            w'.calls == w.calls
              || (step.Open? && step.t in w.threads && w.threads[step.t].Opening?
                  && w' == OpenStep(w, step.t, step.now, step.irreversible))
    ensures !step.JobCall? ==> Take(w, step).jobs == w.jobs
  {
  }

  // ------------------------------------------------------------------- theorems

  /** Any job queue, an empty ledger, and nobody in the middle of anything. */
  ghost function Start(jobs: Jobs.Store): (w: World)
    requires WellNamed(jobs)
    ensures Inv(w)
  {
    World(jobs, map[], map[], [], {})
  }

  ghost function After(w: World, steps: seq<Step>): (w': World)
    requires Inv(w)
    ensures Inv(w')
    decreases |steps|
  {
    if steps == [] then w
    else
      var before := After(w, Front(steps));
      TakeKeepsInv(before, Last(steps));
      Take(before, Last(steps))
  }

  /** Over every interleaving, all provider calls let through for one effect were made
      by one and the same execution, unless somebody recorded that the call provably
      never happened. */
  lemma CallsShareOneEpoch(jobs: Jobs.Store, steps: seq<Step>)
    requires WellNamed(jobs)
    ensures var w := After(Start(jobs), steps);
            forall i, j | 0 <= i < |w.calls| && 0 <= j < |w.calls| && w.calls[i].key == w.calls[j].key ::
              w.calls[i].key in w.denied || w.calls[i].epoch == w.calls[j].epoch
  {
    hide Take;
    var w := After(Start(jobs), steps);
    assert forall i | 0 <= i < |w.calls| :: CallOk(w, w.calls[i]);
  }

  /** A token a worker was given can be presented ever after: the guard on reading
      excludes only epochs that nobody has been given. */
  lemma {:induction false} TokensStayIssued(w: World, steps: seq<Step>, id: string)
    requires Inv(w) && id in w.jobs.jobs
    ensures Issued(After(w, steps).jobs, Jobs.LeaseFor(w.jobs.jobs[id]).(jobId := id))
  {
    if steps != [] {
      TokensStayIssued(w, Front(steps), id);
      TakeEvolves(After(w, Front(steps)), Last(steps));
      hide Take;
    }
  }

  /** An entry, once written, keeps the epoch that opened it, and once it has left
      pending it never returns. */
  lemma {:induction false} EntriesNeverReopen(w: World, steps: seq<Step>, k: EffectKey)
    requires Inv(w) && k in w.ledger
    ensures k in After(w, steps).ledger && After(w, steps).ledger[k].leaseEpoch == w.ledger[k].leaseEpoch
    ensures w.ledger[k].state != Pending ==> After(w, steps).ledger[k].state != Pending
  {
    if steps != [] {
      EntriesNeverReopen(w, Front(steps), k);
      var before := After(w, Front(steps));
      TakeEvolves(before, Last(steps));
      hide Take;
      assert EntryEvolves(before, After(w, steps), k);
    }
  }

  // ------------------------------------------------- answered effects stay answered

  /** Somebody read the entry and has not yet presented its record. */
  ghost predicate BeingOpened(w: World, k: EffectKey) {
    exists t | t in w.threads :: w.threads[t].Opening? && w.threads[t].key == k
  }

  ghost predicate Answered(w: World, k: EffectKey) {
    k in w.ledger && (w.ledger[k].state == Confirmed || w.ledger[k].state == Uncertain)
  }

  /** Whoever reads an answered entry, at whatever epoch, is turned away on the spot. */
  lemma AnsweredTurnsAway(w: World, t: nat, lease: Jobs.Lease, name: string, key: string)
    requires Jobs.IdsMatch(w.jobs) && Answered(w, EffectKey(lease.jobId, name, key))
    ensures Take(w, ReadToOpen(t, lease, name, key)) == w
  {
  }

  lemma AnsweredStep(w: World, step: Step, k: EffectKey)
    requires Inv(w) && Answered(w, k) && !BeingOpened(w, k)
    ensures var w' := Take(w, step);
            && (k in w'.denied || Answered(w', k)) && !BeingOpened(w', k)
            && w.calls <= w'.calls && (forall i | |w.calls| <= i < |w'.calls| :: w'.calls[i].key != k)
  {
    var w' := Take(w, step);
    TakeEvolves(w, step);
    assert EntryEvolves(w, w', k);
    CallsComeFromOpening(w, step);
    if step.ReadToOpen? && EffectKey(step.lease.jobId, step.name, step.key) == k {
      AnsweredTurnsAway(w, step.t, step.lease, step.name, step.key);
    }
    NoNewOpening(w, step, k);
    hide Take, Evolves, EntryEvolves;
  }

  lemma NoNewOpening(w: World, step: Step, k: EffectKey)
    requires Jobs.IdsMatch(w.jobs) && !BeingOpened(w, k)
    requires step.ReadToOpen? && EffectKey(step.lease.jobId, step.name, step.key) == k ==> Take(w, step) == w
    ensures !BeingOpened(Take(w, step), k)
  {
    hide Apply, MarkPending, Signalled, Resolved, BeginEffect, OpeningRecord, MayCall;
  }

  /** An effect that was confirmed or left uncertain is not called again. Over every
      interleaving, unless somebody records that the call provably never happened, no
      client that comes after the answer is let through, in whatever execution. */
  lemma {:induction false} AnsweredEffectIsNotCalledAgain(w: World, steps: seq<Step>, k: EffectKey)
    requires Inv(w) && Answered(w, k) && !BeingOpened(w, k)
    ensures var after := After(w, steps);
            k in after.denied ||
            (&& Answered(after, k) && !BeingOpened(after, k) && w.calls <= after.calls
             && forall i | |w.calls| <= i < |after.calls| :: after.calls[i].key != k)
  {
    hide Take, Inv, Answered, BeingOpened;
    if steps != [] {
      var before := After(w, Front(steps));
      AnsweredEffectIsNotCalledAgain(w, Front(steps), k);
      if k in before.denied {
        DeniedStays(before, Last(steps), k);
      } else {
        AnsweredStep(before, Last(steps), k);
      }
    }
  }

  lemma DeniedStays(w: World, step: Step, k: EffectKey)
    requires Inv(w) && k in w.denied
    ensures k in Take(w, step).denied
  {
    TakeEvolves(w, step);
    hide Take;
  }

  /** The condition is needed: a client that read the entry before the answer, in the
      execution that still holds the lease, is let through after it. */
  lemma EarlierReaderStillCalls(w: World, t: nat, now: Instant, irreversible: bool)
    requires Inv(w) && t in w.threads && w.threads[t].Opening? && w.threads[t].found.Some?
    requires w.threads[t].key.name != "" && w.threads[t].key.key != ""
    requires Jobs.LeaseHolds(w.jobs, w.threads[t].lease, now)
    ensures Take(w, Open(t, now, irreversible)).calls == w.calls + [Call(w.threads[t].key, w.threads[t].lease.epoch)]
  {
    assert ThreadOk(w, w.threads[t]);
    hide Apply, MarkPending, Signalled, Resolved;
  }

  /** A job that called a provider is never replayed behind the ledger's back. */
  lemma CalledJobIsNotReplayed(w: World, i: nat, request: Jobs.ReplayRequest, effects: set<EffectState>)
    requires Inv(w) && i < |w.calls| && w.calls[i].key !in w.denied && request.jobId == w.calls[i].key.jobId
    ensures Take(w, JobCall(Replay(request, effects))).jobs == w.jobs
  {
    var k := w.calls[i].key;
    assert CallOk(w, w.calls[i]);
    assert EntryOk(w, k);
    assert w.ledger[k].state in StatesOf(w.ledger, k.jobId);
  }

  /** An execution that is over cannot open or settle an entry, however late it tries. */
  lemma StaleExecutionLeavesTheLedger(s: Jobs.Store, ops: seq<Op>, lease: Jobs.Lease, now: Instant, ledger: Ledger,
                                      record: Effect)
    requires WellNamed(s) && EpochOver(s, lease.jobId, lease.epoch)
    ensures BeginEffect(ledger, Run(s, ops), lease, now, record) == (ledger, Err(LeaseLost))
    ensures ConfirmEffect(ledger, Run(s, ops), lease, now, record) == (ledger, Err(LeaseLost))
  {
    StaleLeaseIsRefused(s, ops, lease, now, 1, Completing);
  }

  /** Cleaning up after executions that are over never touches the running one. */
  lemma CleanUpSparesTheRunning(w: World, expired: seq<Jobs.ExpiredLease>, k: EffectKey)
    requires Inv(w) && k in w.ledger && w.jobs.jobs[k.jobId].state == Jobs.Leased
    requires forall i | 0 <= i < |expired| :: EpochOver(w.jobs, expired[i].jobId, expired[i].epoch)
    requires w.ledger[k].leaseEpoch == w.jobs.jobs[k.jobId].leaseEpoch
    ensures Take(w, CleanUp(expired)).ledger[k] == w.ledger[k]
  {
    assert EntryOk(w, k);
    forall i | 0 <= i < |expired| ensures expired[i].jobId != k.jobId || expired[i].epoch < w.ledger[k].leaseEpoch {
      assert EpochOver(w.jobs, expired[i].jobId, expired[i].epoch);
    }
  }

  // -------------------------------------------------------------- the two gaps

  lemma DeniedCallIsOpened(w: World, t: nat, lease: Jobs.Lease, k: EffectKey, now: Instant)
    requires Inv(w) && k in w.ledger && w.ledger[k].state == NotHappened && k.name != "" && k.key != ""
    requires lease.jobId == k.jobId && Jobs.LeaseHolds(w.jobs, lease, now)
    ensures var w2 := Take(Take(w, ReadToOpen(t, lease, k.name, k.key)), Open(t, now, true));
            w2.calls == w.calls + [Call(k, lease.epoch)] && w2.ledger == w.ledger && w2.jobs == w.jobs
  {
    assert EntryOk(w, k) && Jobs.IdsMatch(w.jobs);
    assert k == EffectKey(lease.jobId, k.name, k.key);
    hide Inv, Apply, Signalled, MarkPending, ResolveStep;
    var w1 := Take(w, ReadToOpen(t, lease, k.name, k.key));
    assert w1.threads[t] == Opening(lease, k, Some(w.ledger[k]));
    var record := OpeningRecord(w1.threads[t], now, true);
    assert record.Ok? && record.value.id == w.ledger[k].id;
  }

  /** Neither success nor doubt can be recorded over a denial. */
  lemma DeniedEntryStays(w: World, t: nat, lease: Jobs.Lease, k: EffectKey, now: Instant, outcome: Outcome)
    requires Jobs.IdsMatch(w.jobs) && k in w.ledger && w.ledger[k].state == NotHappened && w.ledger[k].key == k
    requires lease.jobId == k.jobId && !outcome.NeverHappened?
    ensures var w2 := Take(Take(w, ReadToResolve(t, lease, k.name, k.key, outcome)), Resolve(t, now));
            w2.calls == w.calls && w2.ledger == w.ledger
  {
    assert k == EffectKey(lease.jobId, k.name, k.key);
    hide Apply, Signalled, MarkPending, OpenStep, Jobs.LeaseHolds, Jobs.IdsMatch;
    var w1 := Take(w, ReadToResolve(t, lease, k.name, k.key, outcome));
    assert w1.threads[t] == Resolving(lease, outcome, w.ledger[k]);
  }

  /** After a denied call the ledger has nothing more to say: the next call is let
      through, for any later execution, and neither its success nor an unknown result
      can be recorded. The entry still reads "not happened" afterwards, so the call
      after that is let through as well. */
  lemma DeniedEntryIsStuck(w: World, t: nat, lease: Jobs.Lease, k: EffectKey, now: Instant, outcome: Outcome)
    requires Inv(w) && k in w.ledger && w.ledger[k].state == NotHappened && k.name != "" && k.key != ""
    requires lease.jobId == k.jobId
    requires Jobs.LeaseHolds(w.jobs, lease, now) && !outcome.NeverHappened?
    ensures var w1 := Take(w, ReadToOpen(t, lease, k.name, k.key));
            var w2 := Take(w1, Open(t, now, true));
            var w3 := Take(w2, ReadToResolve(t, lease, k.name, k.key, outcome));
            var w4 := Take(w3, Resolve(t, now));
            && w4.calls == w.calls + [Call(k, lease.epoch)]
            && w4.ledger == w.ledger
  {
    assert EntryOk(w, k) && Jobs.IdsMatch(w.jobs);
    DeniedCallIsOpened(w, t, lease, k, now);
    hide Take, Inv, Jobs.LeaseHolds, Jobs.IdsMatch;
    var w2 := Take(Take(w, ReadToOpen(t, lease, k.name, k.key)), Open(t, now, true));
    DeniedEntryStays(w2, t, lease, k, now, outcome);
  }

  /** A confirmation is lost exactly when a worker writes what it concluded from an
      older read: an unknown result it read as pending, or a denial it is still leased
      to make. */
  lemma ConfirmationIsLostOnlyToAStaleWriter(w: World, step: Step, k: EffectKey)
    requires Inv(w) && k in w.ledger && w.ledger[k].state == Confirmed
    ensures k in Take(w, step).ledger
    ensures Take(w, step).ledger[k].state != Confirmed <==>
              && step.Resolve? && step.t in w.threads && w.threads[step.t].Resolving?
              && var Resolving(lease, outcome, seen) := w.threads[step.t];
                 && seen.key == k
                 && ((outcome.ResultUnknown? && seen.state == Pending)
                     || (outcome.NeverHappened? && Jobs.LeaseHolds(w.jobs, lease, step.now) && lease.jobId == k.jobId))
  {
    hide OpenStep, ResolveStep, Apply, Issued, MayCall, Informed, Jobs.LeaseHolds;
    match step
    case Resolve(t, now) => if t in w.threads && w.threads[t].Resolving? { ResolvedOver(w, t, now, k); }
    case Signal(t) => if t in w.threads && w.threads[t].Signalling? { assert ThreadOk(w, w.threads[t]); }
    case Open(t, now, irreversible) =>
      if t in w.threads && w.threads[t].Opening? { OpenKeepsEntries(w, t, now, irreversible, k); }
    case _ =>
  }

  lemma OpenKeepsEntries(w: World, t: nat, now: Instant, irreversible: bool, k: EffectKey)
    requires t in w.threads && w.threads[t].Opening? && k in w.ledger
    ensures k in OpenStep(w, t, now, irreversible).ledger && OpenStep(w, t, now, irreversible).ledger[k] == w.ledger[k]
  {
  }

  /** What a resolving write does to a confirmed entry. */
  lemma ResolvedOver(w: World, t: nat, now: Instant, k: EffectKey)
    requires Inv(w) && k in w.ledger && w.ledger[k].state == Confirmed && t in w.threads && w.threads[t].Resolving?
    ensures k in ResolveStep(w, t, now).ledger
    ensures var Resolving(lease, outcome, seen) := w.threads[t];
            ResolveStep(w, t, now).ledger[k].state != Confirmed <==>
            && seen.key == k
            && ((outcome.ResultUnknown? && seen.state == Pending)
                || (outcome.NeverHappened? && Jobs.LeaseHolds(w.jobs, lease, now) && lease.jobId == k.jobId))
  {
    assert ThreadOk(w, w.threads[t]);
    hide Inv, Jobs.LeaseHolds;
  }

  /** Such a writer exists: a worker that timed out races the provider's webhook. */
  lemma WebhookConfirmationCanBeLost(w: World, a: nat, b: nat, k: EffectKey, lease: Jobs.Lease, reference: string,
                                     now: Instant)
    requires Inv(w) && a != b && k in w.ledger && w.ledger[k].state == Pending && lease.jobId == k.jobId
    ensures var w1 := Take(w, ReadToResolve(a, lease, k.name, k.key, ResultUnknown));
            var w2 := Take(w1, ReadToSignal(b, k, reference));
            var w3 := Take(w2, Signal(b));
            var w4 := Take(w3, Resolve(a, now));
            && k in w3.ledger && w3.ledger[k].state == Confirmed
            && k in w4.ledger && w4.ledger[k].state == Uncertain
  {
    assert EntryOk(w, k);
    hide Inv;
    BothRead(w, a, b, k, lease, reference);
    var w2 := w.(threads := w.threads[a := Resolving(lease, ResultUnknown, w.ledger[k])]
                                     [b := Signalling(reference, w.ledger[k])]);
    ConfirmedThenDoubted(w2, a, b, k, lease, reference, now);
    hide Take;
  }

  lemma BothRead(w: World, a: nat, b: nat, k: EffectKey, lease: Jobs.Lease, reference: string)
    requires Jobs.IdsMatch(w.jobs) && k in w.ledger && lease.jobId == k.jobId
    ensures Take(Take(w, ReadToResolve(a, lease, k.name, k.key, ResultUnknown)), ReadToSignal(b, k, reference))
            == w.(threads := w.threads[a := Resolving(lease, ResultUnknown, w.ledger[k])]
                                      [b := Signalling(reference, w.ledger[k])])
  {
    assert k == EffectKey(lease.jobId, k.name, k.key);
    hide Jobs.IdsMatch, Apply, MarkPending, OpenStep, ResolveStep, Signalled;
  }

  lemma ConfirmedThenDoubted(w: World, a: nat, b: nat, k: EffectKey, lease: Jobs.Lease, reference: string,
                             now: Instant)
    requires Jobs.IdsMatch(w.jobs) && a != b && k in w.ledger && w.ledger[k].state == Pending && w.ledger[k].key == k
    requires a in w.threads && w.threads[a] == Resolving(lease, ResultUnknown, w.ledger[k])
    requires b in w.threads && w.threads[b] == Signalling(reference, w.ledger[k])
    ensures var w1 := Take(w, Signal(b));
            var w2 := Take(w1, Resolve(a, now));
            && k in w1.ledger && w1.ledger[k].state == Confirmed
            && k in w2.ledger && w2.ledger[k].state == Uncertain
  {
    hide Jobs.IdsMatch, Apply, MarkPending, OpenStep;
  }
}
