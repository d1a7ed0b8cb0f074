/**
 The client side of an effect, run against the ledger without interruption: begin,
 resolve and the provider's webhook. `EffectProtocol` takes the same calls apart at their
 reads and writes; here they are put together and proved equal to those steps.
 */
module EffectClients {
  import opened Basics
  import opened EffectRecords
  import opened EffectLedger
  import Jobs
  import opened EffectStores
  import EP = EffectProtocol

  /** A world in which nobody else is doing anything. */
  ghost function Alone(jobs: Jobs.Store, ledger: Ledger): EP.World { EP.World(jobs, ledger, map[], [], {}) }

  /** Reading and opening, with nothing in between. */
  ghost function Opened(jobs: Jobs.Store, ledger: Ledger, lease: Jobs.Lease, name: string, key: string,
                        irreversible: bool, now: Instant): EP.World
    requires Jobs.IdsMatch(jobs)
  {
    EP.Take(EP.Take(Alone(jobs, ledger), EP.ReadToOpen(0, lease, name, key)), EP.Open(0, now, irreversible))
  }

  ghost function Settled(jobs: Jobs.Store, ledger: Ledger, lease: Jobs.Lease, name: string, key: string,
                         outcome: EP.Outcome, now: Instant): Ledger
    requires Jobs.IdsMatch(jobs)
  {
    EP.Take(EP.Take(Alone(jobs, ledger), EP.ReadToResolve(0, lease, name, key, outcome)), EP.Resolve(0, now)).ledger
  }

  lemma NotOpened(jobs: Jobs.Store, ledger: Ledger, lease: Jobs.Lease, name: string, key: string, irreversible: bool,
                  now: Instant)
    requires Jobs.IdsMatch(jobs)
    requires name == "" || key == "" || !EP.MayCall(EP.Lookup(ledger, EffectKey(lease.jobId, name, key)), lease.epoch)
    ensures Opened(jobs, ledger, lease, name, key, irreversible, now) == Alone(jobs, ledger)
  {
  }

  lemma OpenedThrough(jobs: Jobs.Store, ledger: Ledger, lease: Jobs.Lease, name: string, key: string,
                      irreversible: bool, now: Instant)
    requires Jobs.IdsMatch(jobs) && name != "" && key != ""
    requires EP.MayCall(EP.Lookup(ledger, EffectKey(lease.jobId, name, key)), lease.epoch)
    ensures var k := EffectKey(lease.jobId, name, key);
            var record := EP.OpeningRecord(EP.Opening(lease, k, EP.Lookup(ledger, k)), now, irreversible);
            var w := Opened(jobs, ledger, lease, name, key, irreversible, now);
            if record.Err? then w.ledger == ledger && w.calls == []
            else
              var (ledger', begun) := BeginEffect(ledger, jobs, lease, now, record.value);
              w.ledger == ledger' && w.calls == if begun.Ok? then [EP.Call(k, lease.epoch)] else []
  {
    hide EP.OpeningRecord;
  }

  /** The provider has not been called for this entry, the call provably did not happen, or
      it is this very execution that opened the entry and has not reported yet. */
  predicate Unanswered(ledger: Ledger, k: EffectKey, epoch: int) {
    k in ledger ==>
      && ledger[k].id != ""
      && (ledger[k].state == NotHappened || ledger[k].state == Rejected
          || (ledger[k].state == Pending && ledger[k].leaseEpoch == epoch))
  }

  /** The call is let through exactly for the holder of the lease and an unanswered entry,
      and an entry is written exactly when there was none. */
  lemma OpenedExactly(jobs: Jobs.Store, ledger: Ledger, lease: Jobs.Lease, name: string, key: string,
                      irreversible: bool, now: Instant)
    requires Jobs.IdsMatch(jobs)
    ensures var k := EffectKey(lease.jobId, name, key);
            var w := Opened(jobs, ledger, lease, name, key, irreversible, now);
            var through := name != "" && key != "" && Jobs.LeaseHolds(jobs, lease, now)
                             && Unanswered(ledger, k, lease.epoch);
            && w.calls == (if through then [EP.Call(k, lease.epoch)] else [])
            && w.ledger == if through && k !in ledger
                           then ledger[k := Effect("effect_" + lease.jobId + "_" + name + "_" + key, k, Pending,
                                                   irreversible, "", now, lease.epoch)]
                           else ledger
  {
    var k := EffectKey(lease.jobId, name, key);
    if name == "" || key == "" || !EP.MayCall(EP.Lookup(ledger, k), lease.epoch) {
      NotOpened(jobs, ledger, lease, name, key, irreversible, now);
      hide Opened;
    } else {
      OpenedThrough(jobs, ledger, lease, name, key, irreversible, now);
      hide Opened;
    }
  }

  /** `beginEffect`: read, decide, present the record. The answer says whether the provider
      may be called: never once the entry is confirmed or uncertain. */
  method Begin(store: EffectStore, jobs: Jobs.Store, lease: Jobs.Lease, name: string, key: string, irreversible: bool,
               now: Instant) returns (mayCall: bool)
    requires store.Valid() && Jobs.IdsMatch(jobs)
    modifies store
    ensures store.Valid()
    ensures var w := Opened(jobs, old(store.effects), lease, name, key, irreversible, now);
            && w.ledger == store.effects
            && w.calls == if mayCall then [EP.Call(EffectKey(lease.jobId, name, key), lease.epoch)] else []
    ensures mayCall <==>
            && name != "" && key != "" && Jobs.LeaseHolds(jobs, lease, now)
            && Unanswered(old(store.effects), EffectKey(lease.jobId, name, key), lease.epoch)
  {
    hide Opened;
    ghost var ledger := store.effects;
    OpenedExactly(jobs, ledger, lease, name, key, irreversible, now);
    if name == "" || key == "" { NotOpened(jobs, ledger, lease, name, key, irreversible, now); return false; }
    var k := EffectKey(lease.jobId, name, key);
    var found := if k in store.effects then Some(store.effects[k]) else None;
    if !EP.MayCall(found, lease.epoch) { NotOpened(jobs, ledger, lease, name, key, irreversible, now); return false; }
    OpenedThrough(jobs, ledger, lease, name, key, irreversible, now);
    var id := if found.Some? && found.value.id != "" then found.value.id else EP.EffectIdFor(k);
    var record := NewRecord(id, k, irreversible, now);
    if record.Err? { return false; }
    var begun := store.BeginEffect(jobs, lease, now, record.value);
    return begun.Ok?;
  }

  lemma SettledThrough(jobs: Jobs.Store, ledger: Ledger, lease: Jobs.Lease, name: string, key: string,
                       outcome: EP.Outcome, now: Instant)
    requires Jobs.IdsMatch(jobs)
    ensures var k := EffectKey(lease.jobId, name, key);
            Settled(jobs, ledger, lease, name, key, outcome, now)
            == if k !in ledger then ledger else
                 var resolving := EP.Resolving(lease, outcome, ledger[k]);
                 EP.Resolved(Alone(jobs, ledger).(threads := map[0 := resolving]), lease, outcome, ledger[k], now)
  {
    hide EP.Resolved;
  }

  /** What is recorded of a call: that it never happened and that it succeeded only under a
      live lease, doubt and success only over an entry that is still pending. */
  lemma ResolvedExactly(jobs: Jobs.Store, ledger: Ledger, lease: Jobs.Lease, name: string, key: string,
                        outcome: EP.Outcome, now: Instant)
    requires Jobs.IdsMatch(jobs) && KeysMatch(ledger)
    ensures Settled(jobs, ledger, lease, name, key, outcome, now)
            == AsReported(ledger, EffectKey(lease.jobId, name, key), outcome, Jobs.LeaseHolds(jobs, lease, now))
  {
    SettledThrough(jobs, ledger, lease, name, key, outcome, now);
    hide Settled, Jobs.LeaseHolds;
  }

  ghost function AsReported(ledger: Ledger, k: EffectKey, outcome: EP.Outcome, leased: bool): Ledger {
    if k !in ledger then ledger
    else if outcome.NeverHappened? then if leased then ledger[k := ledger[k].(state := NotHappened)] else ledger
    else if ledger[k].state != Pending then ledger
    else if outcome.ResultUnknown? then ledger[k := ledger[k].(state := Uncertain)]
    else if leased && Proved(outcome.policy, outcome.reference)
    then ledger[k := ledger[k].(state := Confirmed, externalRef := outcome.reference)]
    else ledger
  }

  /** The proof a policy asks for: the call returned, or it returned the completed status. */
  predicate Proved(policy: ConfirmationPolicy, reference: string) {
    policy.kind == OnReturn || (policy.kind == StatusMatches && reference == policy.completedStatus != "")
  }

  /** `resolveEffect`: record what became of the call. */
  method Resolve(store: EffectStore, jobs: Jobs.Store, lease: Jobs.Lease, name: string, key: string,
                 outcome: EP.Outcome, now: Instant)
    requires store.Valid() && Jobs.IdsMatch(jobs)
    modifies store
    ensures store.Valid() && store.effects == Settled(jobs, old(store.effects), lease, name, key, outcome, now)
    ensures store.effects == AsReported(old(store.effects), EffectKey(lease.jobId, name, key), outcome,
                                        Jobs.LeaseHolds(jobs, lease, now))
  {
    hide Settled, AsReported;
    ResolvedExactly(jobs, store.effects, lease, name, key, outcome, now);
    SettledThrough(jobs, store.effects, lease, name, key, outcome, now);
    var k := EffectKey(lease.jobId, name, key);
    if k !in store.effects { return; }
    var record := store.effects[k];
    match outcome {
      case NeverHappened =>
        var written := store.ConfirmEffect(jobs, lease, now, record.(state := NotHappened));
      case ResultUnknown =>
        var uncertain := MarkUncertain(record);
        if uncertain.Ok? { var written := store.SaveEffect(uncertain.value); }
      case CallSucceeded(policy, reference) =>
        if !Jobs.LeaseHolds(jobs, lease, now) { return; }
        var confirmed := Confirm(record, policy, reference);
        if confirmed.Err? || confirmed.value.state == record.state { return; }
        var written := store.ConfirmEffect(jobs, lease, now, confirmed.value);
    }
  }

  /** `Client.ConfirmEffect`: the provider reports success long after the lease is gone. */
  method SignalConfirmed(store: EffectStore, jobs: Jobs.Store, k: EffectKey, reference: string)
      returns (confirmed: bool)
    requires store.Valid() && Jobs.IdsMatch(jobs)
    modifies store
    ensures store.Valid()
    ensures store.effects
            == EP.Take(EP.Take(Alone(jobs, old(store.effects)), EP.ReadToSignal(0, k, reference)), EP.Signal(0)).ledger
    ensures confirmed <==> k in old(store.effects) && old(store.effects)[k].state == Pending
    ensures confirmed ==>
            k in store.effects && store.effects[k].state == Confirmed && store.effects[k].externalRef == reference
  {
    if k !in store.effects { return false; }
    var next := Confirm(store.effects[k], ConfirmationPolicy(OnReturn, ""), reference);
    if next.Err? { return false; }
    var saved := store.SaveEffect(next.value);
    return saved.Ok?;
  }

  /** A successful call is confirmed exactly on the proof its policy asks for: at once, or
      when the reference is the completed status. A call to be confirmed from outside stays
      pending for the webhook. */
  lemma ConfirmedOnProofOnly(jobs: Jobs.Store, ledger: Ledger, lease: Jobs.Lease, name: string, key: string,
                             policy: ConfirmationPolicy, reference: string, now: Instant)
    requires Jobs.IdsMatch(jobs) && Jobs.LeaseHolds(jobs, lease, now) && KeysMatch(ledger)
    requires var k := EffectKey(lease.jobId, name, key); k in ledger && ledger[k].state == Pending
    ensures var k := EffectKey(lease.jobId, name, key);
            var after := Settled(jobs, ledger, lease, name, key, EP.CallSucceeded(policy, reference), now);
            && k in after
            && (after[k].state == Confirmed <==> Proved(policy, reference))
            && (after[k].state != Confirmed ==> after == ledger)
            && (after[k].state == Confirmed ==> after[k].externalRef == reference)
  {
    SettledThrough(jobs, ledger, lease, name, key, EP.CallSucceeded(policy, reference), now);
    hide Settled;
  }
}
