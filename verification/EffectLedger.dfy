/**
 The effect ledger as a value: one function per store operation. `EffectStore`
 updates the same map in place and is proved against these functions.

 A fenced operation checks the lease and writes in one step, as the PostgreSQL
 statement does.
 */
module EffectLedger {
  import opened Basics
  import opened EffectRecords
  import Jobs

  type Ledger = map<EffectKey, Effect>

  datatype LedgerError = LeaseLost | EffectConflict | EffectMissing

  /** Every entry is stored under its own key. */
  ghost predicate KeysMatch(ledger: Ledger) { forall k | k in ledger :: ledger[k].key == k }

  function BeginEffect(ledger: Ledger, jobs: Jobs.Store, lease: Jobs.Lease, now: Instant, record: Effect)
    : (Ledger, Result<Effect, LedgerError>)
  {
    if !Jobs.LeaseHolds(jobs, lease, now) || lease.jobId != record.key.jobId then (ledger, Err(LeaseLost))
    else if record.key in ledger then
      (ledger, if ledger[record.key].id != record.id then Err(EffectConflict) else Ok(ledger[record.key]))
    else
      var stored := record.(leaseEpoch := lease.epoch);
      (ledger[record.key := stored], Ok(stored))
  }

  /** `SaveEffect`: overwrite the entry, except for the epoch that opened it. */
  function SaveEffect(ledger: Ledger, record: Effect): (Ledger, Result<(), LedgerError>) {
    if record.key !in ledger then (ledger, Err(EffectMissing))
    else (ledger[record.key := record.(leaseEpoch := ledger[record.key].leaseEpoch)], Ok(()))
  }

  function ConfirmEffect(ledger: Ledger, jobs: Jobs.Store, lease: Jobs.Lease, now: Instant, record: Effect)
    : (Ledger, Result<(), LedgerError>)
  {
    if !Jobs.LeaseHolds(jobs, lease, now) || lease.jobId != record.key.jobId then (ledger, Err(LeaseLost))
    else SaveEffect(ledger, record)
  }

  // ------------------------------------------------ clean-up after executions

  /** The SQL condition: some dead execution of the job, at or after the entry's epoch. */
  predicate Orphaned(e: Effect, expired: seq<Jobs.ExpiredLease>) {
    e.state == Pending && exists i | 0 <= i < |expired| ::
        expired[i].jobId == e.key.jobId && e.leaseEpoch <= expired[i].epoch
  }

  function Downgraded(ledger: Ledger, expired: seq<Jobs.ExpiredLease>): set<EffectKey> {
    set k | k in ledger && Orphaned(ledger[k], expired)
  }

  /** `MarkPendingUncertain`. */
  function MarkPending(ledger: Ledger, expired: seq<Jobs.ExpiredLease>): Ledger {
    map k | k in ledger :: if Orphaned(ledger[k], expired) then ledger[k].(state := Uncertain) else ledger[k]
  }

  /** The in-memory form: the newest dead epoch of every job. */
  function NewestEpochs(expired: seq<Jobs.ExpiredLease>): map<string, int> {
    if expired == [] then map[]
    else
      var epochs := NewestEpochs(Front(expired));
      var item := Last(expired);
      if item.jobId !in epochs || item.epoch > epochs[item.jobId] then epochs[item.jobId := item.epoch] else epochs
  }

  /** Comparing with the newest dead epoch of the job decides exactly the SQL condition. */
  lemma {:induction false} NewestEpochDecides(e: Effect, expired: seq<Jobs.ExpiredLease>)
    ensures var epochs := NewestEpochs(expired);
            Orphaned(e, expired) <==> e.state == Pending && e.key.jobId in epochs && e.leaseEpoch <= epochs[e.key.jobId]
  {
    if expired != [] {
      NewestEpochDecides(e, Front(expired));
      OrphanedSnoc(e, expired);
    }
  }

  lemma OrphanedSnoc(e: Effect, expired: seq<Jobs.ExpiredLease>)
    requires expired != []
    ensures Orphaned(e, expired) <==>
            Orphaned(e, Front(expired))
              || (e.state == Pending && Last(expired).jobId == e.key.jobId && e.leaseEpoch <= Last(expired).epoch)
  {
    if Orphaned(e, Front(expired)) {
      var i :| 0 <= i < |Front(expired)| && Front(expired)[i].jobId == e.key.jobId
        && e.leaseEpoch <= Front(expired)[i].epoch;
      assert expired[i] == Front(expired)[i];
    }
    if Orphaned(e, expired) {
      var i :| 0 <= i < |expired| && expired[i].jobId == e.key.jobId && e.leaseEpoch <= expired[i].epoch;
      if i < |expired| - 1 { assert Front(expired)[i] == expired[i]; }
    }
  }

  lemma OrphanedConcat(e: Effect, a: seq<Jobs.ExpiredLease>, b: seq<Jobs.ExpiredLease>)
    ensures Orphaned(e, a + b) <==> Orphaned(e, a) || Orphaned(e, b)
  {
    if Orphaned(e, a) {
      var i :| 0 <= i < |a| && a[i].jobId == e.key.jobId && e.leaseEpoch <= a[i].epoch;
      assert (a + b)[i] == a[i];
    }
    if Orphaned(e, b) {
      var i :| 0 <= i < |b| && b[i].jobId == e.key.jobId && e.leaseEpoch <= b[i].epoch;
      assert (a + b)[|a| + i] == b[i];
    }
  }

  /** Cleaning up batch after batch is cleaning up once after all of them. */
  lemma MarkPendingComposes(ledger: Ledger, a: seq<Jobs.ExpiredLease>, b: seq<Jobs.ExpiredLease>)
    ensures MarkPending(MarkPending(ledger, a), b) == MarkPending(ledger, a + b)
  {
    forall k | k in ledger ensures MarkPending(MarkPending(ledger, a), b)[k] == MarkPending(ledger, a + b)[k] {
      OrphanedConcat(ledger[k], a, b);
    }
  }
}

/** The in-memory effect ledger. */
module EffectStores {
  import opened Basics
  import opened EffectRecords
  import opened EffectLedger
  import Jobs

  class EffectStore {
    var effects: map<EffectKey, Effect>

    ghost predicate Valid()
      reads this
    {
      KeysMatch(effects)
    }

    constructor ()
      ensures Valid() && effects == map[]
    {
      effects := map[];
    }

    /** Open an entry for a live execution, or return the one that exists. */
    method BeginEffect(jobs: Jobs.Store, lease: Jobs.Lease, now: Instant, record: Effect)
        returns (result: Result<Effect, LedgerError>)
      requires Valid()
      modifies this
      ensures Valid() && (effects, result) == EffectLedger.BeginEffect(old(effects), jobs, lease, now, record)
    {
      if !Jobs.LeaseHolds(jobs, lease, now) || lease.jobId != record.key.jobId {
        return Err(LeaseLost);
      }
      if record.key in effects {
        var existing := effects[record.key];
        if existing.id != record.id { return Err(EffectConflict); }
        return Ok(existing);
      }
      var stored := record.(leaseEpoch := lease.epoch);
      effects := effects[record.key := stored];
      return Ok(stored);
    }

    method SaveEffect(record: Effect) returns (result: Result<(), LedgerError>)
      requires Valid()
      modifies this
      ensures Valid() && (effects, result) == EffectLedger.SaveEffect(old(effects), record)
    {
      if record.key !in effects { return Err(EffectMissing); }
      effects := effects[record.key := record.(leaseEpoch := effects[record.key].leaseEpoch)];
      return Ok(());
    }

    method ConfirmEffect(jobs: Jobs.Store, lease: Jobs.Lease, now: Instant, record: Effect)
        returns (result: Result<(), LedgerError>)
      requires Valid()
      modifies this
      ensures Valid() && (effects, result) == EffectLedger.ConfirmEffect(old(effects), jobs, lease, now, record)
    {
      if !Jobs.LeaseHolds(jobs, lease, now) || lease.jobId != record.key.jobId {
        return Err(LeaseLost);
      }
      result := SaveEffect(record);
    }

    /** The newest dead epoch of every job in the batch. */
    static method CollectEpochs(expired: seq<Jobs.ExpiredLease>) returns (epochs: map<string, int>)
      ensures epochs == NewestEpochs(expired)
    {
      epochs := map[];
      for i := 0 to |expired|
        invariant epochs == NewestEpochs(expired[..i])
      {
        assert Front(expired[..i + 1]) == expired[..i];
        var item := expired[i];
        if item.jobId !in epochs || item.epoch > epochs[item.jobId] { epochs := epochs[item.jobId := item.epoch]; }
      }
      assert expired[..|expired|] == expired;
    }

    /** Downgrade what dead executions left open, using the newest dead epoch per job. */
    method MarkPendingUncertain(expired: seq<Jobs.ExpiredLease>) returns (downgraded: nat)
      requires Valid()
      modifies this
      ensures Valid() && effects == MarkPending(old(effects), expired)
      ensures downgraded == |Downgraded(old(effects), expired)|
    {
      hide Orphaned, NewestEpochs;
      ghost var was := effects;
      var epochs := CollectEpochs(expired);
      var todo := effects.Keys;
      ghost var doomed: set<EffectKey> := {};
      downgraded := 0;
      while todo != {}
        invariant todo <= was.Keys && effects.Keys == was.Keys
        invariant doomed == (set k | k in was && k !in todo && Orphaned(was[k], expired)) && downgraded == |doomed|
        invariant forall k | k in was :: effects[k] == if k in doomed then was[k].(state := Uncertain) else was[k]
        decreases todo
      {
        var k :| k in todo;
        var record := effects[k];
        NewestEpochDecides(record, expired);
        if record.key.jobId in epochs && record.state == Pending && record.leaseEpoch <= epochs[record.key.jobId] {
          effects := effects[k := record.(state := Uncertain)];
          downgraded := downgraded + 1;
          doomed := doomed + {k};
        }
        todo := todo - {k};
      }
      assert doomed == Downgraded(was, expired);
    }
  }
}
