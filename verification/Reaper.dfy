/**
 The sweep over expired leases: bounded batches, each followed by the clean-up of
 the effects the dead executions left open.
 */
module Reaper {
  import opened Basics
  import opened Jobs
  import opened JobStores
  import opened EffectLedger
  import opened EffectStores
  import EffectRecords
  import JobRuns
  import JobCalls

  ghost predicate AllExpired(s: Store, victims: seq<JobId>, now: Instant) {
    forall i | 0 <= i < |victims| :: victims[i] in s.jobs && victims[i] in ExpiredJobs(s, now)
  }

  // -------------------------------------------------------- batches compose

  ghost predicate Known(s: Store, victims: seq<JobId>) {
    forall i | 0 <= i < |victims| :: victims[i] in s.jobs
  }

  lemma ReapAllStep(s: Store, victims: seq<JobId>, now: Instant, budget: int)
    requires Known(s, victims) && victims != []
    ensures Known(s, Front(victims)) && Last(victims) in ReapAll(s, Front(victims), now, budget).jobs
    ensures ReapAll(s, victims, now, budget)
            == ReapOne(ReapAll(s, Front(victims), now, budget), Last(victims), now, budget)
  {
  }

  lemma KnownParts(s: Store, victims: seq<JobId>, k: nat, now: Instant, budget: int)
    requires Known(s, victims) && k <= |victims|
    ensures Known(s, victims[..k]) && Known(ReapAll(s, victims[..k], now, budget), victims[k..])
  {
  }

  lemma {:induction false} ReapAllSplit(s: Store, victims: seq<JobId>, k: nat, now: Instant, budget: int)
    requires Known(s, victims) && k <= |victims|
    ensures Known(s, victims[..k]) && Known(ReapAll(s, victims[..k], now, budget), victims[k..])
    ensures ReapAll(s, victims, now, budget)
            == ReapAll(ReapAll(s, victims[..k], now, budget), victims[k..], now, budget)
  {
    KnownParts(s, victims, k, now, budget);
    if k == |victims| {
      assert victims[..k] == victims && victims[k..] == [];
    } else {
      hide ReapOne, ReapAll, Known;
      assert Front(victims)[..k] == victims[..k];
      assert Front(victims)[k..] == Front(victims[k..]) && Last(victims[k..]) == Last(victims);
      ReapAllStep(s, victims, now, budget);
      ReapAllSplit(s, Front(victims), k, now, budget);
      ReapAllStep(ReapAll(s, victims[..k], now, budget), victims[k..], now, budget);
    }
  }

  lemma ReapAllConcat(s: Store, a: seq<JobId>, b: seq<JobId>, now: Instant, budget: int)
    requires (forall i | 0 <= i < |a| :: a[i] in s.jobs) && (forall i | 0 <= i < |b| :: b[i] in s.jobs)
    ensures forall i | 0 <= i < |a + b| :: (a + b)[i] in s.jobs
    ensures ReapAll(s, a + b, now, budget) == ReapAll(ReapAll(s, a, now, budget), b, now, budget)
  {
    hide ReapAll;
    ReapAllSplit(s, a + b, |a|, now, budget);
    assert (a + b)[..|a|] == a && (a + b)[|a|..] == b;
  }

  /** After reaping, what was reaped is no longer expired and the rest still is. */
  lemma ExpiredAfter(s: Store, victims: seq<JobId>, now: Instant, budget: int)
    requires IdsMatch(s) && Distinct(victims)
    requires AllExpired(s, victims, now)
    ensures ExpiredJobs(ReapAll(s, victims, now, budget), now) == ExpiredJobs(s, now) - Elements(victims)
  {
    forall id | id in s.jobs
      ensures id in ExpiredJobs(ReapAll(s, victims, now, budget), now) <==>
              id in ExpiredJobs(s, now) - Elements(victims)
    {
      JobRuns.ReapAllEffect(s, victims, now, budget, id);
      hide ReapAll;
    }
    assert ReapAll(s, victims, now, budget).jobs.Keys == s.jobs.Keys;
  }

  lemma VictimIdsConcat(a: seq<ExpiredLease>, b: seq<ExpiredLease>)
    ensures VictimIds(a + b) == VictimIds(a) + VictimIds(b)
  {
  }

  // ------------------------------------------------------------------ the sweep

  /** What a sweep has done so far: the named leases were reaped, each once, and the
      ledger was cleaned up after exactly them. */
  ghost predicate Swept(s: Store, ledger: Ledger, total: seq<ExpiredLease>, now: Instant, budget: int, s': Store,
                        ledger': Ledger)
  {
    && IdsMatch(s) && IdsMatch(s') && Distinct(VictimIds(total)) && NamesEpochs(s, total)
    && AllExpired(s, VictimIds(total), now)
    && s' == ReapAll(s, VictimIds(total), now, budget)
    && ledger' == MarkPending(ledger, total)
  }

  lemma NothingSwept(s: Store, ledger: Ledger, now: Instant, budget: int)
    requires IdsMatch(s)
    ensures Swept(s, ledger, [], now, budget, s, ledger)
  {
    assert MarkPending(ledger, []) == ledger;
  }

  lemma DistinctConcat<T>(a: seq<T>, b: seq<T>)
    requires Distinct(a) && Distinct(b) && forall i | 0 <= i < |b| :: b[i] !in a
    ensures Distinct(a + b)
  {
    assert forall i | 0 <= i < |a| :: a[i] in a;
  }

  /** A later batch meets only leases no earlier batch touched. */
  lemma BatchIsNew(s: Store, victims: seq<JobId>, now: Instant, budget: int, batch: seq<JobId>)
    requires IdsMatch(s) && Distinct(victims) && AllExpired(s, victims, now)
    requires AllExpired(ReapAll(s, victims, now, budget), batch, now)
    ensures AllExpired(s, batch, now)
    ensures forall i | 0 <= i < |batch| ::
              batch[i] !in victims && ReapAll(s, victims, now, budget).jobs[batch[i]] == s.jobs[batch[i]]
  {
    ExpiredAfter(s, victims, now, budget);
    hide ReapAll, ExpiredJobs;
    forall i | 0 <= i < |batch| ensures batch[i] in s.jobs && batch[i] !in victims && batch[i] in ExpiredJobs(s, now) {
      assert batch[i] in ExpiredJobs(s, now) - Elements(victims);
      ExpiredAreJobs(s, now, batch[i]);
    }
    forall i | 0 <= i < |batch| ensures ReapAll(s, victims, now, budget).jobs[batch[i]] == s.jobs[batch[i]] {
      JobRuns.ReapAllEffect(s, victims, now, budget, batch[i]);
    }
  }

  lemma ExpiredAreJobs(s: Store, now: Instant, id: JobId)
    requires id in ExpiredJobs(s, now)
    ensures id in s.jobs
  {
  }

  lemma EpochsOfBoth(s: Store, s': Store, total: seq<ExpiredLease>, batch: seq<ExpiredLease>)
    requires NamesEpochs(s, total) && NamesEpochs(s', batch)
    requires forall i | 0 <= i < |VictimIds(batch)| ::
               VictimIds(batch)[i] in s.jobs && VictimIds(batch)[i] in s'.jobs
                 && s'.jobs[VictimIds(batch)[i]] == s.jobs[VictimIds(batch)[i]]
    ensures NamesEpochs(s, total + batch)
  {
    assert forall i | 0 <= i < |batch| :: VictimIds(batch)[i] == batch[i].jobId;
  }

  /** The crashes counted batch by batch are those of the whole sweep. */
  lemma {:induction false} PoisonedOfBoth(s: Store, s': Store, total: seq<ExpiredLease>, batch: seq<ExpiredLease>,
                                          budget: int)
    requires NamesEpochs(s, total) && NamesEpochs(s', batch)
    requires forall i | 0 <= i < |batch| ::
               batch[i].jobId in s.jobs && s'.jobs[batch[i].jobId] == s.jobs[batch[i].jobId]
    ensures NamesEpochs(s, total + batch)
    ensures Poisoned(s, total + batch, budget) == Poisoned(s, total, budget) + Poisoned(s', batch, budget)
  {
    if batch == [] { assert total + batch == total; }
    else {
      assert Front(total + batch) == total + Front(batch);
      PoisonedOfBoth(s, s', total, Front(batch), budget);
    }
  }

  lemma AllExpiredConcat(s: Store, a: seq<JobId>, b: seq<JobId>, now: Instant)
    requires AllExpired(s, a, now) && AllExpired(s, b, now)
    ensures AllExpired(s, a + b, now)
  {
  }

  lemma SweptStep(s: Store, ledger: Ledger, total: seq<ExpiredLease>, now: Instant, budget: int, s': Store,
                  ledger': Ledger, batch: seq<ExpiredLease>, limit: int)
    requires Swept(s, ledger, total, now, budget, s', ledger')
    requires ReapBatch(s', VictimIds(batch), now, limit) && NamesEpochs(s', batch)
    ensures Swept(s, ledger, total + batch, now, budget, ReapAll(s', VictimIds(batch), now, budget),
                  MarkPending(ledger', batch))
  {
    hide ReapAll, MarkPending;
    BatchIsNew(s, VictimIds(total), now, budget, VictimIds(batch));
    DistinctConcat(VictimIds(total), VictimIds(batch));
    EpochsOfBoth(s, s', total, batch);
    VictimIdsConcat(total, batch);
    ReapAllConcat(s, VictimIds(total), VictimIds(batch), now, budget);
    MarkPendingComposes(ledger, total, batch);
    AllExpiredConcat(s, VictimIds(total), VictimIds(batch), now);
    hide AllExpired, NamesEpochs, Distinct, VictimIds;
  }

  lemma BatchPoisons(s: Store, ledger: Ledger, total: seq<ExpiredLease>, now: Instant, budget: int, s': Store,
                     ledger': Ledger, batch: seq<ExpiredLease>, limit: int)
    requires Swept(s, ledger, total, now, budget, s', ledger')
    requires ReapBatch(s', VictimIds(batch), now, limit) && NamesEpochs(s', batch)
    ensures NamesEpochs(s, total) && NamesEpochs(s, total + batch)
    ensures Poisoned(s, total + batch, budget) == Poisoned(s, total, budget) + Poisoned(s', batch, budget)
  {
    BatchIsNew(s, VictimIds(total), now, budget, VictimIds(batch));
    hide ReapAll, MarkPending, Poisoned;
    forall i | 0 <= i < |batch| ensures batch[i].jobId in s.jobs && s'.jobs[batch[i].jobId] == s.jobs[batch[i].jobId] {
      assert VictimIds(batch)[i] == batch[i].jobId;
    }
    PoisonedOfBoth(s, s', total, batch, budget);
  }

  lemma BatchDrains(s: Store, victims: seq<JobId>, now: Instant, budget: int, limit: int)
    requires IdsMatch(s) && ReapBatch(s, victims, now, limit)
    ensures |ExpiredJobs(ReapAll(s, victims, now, budget), now)| == |ExpiredJobs(s, now)| - |victims|
    ensures |victims| < NormalizeReapLimit(limit) ==> ExpiredJobs(ReapAll(s, victims, now, budget), now) == {}
  {
    ExpiredAfter(s, victims, now, budget);
    DistinctCardinality(victims);
    assert Elements(victims) <= ExpiredJobs(s, now);
  }

  /** `Sweep` at a fixed time. `patience` is the number of batches the sweep's own
      deadline allows beyond the first. Every named lease is reaped exactly once; a
      sweep that is not cut short leaves no expired lease behind, and a sweep is cut
      short only when full batches used up its patience. */
  method Sweep(jobs: JobStore, effects: EffectStore, now: Instant, budget: int, limit: int, patience: nat)
      returns (total: ReapResult)
    requires jobs.Valid() && effects.Valid() && now != ZERO_TIME
    modifies jobs, effects
    ensures Swept(old(jobs.Contents()), old(effects.effects), total.expired, now, CrashBudget(budget), jobs.Contents(),
                  effects.effects)
    ensures !total.saturated ==> ExpiredJobs(jobs.Contents(), now) == {}
    ensures total.saturated ==> |total.expired| == (patience + 1) * NormalizeReapLimit(limit)
    ensures NamesEpochs(old(jobs.Contents()), total.expired)
    ensures total.blocked == Poisoned(old(jobs.Contents()), total.expired, CrashBudget(budget))
    ensures total.requeued == |total.expired| - total.blocked
  {
    hide Swept, ReapAll, MarkPending, Poisoned, NamesEpochs;
    var crashBudget, bound := CrashBudget(budget), NormalizeReapLimit(limit);
    ghost var s0, ledger0 := jobs.Contents(), effects.effects;
    NothingSwept(s0, ledger0, now, crashBudget);
    var requeued: nat, blocked: nat := 0, 0;
    var expired: seq<ExpiredLease> := [];
    var rounds: nat := 0;
    while true
      invariant jobs.Valid() && effects.Valid() && rounds <= patience
      invariant Swept(s0, ledger0, expired, now, crashBudget, jobs.Contents(), effects.effects)
      invariant |expired| == rounds * bound && requeued + blocked == |expired|
      invariant NamesEpochs(s0, expired) && blocked == Poisoned(s0, expired, crashBudget)
      decreases patience - rounds
    {
      ghost var s1, ledger1 := jobs.Contents(), effects.effects;
      var reaped := jobs.RequeueExpired(now, budget, limit);
      var batch := reaped.value;
      if batch.expired != [] {
        var n := effects.MarkPendingUncertain(batch.expired);
      } else {
        NothingToMark(effects.effects);
      }
      SweptStep(s0, ledger0, expired, now, crashBudget, s1, ledger1, batch.expired, limit);
      BatchPoisons(s0, ledger0, expired, now, crashBudget, s1, ledger1, batch.expired, limit);
      BatchDrains(s1, VictimIds(batch.expired), now, crashBudget, limit);
      requeued, blocked, expired := requeued + batch.requeued, blocked + batch.blocked, expired + batch.expired;
      if !batch.saturated { return ReapResult(requeued, blocked, expired, false); }
      if rounds == patience { return ReapResult(requeued, blocked, expired, true); }
      rounds := rounds + 1;
    }
  }

  /** A sweep reaps no more leases than had expired. */
  lemma SweptAtMost(s: Store, ledger: Ledger, total: seq<ExpiredLease>, now: Instant, budget: int, s': Store,
                    ledger': Ledger)
    requires Swept(s, ledger, total, now, budget, s', ledger')
    ensures |total| <= |ExpiredJobs(s, now)|
  {
    var victims := VictimIds(total);
    DistinctCardinality(victims);
    forall id | id in Elements(victims) ensures id in ExpiredJobs(s, now) {
      var i :| 0 <= i < |victims| && victims[i] == id;
    }
    SubsetCardinality(Elements(victims), ExpiredJobs(s, now));
  }

  /** So a sweep with patience for all the leases that had expired is never cut short. */
  lemma PatientSweepDrains(s: Store, ledger: Ledger, total: ReapResult, now: Instant, budget: int, s': Store,
                           ledger': Ledger, limit: int, patience: nat)
    requires Swept(s, ledger, total.expired, now, budget, s', ledger')
    requires total.saturated ==> |total.expired| == (patience + 1) * NormalizeReapLimit(limit)
    requires (patience + 1) * NormalizeReapLimit(limit) > |ExpiredJobs(s, now)|
    ensures !total.saturated
  {
    hide Swept;
    SweptAtMost(s, ledger, total.expired, now, budget, s', ledger');
  }

  lemma NothingToMark(ledger: Ledger)
    ensures MarkPending(ledger, []) == ledger
  {
    assert forall k | k in ledger :: !Orphaned(ledger[k], []);
  }

  // ---------------------------------------------- what a sweep means for jobs and effects

  /** A sweep gives every lease it names back to the queue, due at once, or parks the job
      at the crash that uses up its budget, and leaves every other job alone. */
  lemma SweepGivesBack(s: Store, ledger: Ledger, total: seq<ExpiredLease>, now: Instant, budget: int, s': Store,
                       ledger': Ledger, id: JobId)
    requires Swept(s, ledger, total, now, budget, s', ledger') && id in s.jobs
    ensures id in s'.jobs
    ensures s'.jobs[id] == if id in VictimIds(total) then JobCalls.GivenBack(s.jobs[id], now, budget) else s.jobs[id]
  {
    hide ReapAll;
    JobRuns.ReapAllEffect(s, VictimIds(total), now, budget, id);
  }

  /** The sweep downgrades exactly the open effects of the executions it ended, and of
      earlier executions of the same jobs; an effect of any newer epoch, and every
      effect of a job that still holds its lease, is left as it was. */
  lemma SweepSparesTheLiving(s: Store, ledger: Ledger, total: seq<ExpiredLease>, now: Instant, budget: int, s': Store,
                             ledger': Ledger, k: EffectRecords.EffectKey)
    requires Swept(s, ledger, total, now, budget, s', ledger') && k in ledger && KeysMatch(ledger)
    ensures k in ledger'
    ensures ledger'[k] ==
            if ledger[k].state == EffectRecords.Pending && k.jobId in VictimIds(total)
               && ledger[k].leaseEpoch <= s.jobs[k.jobId].leaseEpoch
            then ledger[k].(state := EffectRecords.Uncertain) else ledger[k]
    ensures k.jobId in s'.jobs && s'.jobs[k.jobId].state == Leased ==> ledger'[k] == ledger[k]
  {
    hide ReapAll;
    var victims := VictimIds(total);
    assert ledger[k].key == k;
    if Orphaned(ledger[k], total) {
      var i :| 0 <= i < |total| && total[i].jobId == k.jobId && ledger[k].leaseEpoch <= total[i].epoch;
      assert victims[i] == k.jobId;
    }
    if k.jobId in victims {
      var i :| 0 <= i < |victims| && victims[i] == k.jobId;
      assert total[i].jobId == k.jobId;
      JobRuns.ReapAllEffect(s, victims, now, budget, k.jobId);
    }
  }
}
