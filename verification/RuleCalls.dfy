/** When the Rule store serves a call, and what it then stores: versions, status, deletion
    and the runs that are due. */
module RuleCalls {
  import opened Basics
  import opened SortedSets
  import opened Outcomes
  import opened Findings
  import opened Rules
  import opened RuleTheorems
  import opened ScheduleTheorems

  // ------------------------------------------------------------------ deletion

  ghost predicate Covered(s: Store, request: DeleteRequest, k: RuleKey) { k in s.records && Covers(request, k) }

  ghost predicate HasFindings(s: Store, k: RuleKey) {
    exists f | f in s.book.records :: f.ruleId == k.id && f.version == k.version
  }

  /** What stands in the way of a deletion, and what is reported first. */
  ghost function Obstacle(s: Store, request: DeleteRequest): Option<RuleError> {
    if !IdOk(request.id) || request.version < 0 then Some(InvalidRule)
    else if !exists k :: Covered(s, request, k) then Some(RuleMissing)
    else if exists k :: Covered(s, request, k) && s.records[k].status == Enabled then Some(RuleEnabled)
    else if !request.purge && exists k :: Covered(s, request, k) && HasFindings(s, k) then Some(FindingsRemain)
    else None
  }

  /** A deletion is refused exactly when an obstacle stands in its way: no such version, a
      version that is enabled, findings that are not to be purged. A refused deletion and a
      dry run change nothing; a deletion that goes through removes the versions it covers
      and no other. */
  lemma DeletionIsExact(s: Store, request: DeleteRequest)
    ensures var (after, report, result) := DeleteRule(s, request);
            && (match Obstacle(s, request) case None => result == Ok(()) case Some(error) => result == Err(error))
            && (result.Err? || request.dryRun ==> after == s && !report.applied)
            && (result.Ok? && !request.dryRun ==>
                  report.applied && forall k | k in s.records :: k in after.records <==> !Covers(request, k))
            && (result.Ok? || result.error == RuleEnabled || result.error == FindingsRemain ==>
                  report.versions == (set k | k in s.records && Covers(request, k) :: k.version))
  {
    ObstaclesAreThere(s, request);
    hide IdOk, EventsOf, DoomedKeys, DoomedOutcomes, HasFindings, DoomedFindings;
    ScopeIsCovered(s, request);
    var plan := Plan(s, request);
    if DeleteRule(s, request).2.Ok? && !request.dryRun { KeptVersions(s, request); }
    hide Removed, InScope, EnabledIn;
  }

  lemma ScopeIsCovered(s: Store, request: DeleteRequest)
    ensures InScope(s, request) == (set k | k in s.records && Covers(request, k) :: k.version)
    ensures forall k | k in s.records :: Covers(request, k) <==> k.id == request.id && k.version in InScope(s, request)
  {
    forall k | k in s.records
      ensures Covers(request, k) <==> k.id == request.id && k.version in InScope(s, request)
    {
    }
  }

  lemma ObstaclesAreThere(s: Store, request: DeleteRequest)
    ensures InScope(s, request) != {} <==> exists k :: Covered(s, request, k)
    ensures EnabledIn(s, request) != {} <==> exists k :: Covered(s, request, k) && s.records[k].status == Enabled
    ensures |DoomedFindings(request.id, InScope(s, request), s.book)| > 0 <==>
            exists k :: Covered(s, request, k) && HasFindings(s, k)
  {
    if k :| Covered(s, request, k) { assert k.version in InScope(s, request); }
    if k :| Covered(s, request, k) && s.records[k].status == Enabled { assert k.version in EnabledIn(s, request); }
    var doomed := DoomedFindings(request.id, InScope(s, request), s.book);
    if k :| Covered(s, request, k) && HasFindings(s, k) {
      var f :| f in s.book.records && f.ruleId == k.id && f.version == k.version;
      assert f in doomed;
    }
    if doomed != {} {
      var f := Member(doomed);
      var k :| k in s.records && k.id == request.id && (request.version == 0 || k.version == request.version)
               && k.version == f.version;
      assert Covered(s, request, k) && HasFindings(s, k);
    }
  }

  // ------------------------------------------------------------------- versions

  /** A version is saved exactly when it is well-formed and new. */
  lemma SavingIsExact(s: Store, r: Rule)
    ensures var (after, saved) := SaveRule(s, r);
            && (saved.Ok? <==>
                && IdOk(r.key.id) && r.key.version >= 1 && r.wellFormed && r.key !in s.records
                && Trim(r.subjectType) != "" && |r.subjectType| <= 64 && (r.scope == TableScope ==> r.every > 0))
            && (saved.Ok? ==> saved.value == r && after == s.(records := s.records[r.key := r]))
            && (saved.Err? ==> after == s && saved.error == if r.key in s.records && RuleValid(r) then VersionExists
                                                            else InvalidRule)
  {
    hide Trim, IdOk;
  }

  /** The next version of a Rule is its first, or the one after its latest, and is not taken. */
  lemma NextVersionIsNew(s: Store, id: string, version: int)
    requires WellFormed(s)
    ensures IsNextVersion(s, id, version) <==>
            && RuleKey(id, version) !in s.records && version >= 1
            && (version == 1 || RuleKey(id, version - 1) in s.records)
            && (forall k | k in s.records && k.id == id :: k.version < version)
  {
    forall k | k in s.records && k.id == id ensures k.version in VersionsOf(s, id) {}
    forall v | v in VersionsOf(s, id) ensures RuleKey(id, v) in s.records {}
  }

  lemma ExplainingIsExact(s: Store, key: RuleKey, explanation: Explanation)
    ensures var (after, result) := Explain(s, key, explanation);
            && (result.Ok? <==> key in s.records)
            && after == if result.Ok? then s.(explanations := s.explanations[key := explanation]) else s
  {
  }

  /** Setting a status takes hold of that version and, when it enables it, disables the one
      that was enabled; it changes no other Rule. A Rule for a table that is enabled at an
      instant is due from then on, unless a run of it is under way. */
  lemma StatusIsExact(s: Store, key: RuleKey, status: RuleStatus, at: Instant, now: Instant)
    requires WellFormed(s)
    ensures var (after, done) := SetStatus(s, key, status, at);
            && (done.Ok? <==> key in s.records && at != ZERO_TIME)
            && (done.Err? ==> after == s)
            && (done.Ok? ==>
                && after.records.Keys == s.records.Keys && after.records[key] == done.value
                && done.value == s.records[key].(status := status, updatedAt := at)
                && (forall k | k in s.records && k != key ::
                      after.records[k] == if status == Enabled && k.id == key.id && s.records[k].status == Enabled
                                          then s.records[k].(status := Disabled, updatedAt := at) else s.records[k])
                && after == s.(records := after.records, schedules := after.schedules)
                && after.schedules - {key} == s.schedules - {key}
                && (status == Enabled && s.records[key].scope == TableScope ==>
                    && key in after.schedules && after.schedules[key] == ScheduleOf(s, key).(nextRunAt := at)
                    && (Due(after, key, now) <==>
                        && at <= now
                        && (key in s.schedules ==>
                              s.schedules[key].expiresAt == ZERO_TIME || s.schedules[key].expiresAt <= now))))
  {
    var (after, done) := SetStatus(s, key, status, at);
    if done.Ok? {
      assert after.schedules - {key} == s.schedules - {key};
    }
  }

  // ------------------------------------------------------------------- due runs

  ghost predicate Leased(leases: seq<ScheduleLease>, key: RuleKey) {
    exists i :: 0 <= i < |leases| && leases[i].key == key
  }

  lemma {:induction false} ClaimAllFields(s: Store, keys: seq<RuleKey>, owner: string, now: Instant, leaseFor: int,
                                          i: nat)
    requires forall j | 0 <= j < |keys| :: keys[j] in s.records
    requires (forall j, l | 0 <= j < l < |keys| :: keys[j] != keys[l]) && i < |keys|
    ensures var leases := ClaimAll(s, keys, owner, now, leaseFor).1;
            |leases| == |keys| &&
            leases[i] == ScheduleLease(keys[i], owner, ScheduleOf(s, keys[i]).epoch + 1, ScheduleOf(s, keys[i]).cursor,
                                       s.records[keys[i]].every, now, now + leaseFor)
  {
    ClaimAllKeys(s, Front(keys), owner, now, leaseFor);
    if i < |keys| - 1 { ClaimAllFields(s, Front(keys), owner, now, leaseFor, i); }
    else { ClaimAllSpares(s, Front(keys), owner, now, leaseFor, keys[i]); }
  }

  /** The Rule is an enabled one for a table, its time has come and no run of it is leased. */
  ghost predicate TimeHasCome(s: Store, key: RuleKey, now: Instant) {
    && key in s.records && s.records[key].scope == TableScope && s.records[key].status == Enabled
    && (key in s.schedules ==>
        && (s.schedules[key].nextRunAt == ZERO_TIME || s.schedules[key].nextRunAt <= now)
        && (s.schedules[key].expiresAt == ZERO_TIME || s.schedules[key].expiresAt <= now))
  }

  /** Every lease a claim hands out is on an enabled Rule for a table whose time has come and
      whose last lease has run out; it names the next epoch, the page to go on from and its
      own end. */
  lemma ClaimedRunsAreDue(s: Store, owner: string, now: Instant, leaseFor: int, limit: int, i: nat)
    requires WellFormed(s) && ClaimDue(s, owner, now, leaseFor, limit).1.Ok?
    requires i < |ClaimDue(s, owner, now, leaseFor, limit).1.value|
    ensures var lease := ClaimDue(s, owner, now, leaseFor, limit).1.value[i];
            && TimeHasCome(s, lease.key, now)
            && var schedule := ScheduleOf(s, lease.key);
               lease == ScheduleLease(lease.key, owner, schedule.epoch + 1, schedule.cursor,
                                         s.records[lease.key].every, now, now + leaseFor)
  {
    ClaimableAreRecords(s, now, limit);
    ClaimableAreDue(s, now, limit);
    var keys := Claimable(s, now, limit);
    ClaimAllKeys(s, keys, owner, now, leaseFor);
    hide Claimable;
    ClaimAllFields(s, keys, owner, now, leaseFor, i);
    assert keys[i] in DueKeys(s, now);
  }

  /** A claim passes no due run over, except when it is full of runs of Rules whose ids come
      before. */
  lemma DueRunsAreClaimed(s: Store, owner: string, now: Instant, leaseFor: int, limit: int, key: RuleKey)
    requires WellFormed(s) && ClaimDue(s, owner, now, leaseFor, limit).1.Ok? && TimeHasCome(s, key, now)
    ensures var leases := ClaimDue(s, owner, now, leaseFor, limit).1.value;
            || Leased(leases, key)
            || (|leases| == limit && forall i | 0 <= i < |leases| :: StringLess(leases[i].key.id, key.id))
  {
    DueKeysAreOrdered(s, now);
    SortedLists(RuleBefore, DueKeys(s, now));
    ClaimableAreRecords(s, now, limit);
    var due, keys := Sorted(RuleBefore, DueKeys(s, now)), Claimable(s, now, limit);
    ClaimAllKeys(s, keys, owner, now, leaseFor);
    var leases := ClaimDue(s, owner, now, leaseFor, limit).1.value;
    assert key in Elements(due);
    var j :| 0 <= j < |due| && due[j] == key;
    if j < |keys| {
      assert leases[j].key == key;
    } else {
      forall i | 0 <= i < |leases| ensures StringLess(leases[i].key.id, key.id) {
        assert RuleBefore(due[i], due[j]);
      }
    }
  }

  /** A claim of runs is served exactly when it names an owner, a time, a lease and between
      one and a hundred runs. */
  lemma ClaimOfRunsIsServed(s: Store, owner: string, now: Instant, leaseFor: int, limit: int)
    requires WellFormed(s)
    ensures ClaimDue(s, owner, now, leaseFor, limit).1.Ok? <==>
            owner != "" && now != ZERO_TIME && leaseFor > 0 && 1 <= limit <= 100
    ensures ClaimDue(s, owner, now, leaseFor, limit).1.Err? ==> ClaimDue(s, owner, now, leaseFor, limit).0 == s
  {
  }

  /** A run is ended exactly by the holder of its lease: a page ends with a cursor to go on
      from, a failure with a delay. It gives the lease back. */
  lemma EndingIsExact(s: Store, lease: ScheduleLease, how: RunEnd)
    ensures var (after, result) := EndRun(s, lease, how);
            && (result.Ok? <==>
                && LeaseValid(lease) && (how.Advance? ==> Trim(how.cursor) != "")
                && (how.FailRun? ==> how.retryAfter > 0)
                && lease.key in s.schedules && s.schedules[lease.key].owner == lease.owner
                && s.schedules[lease.key].epoch == lease.epoch)
            && (result.Err? ==> after == s)
            && (result.Ok? ==>
                  after == s.(schedules := s.schedules[lease.key :=
                                Schedule(NextStart(s, lease, how), "", lease.epoch, FollowUp(lease, how), ZERO_TIME)]))
  {
  }
}
