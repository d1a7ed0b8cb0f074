/**
 The in-memory Rule store: versions, explanations and schedules updated in place, and a
 deletion that reaches into the outcome and finding stores. Every method is proved to do
 what the function of `Rules` describes.
 */
module RuleStores {
  import opened Basics
  import opened SortedSets
  import opened Outcomes
  import opened Findings
  import opened Rules
  import opened FoldStores
  import RuleTheorems

  // -------------------------------------------------- deleting version by version

  lemma WithoutOneMore(s: Store, id: string, versions: set<int>, v: int, purge: bool)
    ensures WithoutVersions(s, id, versions + {v}, purge)
            == WithoutVersions(WithoutVersions(s, id, versions, purge), id, {v}, purge)
  {
    var before := WithoutVersions(s, id, versions, purge);
    DropTwice(s.records, id, versions, v);
    DropTwice(s.explanations, id, versions, v);
    DropTwice(s.schedules, id, versions, v);
    assert s.outcomes - DoomedOutcomes(id, versions + {v}, s.outcomes)
      == before.outcomes - DoomedOutcomes(id, {v}, before.outcomes);
    if purge {
      assert s.book.records - DoomedFindings(id, versions + {v}, s.book)
        == before.book.records - DoomedFindings(id, {v}, before.book);
      assert s.book.events - DoomedFindings(id, versions + {v}, s.book)
        == before.book.events - DoomedFindings(id, {v}, before.book);
    }
  }

  lemma DropTwice<T>(m: map<RuleKey, T>, id: string, versions: set<int>, v: int)
    ensures m - DoomedKeys(id, versions + {v}, m) ==
            (m - DoomedKeys(id, versions, m)) - DoomedKeys(id, {v}, m - DoomedKeys(id, versions, m))
  {
  }

  lemma CountOneMore<T>(m: map<RuleKey, T>, id: string, versions: set<int>, v: int)
    requires v !in versions
    ensures |DoomedKeys(id, versions + {v}, m)| == |DoomedKeys(id, versions, m)| + if RuleKey(id, v) in m then 1 else 0
  {
    var was, now := DoomedKeys(id, versions, m), DoomedKeys(id, versions + {v}, m);
    if RuleKey(id, v) in m { assert now == was + {RuleKey(id, v)}; } else { assert now == was; }
  }

  lemma CountMoreOutcomes(outcomes: OutcomeMap, id: string, versions: set<int>, v: int)
    requires v !in versions && v != 0
    ensures |DoomedOutcomes(id, versions + {v}, outcomes)|
            == |DoomedOutcomes(id, versions, outcomes)| + |OutcomesOfRule(outcomes, id, v)|
  {
    var was, more := DoomedOutcomes(id, versions, outcomes), OutcomesOfRule(outcomes, id, v);
    assert DoomedOutcomes(id, versions + {v}, outcomes) == was + more && was * more == {};
  }

  lemma CountMoreFindings(book: Book, id: string, versions: set<int>, v: int)
    requires v !in versions && v != 0
    ensures |DoomedFindings(id, versions + {v}, book)|
            == |DoomedFindings(id, versions, book)| + |FindingsOfRule(book, id, v)|
    ensures |EventsOf(DoomedFindings(id, versions + {v}, book), book)|
         == |EventsOf(DoomedFindings(id, versions, book), book)| + |EventsOf(FindingsOfRule(book, id, v), book)|
  {
    var was, more := DoomedFindings(id, versions, book), FindingsOfRule(book, id, v);
    assert DoomedFindings(id, versions + {v}, book) == was + more && was * more == {};
    assert EventsOf(was + more, book) == EventsOf(was, book) + EventsOf(more, book);
    assert EventsOf(was, book) * EventsOf(more, book) == {};
  }

  /** The plan for some of the versions in scope. */
  ghost predicate Tallied(s: Store, id: string, versions: set<int>, d: Deletion) {
    && d.explanations == |DoomedKeys(id, versions, s.explanations)|
    && d.schedules == |DoomedKeys(id, versions, s.schedules)|
    && d.outcomes == |DoomedOutcomes(id, versions, s.outcomes)| && d.findings == |DoomedFindings(id, versions, s.book)|
    && d.events == |EventsOf(DoomedFindings(id, versions, s.book), s.book)|
  }

  lemma NothingTallied(s: Store, id: string, d: Deletion)
    requires d.explanations == 0 && d.schedules == 0 && d.outcomes == 0 && d.findings == 0 && d.events == 0
    ensures Tallied(s, id, {}, d)
  {
    assert DoomedFindings(id, {}, s.book) == {} && EventsOf({}, s.book) == {};
    assert DoomedKeys(id, {}, s.explanations) == {} && DoomedKeys(id, {}, s.schedules) == {}
      && DoomedOutcomes(id, {}, s.outcomes) == {};
  }

  lemma VersionIsListed(s: Store, k: RuleKey)
    ensures k in s.records ==> k.version in VersionsOf(s, k.id)
  {
  }

  /** Taking one version out, map by map. */
  lemma WithoutOne(s: Store, id: string, v: int, purge: bool)
    requires v != 0
    ensures var key := RuleKey(id, v);
            var gone := if purge then FindingsOfRule(s.book, id, v) else {};
            WithoutVersions(s, id, {v}, purge) ==
            Store(s.records - {key}, s.explanations - {key}, s.schedules - {key},
                  s.outcomes - OutcomesOfRule(s.outcomes, id, v),
                  Book(s.book.records - gone, s.book.events - gone, s.book.nextSeq))
  {
    DropOne(s.records, id, v);
    DropOne(s.explanations, id, v);
    DropOne(s.schedules, id, v);
    assert OutcomesOfRule(s.outcomes, id, v) == DoomedOutcomes(id, {v}, s.outcomes);
    assert FindingsOfRule(s.book, id, v) == DoomedFindings(id, {v}, s.book);
    NoChange(s.book);
    hide DoomedKeys, DoomedOutcomes, DoomedFindings, OutcomesOfRule, FindingsOfRule;
  }

  lemma NoChange(book: Book)
    ensures book.records - {} == book.records && book.events - {} == book.events
  {
  }

  lemma DropOne<T>(m: map<RuleKey, T>, id: string, v: int)
    ensures m - DoomedKeys(id, {v}, m) == m - {RuleKey(id, v)}
  {
  }

  class RuleStore {
    var records: map<RuleKey, Rule>
    var explanations: map<RuleKey, Explanation>
    var schedules: map<RuleKey, Schedule>
    const outcomes: OutcomeStore
    const findings: FindingStore

    function Contents(): Store
      reads this, outcomes, findings
    {
      Store(records, explanations, schedules, outcomes.records, findings.Contents())
    }

    ghost predicate Valid()
      reads this, outcomes, findings
    {
      RuleTheorems.WellFormed(Contents())
    }

    constructor (outcomes: OutcomeStore, findings: FindingStore)
      requires outcomes.records == map[] && findings.Contents() == Book(map[], map[], 0)
      ensures Valid() && Contents() == EMPTY_STORE && this.outcomes == outcomes && this.findings == findings
    {
      records, explanations, schedules := map[], map[], map[];
      this.outcomes, this.findings := outcomes, findings;
    }

    method SaveRule(r: Rule) returns (result: Result<Rule, RuleError>)
      modifies this`records
      ensures (Contents(), result) == Rules.SaveRule(old(Contents()), r)
    {
      if !RuleValid(r) { return Err(InvalidRule); }
      if r.key in records { return Err(VersionExists); }
      records := records[r.key := r];
      return Ok(r);
    }

    /** The highest version of a Rule, by visiting them all. */
    method LatestVersion(id: string) returns (found: bool, latest: int)
      ensures found <==> VersionsOf(Contents(), id) != {}
      ensures found ==> IsLatest(Contents(), id, latest)
    {
      found, latest := false, 0;
      var todo := records.Keys;
      while todo != {}
        invariant todo <= records.Keys
        invariant found ==> RuleKey(id, latest) in records
        invariant forall k | k in records && k !in todo && k.id == id :: found && k.version <= latest
        decreases todo
      {
        var k :| k in todo;
        if k.id == id && (!found || k.version > latest) { found, latest := true, k.version; }
        todo := todo - {k};
      }
      if found { assert latest in VersionsOf(Contents(), id); }
    }

    /** `Register`: the next version as a draft. It never collides with an existing one. */
    method Register(r: Rule, now: Instant) returns (result: Result<Rule, RuleError>, ghost version: int)
      modifies this`records
      ensures IsNextVersion(old(Contents()), r.key.id, version)
      ensures (Contents(), result) == Rules.SaveRule(old(Contents()), AsDraft(r, version, now))
      ensures result != Err(VersionExists)
    {
      var found, latest := LatestVersion(r.key.id);
      var next := if found then latest + 1 else 1;
      version := next;
      VersionIsListed(Contents(), RuleKey(r.key.id, next));
      result := SaveRule(AsDraft(r, next, now));
    }

    method SaveRuleExplanation(key: RuleKey, explanation: Explanation) returns (result: Result<(), RuleError>)
      modifies this`explanations
      ensures (Contents(), result) == Explain(old(Contents()), key, explanation)
    {
      if key !in records { return Err(RuleMissing); }
      explanations := explanations[key := explanation];
      return Ok(());
    }

    method SetRuleStatus(key: RuleKey, status: RuleStatus, at: Instant) returns (result: Result<Rule, RuleError>)
      requires Valid()
      modifies this`records, this`schedules
      ensures Valid() && (Contents(), result) == SetStatus(old(Contents()), key, status, at)
    {
      assert forall k | k in records :: records[k].key == k;
      RuleTheorems.SetStatusKeepsOne(Contents(), key, status, at);
      hide RuleTheorems.WellFormed;
      if at == ZERO_TIME { return Err(InvalidRule); }
      if key !in records { return Err(RuleMissing); }
      var record := records[key];
      if status == Enabled { DisableOthers(key, at); }
      record := record.(status := status, updatedAt := at);
      records := records[key := record];
      assert records == map k | k in old(records) :: WithStatus(old(records)[k], key, status, at);
      if status == Enabled && record.scope == TableScope {
        var schedule := if key in schedules then schedules[key] else NO_SCHEDULE;
        schedules := schedules[key := schedule.(nextRunAt := at)];
      }
      return Ok(record);
    }

    method DisableOthers(key: RuleKey, at: Instant)
      modifies this`records
      ensures records.Keys == old(records).Keys
      ensures forall k | k in records :: records[k] ==
                if k.id == key.id && k != key && old(records)[k].status == Enabled
                then old(records)[k].(status := Disabled, updatedAt := at) else old(records)[k]
    {
      var todo := records.Keys;
      while todo != {}
        invariant todo <= records.Keys == old(records).Keys
        invariant forall k | k in todo :: records[k] == old(records)[k]
        invariant forall k | k in records && k !in todo :: records[k] ==
                    if k.id == key.id && k != key && old(records)[k].status == Enabled
                    then old(records)[k].(status := Disabled, updatedAt := at) else old(records)[k]
        decreases todo
      {
        var k :| k in todo;
        if k.id == key.id && k != key && records[k].status == Enabled {
          records := records[k := records[k].(status := Disabled, updatedAt := at)];
        }
        todo := todo - {k};
      }
    }

    // -------------------------------------------------------------- deletion

    method CollectVersions(request: DeleteRequest) returns (versions: set<int>, enabled: set<int>)
      ensures versions == InScope(Contents(), request) && enabled == EnabledIn(Contents(), request)
    {
      versions, enabled := {}, {};
      var todo := records.Keys;
      while todo != {}
        invariant todo <= records.Keys
        invariant versions == set k | k in records && k !in todo && k.id == request.id
                    && (request.version == 0 || k.version == request.version) :: k.version
        invariant enabled == set k | k in records && k !in todo && k.id == request.id
                    && (request.version == 0 || k.version == request.version) && records[k].status == Enabled ::
                       k.version
        decreases todo
      {
        var k :| k in todo;
        if k.id == request.id && (request.version == 0 || k.version == request.version) {
          versions := versions + {k.version};
          if records[k].status == Enabled { enabled := enabled + {k.version}; }
        }
        todo := todo - {k};
      }
    }

    /** Count, version by version, what a deletion takes with it. */
    method CountDependents(id: string, versions: set<int>) returns (d: Deletion)
      requires 0 !in versions
      ensures d.versions == versions && d.enabled == {} && !d.applied && Tallied(Contents(), id, versions, d)
    {
      d := NOTHING_COVERED.(versions := versions);
      NothingTallied(Contents(), id, d);
      var todo := versions;
      ghost var counted: set<int> := {};
      while todo != {}
        invariant todo <= versions && counted == versions - todo
        invariant d.versions == versions && d.enabled == {} && !d.applied && Tallied(Contents(), id, counted, d)
        decreases todo
      {
        ghost var some := Member(todo);
        var v :| v in todo;
        CountOneMore(explanations, id, counted, v);
        CountOneMore(schedules, id, counted, v);
        CountMoreOutcomes(outcomes.records, id, counted, v);
        CountMoreFindings(findings.Contents(), id, counted, v);
        if RuleKey(id, v) in explanations { d := d.(explanations := d.explanations + 1); }
        if RuleKey(id, v) in schedules { d := d.(schedules := d.schedules + 1); }
        var ofRule := outcomes.CountRuleOutcomes(id, v);
        var found, past := findings.CountRuleFindings(id, v);
        d := d.(outcomes := d.outcomes + ofRule, findings := d.findings + found, events := d.events + past);
        counted, todo := counted + {v}, todo - {v};
      }
      assert counted == versions;
    }

    method RemoveVersion(id: string, v: int, purge: bool)
      requires v != 0
      modifies this`records, this`explanations, this`schedules, outcomes, findings
      ensures Contents() == WithoutVersions(old(Contents()), id, {v}, purge)
    {
      WithoutOne(Contents(), id, v, purge);
      NoChange(findings.Contents());
      records := records - {RuleKey(id, v)};
      explanations := explanations - {RuleKey(id, v)};
      schedules := schedules - {RuleKey(id, v)};
      outcomes.DeleteRuleOutcomes(id, v);
      if purge { findings.DeleteRuleFindings(id, v); }
      hide WithoutVersions, OutcomesOfRule, FindingsOfRule;
    }

    method RemoveVersions(id: string, versions: set<int>, purge: bool)
      requires 0 !in versions
      modifies this`records, this`explanations, this`schedules, outcomes, findings
      ensures Contents() == WithoutVersions(old(Contents()), id, versions, purge)
    {
      ghost var s := Contents();
      WithoutNothing(s, id, purge);
      var todo := versions;
      ghost var removed: set<int> := {};
      while todo != {}
        invariant todo <= versions && removed == versions - todo
        invariant Contents() == WithoutVersions(s, id, removed, purge)
        decreases todo
      {
        ghost var some := Member(todo);
        var v :| v in todo;
        RemoveVersion(id, v, purge);
        WithoutOneMore(s, id, removed, v, purge);
        removed, todo := removed + {v}, todo - {v};
      }
      assert removed == versions;
    }

    method DeleteRule(request: DeleteRequest) returns (report: Deletion, result: Result<(), RuleError>)
      requires Valid()
      modifies this`records, this`explanations, this`schedules, outcomes, findings
      ensures Valid() && (Contents(), report, result) == Rules.DeleteRule(old(Contents()), request)
    {
      RuleTheorems.DeleteKeepsOne(Contents(), request);
      if !IdOk(request.id) || request.version < 0 { return NOTHING_COVERED, Err(InvalidRule); }
      var versions, enabled := CollectVersions(request);
      if versions == {} { return NOTHING_COVERED, Err(RuleMissing); }
      if enabled != {} { return NOTHING_COVERED.(versions := versions, enabled := enabled), Err(RuleEnabled); }
      report := CountDependents(request.id, versions);
      assert report == Plan(Contents(), request);
      if report.findings > 0 && !request.purge { return report, Err(FindingsRemain); }
      if !request.purge { report := report.(findings := 0, events := 0); NoEvents(Contents(), request); }
      if request.dryRun { return report, Ok(()); }
      RemoveVersions(request.id, versions, request.purge);
      return report.(applied := true), Ok(());
    }

    // ------------------------------------------------------------- schedules

    method CollectDue(now: Instant) returns (due: set<RuleKey>)
      ensures due == DueKeys(Contents(), now)
    {
      due := {};
      var todo := records.Keys;
      while todo != {}
        invariant todo <= records.Keys
        invariant due == set k | k in records && k !in todo && Due(Contents(), k, now)
        decreases todo
      {
        var k :| k in todo;
        var schedule := if k in schedules then schedules[k] else NO_SCHEDULE;
        if records[k].scope == TableScope && records[k].status == Enabled
           && (schedule.nextRunAt == ZERO_TIME || schedule.nextRunAt <= now)
           && (schedule.expiresAt == ZERO_TIME || schedule.expiresAt <= now)
        {
          due := due + {k};
        }
        todo := todo - {k};
      }
    }

    method ClaimDueRules(owner: string, now: Instant, leaseFor: int, limit: int)
        returns (result: Result<seq<ScheduleLease>, RuleError>)
      requires Valid()
      modifies this`schedules
      ensures Valid() && (Contents(), result) == ClaimDue(old(Contents()), owner, now, leaseFor, limit)
    {
      RuleTheorems.ClaimChangesSchedules(Contents(), owner, now, leaseFor, limit);
      if !ClaimAccepted(owner, now, leaseFor, limit) { return Err(InvalidRule); }
      ghost var s := Contents();
      var due := CollectDue(now);
      DueKeysAreOrdered(s, now);
      var keys := SortSet(RuleBefore, due);
      if |keys| > limit { keys := keys[..limit]; }
      ClaimableAreRecords(s, now, limit);
      assert keys == Claimable(s, now, limit);
      hide Claimable;
      var leases := LeaseDue(keys, owner, now, leaseFor);
      return Ok(leases);
    }

    method LeaseDue(keys: seq<RuleKey>, owner: string, now: Instant, leaseFor: int) returns (leases: seq<ScheduleLease>)
      requires forall i | 0 <= i < |keys| :: keys[i] in records
      modifies this`schedules
      ensures (Contents(), leases) == ClaimAll(old(Contents()), keys, owner, now, leaseFor)
    {
      ghost var s := Contents();
      leases := [];
      var i := 0;
      while i < |keys|
        invariant 0 <= i <= |keys|
        invariant (Contents(), leases) == ClaimAll(s, keys[..i], owner, now, leaseFor)
      {
        var key := keys[i];
        assert Front(keys[..i + 1]) == keys[..i];
        var schedule := if key in schedules then schedules[key] else NO_SCHEDULE;
        schedule := schedule.(owner := owner);
        schedule := schedule.(epoch := schedule.epoch + 1);
        schedule := schedule.(expiresAt := now + leaseFor);
        schedules := schedules[key := schedule];
        leases := leases + [ScheduleLease(key, owner, schedule.epoch, schedule.cursor, records[key].every, now,
                                          schedule.expiresAt)];
        i := i + 1;
      }
      assert keys[..i] == keys;
    }

    /** `updateSchedule` with its three callers. */
    method EndRun(lease: ScheduleLease, how: RunEnd) returns (result: Result<(), RuleError>)
      modifies this`schedules
      ensures (Contents(), result) == Rules.EndRun(old(Contents()), lease, how)
    {
      if !EndAccepted(how) || !LeaseValid(lease) { return Err(InvalidRule); }
      if lease.key !in schedules { return Err(LeaseLost); }
      var schedule := schedules[lease.key];
      if schedule.owner != lease.owner || schedule.epoch != lease.epoch { return Err(LeaseLost); }
      schedules := schedules[lease.key := Ended(schedule, lease, how)];
      return Ok(());
    }
  }

  lemma WithoutNothing(s: Store, id: string, purge: bool)
    ensures WithoutVersions(s, id, {}, purge) == s
  {
    assert DoomedFindings(id, {}, s.book) == {} && DoomedOutcomes(id, {}, s.outcomes) == {};
    assert DoomedKeys(id, {}, s.records) == {} && DoomedKeys(id, {}, s.explanations) == {}
      && DoomedKeys(id, {}, s.schedules) == {};
  }

  lemma NoEvents(s: Store, request: DeleteRequest)
    requires Plan(s, request).findings == 0
    ensures Plan(s, request).events == 0
  {
    var doomed := DoomedFindings(request.id, InScope(s, request), s.book);
    assert doomed == {};
    assert EventsOf(doomed, s.book) == {};
  }
}
