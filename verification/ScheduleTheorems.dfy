/** What holds of the leases on Rule schedules, over whole runs. */
module ScheduleTheorems {
  import opened Basics
  import opened SortedSets
  import Findings
  import PageFold
  import opened Rules
  import opened RuleTheorems

  // ------------------------------------------------------------- a run that is over

  /** The run the lease stands for is over: a later one began, or it has been ended. */
  ghost predicate RunOver(s: Store, lease: ScheduleLease) {
    lease.key in s.schedules && Trim(lease.owner) != "" &&
    (s.schedules[lease.key].epoch > lease.epoch
     || (s.schedules[lease.key].epoch == lease.epoch && s.schedules[lease.key].owner == ""))
  }

  lemma {:induction false} ClaimAllRaises(s: Store, keys: seq<RuleKey>, owner: string, now: Instant, leaseFor: int,
                                          k: RuleKey)
    requires forall i | 0 <= i < |keys| :: keys[i] in s.records
    requires k in s.schedules
    ensures var s' := ClaimAll(s, keys, owner, now, leaseFor).0;
            k in s'.schedules && (s'.schedules[k] == s.schedules[k] || s'.schedules[k].epoch > s.schedules[k].epoch)
  {
    if keys != [] { ClaimAllRaises(s, Front(keys), owner, now, leaseFor, k); }
  }

  /** The call deletes the version. Dry runs and refused deletions do not. */
  ghost predicate Removes(s: Store, op: Op, key: RuleKey)
    requires WellFormed(s)
  {
    op.Delete? && key in s.records && key !in Apply(s, op).records
  }

  /** No call of the run deletes the version. */
  ghost predicate Kept(s: Store, ops: seq<Op>, key: RuleKey)
    requires WellFormed(s)
  {
    ops != [] ==> Kept(s, Front(ops), key) && !Removes(Run(s, Front(ops)), Last(ops), key)
  }

  lemma StepKeepsOver(s: Store, op: Op, lease: ScheduleLease)
    requires WellFormed(s) && RunOver(s, lease) && !Removes(s, op, lease.key)
    ensures RunOver(Apply(s, op), lease)
  {
    assert Trim("") == "";
    match op
    case ClaimRuns(owner, now, leaseFor, limit) =>
      if ClaimAccepted(owner, now, leaseFor, limit) {
        ClaimableAreRecords(s, now, limit);
        ClaimAllRaises(s, Claimable(s, now, limit), owner, now, leaseFor, lease.key);
      }
    case _ => hide ClaimDue, Folded;
  }

  /** The end of a run is final: once a later claim has taken the schedule over, or the
      run has been ended, its lease is refused and changes nothing, through any later
      calls that do not delete the version. */
  lemma {:induction false} EndedRunIsRefused(s: Store, ops: seq<Op>, lease: ScheduleLease, how: RunEnd)
    requires WellFormed(s) && RunOver(s, lease) && Kept(s, ops, lease.key)
    ensures RunOver(Run(s, ops), lease)
    ensures EndRun(Run(s, ops), lease, how).0 == Run(s, ops) && EndRun(Run(s, ops), lease, how).1.Err?
  {
    assert Trim("") == "";
    if ops != [] {
      EndedRunIsRefused(s, Front(ops), lease, how);
      StepKeepsOver(Run(s, Front(ops)), Last(ops), lease);
      hide Apply;
    }
  }

  /** Ending a run uses its lease up. */
  lemma EndingARunSettlesIt(s: Store, lease: ScheduleLease, how: RunEnd)
    requires EndRun(s, lease, how).1.Ok?
    ensures RunOver(EndRun(s, lease, how).0, lease)
  {
  }

  // ------------------------------------------------------ a deleted version comes back

  /** Register a version and enable it. */
  function Opening(rule: Rule): seq<Op> { [Save(rule, rule.key.version, 1), SetTo(rule.key, Enabled, 1)] }

  function Opened(rule: Rule): Rule { AsDraft(rule, rule.key.version, 1).(status := Enabled) }

  /** Disable the version and delete it. */
  function Closing(key: RuleKey, request: DeleteRequest): seq<Op> { [SetTo(key, Disabled, 1), Delete(request)] }

  function Claims(owner: string, n: nat): seq<Op> {
    if n == 0 then [] else Claims(owner, n - 1) + [ClaimRuns(owner, n, 1, 1)]
  }

  function Claimed(owner: string, n: nat): Schedule {
    if n == 0 then Schedule("", "", 0, 1, ZERO_TIME) else Schedule("", owner, n, 1, n + 1)
  }

  predicate Scheduled(rule: Rule) { RuleValid(rule) && rule.scope == TableScope }

  /** The store whose only version is this one, enabled and with this schedule. */
  function Open(rule: Rule, schedule: Schedule): Store { Single(Opened(rule), map[rule.key := schedule]) }

  lemma OpenIsWellFormed(rule: Rule, schedule: Schedule)
    requires Scheduled(rule)
    ensures WellFormed(Open(rule, schedule)) && WellFormed(EMPTY_STORE)
  {
  }

  /** Enabling schedules a Rule for a table and no other. */
  function FirstSchedules(rule: Rule): map<RuleKey, Schedule> {
    if rule.scope == TableScope then map[rule.key := Claimed("", 0)] else map[]
  }

  lemma EnablingStep(rule: Rule)
    requires RuleValid(rule)
    ensures var saved := Single(AsDraft(rule, rule.key.version, 1), map[]);
            && WellFormed(saved)
            && Apply(saved, SetTo(rule.key, Enabled, 1)) == Single(Opened(rule), FirstSchedules(rule))
  {
  }

  lemma OpeningRuns(rule: Rule)
    requires RuleValid(rule)
    ensures WellFormed(EMPTY_STORE) && Run(EMPTY_STORE, Opening(rule)) == Single(Opened(rule), FirstSchedules(rule))
    ensures rule.scope == TableScope ==> Run(EMPTY_STORE, Opening(rule)) == Open(rule, Claimed("", 0))
  {
    RunTwo(EMPTY_STORE, Save(rule, rule.key.version, 1), SetTo(rule.key, Enabled, 1));
    assert Apply(EMPTY_STORE, Save(rule, rule.key.version, 1)) == Single(AsDraft(rule, rule.key.version, 1), map[]);
    EnablingStep(rule);
    hide Apply, Run, Single, WellFormed, RuleValid;
  }

  /** The only Rule, and due: it is claimed. */
  lemma ClaimOfTheOnlyOne(rule: Rule, schedule: Schedule, owner: string, now: Instant, leaseFor: int)
    requires Scheduled(rule) && ClaimAccepted(owner, now, leaseFor, 1) && WellFormed(Open(rule, schedule))
    requires Due(Open(rule, schedule), rule.key, now)
    ensures var claimed := ClaimedSchedule(schedule, owner, now, leaseFor);
            ClaimDue(Open(rule, schedule), owner, now, leaseFor, 1) ==
              (Open(rule, claimed),
               Ok([ScheduleLease(rule.key, owner, claimed.epoch, schedule.cursor, rule.every, now, claimed.expiresAt)]))
  {
    var s, key, claimed := Open(rule, schedule), rule.key, ClaimedSchedule(schedule, owner, now, leaseFor);
    var lease := ScheduleLease(key, owner, claimed.epoch, schedule.cursor, rule.every, now, claimed.expiresAt);
    assert DueKeys(s, now) == {key};
    OnlyOneToClaim(s, key, now);
    hide Claimable, Due, WellFormed, RuleValid;
    var none: seq<ScheduleLease> := [];
    assert Front([key]) == [] && none + [lease] == [lease];
    assert ClaimAll(s, [], owner, now, leaseFor) == (s, none);
    assert s.schedules[key := claimed] == map[key := claimed];
    assert ClaimAll(s, [key], owner, now, leaseFor) == (Open(rule, claimed), [lease]);
  }

  lemma OnlyOneToClaim(s: Store, key: RuleKey, now: Instant)
    requires OneEnabled(s) && DueKeys(s, now) == {key}
    ensures Claimable(s, now, 1) == [key]
  {
    DueKeysAreOrdered(s, now);
    SortedLists(RuleBefore, DueKeys(s, now));
    var due := Sorted(RuleBefore, DueKeys(s, now));
    DistinctCardinality(due);
    assert |due| == 1 && due[0] in Elements(due);
  }

  lemma ClaimStep(rule: Rule, owner: string, n: nat)
    requires Scheduled(rule) && owner != ""
    ensures WellFormed(Open(rule, Claimed(owner, n)))
    ensures Apply(Open(rule, Claimed(owner, n)), ClaimRuns(owner, n + 1, 1, 1)) == Open(rule, Claimed(owner, n + 1))
  {
    OpenIsWellFormed(rule, Claimed(owner, n));
    ClaimOfTheOnlyOne(rule, Claimed(owner, n), owner, n + 1, 1);
    hide Open, ClaimDue, WellFormed, RuleValid;
  }

  /** Claims that let each other run out, one epoch after the other. */
  lemma {:induction false} ClaimsRun(rule: Rule, owner: string, n: nat)
    requires Scheduled(rule) && owner != ""
    ensures WellFormed(Open(rule, Claimed("", 0)))
    ensures Run(Open(rule, Claimed("", 0)), Claims(owner, n)) == Open(rule, Claimed(owner, n))
  {
    NothingClaimed(owner);
    hide *;
    OpenIsWellFormed(rule, Claimed("", 0));
    if n == 0 {
      RunNothing(Open(rule, Claimed("", 0)));
    } else {
      ClaimsRun(rule, owner, n - 1);
      ClaimStep(rule, owner, n - 1);
      ClaimsSnoc(owner, n);
      RunSnoc(Open(rule, Claimed("", 0)), Claims(owner, n));
    }
  }

  lemma NothingClaimed(owner: string)
    ensures Claimed(owner, 0) == Claimed("", 0) && Claims(owner, 0) == []
  {
  }

  lemma ClaimsSnoc(owner: string, n: nat)
    requires n > 0
    ensures Claims(owner, n) != []
    ensures Front(Claims(owner, n)) == Claims(owner, n - 1) && Last(Claims(owner, n)) == ClaimRuns(owner, n, 1, 1)
  {
  }

  lemma OpenedAndClaimed(rule: Rule, owner: string, n: nat)
    requires Scheduled(rule) && owner != ""
    ensures Reached(Opening(rule) + Claims(owner, n)) == Open(rule, Claimed(owner, n))
  {
    OpeningRuns(rule);
    ClaimsRun(rule, owner, n);
    RunConcat(EMPTY_STORE, Opening(rule), Claims(owner, n));
    hide Run, Open, WellFormed, RuleValid, Claims, Opening, Claimed;
  }

  lemma DisablingStep(rule: Rule, schedules: map<RuleKey, Schedule>)
    requires RuleValid(rule)
    ensures WellFormed(Single(Opened(rule), schedules))
    ensures Apply(Single(Opened(rule), schedules), SetTo(rule.key, Disabled, 1))
            == Single(Opened(rule).(status := Disabled), schedules)
  {
  }

  /** Once its only version is deleted, the store is empty again. */
  lemma ClosingRuns(rule: Rule, schedules: map<RuleKey, Schedule>, request: DeleteRequest)
    requires RuleValid(rule) && schedules.Keys <= {rule.key} && Covers(request, rule.key) && !request.dryRun
    ensures var s := Single(Opened(rule), schedules);
            WellFormed(s) && Run(s, Closing(rule.key, request)) == EMPTY_STORE
  {
    DisablingStep(rule, schedules);
    RunTwo(Single(Opened(rule), schedules), SetTo(rule.key, Disabled, 1), Delete(request));
    DeletingTheOnlyOne(Opened(rule).(status := Disabled), schedules, request);
    hide Run, Single, DeleteRule, WellFormed, SetStatus;
  }

  lemma OpenCloses(rule: Rule, schedule: Schedule, request: DeleteRequest)
    requires Scheduled(rule) && Covers(request, rule.key) && !request.dryRun
    ensures WellFormed(Open(rule, schedule)) && Run(Open(rule, schedule), Closing(rule.key, request)) == EMPTY_STORE
  {
    ClosingRuns(rule, map[rule.key := schedule], request);
    hide Run, Single, WellFormed, RuleValid;
  }

  /** Deleting a version forgets its epochs. A Rule is registered, enabled and claimed, and
      the run of the lease is ended; then the version is disabled and deleted, registered and
      enabled again, and claimed again by the same owner. The lease of the first claim,
      whose run was over, now ends the run of the second. */
  lemma DeletedVersionForgetsItsEpochs(rule: Rule, owner: string, how: RunEnd)
    requires Scheduled(rule) && Trim(owner) != "" && EndAccepted(how)
    ensures var claim := ClaimRuns(owner, 1, 1, 1);
            var lease := ScheduleLease(rule.key, owner, 1, "", rule.every, 1, 2);
            var before := Opening(rule) + [claim, EndOf(lease, Complete)];
            var request := DeleteRequest(rule.key.id, rule.key.version, false, false);
            var again := Closing(rule.key, request) + (Opening(rule) + [claim]);
            && ClaimDue(Reached(Opening(rule)), owner, 1, 1, 1).1 == Ok([lease])
            && RunOver(Reached(before), lease)
            && EndRun(Run(Reached(before), again), lease, how).1.Ok?
  {
    var claim, lease := ClaimRuns(owner, 1, 1, 1), ScheduleLease(rule.key, owner, 1, "", rule.every, 1, 2);
    var request := DeleteRequest(rule.key.id, rule.key.version, false, false);
    var before := Opening(rule) + [claim, EndOf(lease, Complete)];
    OwnerIsNamed(owner);
    assert LeaseValid(lease);
    OpeningRuns(rule);
    OpenIsWellFormed(rule, Claimed("", 0));
    ClaimOfTheOnlyOne(rule, Claimed("", 0), owner, 1, 1);
    ClaimedAndEnded(rule, owner, lease);
    EndedIsOver(rule, owner, lease);
    OpenCloses(rule, Ended(Claimed(owner, 1), lease, Complete), request);
    RunConcat(Reached(before), Closing(rule.key, request), Opening(rule) + [claim]);
    OneClaim(owner, claim);
    OpenedAndClaimed(rule, owner, 1);
    TakesAgain(rule, owner, lease, how);
    hide Run, Open, ClaimDue, RunOver, EndRun, WellFormed, RuleValid, Claims, Opening, Closing, Claimed, Ended;
  }

  predicate EnabledAt(s: Store, key: RuleKey) { key in s.records && s.records[key].status == Enabled }

  /** A page is read while its version is enabled; the version is disabled and deleted, the
      page is written, and the version is registered again: it owns the outcomes of the old
      one. */
  lemma RemainsAreInherited(rule: Rule, request: DeleteRequest, folding: PageFold.Rule,
                            page: seq<PageFold.Observation>, at: Instant, i: nat)
    requires RuleValid(rule) && KeyOf(folding) == rule.key && Covers(request, rule.key) && !request.dryRun
    requires PageFold.Materialize(map[], folding, page, at).Ok? && i < |page|
    ensures var save := Save(rule, rule.key.version, 1);
            var s := Reached(Opening(rule) + Closing(rule.key, request) + [Overlap(folding, page, at), save]);
            && EnabledAt(Reached(Opening(rule)), rule.key)
            && rule.key in s.records && s.records[rule.key].status == Draft
            && PageFold.OutcomeKeyOf(folding, page[i]) in s.outcomes
  {
    var save, overlap := Save(rule, rule.key.version, 1), Overlap(folding, page, at);
    OpeningRuns(rule);
    ClosingRuns(rule, FirstSchedules(rule), request);
    RunConcat(EMPTY_STORE, Opening(rule), Closing(rule.key, request));
    WrittenThenSaved(rule, folding, page, at, i);
    hide Run, Apply, Opening, Closing, PageFold.Materialize, RuleValid, WellFormed, PageFold.OutcomeKeyOf;
    TwoMore(Opening(rule) + Closing(rule.key, request), EMPTY_STORE, overlap, save);
  }

  lemma OwnerIsNamed(owner: string)
    requires Trim(owner) != ""
    ensures owner != ""
  {
    assert Trim("") == "";
  }

  lemma OneClaim(owner: string, claim: Op)
    requires claim == ClaimRuns(owner, 1, 1, 1)
    ensures Claims(owner, 1) == [claim]
  {
    assert Claims(owner, 0) == [];
  }

  lemma EndedIsOver(rule: Rule, owner: string, lease: ScheduleLease)
    requires Trim(owner) != "" && lease == ScheduleLease(rule.key, owner, 1, "", rule.every, 1, 2)
    ensures RunOver(Open(rule, Ended(Claimed(owner, 1), lease, Complete)), lease)
  {
  }

  /** Ownership and epoch are all that counts. */
  lemma TakesAgain(rule: Rule, owner: string, lease: ScheduleLease, how: RunEnd)
    requires Scheduled(rule) && LeaseValid(lease) && lease.key == rule.key && lease.owner == owner && EndAccepted(how)
    ensures EndRun(Open(rule, Claimed(owner, lease.epoch)), lease, how) ==
            (Open(rule, Ended(Claimed(owner, lease.epoch), lease, how)), Ok(()))
  {
    var schedule := Claimed(owner, lease.epoch);
    assert Open(rule, schedule).schedules[rule.key := Ended(schedule, lease, how)]
      == map[rule.key := Ended(schedule, lease, how)];
  }

  lemma ClaimedAndEnded(rule: Rule, owner: string, lease: ScheduleLease)
    requires Scheduled(rule) && owner != "" && LeaseValid(lease) && lease.key == rule.key && lease.owner == owner
    requires lease.epoch == 1
    ensures Reached(Opening(rule) + [ClaimRuns(owner, 1, 1, 1), EndOf(lease, Complete)])
         == Open(rule, Ended(Claimed(owner, 1), lease, Complete))
  {
    NothingClaimed(owner);
    hide *;
    ScheduledParts(rule);
    OpeningRuns(rule);
    ClaimStep(rule, owner, 0);
    EndingStep(rule, owner, lease);
    TwoMore(Opening(rule), Open(rule, Claimed("", 0)), ClaimRuns(owner, 1, 1, 1), EndOf(lease, Complete));
  }

  lemma ScheduledParts(rule: Rule)
    requires Scheduled(rule)
    ensures RuleValid(rule) && rule.scope == TableScope
  {
    hide RuleValid;
  }

  lemma EndingStep(rule: Rule, owner: string, lease: ScheduleLease)
    requires Scheduled(rule) && owner != "" && LeaseValid(lease) && lease.key == rule.key && lease.owner == owner
    requires lease.epoch == 1
    ensures WellFormed(Open(rule, Claimed(owner, 1)))
    ensures Apply(Open(rule, Claimed(owner, 1)), EndOf(lease, Complete))
            == Open(rule, Ended(Claimed(owner, 1), lease, Complete))
  {
    OpenIsWellFormed(rule, Claimed(owner, 1));
    TakesAgain(rule, owner, lease, Complete);
    hide Open, EndRun, Claimed, Ended, WellFormed, RuleValid;
  }

  /** Every deletion of the run is one of these. */
  ghost predicate Drawn(ops: seq<Op>, deletions: iset<DeleteRequest>) {
    forall i | 0 <= i < |ops| && ops[i].Delete? :: ops[i].request in deletions
  }

  ghost predicate StaysRefused(lease: ScheduleLease, deletions: iset<DeleteRequest>) {
    forall before, ops, how | RunOver(Reached(before), lease) && Drawn(ops, deletions) ::
      EndRun(Run(Reached(before), ops), lease, how).1.Err?
  }

  /** The deletion would go through for a version without findings that is not enabled. */
  predicate MayRemove(request: DeleteRequest, key: RuleKey) { !request.dryRun && Covers(request, key) && IdOk(key.id) }

  /** A lease whose run is over is refused after all runs, with any calls but only these
      deletions, exactly if none of the deletions is meant to remove its version. */
  lemma LeaseStaysRefusedExactly(lease: ScheduleLease, deletions: iset<DeleteRequest>)
    requires LeaseValid(lease)
    ensures StaysRefused(lease, deletions) <==> forall r | r in deletions :: !MayRemove(r, lease.key)
  {
    hide Reached, Run, EndRun, RunOver;
    if forall r | r in deletions :: !MayRemove(r, lease.key) {
      forall before, ops, how | RunOver(Reached(before), lease) && Drawn(ops, deletions)
        ensures EndRun(Run(Reached(before), ops), lease, how).1.Err?
      {
        DrawnKeeps(Reached(before), ops, lease.key, deletions);
        EndedRunIsRefused(Reached(before), ops, lease, how);
      }
    } else {
      var r :| r in deletions && MayRemove(r, lease.key);
      var before, ops := OldLeaseIsTaken(lease, r);
      assert Drawn(ops, deletions);
    }
  }

  lemma {:induction false} DrawnKeeps(s: Store, ops: seq<Op>, key: RuleKey, deletions: iset<DeleteRequest>)
    requires WellFormed(s) && Drawn(ops, deletions) && forall r | r in deletions :: !MayRemove(r, key)
    ensures Kept(s, ops, key)
  {
    if ops != [] {
      DrawnKeeps(s, Front(ops), key, deletions);
      assert Last(ops).Delete? ==> Last(ops).request in deletions;
      if Last(ops).Delete? { NotMeantForIt(Run(s, Front(ops)), Last(ops).request, key); }
      hide Run, Apply, WellFormed;
    }
  }

  lemma NotMeantForIt(s: Store, request: DeleteRequest, key: RuleKey)
    requires WellFormed(s) && !MayRemove(request, key)
    ensures !Removes(s, Delete(request), key)
  {
  }

  /** The run that brings the lease back: the version is deleted when its epochs are past
      the lease, and is then claimed up to the lease's epoch again. */
  lemma OldLeaseIsTaken(lease: ScheduleLease, request: DeleteRequest) returns (before: seq<Op>, ops: seq<Op>)
    requires LeaseValid(lease) && MayRemove(request, lease.key)
    ensures RunOver(Reached(before), lease) && EndRun(Run(Reached(before), ops), lease, Complete).1.Ok?
    ensures forall i | 0 <= i < |ops| && ops[i].Delete? :: ops[i].request == request
  {
    hide *;
    PartsOf(lease, request);
    var rule := Sample(lease.key);
    var owner, n := lease.owner, lease.epoch;
    before := Opening(rule) + Claims(owner, n + 1);
    OpenedAndClaimed(rule, owner, n + 1);
    LaterEpochIsOver(rule, lease);
    var reopened := Opening(rule) + Claims(owner, n);
    ops := Closing(rule.key, request) + reopened;
    OpenCloses(rule, Claimed(owner, n + 1), request);
    RunConcat(Reached(before), Closing(rule.key, request), reopened);
    ReachedIsRun(reopened);
    OpenedAndClaimed(rule, owner, n);
    TakesAgain(rule, owner, lease, Complete);
    OnlyThisDeletion(rule, owner, n, request);
  }

  lemma PartsOf(lease: ScheduleLease, request: DeleteRequest)
    requires LeaseValid(lease) && MayRemove(request, lease.key)
    ensures Covers(request, lease.key) && !request.dryRun && IdOk(lease.key.id) && EndAccepted(Complete)
    ensures lease.owner != "" && lease.epoch >= 1 && lease.key.version >= 1
  {
    OwnerIsNamed(lease.owner);
  }

  /** Some version with this key that can be scheduled. */
  lemma Sample(key: RuleKey) returns (rule: Rule)
    requires IdOk(key.id) && key.version >= 1
    ensures Scheduled(rule) && rule.key == key
  {
    rule := Rule(key, TableScope, "t", 1, "", true, Draft, 1, 1);
    assert Trim("t") == "t";
  }

  lemma LaterEpochIsOver(rule: Rule, lease: ScheduleLease)
    requires LeaseValid(lease) && lease.key == rule.key
    ensures RunOver(Open(rule, Claimed(lease.owner, lease.epoch + 1)), lease)
  {
  }

  lemma OnlyThisDeletion(rule: Rule, owner: string, n: nat, request: DeleteRequest)
    ensures var ops := Closing(rule.key, request) + (Opening(rule) + Claims(owner, n));
            forall i | 0 <= i < |ops| && ops[i].Delete? :: ops[i].request == request
  {
    ClaimsAreClaims(owner, n);
    hide Claims;
  }

  lemma {:induction false} ClaimsAreClaims(owner: string, n: nat)
    ensures forall i | 0 <= i < |Claims(owner, n)| :: Claims(owner, n)[i].ClaimRuns?
  {
    if n > 0 { ClaimsAreClaims(owner, n - 1); }
  }

  // ------------------------------------------------------------ one run at a time

  /** The call ends the current run of the version. */
  ghost predicate EndsRun(s: Store, op: Op, key: RuleKey) {
    op.EndOf? && op.lease.key == key && EndRun(s, op.lease, op.how).1.Ok?
  }

  /** Nothing in the run ends the version's current run or deletes the version, and every
      claim comes before the given time. */
  ghost predicate Undisturbed(s: Store, ops: seq<Op>, key: RuleKey, until: Instant)
    requires WellFormed(s)
  {
    ops != [] ==>
      var before, op := Run(s, Front(ops)), Last(ops);
      && Undisturbed(s, Front(ops), key, until)
      && !Removes(before, op, key) && !EndsRun(before, op, key)
      && (op.ClaimRuns? ==> op.now < until)
  }

  /** The lease is in force. */
  ghost predicate InForce(s: Store, lease: ScheduleLease) {
    LeaseCurrent(s, lease) && s.schedules[lease.key].expiresAt == lease.expiresAt
  }

  lemma {:induction false} ClaimAllSpares(s: Store, keys: seq<RuleKey>, owner: string, now: Instant, leaseFor: int,
                                          k: RuleKey)
    requires forall i | 0 <= i < |keys| :: keys[i] in s.records && keys[i] != k
    ensures var (s', leases) := ClaimAll(s, keys, owner, now, leaseFor);
            && (k in s'.schedules <==> k in s.schedules) && (k in s.schedules ==> s'.schedules[k] == s.schedules[k])
            && forall i | 0 <= i < |leases| :: leases[i].key != k
  {
    if keys != [] { ClaimAllSpares(s, Front(keys), owner, now, leaseFor, k); }
  }

  lemma ClaimableAreDue(s: Store, now: Instant, limit: nat)
    requires OneEnabled(s)
    ensures forall i | 0 <= i < |Claimable(s, now, limit)| :: Claimable(s, now, limit)[i] in DueKeys(s, now)
    ensures forall i, j | 0 <= i < j < |Claimable(s, now, limit)| ::
              Claimable(s, now, limit)[i] != Claimable(s, now, limit)[j]
  {
    DueKeysAreOrdered(s, now);
    SortedLists(RuleBefore, DueKeys(s, now));
    var due := Sorted(RuleBefore, DueKeys(s, now));
    forall i | 0 <= i < |Claimable(s, now, limit)| ensures Claimable(s, now, limit)[i] in DueKeys(s, now) {
      assert due[i] in Elements(due);
    }
  }

  /** A version under a lease that has not run out is not handed out. */
  lemma LeasedIsNotClaimed(s: Store, lease: ScheduleLease, owner: string, now: Instant, leaseFor: int, limit: int)
    requires WellFormed(s) && InForce(s, lease) && ZERO_TIME != lease.expiresAt && now < lease.expiresAt
    ensures var (s', leases) := ClaimDue(s, owner, now, leaseFor, limit);
            && InForce(s', lease)
            && (leases.Ok? ==> forall i | 0 <= i < |leases.value| :: leases.value[i].key != lease.key)
  {
    if ClaimAccepted(owner, now, leaseFor, limit) {
      ClaimableAreRecords(s, now, limit);
      ClaimableAreDue(s, now, limit);
      hide Claimable;
      ClaimAllSpares(s, Claimable(s, now, limit), owner, now, leaseFor, lease.key);
    }
  }

  lemma StepKeepsInForce(s: Store, op: Op, lease: ScheduleLease)
    requires WellFormed(s) && InForce(s, lease) && lease.expiresAt != ZERO_TIME
    requires !Removes(s, op, lease.key) && !EndsRun(s, op, lease.key) && (op.ClaimRuns? ==> op.now < lease.expiresAt)
    ensures InForce(Apply(s, op), lease)
  {
    match op
    case ClaimRuns(owner, now, leaseFor, limit) =>
      LeasedIsNotClaimed(s, lease, owner, now, leaseFor, limit); hide ClaimDue;
    case _ => hide ClaimDue, Folded;
  }

  lemma {:induction false} InForceStays(s: Store, ops: seq<Op>, lease: ScheduleLease)
    requires WellFormed(s) && InForce(s, lease) && lease.expiresAt != ZERO_TIME
    requires Undisturbed(s, ops, lease.key, lease.expiresAt)
    ensures InForce(Run(s, ops), lease)
  {
    if ops != [] {
      InForceStays(s, Front(ops), lease);
      StepKeepsInForce(Run(s, Front(ops)), Last(ops), lease);
      hide Apply, InForce;
    }
  }

  lemma {:induction false} ClaimAllLeases(s: Store, keys: seq<RuleKey>, owner: string, now: Instant, leaseFor: int,
                                          i: nat)
    requires forall j | 0 <= j < |keys| :: keys[j] in s.records
    requires (forall j, l | 0 <= j < l < |keys| :: keys[j] != keys[l]) && i < |keys|
    ensures var (s', leases) := ClaimAll(s, keys, owner, now, leaseFor);
            |leases| == |keys| && InForce(s', leases[i])
  {
    if i < |keys| - 1 {
      ClaimAllLeases(s, Front(keys), owner, now, leaseFor, i);
      ClaimAllKeys(s, Front(keys), owner, now, leaseFor);
    }
    else { ClaimAllKeys(s, Front(keys), owner, now, leaseFor); }
  }

  lemma {:induction false} ClaimAllKeys(s: Store, keys: seq<RuleKey>, owner: string, now: Instant, leaseFor: int)
    requires forall j | 0 <= j < |keys| :: keys[j] in s.records
    ensures var leases := ClaimAll(s, keys, owner, now, leaseFor).1;
            |leases| == |keys| && forall j | 0 <= j < |keys| :: leases[j].key == keys[j]
  {
    if keys != [] { ClaimAllKeys(s, Front(keys), owner, now, leaseFor); }
  }

  lemma ClaimedIsInForce(s: Store, owner: string, now: Instant, leaseFor: int, limit: int, i: nat)
    requires WellFormed(s)
    requires var leases := ClaimDue(s, owner, now, leaseFor, limit).1; leases.Ok? && i < |leases.value|
    ensures var (s', leases) := ClaimDue(s, owner, now, leaseFor, limit); InForce(s', leases.value[i])
  {
    ClaimableAreRecords(s, now, limit);
    ClaimableAreDue(s, now, limit);
    ClaimAllKeys(s, Claimable(s, now, limit), owner, now, leaseFor);
    hide Claimable;
    ClaimAllLeases(s, Claimable(s, now, limit), owner, now, leaseFor, i);
  }

  /** What registration leaves in every run: valid versions, and epochs that count up. */
  ghost predicate Registered(s: Store) {
    && (forall k | k in s.records :: RuleValid(s.records[k]) && s.records[k].key == k)
    && (forall k | k in s.schedules :: s.schedules[k].epoch >= 0)
  }

  lemma {:induction false} ClaimAllCounts(s: Store, keys: seq<RuleKey>, owner: string, now: Instant, leaseFor: int)
    requires (forall j | 0 <= j < |keys| :: keys[j] in s.records) && Registered(s)
    ensures var (s', leases) := ClaimAll(s, keys, owner, now, leaseFor);
            && Registered(s') && |leases| == |keys|
            && forall j | 0 <= j < |keys| ::
                 && leases[j].key == keys[j] && leases[j].every == s.records[keys[j]].every && leases[j].epoch >= 1
                 && leases[j].owner == owner && leases[j].claimedAt == now
  {
    hide RuleValid;
    if keys != [] { ClaimAllCounts(s, Front(keys), owner, now, leaseFor); }
  }

  lemma StatusKeepsValid(r: Rule, key: RuleKey, status: RuleStatus, at: Instant)
    requires RuleValid(r)
    ensures RuleValid(WithStatus(r, key, status, at)) && WithStatus(r, key, status, at).key == r.key
  {
    hide Trim, IdOk;
  }

  lemma SetStatusKeepsRegistered(s: Store, key: RuleKey, status: RuleStatus, at: Instant)
    requires Registered(s)
    ensures Registered(SetStatus(s, key, status, at).0)
  {
    hide RuleValid, WithStatus;
    forall k | k in s.records
      ensures RuleValid(WithStatus(s.records[k], key, status, at)) && WithStatus(s.records[k], key, status, at).key == k
    {
      StatusKeepsValid(s.records[k], key, status, at);
    }
  }

  lemma ClaimKeepsRegistered(s: Store, owner: string, now: Instant, leaseFor: int, limit: int)
    requires WellFormed(s) && Registered(s)
    ensures Registered(ClaimDue(s, owner, now, leaseFor, limit).0)
  {
    hide RuleValid, Claimable, Registered;
    if ClaimAccepted(owner, now, leaseFor, limit) {
      ClaimableAreRecords(s, now, limit);
      ClaimAllCounts(s, Claimable(s, now, limit), owner, now, leaseFor);
    }
  }

  lemma StepKeepsRegistered(s: Store, op: Op)
    requires WellFormed(s) && Registered(s)
    ensures Registered(Apply(s, op))
  {
    hide RuleValid;
    match op
    case SetTo(key, status, at) => SetStatusKeepsRegistered(s, key, status, at); hide SetStatus, Registered;
    case ClaimRuns(owner, now, leaseFor, limit) =>
      ClaimKeepsRegistered(s, owner, now, leaseFor, limit); hide ClaimDue, Registered;
    case _ => hide ClaimDue, Folded, Findings.TransitionFinding, SetStatus;
  }

  lemma {:induction false} RunKeepsRegistered(ops: seq<Op>)
    ensures Registered(Reached(ops))
  {
    if ops != [] {
      RunKeepsRegistered(Front(ops));
      ReachedSnoc(ops);
      hide Reached, Registered, Apply;
      StepKeepsRegistered(Reached(Front(ops)), Last(ops));
    }
  }

  /** Whether a lease can be presented at all depends on who claimed it. */
  lemma ClaimedLeaseIsValid(s: Store, owner: string, now: Instant, leaseFor: int, limit: int, i: nat)
    requires WellFormed(s) && Registered(s)
    requires var leases := ClaimDue(s, owner, now, leaseFor, limit).1;
             leases.Ok? && i < |leases.value| && leases.value[i].expiresAt != ZERO_TIME
    ensures LeaseValid(ClaimDue(s, owner, now, leaseFor, limit).1.value[i]) <==> Trim(owner) != ""
  {
    ClaimableAreRecords(s, now, limit);
    ClaimableAreDue(s, now, limit);
    ClaimAllCounts(s, Claimable(s, now, limit), owner, now, leaseFor);
    var key := Claimable(s, now, limit)[i];
    assert key in DueKeys(s, now) && RuleValid(s.records[key]) && s.records[key].every > 0 && IdOk(key.id);
    hide Claimable, RuleValid, Trim, WellFormed, Registered, DueKeys;
  }

  /** The lease that the `i`-th due Rule is handed out under, and the store after. */
  ghost predicate HandsOut(s: Store, claim: Op, i: nat, s': Store, lease: ScheduleLease)
    requires WellFormed(s) && claim.ClaimRuns?
  {
    var (after, leases) := ClaimDue(s, claim.owner, claim.now, claim.leaseFor, claim.limit);
    leases.Ok? && i < |leases.value| && s' == after && lease == leases.value[i]
  }

  /** The claim hands out the version. */
  ghost predicate Reclaims(s: Store, claim: Op, key: RuleKey)
    requires WellFormed(s) && claim.ClaimRuns?
  {
    exists i: nat, s', lease :: HandsOut(s, claim, i, s', lease) && lease.key == key
  }

  /** One run at a time: from the claim until its lease runs out no claim hands out the
      version again, through any calls that neither end the run nor delete the version.
      Disabling and enabling the Rule makes no difference. Until then the lease can end its
      run, exactly if its owner is not blank. */
  lemma LeasedRunIsExclusive(before: seq<Op>, claim: Op, i: nat, s': Store, lease: ScheduleLease, ops: seq<Op>,
                             later: Op, how: RunEnd)
    requires claim.ClaimRuns? && later.ClaimRuns? && HandsOut(Reached(before), claim, i, s', lease)
    requires lease.expiresAt != ZERO_TIME && later.now < lease.expiresAt
    requires WellFormed(s') && Undisturbed(s', ops, lease.key, lease.expiresAt)
    ensures !Reclaims(Run(s', ops), later, lease.key)
    ensures EndRun(Run(s', ops), lease, how).1.Ok? <==> EndAccepted(how) && Trim(claim.owner) != ""
  {
    var s := Reached(before);
    RunKeepsRegistered(before);
    ClaimedIsInForce(s, claim.owner, claim.now, claim.leaseFor, claim.limit, i);
    ClaimedLeaseIsValid(s, claim.owner, claim.now, claim.leaseFor, claim.limit, i);
    hide Reached, ClaimDue, Trim, LeaseValid, Registered;
    InForceStays(s', ops, lease);
    LeasedIsNotClaimed(Run(s', ops), lease, later.owner, later.now, later.leaseFor, later.limit);
    hide Run, Undisturbed, WellFormed;
  }

  // -------------------------------------------------------------- when it runs next

  /** When a run that ended this way is to be followed up. */
  function FollowUp(lease: ScheduleLease, how: RunEnd): Instant {
    match how
    case Advance(_) => lease.claimedAt
    case Complete => lease.claimedAt + lease.every
    case FailRun(retryAfter) => lease.claimedAt + retryAfter
  }

  /** The run is ended and waits: nobody holds it, and it is to go on at this time and
      from this cursor. */
  ghost predicate WaitsFor(s: Store, key: RuleKey, at: Instant, cursor: string) {
    && key in s.records && s.records[key].scope == TableScope
    && key in s.schedules && s.schedules[key].owner == "" && s.schedules[key].expiresAt == ZERO_TIME
    && s.schedules[key].nextRunAt == at && s.schedules[key].cursor == cursor
  }

  /** Nothing in the run deletes the version or enables it once more, and every claim comes
      before the given time. */
  ghost predicate LeftAlone(s: Store, ops: seq<Op>, key: RuleKey, until: Instant)
    requires WellFormed(s)
  {
    ops != [] ==>
      && LeftAlone(s, Front(ops), key, until)
      && !Removes(Run(s, Front(ops)), Last(ops), key)
      && !(Last(ops).SetTo? && Last(ops).key == key && Last(ops).status == Enabled)
      && (Last(ops).ClaimRuns? ==> Last(ops).now < until)
  }

  lemma ClaimPassesBy(s: Store, key: RuleKey, at: Instant, cursor: string, claim: Op)
    requires WellFormed(s) && WaitsFor(s, key, at, cursor) && at != ZERO_TIME && claim.ClaimRuns? && claim.now < at
    ensures WaitsFor(Apply(s, claim), key, at, cursor)
  {
    if ClaimAccepted(claim.owner, claim.now, claim.leaseFor, claim.limit) {
      ClaimableAreRecords(s, claim.now, claim.limit);
      ClaimableAreDue(s, claim.now, claim.limit);
      var keys := Claimable(s, claim.now, claim.limit);
      hide Claimable;
      ClaimAllSpares(s, keys, claim.owner, claim.now, claim.leaseFor, key);
    }
  }

  lemma StepWaits(s: Store, key: RuleKey, at: Instant, cursor: string, op: Op)
    requires WellFormed(s) && WaitsFor(s, key, at, cursor) && at != ZERO_TIME
    requires !Removes(s, op, key) && !(op.SetTo? && op.key == key && op.status == Enabled)
    requires op.ClaimRuns? ==> op.now < at
    ensures WaitsFor(Apply(s, op), key, at, cursor)
  {
    match op
    case ClaimRuns(owner, now, leaseFor, limit) => ClaimPassesBy(s, key, at, cursor, op);
    case EndOf(lease, how) => assert Trim("") == "";
    case SetTo(k, status, setAt) => hide ClaimDue;
    case _ => hide ClaimDue, Folded, Findings.TransitionFinding, EndRun, RuleValid, SetStatus;
  }

  lemma {:induction false} RunWaits(s: Store, key: RuleKey, at: Instant, cursor: string, ops: seq<Op>)
    requires WellFormed(s) && WaitsFor(s, key, at, cursor) && at != ZERO_TIME && LeftAlone(s, ops, key, at)
    ensures WaitsFor(Run(s, ops), key, at, cursor)
  {
    if ops != [] {
      RunWaits(s, key, at, cursor, Front(ops));
      RunSnoc(s, ops);
      hide WaitsFor, Apply, Run;
      StepWaits(Run(s, Front(ops)), key, at, cursor, Last(ops));
    }
  }

  /** The cursor the next run starts from: the next page goes on, the next walk starts from
      the beginning, and a retry repeats its page. */
  function NextStart(s: Store, lease: ScheduleLease, how: RunEnd): string {
    match how
    case Advance(cursor) => cursor
    case Complete => ""
    case FailRun(_) => ScheduleOf(s, lease.key).cursor
  }

  /** An ended run is due again exactly from its follow-up time on, while its version is
      enabled: at once for the next page, after the interval for the next walk, after the
      delay for a retry. So it stays through any calls that neither delete nor enable the
      version, up to the follow-up time, and the next run starts from the right cursor. */
  lemma NextRunIsDueExactly(s: Store, lease: ScheduleLease, how: RunEnd, ops: seq<Op>, now: Instant)
    requires WellFormed(s) && EndRun(s, lease, how).1.Ok? && lease.key in s.records
    requires s.records[lease.key].scope == TableScope && FollowUp(lease, how) != ZERO_TIME
    requires WellFormed(EndRun(s, lease, how).0)
    requires LeftAlone(EndRun(s, lease, how).0, ops, lease.key, FollowUp(lease, how))
    ensures var after := Run(EndRun(s, lease, how).0, ops);
            && lease.key in after.records
            && (Due(after, lease.key, now) <==>
                  after.records[lease.key].status == Enabled && now >= FollowUp(lease, how))
            && ScheduleOf(after, lease.key).cursor == NextStart(s, lease, how)
  {
    RunWaits(EndRun(s, lease, how).0, lease.key, FollowUp(lease, how), NextStart(s, lease, how), ops);
    hide Run, LeftAlone, EndRun, WellFormed;
  }
}
