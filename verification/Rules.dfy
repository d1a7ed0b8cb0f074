/**
 The Rule store as a value: versions of Rules, their explanations and schedules, together
 with the outcomes and findings derived from them. One function per store operation;
 `RuleStores.RuleStore` updates the same maps in place.
 */
module Rules {
  import opened Basics
  import opened SortedSets
  import opened Outcomes
  import opened Findings

  datatype RuleStatus = Draft | Enabled | Disabled
  datatype Scope = TableScope | JobScope

  datatype RuleKey = RuleKey(id: string, version: int)

  /** `wellFormed` stands for the checks of name, query and budgets that validation makes. */
  datatype Rule = Rule(
    key: RuleKey, scope: Scope, subjectType: string, every: int, definition: string, wellFormed: bool,
    status: RuleStatus, createdAt: Instant, updatedAt: Instant)

  datatype Explanation = Explanation(safe: bool, details: string)

  datatype Schedule = Schedule(cursor: string, owner: string, epoch: int, nextRunAt: Instant, expiresAt: Instant)

  const NO_SCHEDULE := Schedule("", "", 0, ZERO_TIME, ZERO_TIME)

  datatype Store = Store(
    records: map<RuleKey, Rule>, explanations: map<RuleKey, Explanation>, schedules: map<RuleKey, Schedule>,
    outcomes: OutcomeMap, book: Book)

  const EMPTY_STORE := Store(map[], map[], map[], map[], Book(map[], map[], 0))

  datatype RuleError = InvalidRule | VersionExists | RuleMissing | RuleEnabled | FindingsRemain | LeaseLost

  const MAX_ID := 128
  const MAX_TYPE := 64

  predicate IdChar(c: char) { 'a' <= c <= 'z' || '0' <= c <= '9' || c == '.' || c == '_' || c == '-' }

  predicate IdOk(id: string) {
    && 0 < |id| <= MAX_ID && ('a' <= id[0] <= 'z' || '0' <= id[0] <= '9')
    && forall i | 0 <= i < |id| :: IdChar(id[i])
  }

  predicate RuleValid(r: Rule) {
    && IdOk(r.key.id) && r.key.version >= 1 && Trim(r.subjectType) != "" && |r.subjectType| <= MAX_TYPE
    && (r.scope == TableScope ==> r.every > 0) && r.wellFormed
  }

  // ---------------------------------------------------------------- versions

  function SaveRule(s: Store, r: Rule): (Store, Result<Rule, RuleError>) {
    if !RuleValid(r) then (s, Err(InvalidRule))
    else if r.key in s.records then (s, Err(VersionExists))
    else (s.(records := s.records[r.key := r]), Ok(r))
  }

  function VersionsOf(s: Store, id: string): set<int> { set k | k in s.records && k.id == id :: k.version }

  ghost predicate IsLatest(s: Store, id: string, version: int) {
    version in VersionsOf(s, id) && forall v | v in VersionsOf(s, id) :: v <= version
  }

  /** `Register`: a new draft, one past the latest version. */
  ghost predicate IsNextVersion(s: Store, id: string, version: int) {
    if VersionsOf(s, id) == {} then version == 1 else IsLatest(s, id, version - 1)
  }

  function AsDraft(r: Rule, version: int, now: Instant): Rule {
    r.(key := RuleKey(r.key.id, version), status := Draft, createdAt := now, updatedAt := now)
  }

  function Explain(s: Store, key: RuleKey, explanation: Explanation): (Store, Result<(), RuleError>) {
    if key !in s.records then (s, Err(RuleMissing))
    else (s.(explanations := s.explanations[key := explanation]), Ok(()))
  }

  function ScheduleOf(s: Store, key: RuleKey): Schedule { if key in s.schedules then s.schedules[key] else NO_SCHEDULE }

  /** Enabling a version disables the others of its Rule. */
  function WithStatus(r: Rule, key: RuleKey, status: RuleStatus, at: Instant): Rule {
    if r.key == key then r.(status := status, updatedAt := at)
    else if status == Enabled && r.key.id == key.id && r.status == Enabled then r.(status := Disabled, updatedAt := at)
    else r
  }

  function SetStatus(s: Store, key: RuleKey, status: RuleStatus, at: Instant): (Store, Result<Rule, RuleError>) {
    if at == ZERO_TIME then (s, Err(InvalidRule))
    else if key !in s.records then (s, Err(RuleMissing))
    else
      var records := map k | k in s.records :: WithStatus(s.records[k], key, status, at);
      var schedules :=
        if status == Enabled && s.records[key].scope == TableScope
          then s.schedules[key := ScheduleOf(s, key).(nextRunAt := at)]
        else s.schedules;
      (s.(records := records, schedules := schedules), Ok(records[key]))
  }

  // ---------------------------------------------------------------- deletion

  datatype DeleteRequest = DeleteRequest(id: string, version: int, purge: bool, dryRun: bool)

  datatype Deletion = Deletion(
    versions: set<int>, enabled: set<int>, explanations: nat, schedules: nat, outcomes: nat, findings: nat,
    events: nat, applied: bool)

  const NOTHING_COVERED := Deletion({}, {}, 0, 0, 0, 0, 0, false)

  function InScope(s: Store, request: DeleteRequest): set<int> {
    set k | k in s.records && k.id == request.id && (request.version == 0 || k.version == request.version) :: k.version
  }

  function EnabledIn(s: Store, request: DeleteRequest): set<int> {
    set k | k in s.records && k.id == request.id && (request.version == 0 || k.version == request.version)
        && s.records[k].status == Enabled :: k.version
  }

  predicate Doomed(id: string, versions: set<int>, k: RuleKey) { k.id == id && k.version in versions }

  function DoomedKeys<T>(id: string, versions: set<int>, m: map<RuleKey, T>): set<RuleKey> {
    set k | k in m && Doomed(id, versions, k)
  }

  function DoomedOutcomes(id: string, versions: set<int>, outcomes: OutcomeMap): set<OutcomeKey> {
    set k | k in outcomes && k.ruleId == id && k.version in versions
  }

  function DoomedFindings(id: string, versions: set<int>, book: Book): set<FindingKey> {
    set k | k in book.records && k.ruleId == id && k.version in versions
  }

  /** What a deletion covers. */
  function Plan(s: Store, request: DeleteRequest): Deletion {
    var id, versions := request.id, InScope(s, request);
    var findings := DoomedFindings(id, versions, s.book);
    Deletion(versions, EnabledIn(s, request),
             |DoomedKeys(id, versions, s.explanations)|, |DoomedKeys(id, versions, s.schedules)|,
             |DoomedOutcomes(id, versions, s.outcomes)|, |findings|, |EventsOf(findings, s.book)|, false)
  }

  /** The store without these versions of a Rule and what is derived from them. */
  function WithoutVersions(s: Store, id: string, versions: set<int>, purge: bool): Store {
    var findings := if purge then DoomedFindings(id, versions, s.book) else {};
    Store(s.records - DoomedKeys(id, versions, s.records),
          s.explanations - DoomedKeys(id, versions, s.explanations),
          s.schedules - DoomedKeys(id, versions, s.schedules),
          s.outcomes - DoomedOutcomes(id, versions, s.outcomes),
          Book(s.book.records - findings, s.book.events - findings, s.book.nextSeq))
  }

  function Removed(s: Store, request: DeleteRequest): Store {
    WithoutVersions(s, request.id, InScope(s, request), request.purge)
  }

  /** `DeleteRule`: an enabled version is refused, findings are refused unless they are to
      be purged, and a dry run stops before the removal. */
  function DeleteRule(s: Store, request: DeleteRequest): (Store, Deletion, Result<(), RuleError>) {
    var plan := Plan(s, request);
    if !IdOk(request.id) || request.version < 0 then (s, NOTHING_COVERED, Err(InvalidRule))
    else if plan.versions == {} then (s, NOTHING_COVERED, Err(RuleMissing))
    else if plan.enabled != {}
      then (s, NOTHING_COVERED.(versions := plan.versions, enabled := plan.enabled), Err(RuleEnabled))
    else if plan.findings > 0 && !request.purge then (s, plan, Err(FindingsRemain))
    else if request.dryRun then (s, plan, Ok(()))
    else (Removed(s, request), plan.(applied := true), Ok(()))
  }

  // ---------------------------------------------------------------- schedules

  datatype ScheduleLease = ScheduleLease(
    key: RuleKey, owner: string, epoch: int, cursor: string, every: int, claimedAt: Instant, expiresAt: Instant)

  predicate LeaseValid(l: ScheduleLease) {
    && l.key.id != "" && l.key.version >= 1 && Trim(l.owner) != "" && l.epoch >= 1 && l.every > 0
    && l.claimedAt != ZERO_TIME && l.expiresAt != ZERO_TIME
  }

  const MAX_CLAIM := 100

  predicate ClaimAccepted(owner: string, now: Instant, leaseFor: int, limit: int) {
    owner != "" && now != ZERO_TIME && leaseFor > 0 && 0 < limit <= MAX_CLAIM
  }

  predicate Due(s: Store, key: RuleKey, now: Instant)
    requires key in s.records
  {
    var schedule := ScheduleOf(s, key);
    && s.records[key].scope == TableScope && s.records[key].status == Enabled
    && (schedule.nextRunAt == ZERO_TIME || schedule.nextRunAt <= now)
    && (schedule.expiresAt == ZERO_TIME || schedule.expiresAt <= now)
  }

  function DueKeys(s: Store, now: Instant): set<RuleKey> { set k | k in s.records && Due(s, k, now) }

  predicate RuleBefore(a: RuleKey, b: RuleKey) { StringLess(a.id, b.id) }

  ghost predicate OneEnabled(s: Store) {
    forall a, b | a in s.records && b in s.records && a.id == b.id && s.records[a].status == Enabled
        && s.records[b].status == Enabled :: a == b
  }

  /** Due rules are claimed in the order of their ids, which is strict because no Rule has
      two enabled versions. */
  lemma DueKeysAreOrdered(s: Store, now: Instant)
    requires OneEnabled(s)
    ensures StrictOrder(RuleBefore, DueKeys(s, now))
  {
    var due := DueKeys(s, now);
    forall x | x in due ensures !RuleBefore(x, x) { StringLessIrreflexive(x.id); }
    forall x, y | x in due && y in due && x != y ensures RuleBefore(x, y) || RuleBefore(y, x) {
      StringLessTotal(x.id, y.id);
    }
    forall x, y, z | x in due && y in due && z in due && RuleBefore(x, y) && RuleBefore(y, z) ensures RuleBefore(x, z) {
      StringLessTransitive(x.id, y.id, z.id);
    }
  }

  ghost function Claimable(s: Store, now: Instant, limit: nat): seq<RuleKey>
    requires OneEnabled(s)
  {
    DueKeysAreOrdered(s, now);
    var due := Sorted(RuleBefore, DueKeys(s, now));
    if |due| > limit then due[..limit] else due
  }

  function ClaimedSchedule(schedule: Schedule, owner: string, now: Instant, leaseFor: int): Schedule {
    schedule.(owner := owner, epoch := schedule.epoch + 1, expiresAt := now + leaseFor)
  }

  /** Lease the keys one after the other. */
  function ClaimAll(s: Store, keys: seq<RuleKey>, owner: string, now: Instant, leaseFor: int)
      : (Store, seq<ScheduleLease>)
    requires forall i | 0 <= i < |keys| :: keys[i] in s.records
    ensures ClaimAll(s, keys, owner, now, leaseFor).0.records == s.records
  {
    if keys == [] then (s, [])
    else
      var (before, leases) := ClaimAll(s, Front(keys), owner, now, leaseFor);
      var key := Last(keys);
      var schedule := ClaimedSchedule(ScheduleOf(before, key), owner, now, leaseFor);
      (before.(schedules := before.schedules[key := schedule]),
       leases + [ScheduleLease(key, owner, schedule.epoch, schedule.cursor, s.records[key].every, now,
                               schedule.expiresAt)])
  }

  ghost function ClaimDue(s: Store, owner: string, now: Instant, leaseFor: int, limit: int)
      : (Store, Result<seq<ScheduleLease>, RuleError>)
    requires OneEnabled(s)
  {
    if !ClaimAccepted(owner, now, leaseFor, limit) then (s, Err(InvalidRule))
    else
      ClaimableAreRecords(s, now, limit);
      var (s', leases) := ClaimAll(s, Claimable(s, now, limit), owner, now, leaseFor);
      (s', Ok(leases))
  }

  lemma ClaimableAreRecords(s: Store, now: Instant, limit: nat)
    requires OneEnabled(s)
    ensures forall i | 0 <= i < |Claimable(s, now, limit)| :: Claimable(s, now, limit)[i] in s.records
  {
    DueKeysAreOrdered(s, now);
    SortedLists(RuleBefore, DueKeys(s, now));
    var due := Sorted(RuleBefore, DueKeys(s, now));
    forall i | 0 <= i < |Claimable(s, now, limit)| ensures Claimable(s, now, limit)[i] in s.records {
      assert due[i] in Elements(due);
    }
  }

  /** How a schedule run ends: on to the next page, done, or failed for now. */
  datatype RunEnd = Advance(cursor: string) | Complete | FailRun(retryAfter: int)

  predicate EndAccepted(how: RunEnd) {
    match how
    case Advance(cursor) => Trim(cursor) != ""
    case Complete => true
    case FailRun(retryAfter) => retryAfter > 0
  }

  function Ended(schedule: Schedule, lease: ScheduleLease, how: RunEnd): Schedule {
    var free := schedule.(owner := "", expiresAt := ZERO_TIME);
    match how
    case Advance(cursor) => free.(cursor := cursor, nextRunAt := lease.claimedAt)
    case Complete => free.(cursor := "", nextRunAt := lease.claimedAt + lease.every)
    case FailRun(retryAfter) => free.(nextRunAt := lease.claimedAt + retryAfter)
  }

  predicate LeaseCurrent(s: Store, lease: ScheduleLease) {
    lease.key in s.schedules && s.schedules[lease.key].owner == lease.owner
      && s.schedules[lease.key].epoch == lease.epoch
  }

  function EndRun(s: Store, lease: ScheduleLease, how: RunEnd): (Store, Result<(), RuleError>) {
    if !EndAccepted(how) || !LeaseValid(lease) then (s, Err(InvalidRule))
    else if !LeaseCurrent(s, lease) then (s, Err(LeaseLost))
    else (s.(schedules := s.schedules[lease.key := Ended(s.schedules[lease.key], lease, how)]), Ok(()))
  }
}
