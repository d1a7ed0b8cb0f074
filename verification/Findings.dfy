/** The materialized outcome of one Rule version for one subject. */
module Outcomes {
  import opened Basics
  import opened Scan

  datatype OutcomeKey = OutcomeKey(ruleId: string, version: int, subjectType: string, subject: string)

  datatype Outcome = Outcome(
    key: OutcomeKey, status: Status, reason: string, evidence: string, firstUnknownAt: Instant,
    lastObservedAt: Instant, unknownCount: int, updatedAt: Instant)

  type OutcomeMap = map<OutcomeKey, Outcome>

  datatype OutcomeError = InvalidOutcomeKey | InvalidOutcomeObservation | OutcomeTimeRequired

  predicate OutcomeKeyValid(k: OutcomeKey) {
    Trim(k.ruleId) != "" && k.version >= 1 && Trim(k.subjectType) != "" && Trim(k.subject) != ""
  }

  /** `Apply`: the latest observation replaces the state; a streak of unknowns keeps its
      beginning and its length, and a passing subject keeps no evidence. */
  function Apply(existing: Option<Outcome>, key: OutcomeKey, o: Observation, at: Instant): Result<Outcome, OutcomeError>
  {
    if !OutcomeKeyValid(key) then Err(InvalidOutcomeKey)
    else if !ObservationValid(o) then Err(InvalidOutcomeObservation)
    else if at == ZERO_TIME then Err(OutcomeTimeRequired)
    else
      var streak := existing.Some? && existing.value.status == Unknown && existing.value.firstUnknownAt != ZERO_TIME;
      Ok(Outcome(
        if existing.Some? then existing.value.key else key,
        o.status, o.reason, if o.status == Passed then "" else o.evidence,
        if o.status != Unknown then ZERO_TIME else if streak then existing.value.firstUnknownAt else at,
        at,
        if o.status != Unknown then 0 else if streak then existing.value.unknownCount + 1 else 1,
        at))
  }

  function Lookup(outcomes: OutcomeMap, k: OutcomeKey): Option<Outcome> {
    if k in outcomes then Some(outcomes[k]) else None
  }

  predicate EscalationDue(r: Outcome, grace: int, now: Instant) {
    r.status == Unknown && r.firstUnknownAt != ZERO_TIME && (grace <= 0 || now >= r.firstUnknownAt + grace)
  }

  /** An observation older than the stored one is not saved. */
  predicate Outdated(outcomes: OutcomeMap, r: Outcome) {
    r.key in outcomes && outcomes[r.key].lastObservedAt > r.lastObservedAt
  }

  function Save(outcomes: OutcomeMap, r: Outcome): OutcomeMap {
    if Outdated(outcomes, r) then outcomes else outcomes[r.key := r]
  }
}

/** Findings: drift that somebody has to look at, and its history. */
module Findings {
  import opened Basics

  datatype FindingStatus = Open | Acknowledged | RepairProposed | Repairing | Resolved | FalsePositive | Ignored
      | Regressed

  datatype FindingKey = FindingKey(ruleId: string, subjectType: string, subject: string, version: int)

  datatype Finding = Finding(
    key: FindingKey, status: FindingStatus, firstSeen: Instant, lastSeen: Instant, occurrences: int, evidence: string,
    actor: string, reason: string, suppressedUntil: Instant, resolvedAt: Instant, updatedAt: Instant)

  datatype EventKind = Observed | Passed | Transitioned

  datatype Event = Event(
    sequence: int, key: FindingKey, kind: EventKind, from: Option<FindingStatus>, to: FindingStatus,
    actor: string, reason: string, evidence: string, until: Instant, occurredAt: Instant)

  datatype Book = Book(records: map<FindingKey, Finding>, events: map<FindingKey, seq<Event>>, nextSeq: int)

  datatype FindingError =
    | InvalidFindingKey | FindingTimeRequired | EvidenceTooLarge | FindingMissing | NotByHand | ActorRequired
    | ActorTooLarge
    | ReasonTooLarge | ReasonRequired | InvalidFindingTransition | ExpiryRequired | ExpiryInThePast

  const MAX_RULE_ID := 128
  const MAX_SUBJECT_TYPE := 64
  const MAX_SUBJECT_ID := 256
  const MAX_FINDING_EVIDENCE := 65536
  const MAX_ACTOR := 256
  const MAX_FINDING_REASON := 4096

  predicate FindingKeyValid(k: FindingKey) {
    && Trim(k.ruleId) != "" && Trim(k.subjectType) != "" && Trim(k.subject) != "" && k.version >= 0
    && |k.ruleId| <= MAX_RULE_ID && |k.subjectType| <= MAX_SUBJECT_TYPE && |k.subject| <= MAX_SUBJECT_ID
  }

  predicate IsSuppressed(status: FindingStatus) { status == FalsePositive || status == Ignored }

  /** Seeing drift again is a counter bump, unless it had been resolved or its dismissal
      has run out. */
  function Sighted(existing: Option<Finding>, key: FindingKey, evidence: string, at: Instant): Finding {
    if existing.None? then Finding(key, Open, at, at, 1, evidence, "", "", ZERO_TIME, ZERO_TIME, at)
    else
      var e := existing.value;
      var updated := e.(lastSeen := at, occurrences := e.occurrences + 1,
                        evidence := if evidence != "" then evidence else e.evidence, updatedAt := at);
      if e.status == Resolved
      then updated.(status := Regressed, actor := "", reason := "the drift returned after it was resolved",
                    resolvedAt := ZERO_TIME)
      else if IsSuppressed(e.status) && e.suppressedUntil <= at
      then updated.(status := Open, reason := "the suppression expired and the drift is still present",
                    suppressedUntil := ZERO_TIME)
      else updated
  }

  function LookupFinding(book: Book, k: FindingKey): Option<Finding> {
    if k in book.records then Some(book.records[k]) else None
  }

  function History(book: Book, k: FindingKey): seq<Event> { if k in book.events then book.events[k] else [] }

  /** The events of these findings, each named by its finding and its place in the history. */
  function EventsOf(keys: set<FindingKey>, book: Book): set<(FindingKey, int)> {
    set k, i | k in keys && 0 <= i < |History(book, k)| :: (k, i)
  }

  /** Store a finding and append what happened to it. */
  function Note(book: Book, key: FindingKey, updated: Finding, event: Event): Book {
    Book(book.records[key := updated], book.events[key := History(book, key) + [event]], book.nextSeq + 1)
  }

  function StatusOf(existing: Option<Finding>): Option<FindingStatus> {
    if existing.Some? then Some(existing.value.status) else None
  }

  function ObserveFinding(book: Book, key: FindingKey, evidence: string, at: Instant)
      : (Book, Result<Finding, FindingError>)
  {
    if !FindingKeyValid(key) then (book, Err(InvalidFindingKey))
    else if at == ZERO_TIME then (book, Err(FindingTimeRequired))
    else if |evidence| > MAX_FINDING_EVIDENCE then (book, Err(EvidenceTooLarge))
    else
      var existing := LookupFinding(book, key);
      var updated := Sighted(existing, key, evidence, at);
      var seen :=
        Event(book.nextSeq + 1, key, Observed, StatusOf(existing), updated.status, "", "", evidence, ZERO_TIME, at);
      (Note(book, key, updated, seen), Ok(updated))
  }

  /** There is a finding, and it is not resolved. */
  predicate Live(existing: Option<Finding>) { existing.Some? && existing.value.status != Resolved }

  function Cleared(f: Finding, at: Instant): Finding {
    f.(status := Resolved, actor := "rhinoq:rule", reason := "the rule passed", resolvedAt := at,
       suppressedUntil := ZERO_TIME, updatedAt := at)
  }

  /** A pass resolves a live finding and is otherwise nothing. */
  function ObservePass(book: Book, key: FindingKey, at: Instant): (Book, Result<Option<Finding>, FindingError>) {
    if !FindingKeyValid(key) then (book, Err(InvalidFindingKey))
    else if at == ZERO_TIME then (book, Err(FindingTimeRequired))
    else
      var existing := LookupFinding(book, key);
      if !Live(existing) then (book, Ok(None))
      else
        var updated := Cleared(existing.value, at);
        (Note(book, key, updated,
              Event(book.nextSeq + 1, key, Passed, Some(existing.value.status), Resolved, updated.actor, updated.reason,
                    "", ZERO_TIME, at)),
         Ok(Some(updated)))
  }

  // ------------------------------------------------------ operator decisions

  datatype Decision = Decision(status: FindingStatus, actor: string, reason: string, until: Instant, at: Instant)

  predicate CanTransition(from: FindingStatus, to: FindingStatus) {
    match from
    case Open => to in {Acknowledged, RepairProposed, Resolved, FalsePositive, Ignored}
    case Acknowledged => to in {RepairProposed, Repairing, Resolved, FalsePositive, Ignored}
    case RepairProposed => to in {Repairing, Acknowledged, Resolved, FalsePositive, Ignored}
    case Repairing => to in {Resolved, Acknowledged, FalsePositive, Ignored}
    case Regressed => to in {Acknowledged, RepairProposed, Resolved, FalsePositive, Ignored}
    case FalsePositive => to in {Open, Acknowledged}
    case Ignored => to in {Open, Acknowledged}
    case Resolved => to == Acknowledged
  }

  /** `ApplyTransition`: a dismissal needs an end, and nobody declares a regression. */
  function Decided(existing: Finding, d: Decision): Result<Finding, FindingError> {
    if d.status == Regressed then Err(NotByHand)
    else if Trim(d.actor) == "" then Err(ActorRequired)
    else if |d.actor| > MAX_ACTOR then Err(ActorTooLarge)
    else if |d.reason| > MAX_FINDING_REASON then Err(ReasonTooLarge)
    else if d.at == ZERO_TIME then Err(FindingTimeRequired)
    else if !CanTransition(existing.status, d.status) then Err(InvalidFindingTransition)
    else if IsSuppressed(d.status) && d.until == ZERO_TIME then Err(ExpiryRequired)
    else if IsSuppressed(d.status) && d.until <= d.at then Err(ExpiryInThePast)
    else if (IsSuppressed(d.status) || d.status == Resolved) && Trim(d.reason) == "" then Err(ReasonRequired)
    else Ok(existing.(status := d.status, actor := d.actor, reason := d.reason, updatedAt := d.at,
                      suppressedUntil := if IsSuppressed(d.status) then d.until else ZERO_TIME,
                      resolvedAt := if d.status == Resolved then d.at else ZERO_TIME))
  }

  function TransitionFinding(book: Book, key: FindingKey, d: Decision): (Book, Result<Finding, FindingError>) {
    if !FindingKeyValid(key) then (book, Err(InvalidFindingKey))
    else if key !in book.records then (book, Err(FindingMissing))
    else
      var existing := book.records[key];
      var updated := Decided(existing, d);
      if updated.Err? then (book, updated)
      else (Note(book, key, updated.value,
                 Event(book.nextSeq + 1, key, Transitioned, Some(existing.status), updated.value.status, d.actor,
                       d.reason, "", d.until, d.at)), updated)
  }
}
