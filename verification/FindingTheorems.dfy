/** A finding is what its history says, over any sightings, passes and decisions. */
module FindingTheorems {
  import opened Basics
  import Scan
  import opened Outcomes
  import opened Findings

  datatype Call =
    | Sighting(key: FindingKey, evidence: string, at: Instant)
    | Pass(key: FindingKey, at: Instant)
    | Decide(key: FindingKey, decision: Decision)

  function Apply(book: Book, call: Call): Book {
    match call
    case Sighting(key, evidence, at) => ObserveFinding(book, key, evidence, at).0
    case Pass(key, at) => ObservePass(book, key, at).0
    case Decide(key, decision) => TransitionFinding(book, key, decision).0
  }

  const EMPTY_BOOK := Book(map[], map[], 0)

  function Run(calls: seq<Call>): Book {
    if calls == [] then EMPTY_BOOK else Apply(Run(Front(calls)), Last(calls))
  }

  // ------------------------------------------------------------------ histories

  /** Where an operator may take a finding. */
  const DECISIONS: set<(FindingStatus, FindingStatus)> := {
    (Open, Acknowledged), (Open, RepairProposed), (Open, Resolved), (Open, FalsePositive), (Open, Ignored),
    (Acknowledged, RepairProposed), (Acknowledged, Repairing), (Acknowledged, Resolved), (Acknowledged, FalsePositive),
    (Acknowledged, Ignored),
    (RepairProposed, Repairing), (RepairProposed, Acknowledged), (RepairProposed, Resolved),
    (RepairProposed, FalsePositive), (RepairProposed, Ignored),
    (Repairing, Resolved), (Repairing, Acknowledged), (Repairing, FalsePositive), (Repairing, Ignored),
    (Regressed, Acknowledged), (Regressed, RepairProposed), (Regressed, Resolved), (Regressed, FalsePositive),
    (Regressed, Ignored),
    (FalsePositive, Open), (FalsePositive, Acknowledged), (Ignored, Open), (Ignored, Acknowledged),
    (Resolved, Acknowledged)
  }

  predicate Dismissed(status: FindingStatus) { status == FalsePositive || status == Ignored }

  /** What each kind of event may do to the status. A decision is somebody's; a dismissal
      names its end and its reason, and a resolution its reason. */
  predicate EventLawful(e: Event) {
    match e.kind
    case Observed =>
      && (e.from.None? ==> e.to == Open)
      && (e.from == Some(Resolved) ==> e.to == Regressed)
      && (e.from.Some? && e.from.value != Resolved ==>
          e.to == e.from.value || (Dismissed(e.from.value) && e.to == Open))
    case Passed => e.from.Some? && e.from.value != Resolved && e.to == Resolved
    case Transitioned =>
      && e.from.Some? && (e.from.value, e.to) in DECISIONS && Trim(e.actor) != ""
      && (Dismissed(e.to) ==> e.until != ZERO_TIME && e.until > e.occurredAt)
      && (Dismissed(e.to) || e.to == Resolved ==> Trim(e.reason) != "")
  }

  function Sightings(history: seq<Event>): nat {
    if history == [] then 0 else Sightings(Front(history)) + if Last(history).kind == Observed then 1 else 0
  }

  /** The time of the latest sighting. */
  function LastSighting(history: seq<Event>): Instant {
    if history == [] then ZERO_TIME
    else if Last(history).kind == Observed then Last(history).occurredAt
    else LastSighting(Front(history))
  }

  /** The latest evidence anybody brought. */
  function LatestEvidence(history: seq<Event>): string {
    if history == [] then ""
    else if Last(history).kind == Observed && Last(history).evidence != "" then Last(history).evidence
    else LatestEvidence(Front(history))
  }

  /** When the dismissal in force ends, as its decision said; none is in force otherwise. */
  function EndOfDismissal(history: seq<Event>): Instant {
    if history == [] || !Dismissed(Last(history).to) then ZERO_TIME
    else if Last(history).kind == Transitioned then Last(history).until
    else EndOfDismissal(Front(history))
  }

  /** Who had the last word. Sightings say nothing, except that the drift is back. */
  function LastWord(history: seq<Event>): (string, string) {
    if history == [] then ("", "")
    else
      var e := Last(history);
      if e.kind != Observed then (e.actor, e.reason)
      else if e.from == Some(Resolved) then ("", "the drift returned after it was resolved")
      else if e.from.Some? && e.from.value != e.to
      then (LastWord(Front(history)).0, "the suppression expired and the drift is still present")
      else LastWord(Front(history))
  }

  /** A sighting opens a dismissed finding exactly when the dismissal had ended by then. */
  ghost predicate OpensInTime(end: Instant, e: Event) {
    e.kind == Observed && e.from.Some? && Dismissed(e.from.value) ==> (e.to == Open <==> end <= e.occurredAt)
  }

  /** Each event starts where the one before it ended, and sequence numbers rise. */
  ghost predicate Chained(history: seq<Event>) {
    history != [] ==>
      && Chained(Front(history)) && EventLawful(Last(history))
      && OpensInTime(EndOfDismissal(Front(history)), Last(history))
      && if Front(history) == [] then Last(history).from.None?
         else
           && Last(history).from == Some(Last(Front(history)).to)
           && Last(Front(history)).sequence < Last(history).sequence
  }

  /** The record is the sum of its history. */
  ghost predicate Explained(f: Finding, history: seq<Event>, nextSeq: int) {
    && history != [] && Chained(history) && Last(history).sequence <= nextSeq
    && f.status == Last(history).to && f.occurrences == Sightings(history)
    && f.firstSeen == history[0].occurredAt && f.lastSeen == LastSighting(history)
    && f.updatedAt == Last(history).occurredAt && f.evidence == LatestEvidence(history)
    && (f.actor, f.reason) == LastWord(history)
    && f.suppressedUntil == EndOfDismissal(history)
    && f.resolvedAt == (if f.status == Resolved then Last(history).occurredAt else ZERO_TIME)
    && DatesFit(f)
  }

  ghost predicate BookExplained(book: Book) {
    && book.events.Keys == book.records.Keys
    && forall k | k in book.records ::
         book.records[k].key == k && Explained(book.records[k], book.events[k], book.nextSeq)
  }

  lemma ChainedSnoc(history: seq<Event>, e: Event)
    requires Chained(history) && EventLawful(e) && OpensInTime(EndOfDismissal(history), e)
    requires if history == [] then e.from.None?
             else e.from == Some(Last(history).to) && Last(history).sequence < e.sequence
    ensures Chained(history + [e])
  {
    assert Front(history + [e]) == history;
  }

  lemma CountsSnoc(history: seq<Event>, e: Event)
    ensures Sightings(history + [e]) == Sightings(history) + if e.kind == Observed then 1 else 0
    ensures LastSighting(history + [e]) == if e.kind == Observed then e.occurredAt else LastSighting(history)
    ensures LatestEvidence(history + [e])
            == if e.kind == Observed && e.evidence != "" then e.evidence else LatestEvidence(history)
  {
    assert Front(history + [e]) == history;
  }

  lemma WordsSnoc(history: seq<Event>, e: Event)
    ensures EndOfDismissal(history + [e])
            == if !Dismissed(e.to) then ZERO_TIME else if e.kind == Transitioned then e.until
               else EndOfDismissal(history)
    ensures LastWord(history + [e]) == WordAfter(LastWord(history), e)
  {
    assert Front(history + [e]) == history;
  }

  function WordAfter(word: (string, string), e: Event): (string, string) {
    if e.kind != Observed then (e.actor, e.reason)
    else if e.from == Some(Resolved) then ("", "the drift returned after it was resolved")
    else if e.from.Some? && e.from.value != e.to
    then (word.0, "the suppression expired and the drift is still present")
    else word
  }

  ghost predicate DatesFit(f: Finding) {
    && (Dismissed(f.status) <==> f.suppressedUntil != ZERO_TIME)
    && (f.status == Resolved <==> f.resolvedAt != ZERO_TIME)
  }

  /** The event accounts for the difference between the two records. */
  ghost predicate UpdatedBy(f: Finding, updated: Finding, e: Event) {
    && EventLawful(e) && e.from == Some(f.status) && updated.status == e.to && OpensInTime(f.suppressedUntil, e)
    && updated.occurrences == f.occurrences + (if e.kind == Observed then 1 else 0)
    && updated.firstSeen == f.firstSeen && updated.lastSeen == (if e.kind == Observed then e.occurredAt else f.lastSeen)
    && updated.updatedAt == e.occurredAt && updated.key == f.key
    && updated.evidence == (if e.kind == Observed && e.evidence != "" then e.evidence else f.evidence)
    && (updated.actor, updated.reason) == WordAfter((f.actor, f.reason), e)
    && updated.suppressedUntil
       == (if !Dismissed(e.to) then ZERO_TIME else if e.kind == Transitioned then e.until else f.suppressedUntil)
    && updated.resolvedAt == (if e.to == Resolved then e.occurredAt else ZERO_TIME)
    && DatesFit(updated)
  }

  lemma ExplainedFurther(f: Finding, history: seq<Event>, nextSeq: int, updated: Finding, e: Event)
    requires Explained(f, history, nextSeq) && UpdatedBy(f, updated, e) && e.sequence == nextSeq + 1
    ensures Explained(updated, history + [e], nextSeq + 1)
  {
    ChainedSnoc(history, e);
    CountsSnoc(history, e);
    WordsSnoc(history, e);
    hide Chained, EventLawful, Sightings, LastSighting, LatestEvidence, EndOfDismissal, LastWord, OpensInTime;
  }

  lemma ExplainedAtFirst(f: Finding, e: Event, nextSeq: int)
    requires EventLawful(e) && e.kind == Observed && e.from.None? && e.sequence <= nextSeq
    requires f.status == e.to && f.occurrences == 1 && f.firstSeen == f.lastSeen == e.occurredAt && DatesFit(f)
    requires f.updatedAt == e.occurredAt && f.evidence == e.evidence && f.actor == f.reason == ""
    ensures Explained(f, [e], nextSeq)
  {
    var none: seq<Event> := [];
    assert none + [e] == [e];
    ChainedSnoc(none, e);
    CountsSnoc(none, e);
    WordsSnoc(none, e);
  }

  lemma NotedIsExplained(book: Book, key: FindingKey, updated: Finding, e: Event)
    requires BookExplained(book) && Explained(updated, History(book, key) + [e], book.nextSeq + 1) && updated.key == key
    ensures BookExplained(Note(book, key, updated, e))
  {
    hide Chained, Sightings, LastSighting, LatestEvidence, EndOfDismissal, LastWord, DatesFit;
    var book' := Note(book, key, updated, e);
    forall k | k in book'.records
      ensures book'.records[k].key == k && Explained(book'.records[k], book'.events[k], book'.nextSeq)
    {
      if k != key { assert Explained(book.records[k], book.events[k], book.nextSeq); }
    }
  }

  lemma HistoryOf(book: Book, key: FindingKey)
    requires BookExplained(book)
    ensures if key in book.records
            then && Explained(book.records[key], History(book, key), book.nextSeq) && DatesFit(book.records[key])
                 && book.records[key].key == key
            else History(book, key) == []
  {
    hide Chained, DatesFit;
  }

  /** Seeing a finding again, told by its event. */
  lemma SightingUpdates(f: Finding, key: FindingKey, evidence: string, at: Instant, e: Event)
    requires at != ZERO_TIME && e.kind == Observed && e.from == Some(f.status) && e.occurredAt == at && DatesFit(f)
    requires e.to == Sighted(Some(f), key, evidence, at).status && e.evidence == evidence
    ensures UpdatedBy(f, Sighted(Some(f), key, evidence, at), e)
    ensures Sighted(Some(f), key, evidence, at).key == f.key
  {
    hide DECISIONS, Trim;
  }

  lemma FirstSighting(key: FindingKey, evidence: string, at: Instant)
    requires at != ZERO_TIME
    ensures var f := Sighted(None, key, evidence, at);
            && f.status == Open && f.occurrences == 1 && f.firstSeen == f.lastSeen == f.updatedAt == at && DatesFit(f)
            && f.evidence == evidence && f.actor == f.reason == "" && f.key == key
  {
  }

  lemma PassUpdates(f: Finding, at: Instant, e: Event)
    requires f.status != Resolved && at != ZERO_TIME && e.kind == Passed && e.from == Some(f.status) && e.to == Resolved
    requires e.occurredAt == at && e.actor == "rhinoq:rule" && e.reason == "the rule passed"
    ensures UpdatedBy(f, Cleared(f, at), e)
  {
  }

  lemma SightingExplains(book: Book, key: FindingKey, evidence: string, at: Instant)
    requires BookExplained(book) && ObserveFinding(book, key, evidence, at).1.Ok?
    ensures BookExplained(ObserveFinding(book, key, evidence, at).0)
  {
    hide BookExplained, Explained, UpdatedBy, Sighted, DatesFit, DECISIONS;
    var existing := LookupFinding(book, key);
    var updated := Sighted(existing, key, evidence, at);
    var e := Event(book.nextSeq + 1, key, Observed, StatusOf(existing), updated.status, "", "", evidence, ZERO_TIME,
                   at);
    HistoryOf(book, key);
    FirstSighting(key, evidence, at);
    if existing.Some? {
      SightingUpdates(existing.value, key, evidence, at, e);
      ExplainedFurther(existing.value, History(book, key), book.nextSeq, updated, e);
    } else {
      ExplainedAtFirst(updated, e, book.nextSeq + 1);
      assert History(book, key) + [e] == [e];
    }
    NotedIsExplained(book, key, updated, e);
  }

  lemma PassExplains(book: Book, key: FindingKey, at: Instant)
    requires BookExplained(book)
    ensures BookExplained(ObservePass(book, key, at).0)
  {
    hide BookExplained, Explained, UpdatedBy, FindingKeyValid, Cleared;
    var existing := LookupFinding(book, key);
    if FindingKeyValid(key) && at != ZERO_TIME && Live(existing) {
      ClearedParts(existing.value, at);
      var updated := Cleared(existing.value, at);
      var e := Event(book.nextSeq + 1, key, Passed, Some(existing.value.status), Resolved, updated.actor,
                     updated.reason, "", ZERO_TIME, at);
      PassUpdates(existing.value, at, e);
      HistoryOf(book, key);
      ExplainedFurther(existing.value, History(book, key), book.nextSeq, updated, e);
      NotedIsExplained(book, key, updated, e);
    }
  }

  lemma ClearedParts(f: Finding, at: Instant)
    ensures Cleared(f, at).status == Resolved
    ensures Cleared(f, at).key == f.key && Cleared(f, at).actor == "rhinoq:rule"
    ensures Cleared(f, at).reason == "the rule passed"
  {
  }

  lemma DecisionUpdates(f: Finding, d: Decision, e: Event)
    requires Decided(f, d).Ok? && e.kind == Transitioned && e.from == Some(f.status) && e.to == d.status
    requires e.actor == d.actor && e.reason == d.reason && e.until == d.until && e.occurredAt == d.at
    ensures UpdatedBy(f, Decided(f, d).value, e) && Decided(f, d).value.key == f.key
  {
    hide Trim;
  }

  lemma DecisionExplains(book: Book, key: FindingKey, d: Decision)
    requires BookExplained(book)
    ensures BookExplained(TransitionFinding(book, key, d).0)
  {
    hide BookExplained, Explained, UpdatedBy;
    if TransitionFinding(book, key, d).1.Ok? {
      var existing := book.records[key];
      var updated := Decided(existing, d).value;
      var e := Event(book.nextSeq + 1, key, Transitioned, Some(existing.status), updated.status, d.actor, d.reason, "",
                     d.until, d.at);
      DecisionUpdates(existing, d, e);
      HistoryOf(book, key);
      hide Decided;
      ExplainedFurther(existing, History(book, key), book.nextSeq, updated, e);
      NotedIsExplained(book, key, updated, e);
    }
  }

  /** After any calls every finding is explained by its history: its status is where the
      last event led, it has been seen as often as the history says, first and last at the
      times and with the evidence the history says; the last word on it is the last one
      recorded; a dismissal lasts until the end its decision named, and the first sighting
      from then on, and no other, opens the finding again; a finding regresses only when it
      is seen again after it was resolved. */
  lemma {:induction false} HistoryExplainsTheFinding(calls: seq<Call>)
    ensures BookExplained(Run(calls))
  {
    if calls != [] {
      HistoryExplainsTheFinding(Front(calls));
      var before := Run(Front(calls));
      hide BookExplained;
      match Last(calls)
      case Sighting(key, evidence, at) =>
        if ObserveFinding(before, key, evidence, at).1.Ok? { SightingExplains(before, key, evidence, at); }
      case Pass(key, at) => PassExplains(before, key, at);
      case Decide(key, decision) => DecisionExplains(before, key, decision);
    }
  }

  // ------------------------------------------------------------------ dismissals

  function After(book: Book, calls: seq<Call>): Book {
    if calls == [] then book else Apply(After(book, Front(calls)), Last(calls))
  }

  /** The finding is dismissed until the given instant. */
  ghost predicate DismissedUntil(book: Book, key: FindingKey, status: FindingStatus, until: Instant) {
    && key in book.records && Dismissed(status)
    && book.records[key].status == status && book.records[key].suppressedUntil == until
  }

  /** The call leaves the finding alone, or sees it before `until`. */
  predicate SeenBefore(call: Call, key: FindingKey, until: Instant) {
    call.key != key || (call.Sighting? && call.at < until)
  }

  lemma {:induction false} DismissalLasts(book: Book, calls: seq<Call>, key: FindingKey, status: FindingStatus,
                                          until: Instant)
    requires DismissedUntil(book, key, status, until)
    requires forall i | 0 <= i < |calls| :: SeenBefore(calls[i], key, until)
    ensures DismissedUntil(After(book, calls), key, status, until)
  {
    if calls != [] {
      DismissalLasts(book, Front(calls), key, status, until);
      assert SeenBefore(Last(calls), key, until);
      hide FindingKeyValid, Decided, Cleared;
    }
  }

  /** A dismissal hides the finding exactly as long as it said. Through any sightings before
      its end, and whatever happens to other findings, the finding stays dismissed with the
      same end; the next sighting opens it if and only if it comes at the end or later. */
  lemma DismissalEndsOnTime(book: Book, calls: seq<Call>, key: FindingKey, status: FindingStatus, until: Instant,
                            evidence: string, at: Instant)
    requires DismissedUntil(book, key, status, until)
    requires forall i | 0 <= i < |calls| :: SeenBefore(calls[i], key, until)
    requires ObserveFinding(After(book, calls), key, evidence, at).1.Ok?
    ensures DismissedUntil(After(book, calls), key, status, until)
    ensures var seen := ObserveFinding(After(book, calls), key, evidence, at).1.value;
            && seen.status == (if until <= at then Open else status)
            && seen.suppressedUntil == (if until <= at then ZERO_TIME else until)
            && seen.occurrences == After(book, calls).records[key].occurrences + 1 && seen.lastSeen == at
  {
    DismissalLasts(book, calls, key, status, until);
    hide After, FindingKeyValid;
  }

  // -------------------------------------------------------- which calls are taken

  /** A rule and a subject of proper names. */
  ghost predicate ProperKey(k: FindingKey) {
    && Trim(k.ruleId) != "" && |k.ruleId| <= 128 && Trim(k.subjectType) != "" && |k.subjectType| <= 64
    && Trim(k.subject) != "" && |k.subject| <= 256 && k.version >= 0
  }

  ghost predicate ProperDecision(f: Finding, d: Decision) {
    && (f.status, d.status) in DECISIONS && d.at != ZERO_TIME
    && Trim(d.actor) != "" && |d.actor| <= 256 && |d.reason| <= 4096
    && (Dismissed(d.status) ==> d.until != ZERO_TIME && d.until > d.at)
    && (Dismissed(d.status) || d.status == Resolved ==> Trim(d.reason) != "")
  }

  /** What a call is taken for: a sighting whenever it is proper, a pass only of a finding
      that is not resolved, a decision along the table by somebody who says why. */
  ghost predicate Taken(book: Book, call: Call) {
    && ProperKey(call.key)
    && match call
       case Sighting(_, evidence, at) => at != ZERO_TIME && |evidence| <= 65536
       case Pass(key, at) => at != ZERO_TIME && key in book.records && book.records[key].status != Resolved
       case Decide(key, d) => key in book.records && ProperDecision(book.records[key], d)
  }

  /** The event a call leaves behind. */
  ghost predicate EventOf(call: Call, e: Event) {
    e.key == call.key &&
    match call
    case Sighting(_, evidence, at) => e.kind == Observed && e.evidence == evidence && e.occurredAt == at
    case Pass(_, at) =>
      e.kind == EventKind.Passed && e.occurredAt == at && e.actor == "rhinoq:rule" && e.reason == "the rule passed"
    case Decide(_, d) =>
      && e.kind == Transitioned && e.to == d.status && e.occurredAt == d.at && e.actor == d.actor
      && e.reason == d.reason && (Dismissed(d.status) ==> e.until == d.until)
  }

  /** One more event for one finding, and nothing else. */
  ghost predicate RecordedAs(book: Book, call: Call, after: Book) {
    && after.nextSeq == book.nextSeq + 1 && call.key in after.records
    && after.records - {call.key} == book.records - {call.key}
    && after.events - {call.key} == book.events - {call.key}
    && History(after, call.key) != [] && Front(History(after, call.key)) == History(book, call.key)
    && EventOf(call, Last(History(after, call.key)))
  }

  lemma NotedIsRecorded(book: Book, call: Call, updated: Finding, e: Event)
    requires EventOf(call, e)
    ensures RecordedAs(book, call, Note(book, call.key, updated, e))
  {
    hide EventOf;
    var after := Note(book, call.key, updated, e);
    assert after.records - {call.key} == book.records - {call.key};
    assert after.events - {call.key} == book.events - {call.key};
  }

  /** A call that is taken adds one event to the history of its finding and nothing else; any
      other call changes nothing. */
  lemma CallIsRecorded(book: Book, call: Call)
    ensures if Taken(book, call) then RecordedAs(book, call, Apply(book, call)) else Apply(book, call) == book
  {
    TakenExactly(book, call);
    if Taken(book, call) {
      hide Taken, RecordedAs, Sighted, Cleared, Decided, FindingKeyValid, Note;
      var existing := LookupFinding(book, call.key);
      match call
      case Sighting(key, evidence, at) =>
        var updated := Sighted(existing, key, evidence, at);
        NotedIsRecorded(book, call, updated, Event(book.nextSeq + 1, key, Observed, StatusOf(existing), updated.status,
                                                   "", "", evidence, ZERO_TIME, at));
      case Pass(key, at) =>
        var updated := Cleared(existing.value, at);
        ClearedParts(existing.value, at);
        NotedIsRecorded(book, call, updated,
                        Event(book.nextSeq + 1, key, EventKind.Passed, StatusOf(existing), Resolved,
                                                   updated.actor, updated.reason, "", ZERO_TIME, at));
      case Decide(key, d) =>
        var updated := Decided(existing.value, d).value;
        DecidedParts(existing.value, d);
        NotedIsRecorded(book, call, updated, Event(book.nextSeq + 1, key, Transitioned, StatusOf(existing),
                                                   updated.status, d.actor, d.reason, "", d.until, d.at));
    } else {
      hide Taken, Sighted, Cleared, Decided, Note;
    }
  }

  lemma DecidedParts(f: Finding, d: Decision)
    ensures Decided(f, d).Ok? ==> Decided(f, d).value.status == d.status
  {
  }

  lemma TakenExactly(book: Book, call: Call)
    ensures Taken(book, call) <==>
            match call
            case Sighting(key, evidence, at) => ObserveFinding(book, key, evidence, at).1.Ok?
            case Pass(key, at) => ObservePass(book, key, at).1.Ok? && ObservePass(book, key, at).1.value.Some?
            case Decide(key, d) => TransitionFinding(book, key, d).1.Ok?
  {
    hide Trim, Sighted;
    if call.Decide? && call.key in book.records { DecidedExactly(book.records[call.key], call.decision); }
    hide Decided, ProperDecision;
  }

  lemma DecidedExactly(f: Finding, d: Decision)
    ensures Decided(f, d).Ok? <==> ProperDecision(f, d)
  {
    hide Trim;
  }

  // --------------------------------------------------------------------- streaks

  datatype Sample = Sample(observation: Scan.Observation, at: Instant)

  /** The outcome after folding samples of one subject in turn. */
  function Outcome(key: OutcomeKey, samples: seq<Sample>): Result<Option<Outcomes.Outcome>, OutcomeError> {
    if samples == [] then Ok(None)
    else
      var before := Outcome(key, Front(samples));
      if before.Err? then before
      else
        var next := Outcomes.Apply(before.value, key, Last(samples).observation, Last(samples).at);
        if next.Err? then Err(next.error) else Ok(Some(next.value))
  }

  /** How many of the latest samples in a row could not conclude. */
  function Doubt(samples: seq<Sample>): nat {
    if samples == [] || Last(samples).observation.status != Scan.Unknown then 0 else 1 + Doubt(Front(samples))
  }

  lemma {:induction false} DoubtIsBounded(samples: seq<Sample>)
    ensures Doubt(samples) <= |samples|
    ensures forall i | |samples| - Doubt(samples) <= i < |samples| :: samples[i].observation.status == Scan.Unknown
  {
    if samples != [] && Last(samples).observation.status == Scan.Unknown {
      DoubtIsBounded(Front(samples));
      forall i | |samples| - Doubt(samples) <= i < |samples| ensures samples[i].observation.status == Scan.Unknown {
        if i < |samples| - 1 { assert samples[i] == Front(samples)[i]; }
      }
    }
  }

  /** The outcome of a subject is its latest sample, and its unknown streak is exactly the
      run of inconclusive samples at the end: as long, and begun at its first. */
  lemma {:induction false} StreakIsExact(key: OutcomeKey, samples: seq<Sample>)
    requires samples != [] && Outcome(key, samples).Ok?
    ensures var outcome, doubt := Outcome(key, samples).value, Doubt(samples);
            && outcome.Some? && doubt <= |samples|
            && var o := outcome.value;
               && o.key == key && o.status == Last(samples).observation.status && o.lastObservedAt == Last(samples).at
               && o.unknownCount == doubt && o.reason == Last(samples).observation.reason
               && o.updatedAt == Last(samples).at
               && o.evidence == (if o.status == Scan.Passed then "" else Last(samples).observation.evidence)
               && o.firstUnknownAt == (if doubt == 0 then ZERO_TIME else samples[|samples| - doubt].at)
               && (o.status == Scan.Unknown <==> doubt > 0) && (doubt > 0 ==> o.firstUnknownAt != ZERO_TIME)
  {
    DoubtIsBounded(samples);
    var front := Front(samples);
    if front == [] {
      assert Outcome(key, front) == Ok(None) && Doubt(front) == 0;
    } else {
      StreakIsExact(key, front);
      DoubtIsBounded(front);
      if Doubt(front) > 0 { assert front[|front| - Doubt(front)] == samples[|front| - Doubt(front)]; }
    }
  }

  /** An inconclusive check is escalated exactly when every sample for at least the grace
      period up to now has been inconclusive. */
  lemma EscalationMeansLastingDoubt(key: OutcomeKey, samples: seq<Sample>, grace: int, now: Instant)
    requires samples != [] && Outcome(key, samples).Ok?
    ensures var outcome := Outcome(key, samples).value;
            outcome.Some? &&
            (EscalationDue(outcome.value, grace, now) <==>
               Doubt(samples) > 0 && Doubt(samples) <= |samples|
                 && (grace <= 0 || samples[|samples| - Doubt(samples)].at + grace <= now))
  {
    StreakIsExact(key, samples);
    hide Outcome, Doubt;
  }
}
