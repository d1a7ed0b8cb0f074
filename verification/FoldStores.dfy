/**
 The in-memory outcome and finding stores, and the service method that folds a page
 through them. Every method is proved against the functions of `Outcomes`, `Findings`
 and `PageFold`.
 */
module FoldStores {
  import opened Basics
  import opened Outcomes
  import opened Findings
  import opened PageFold
  import FoldTheorems

  datatype StoreError = InvalidKey

  class OutcomeStore {
    var records: OutcomeMap

    /** Every outcome is stored under its own key. */
    ghost predicate Valid()
      reads this
    {
      WellKeyed(records)
    }

    constructor ()
      ensures Valid() && records == map[]
    {
      records := map[];
    }

    method SaveSubjectOutcome(record: Outcome) returns (result: Result<bool, StoreError>)
      modifies this
      ensures !OutcomeKeyValid(record.key) ==> result == Err(InvalidKey) && records == old(records)
      ensures OutcomeKeyValid(record.key) ==>
              records == Save(old(records), record) && result == Ok(!Outdated(old(records), record))
    {
      if !OutcomeKeyValid(record.key) { return Err(InvalidKey); }
      if record.key in records && records[record.key].lastObservedAt > record.lastObservedAt { return Ok(false); }
      records := records[record.key := record];
      return Ok(true);
    }

    /** The stored outcomes of a page, by subject. */
    method GetSubjectOutcomes(rule: Rule, page: seq<Observation>) returns (found: Option<map<string, Outcome>>)
      ensures found.Some? <==> forall i | 0 <= i < |page| :: OutcomeKeyValid(OutcomeKeyOf(rule, page[i]))
      ensures found.Some? ==> forall i | 0 <= i < |page| ::
                if OutcomeKeyOf(rule, page[i]) in records
                then page[i].subject in found.value
                  && found.value[page[i].subject] == records[OutcomeKeyOf(rule, page[i])]
                else page[i].subject !in found.value
    {
      var outcomes: map<string, Outcome> := map[];
      var i := 0;
      while i < |page|
        invariant 0 <= i <= |page|
        invariant forall j | 0 <= j < i :: OutcomeKeyValid(OutcomeKeyOf(rule, page[j]))
        invariant forall subject | subject in outcomes ::
                    OutcomeKey(rule.id, rule.version, rule.subjectType, subject) in records
        invariant forall j | 0 <= j < i && OutcomeKeyOf(rule, page[j]) in records ::
                    page[j].subject in outcomes && outcomes[page[j].subject] == records[OutcomeKeyOf(rule, page[j])]
      {
        var key := OutcomeKeyOf(rule, page[i]);
        if !OutcomeKeyValid(key) { return None; }
        if key in records { outcomes := outcomes[page[i].subject := records[key]]; }
        i := i + 1;
      }
      return Some(outcomes);
    }

    /** Saves in order. A record with an invalid key ends the batch; what came before it
        stays saved. */
    method SaveSubjectOutcomes(batch: seq<Outcome>) returns (result: Result<set<string>, StoreError>)
      modifies this
      ensures result.Ok? <==> forall i | 0 <= i < |batch| :: OutcomeKeyValid(batch[i].key)
      ensures result.Ok? ==> (records, result.value) == SaveAll(old(records), batch)
      ensures result.Err? ==>
                && result.error == InvalidKey
                && exists n | 0 <= n < |batch| ::
                     && !OutcomeKeyValid(batch[n].key) && (forall i | 0 <= i < n :: OutcomeKeyValid(batch[i].key))
                     && records == SaveAll(old(records), batch[..n]).0
    {
      var applied: set<string> := {};
      var i := 0;
      while i < |batch|
        invariant 0 <= i <= |batch|
        invariant forall j | 0 <= j < i :: OutcomeKeyValid(batch[j].key)
        invariant (records, applied) == SaveAll(old(records), batch[..i])
      {
        var record := batch[i];
        if !OutcomeKeyValid(record.key) { return Err(InvalidKey); }
        assert Front(batch[..i + 1]) == batch[..i];
        if !(record.key in records && records[record.key].lastObservedAt > record.lastObservedAt) {
          records := records[record.key := record];
          applied := applied + {record.key.subject};
        }
        i := i + 1;
      }
      assert batch[..i] == batch;
      return Ok(applied);
    }

    method CountRuleOutcomes(id: string, version: int) returns (count: nat)
      ensures count == |OutcomesOfRule(records, id, version)|
    {
      count := 0;
      var todo := records.Keys;
      ghost var seen: set<OutcomeKey> := {};
      while todo != {}
        invariant todo <= records.Keys && count == |seen|
        invariant seen == set k | k in OutcomesOfRule(records, id, version) && k !in todo
        decreases todo
      {
        var k :| k in todo;
        if k.ruleId == id && (version == 0 || k.version == version) { count, seen := count + 1, seen + {k}; }
        todo := todo - {k};
      }
      assert seen == OutcomesOfRule(records, id, version);
    }

    method DeleteRuleOutcomes(id: string, version: int)
      modifies this
      ensures records == old(records) - OutcomesOfRule(old(records), id, version)
    {
      var todo := records.Keys;
      while todo != {}
        invariant todo <= old(records).Keys
        invariant records == old(records) - (OutcomesOfRule(old(records), id, version) - todo)
        decreases todo
      {
        var k :| k in todo;
        if k.ruleId == id && (version == 0 || k.version == version) { records := records - {k}; }
        todo := todo - {k};
      }
    }
  }

  function OutcomesOfRule(outcomes: OutcomeMap, id: string, version: int): set<OutcomeKey> {
    set k | k in outcomes && k.ruleId == id && (version == 0 || k.version == version)
  }

  function FindingsOfRule(book: Book, id: string, version: int): set<FindingKey> {
    set k | k in book.records && k.ruleId == id && (version == 0 || k.version == version)
  }

  class FindingStore {
    var records: map<FindingKey, Finding>
    var events: map<FindingKey, seq<Event>>
    var nextSeq: int

    function Contents(): Book
      reads this
    {
      Book(records, events, nextSeq)
    }

    constructor ()
      ensures Contents() == Book(map[], map[], 0)
    {
      records, events, nextSeq := map[], map[], 0;
    }

    method Append(key: FindingKey, updated: Finding, event: Event)
      modifies this
      ensures Contents() == Note(old(Contents()), key, updated, event)
    {
      records := records[key := updated];
      nextSeq := nextSeq + 1;
      var history := if key in events then events[key] else [];
      events := events[key := history + [event]];
    }

    method ObserveFinding(key: FindingKey, evidence: string, at: Instant)
        returns (result: Result<Finding, FindingError>)
      modifies this
      ensures (Contents(), result) == Findings.ObserveFinding(old(Contents()), key, evidence, at)
      ensures result.Ok? && key in old(records) ==>
              var was := old(records)[key];
              result.value.status ==
              if was.status == Resolved then Regressed
              else if was.status in {FalsePositive, Ignored} && was.suppressedUntil <= at then Open
              else was.status
    {
      if !FindingKeyValid(key) { return Err(InvalidFindingKey); }
      if at == ZERO_TIME { return Err(FindingTimeRequired); }
      if |evidence| > MAX_FINDING_EVIDENCE { return Err(EvidenceTooLarge); }
      var existing := if key in records then Some(records[key]) else None;
      var updated := Sighted(existing, key, evidence, at);
      Append(key, updated,
             Event(nextSeq + 1, key, Observed, StatusOf(existing), updated.status, "", "", evidence, ZERO_TIME, at));
      return Ok(updated);
    }

    method ObserveFindingPass(key: FindingKey, at: Instant) returns (result: Result<Option<Finding>, FindingError>)
      modifies this
      ensures (Contents(), result) == ObservePass(old(Contents()), key, at)
    {
      if !FindingKeyValid(key) { return Err(InvalidFindingKey); }
      if at == ZERO_TIME { return Err(FindingTimeRequired); }
      if key !in records || records[key].status == Resolved { return Ok(None); }
      var existing := records[key];
      var updated := existing.(
        status := Resolved, actor := "rhinoq:rule", reason := "the rule passed", resolvedAt := at,
        suppressedUntil := ZERO_TIME, updatedAt := at);
      Append(key, updated,
             Event(nextSeq + 1, key, Passed, Some(existing.status), Resolved, updated.actor, updated.reason, "",
                   ZERO_TIME, at));
      return Ok(Some(updated));
    }

    method TransitionFinding(key: FindingKey, d: Decision) returns (result: Result<Finding, FindingError>)
      modifies this
      ensures (Contents(), result) == Findings.TransitionFinding(old(Contents()), key, d)
    {
      if !FindingKeyValid(key) { return Err(InvalidFindingKey); }
      if key !in records { return Err(FindingMissing); }
      var existing := records[key];
      var updated := Decided(existing, d);
      if updated.Err? { return updated; }
      Append(key, updated.value,
             Event(nextSeq + 1, key, Transitioned, Some(existing.status), updated.value.status, d.actor, d.reason, "",
                   d.until, d.at));
      return updated;
    }

    method CountRuleFindings(id: string, version: int) returns (count: nat, past: nat)
      ensures count == |FindingsOfRule(Contents(), id, version)|
      ensures past == |EventsOf(FindingsOfRule(Contents(), id, version), Contents())|
    {
      count, past := 0, 0;
      var todo := records.Keys;
      ghost var seen: set<FindingKey> := {};
      assert EventsOf({}, Contents()) == {};
      while todo != {}
        invariant todo <= records.Keys && count == |seen| && past == |EventsOf(seen, Contents())|
        invariant seen == set k | k in FindingsOfRule(Contents(), id, version) && k !in todo
        decreases todo
      {
        var k :| k in todo;
        if k.ruleId == id && (version == 0 || k.version == version) {
          EventsOfMore(seen, k, Contents());
          count, past, seen := count + 1, past + |History(Contents(), k)|, seen + {k};
        }
        todo := todo - {k};
      }
      assert seen == FindingsOfRule(Contents(), id, version);
    }

    method DeleteRuleFindings(id: string, version: int)
      modifies this
      ensures var gone := FindingsOfRule(old(Contents()), id, version);
              Contents() == Book(old(records) - gone, old(events) - gone, old(nextSeq))
    {
      var todo := records.Keys;
      ghost var gone := FindingsOfRule(Contents(), id, version);
      while todo != {}
        invariant todo <= old(records).Keys && nextSeq == old(nextSeq)
        invariant records == old(records) - (gone - todo) && events == old(events) - (gone - todo)
        decreases todo
      {
        var k :| k in todo;
        if k.ruleId == id && (version == 0 || k.version == version) { records, events := records - {k}, events - {k}; }
        todo := todo - {k};
      }
    }
  }

  lemma {:induction false} EventsOfOne(k: FindingKey, book: Book, n: nat)
    requires n <= |History(book, k)|
    ensures |set i | 0 <= i < n :: (k, i)| == n
  {
    if n > 0 {
      EventsOfOne(k, book, n - 1);
      assert (set i | 0 <= i < n :: (k, i)) == (set i | 0 <= i < n - 1 :: (k, i)) + {(k, n - 1)};
    }
  }

  lemma EventsOfMore(keys: set<FindingKey>, k: FindingKey, book: Book)
    requires k !in keys
    ensures |EventsOf(keys + {k}, book)| == |EventsOf(keys, book)| + |History(book, k)|
  {
    var own := set i | 0 <= i < |History(book, k)| :: (k, i);
    EventsOfOne(k, book, |History(book, k)|);
    assert EventsOf(keys + {k}, book) == EventsOf(keys, book) + own;
    assert EventsOf(keys, book) * own == {};
  }

  /** Some observation of the page has no valid outcome key. */
  predicate KeyRefused(rule: Rule, page: seq<Observation>) {
    exists i :: 0 <= i < |page| && !OutcomeKeyValid(OutcomeKeyOf(rule, page[i]))
  }

  /** Decide every outcome of the page from what was read before it. The read refuses an
      invalid key before anything is decided. */
  method DecidePage(outcomes: OutcomeStore, rule: Rule, page: seq<Observation>, at: Instant)
    returns (result: Result<seq<Outcome>, OutcomeError>)
    ensures result == if KeyRefused(rule, page) then Err(InvalidOutcomeKey)
            else Materialize(outcomes.records, rule, page, at)
  {
    var existing := outcomes.GetSubjectOutcomes(rule, page);
    if existing.None? { return Err(InvalidOutcomeKey); }
    var decided: seq<Outcome> := [];
    var i := 0;
    while i < |page|
      invariant 0 <= i <= |page|
      invariant Materialize(outcomes.records, rule, page[..i], at) == Ok(decided)
    {
      var o := page[i];
      var key := OutcomeKeyOf(rule, o);
      var next := Apply(if o.subject in existing.value then Some(existing.value[o.subject]) else None, key, o, at);
      assert Front(page[..i + 1]) == page[..i];
      if next.Err? { RefusalStays(outcomes.records, rule, page, at, i + 1); return Err(next.error); }
      decided := decided + [next.value];
      i := i + 1;
    }
    assert page[..i] == page;
    return Ok(decided);
  }

  lemma {:induction false} RefusalStays(outcomes: OutcomeMap, rule: Rule, page: seq<Observation>, at: Instant, i: nat)
    requires i <= |page| && Materialize(outcomes, rule, page[..i], at).Err?
    ensures Materialize(outcomes, rule, page, at) == Materialize(outcomes, rule, page[..i], at)
    decreases |page|
  {
    if i == |page| { assert page[..i] == page; }
    else {
      assert Front(page)[..i] == page[..i];
      RefusalStays(outcomes, rule, Front(page), at, i);
    }
  }

  lemma InvalidKeyIsRefused(outcomes: OutcomeMap, rule: Rule, page: seq<Observation>, at: Instant)
    requires KeyRefused(rule, page)
    ensures Materialize(outcomes, rule, page, at).Err?
  {
    var i :| 0 <= i < |page| && !OutcomeKeyValid(OutcomeKeyOf(rule, page[i]));
    assert Last(page[..i + 1]) == page[i];
    RefusalStays(outcomes, rule, page, at, i + 1);
  }

  lemma {:induction false} DecidedKeysAreValid(outcomes: OutcomeMap, rule: Rule, page: seq<Observation>, at: Instant)
    requires WellKeyed(outcomes) && Materialize(outcomes, rule, page, at).Ok?
    ensures var records := Materialize(outcomes, rule, page, at).value;
            forall i | 0 <= i < |records| :: OutcomeKeyValid(records[i].key)
  {
    if page != [] {
      DecidedKeysAreValid(outcomes, rule, Front(page), at);
      hide OutcomeKeyValid;
      var key := OutcomeKeyOf(rule, Last(page));
      assert Apply(Lookup(outcomes, key), key, Last(page), at).value.key == key;
    }
  }

  /** One applied observation, through the finding store. */
  method ReportOne(findings: FindingStore, rule: Rule, o: Observation, outcome: Outcome, at: Instant)
      returns (result: Result<Option<Finding>, FindingError>)
    modifies findings
    ensures (findings.Contents(), result) == Report(old(findings.Contents()), rule, o, outcome, at)
  {
    var key := FindingKeyOf(rule, o);
    match o.status {
      case Violated =>
        var item := findings.ObserveFinding(key, o.evidence, at);
        if item.Err? { return Err(item.error); }
        return Ok(Some(item.value));
      case Unknown =>
        if !rule.opensOnUnknown || !EscalationDue(outcome, rule.grace, at) { return Ok(None); }
        var item := findings.ObserveFinding(key, rule.explain(o), at);
        if item.Err? { return Err(item.error); }
        return Ok(Some(item.value));
      case Passed =>
        result := findings.ObserveFindingPass(key, at);
    }
  }

  lemma {:induction false} ReportStops(book: Book, rule: Rule, page: seq<Observation>, records: seq<Outcome>,
                                       applied: set<string>, at: Instant, i: nat)
    requires |records| == |page| && i <= |page| && ReportAll(book, rule, page[..i], records[..i], applied, at).1.Err?
    ensures ReportAll(book, rule, page, records, applied, at)
            == ReportAll(book, rule, page[..i], records[..i], applied, at)
    decreases |page|
  {
    if i == |page| { assert page[..i] == page && records[..i] == records; }
    else {
      assert Front(page)[..i] == page[..i] && Front(records)[..i] == records[..i];
      ReportStops(book, rule, Front(page), Front(records), applied, at, i);
    }
  }

  /** The write phase: stale observations and passes without a live finding are skipped. */
  method ReportPage(findings: FindingStore, rule: Rule, page: seq<Observation>, records: seq<Outcome>,
                    applied: set<string>, at: Instant)
    returns (result: Result<seq<Finding>, FindingError>)
    requires |records| == |page|
    modifies findings
    ensures (findings.Contents(), result) == ReportAll(old(findings.Contents()), rule, page, records, applied, at)
  {
    var before := findings.Contents();
    var changed: seq<Finding> := [];
    var i := 0;
    while i < |page|
      invariant 0 <= i <= |page| && before == old(findings.Contents())
      invariant (findings.Contents(), Ok(changed)) == ReportAll(before, rule, page[..i], records[..i], applied, at)
    {
      var o := page[i];
      assert Front(page[..i + 1]) == page[..i] && Front(records[..i + 1]) == records[..i];
      if o.subject in applied && !Skips(before, rule, o) {
        var item := ReportOne(findings, rule, o, records[i], at);
        if item.Err? { ReportStops(before, rule, page, records, applied, at, i + 1); return Err(item.error); }
        if item.value.Some? { changed := changed + [item.value.value]; } else { assert changed + [] == changed; }
      }
      i := i + 1;
    }
    assert page[..i] == page && records[..i] == records;
    return Ok(changed);
  }

  /** `evaluateRecord` after the evaluator has returned a page. */
  method EvaluateRecord(outcomes: OutcomeStore, findings: FindingStore, rule: Rule, page: seq<Observation>, at: Instant)
    returns (result: Result<seq<Finding>, FoldError>)
    requires outcomes.Valid()
    modifies outcomes, findings
    ensures outcomes.Valid()
    ensures var (s', folded) := FoldPage(State(old(outcomes.records), old(findings.Contents())), rule, page, at);
            && State(outcomes.records, findings.Contents()) == s'
            && (result.Ok? <==> folded.Ok?)
            && result == if KeyRefused(rule, page) then Err(OutcomeRefused(InvalidOutcomeKey)) else folded
  {
    if page == [] { return Ok([]); }
    var records := DecidePage(outcomes, rule, page, at);
    if KeyRefused(rule, page) { InvalidKeyIsRefused(outcomes.records, rule, page, at); }
    if records.Err? { return Err(OutcomeRefused(records.error)); }
    DecidedKeysAreValid(outcomes.records, rule, page, at);
    FoldTheorems.SaveAllStaysKeyed(outcomes.records, records.value);
    var saved := outcomes.SaveSubjectOutcomes(records.value);
    var applied := saved.value;
    if exists i :: 0 <= i < |page| && !FindingKeyValid(FindingKeyOf(rule, page[i])) {
      return Err(FindingRefused(InvalidFindingKey));
    }
    var changed := ReportPage(findings, rule, page, records.value, applied, at);
    if changed.Err? { return Err(FindingRefused(changed.error)); }
    return Ok(changed.value);
  }
}
