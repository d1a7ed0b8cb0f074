/**
 Folding a page of observations into outcomes and findings. The service reads the state
 of the whole page, decides in memory, and then writes; the reference takes one
 observation after the other through the stores. Both are written out here, and the
 theorems say when they agree and what they never do.
 */
module PageFold {
  import opened Basics
  import Scan
  import opened Outcomes
  import opened Findings

  type Observation = Scan.Observation

  /** What the fold needs to know of a Rule version. `explain` renders the evidence of an
      inconclusive check. */
  datatype Rule = Rule(id: string, version: int, subjectType: string, opensOnUnknown: bool, grace: int,
                       explain: Observation -> string)

  datatype FoldError = OutcomeRefused(outcome: OutcomeError) | FindingRefused(finding: FindingError)

  datatype State = State(outcomes: OutcomeMap, book: Book)

  function OutcomeKeyOf(rule: Rule, o: Observation): OutcomeKey {
    OutcomeKey(rule.id, rule.version, rule.subjectType, o.subject)
  }

  function FindingKeyOf(rule: Rule, o: Observation): FindingKey {
    FindingKey(rule.id, rule.subjectType, o.subject, rule.version)
  }

  ghost predicate WellKeyed(outcomes: OutcomeMap) { forall k | k in outcomes :: outcomes[k].key == k }

  ghost predicate DistinctSubjects(page: seq<Observation>) {
    forall i, j | 0 <= i < j < |page| :: page[i].subject != page[j].subject
  }

  // -------------------------------------------------------------- one by one

  /** What an applied observation does to the findings, through the store's own calls. */
  function Report(book: Book, rule: Rule, o: Observation, outcome: Outcome, at: Instant)
      : (Book, Result<Option<Finding>, FindingError>)
  {
    var key := FindingKeyOf(rule, o);
    match o.status
    case Violated =>
      var (book', item) := ObserveFinding(book, key, o.evidence, at);
      (book', if item.Ok? then Ok(Some(item.value)) else Err(item.error))
    case Unknown =>
      if !rule.opensOnUnknown || !EscalationDue(outcome, rule.grace, at) then (book, Ok(None))
      else
        var (book', item) := ObserveFinding(book, key, rule.explain(o), at);
        (book', if item.Ok? then Ok(Some(item.value)) else Err(item.error))
    case Passed => ObservePass(book, key, at)
  }

  function Listed(item: Option<Finding>): seq<Finding> { if item.Some? then [item.value] else [] }

  function FoldOne(s: State, rule: Rule, o: Observation, at: Instant): (State, Result<Option<Finding>, FoldError>) {
    var key := OutcomeKeyOf(rule, o);
    var next := Apply(Lookup(s.outcomes, key), key, o, at);
    if next.Err? then (s, Err(OutcomeRefused(next.error)))
    else if Outdated(s.outcomes, next.value) then (s, Ok(None))
    else
      var (book, item) := Report(s.book, rule, o, next.value, at);
      (State(Save(s.outcomes, next.value), book), if item.Ok? then Ok(item.value) else Err(FindingRefused(item.error)))
  }

  function FoldOneByOne(s: State, rule: Rule, page: seq<Observation>, at: Instant)
      : (State, Result<seq<Finding>, FoldError>)
  {
    if page == [] then (s, Ok([]))
    else
      var (before, changed) := FoldOneByOne(s, rule, Front(page), at);
      if changed.Err? then (before, changed)
      else
        var (after, item) := FoldOne(before, rule, Last(page), at);
        (after, if item.Ok? then Ok(changed.value + Listed(item.value)) else Err(item.error))
  }

  // ------------------------------------------------------------- page by page

  /** Decide every outcome of the page from the state before the page. */
  function Materialize(outcomes: OutcomeMap, rule: Rule, page: seq<Observation>, at: Instant)
      : (r: Result<seq<Outcome>, OutcomeError>)
    ensures r.Ok? ==> |r.value| == |page|
  {
    if page == [] then Ok([])
    else
      var before := Materialize(outcomes, rule, Front(page), at);
      if before.Err? then before
      else
        var key := OutcomeKeyOf(rule, Last(page));
        var next := Apply(Lookup(outcomes, key), key, Last(page), at);
        if next.Err? then Err(next.error) else Ok(before.value + [next.value])
  }

  /** Save the page's outcomes; the subjects whose outcome was not outdated are applied. */
  function SaveAll(outcomes: OutcomeMap, records: seq<Outcome>): (OutcomeMap, set<string>) {
    if records == [] then (outcomes, {})
    else
      var (before, applied) := SaveAll(outcomes, Front(records));
      var r := Last(records);
      (Save(before, r), if Outdated(before, r) then applied else applied + {r.key.subject})
  }

  /** A pass of a subject without a live finding, judging by the page's read, is skipped. */
  predicate Skips(before: Book, rule: Rule, o: Observation) {
    o.status == Scan.Passed && !Live(LookupFinding(before, FindingKeyOf(rule, o)))
  }

  function ReportAll(book: Book, rule: Rule, page: seq<Observation>, records: seq<Outcome>, applied: set<string>,
                     at: Instant)
    : (Book, Result<seq<Finding>, FindingError>)
    requires |records| == |page|
  {
    if page == [] then (book, Ok([]))
    else
      var (before, changed) := ReportAll(book, rule, Front(page), Front(records), applied, at);
      var o := Last(page);
      if changed.Err? || o.subject !in applied || Skips(book, rule, o) then (before, changed)
      else
        var (after, item) := Report(before, rule, o, Last(records), at);
        (after, if item.Ok? then Ok(changed.value + Listed(item.value)) else Err(item.error))
  }

  predicate KeysValid(rule: Rule, page: seq<Observation>) {
    forall i | 0 <= i < |page| :: FindingKeyValid(FindingKeyOf(rule, page[i]))
  }

  /** `evaluateRecord` on a page of observations: read, decide, write. */
  function FoldPage(s: State, rule: Rule, page: seq<Observation>, at: Instant): (State, Result<seq<Finding>, FoldError>)
  {
    if page == [] then (s, Ok([]))
    else
      var records := Materialize(s.outcomes, rule, page, at);
      if records.Err? then (s, Err(OutcomeRefused(records.error)))
      else
        var (outcomes, applied) := SaveAll(s.outcomes, records.value);
        if !KeysValid(rule, page) then (State(outcomes, s.book), Err(FindingRefused(InvalidFindingKey)))
        else
          var (book, changed) := ReportAll(s.book, rule, page, records.value, applied, at);
          (State(outcomes, book), if changed.Ok? then Ok(changed.value) else Err(FindingRefused(changed.error)))
  }
}
