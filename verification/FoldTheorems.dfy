/** The page fold against the one-by-one fold, and what neither of them does. */
module FoldTheorems {
  import opened Basics
  import Scan
  import opened Outcomes
  import opened Findings
  import opened PageFold

  ghost predicate Mentions(page: seq<Observation>, subject: string) {
    exists i :: 0 <= i < |page| && page[i].subject == subject
  }

  lemma DistinctFront(page: seq<Observation>)
    requires page != [] && DistinctSubjects(page)
    ensures DistinctSubjects(Front(page)) && !Mentions(Front(page), Last(page).subject)
  {
  }

  lemma MentionsSnoc(page: seq<Observation>, subject: string)
    requires page != []
    ensures Mentions(page, subject) <==> Mentions(Front(page), subject) || Last(page).subject == subject
  {
    if Mentions(Front(page), subject) {
      var i :| 0 <= i < |Front(page)| && Front(page)[i].subject == subject;
      assert page[i].subject == subject;
    }
    if Last(page).subject == subject { assert page[|page| - 1].subject == subject; }
    if Mentions(page, subject) {
      var i :| 0 <= i < |page| && page[i].subject == subject;
      if i < |page| - 1 { assert Front(page)[i].subject == subject; }
    }
  }

  // ------------------------------------------------------- who touches what

  lemma AppliedKey(outcomes: OutcomeMap, rule: Rule, o: Observation, at: Instant)
    requires WellKeyed(outcomes)
    ensures var key := OutcomeKeyOf(rule, o);
            var next := Apply(Lookup(outcomes, key), key, o, at);
            next.Ok? ==> next.value.key == key && next.value.lastObservedAt == at != ZERO_TIME
  {
  }

  /** The materialized records belong to the page, observation by observation. */
  lemma {:induction false} SaveTouchesThePage(outcomes: OutcomeMap, rule: Rule, page: seq<Observation>, at: Instant,
                                              k: OutcomeKey)
    requires WellKeyed(outcomes) && Materialize(outcomes, rule, page, at).Ok?
    requires !(k.ruleId == rule.id && k.version == rule.version && k.subjectType == rule.subjectType
               && Mentions(page, k.subject))
    ensures Lookup(SaveAll(outcomes, Materialize(outcomes, rule, page, at).value).0, k) == Lookup(outcomes, k)
  {
    if page != [] {
      MentionsSnoc(page, k.subject);
      SaveTouchesThePage(outcomes, rule, Front(page), at, k);
      AppliedKey(outcomes, rule, Last(page), at);
      MaterializeSnoc(outcomes, rule, page, at);
    }
  }

  lemma {:induction false} SaveAllStaysKeyed(outcomes: OutcomeMap, records: seq<Outcome>)
    requires WellKeyed(outcomes)
    ensures WellKeyed(SaveAll(outcomes, records).0)
  {
    if records != [] { SaveAllStaysKeyed(outcomes, Front(records)); }
  }

  lemma MaterializeSnoc(outcomes: OutcomeMap, rule: Rule, page: seq<Observation>, at: Instant)
    requires page != [] && Materialize(outcomes, rule, page, at).Ok?
    ensures Materialize(outcomes, rule, Front(page), at).Ok?
    ensures var records := Materialize(outcomes, rule, page, at).value;
            var key := OutcomeKeyOf(rule, Last(page));
            Front(records) == Materialize(outcomes, rule, Front(page), at).value
            && Apply(Lookup(outcomes, key), key, Last(page), at) == Ok(Last(records))
  {
  }

  lemma {:induction false} AppliedAreMentioned(outcomes: OutcomeMap, rule: Rule, page: seq<Observation>, at: Instant,
                                               subject: string)
    requires WellKeyed(outcomes) && Materialize(outcomes, rule, page, at).Ok?
    requires subject in SaveAll(outcomes, Materialize(outcomes, rule, page, at).value).1
    ensures Mentions(page, subject)
  {
    if page != [] {
      MaterializeSnoc(outcomes, rule, page, at);
      AppliedKey(outcomes, rule, Last(page), at);
      MentionsSnoc(page, subject);
      if Last(page).subject != subject { AppliedAreMentioned(outcomes, rule, Front(page), at, subject); }
    }
  }

  lemma ReportTouchesItsSubject(book: Book, rule: Rule, o: Observation, outcome: Outcome, at: Instant, k: FindingKey)
    requires k != FindingKeyOf(rule, o)
    ensures var book' := Report(book, rule, o, outcome, at).0;
            LookupFinding(book', k) == LookupFinding(book, k) && History(book', k) == History(book, k)
  {
  }

  lemma {:induction false} ReportsTouchThePage(book: Book, rule: Rule, page: seq<Observation>, records: seq<Outcome>,
                                               applied: set<string>, at: Instant, k: FindingKey)
    requires |records| == |page|
    requires k.ruleId == rule.id && k.version == rule.version && k.subjectType == rule.subjectType ==>
             !Mentions(page, k.subject) || k.subject !in applied
    ensures var book' := ReportAll(book, rule, page, records, applied, at).0;
            LookupFinding(book', k) == LookupFinding(book, k) && History(book', k) == History(book, k)
  {
    if page != [] {
      MentionsSnoc(page, k.subject);
      ReportsTouchThePage(book, rule, Front(page), Front(records), applied, at, k);
      hide Report;
      var before := ReportAll(book, rule, Front(page), Front(records), applied, at).0;
      if k != FindingKeyOf(rule, Last(page)) {
        ReportTouchesItsSubject(before, rule, Last(page), Last(records), at, k);
      }
    }
  }

  /** Only the verdicts on the page's own subjects matter. */
  lemma {:induction false} ReportsAgree(book: Book, rule: Rule, page: seq<Observation>, records: seq<Outcome>,
                                        a: set<string>, b: set<string>, at: Instant)
    requires |records| == |page| && forall i | 0 <= i < |page| :: page[i].subject in a <==> page[i].subject in b
    ensures ReportAll(book, rule, page, records, a, at) == ReportAll(book, rule, page, records, b, at)
  {
    hide Report;
    if page != [] { ReportsAgree(book, rule, Front(page), Front(records), a, b, at); }
  }

  // ---------------------------------------------------------------- agreement

  /** The one-by-one fold ends where the page fold does: same findings, same history, and
      the same outcomes unless a finding was refused on the way. */
  ghost predicate Agrees(s: State, rule: Rule, page: seq<Observation>, at: Instant) {
    var records := Materialize(s.outcomes, rule, page, at);
    records.Ok? &&
    var (outcomes, applied) := SaveAll(s.outcomes, records.value);
    var (book, changed) := ReportAll(s.book, rule, page, records.value, applied, at);
    var (seen, result) := FoldOneByOne(s, rule, page, at);
    && seen.book == book
    && (changed.Ok? ==> result == Ok(changed.value) && seen.outcomes == outcomes)
    && (changed.Err? ==> result == Err(FindingRefused(changed.error)))
  }

  lemma StepAgrees(s: State, rule: Rule, page: seq<Observation>, at: Instant)
    requires page != [] && WellKeyed(s.outcomes) && DistinctSubjects(page) && KeysValid(rule, page)
    requires Materialize(s.outcomes, rule, page, at).Ok? && Agrees(s, rule, Front(page), at)
    ensures Agrees(s, rule, page, at)
  {
    hide Report, Apply, Mentions, WellKeyed, DistinctSubjects;
    var front, o := Front(page), Last(page);
    var key := OutcomeKeyOf(rule, o);
    MaterializeSnoc(s.outcomes, rule, page, at);
    DistinctFront(page);
    AppliedKey(s.outcomes, rule, o, at);
    var records := Materialize(s.outcomes, rule, page, at).value;
    var r := Last(records);
    var (outsF, appliedF) := SaveAll(s.outcomes, Front(records));
    var applied := SaveAll(s.outcomes, records).1;
    SaveTouchesThePage(s.outcomes, rule, front, at, key);
    if o.subject in appliedF { AppliedAreMentioned(s.outcomes, rule, front, at, o.subject); }
    FrontSubjects(page);
    assert forall i | 0 <= i < |front| :: front[i].subject in appliedF <==> front[i].subject in applied;
    ReportsAgree(s.book, rule, front, Front(records), appliedF, applied, at);
    ReportsTouchThePage(s.book, rule, front, Front(records), appliedF, at, FindingKeyOf(rule, o));
    var (bookF, changedF) := ReportAll(s.book, rule, front, Front(records), appliedF, at);
    assert front == Front(page) && ReportAll(s.book, rule, front, Front(records), applied, at) == (bookF, changedF);
    if changedF.Ok? {
      assert FoldOneByOne(s, rule, front, at) == (State(outsF, bookF), Ok(changedF.value));
      var before := State(outsF, bookF);
      assert Apply(Lookup(outsF, key), key, o, at) == Ok(r);
      assert FoldOneByOne(s, rule, page, at).0 == FoldOne(before, rule, o, at).0;
      if Outdated(outsF, r) {
        assert o.subject !in applied;
        assert FoldOne(before, rule, o, at) == (before, Ok(None));
      } else {
        assert o.subject in applied;
        if Skips(s.book, rule, o) { SkippedPass(bookF, rule, o, r, at); }
      }
      assert changedF.value + [] == changedF.value;
    }
  }

  lemma FrontSubjects(page: seq<Observation>)
    requires page != [] && DistinctSubjects(page)
    ensures forall i | 0 <= i < |Front(page)| :: Front(page)[i].subject != Last(page).subject
  {
  }

  /** Skipping the pass of a subject without a live finding changes nothing. */
  lemma SkippedPass(book: Book, rule: Rule, o: Observation, outcome: Outcome, at: Instant)
    requires Skips(book, rule, o) && FindingKeyValid(FindingKeyOf(rule, o)) && at != ZERO_TIME
    ensures Report(book, rule, o, outcome, at) == (book, Ok(None))
  {
  }

  lemma {:induction false} FoldsAgree(s: State, rule: Rule, page: seq<Observation>, at: Instant)
    requires WellKeyed(s.outcomes) && DistinctSubjects(page) && KeysValid(rule, page)
    requires Materialize(s.outcomes, rule, page, at).Ok?
    ensures Agrees(s, rule, page, at)
  {
    if page != [] {
      MaterializeSnoc(s.outcomes, rule, page, at);
      DistinctFront(page);
      FoldsAgree(s, rule, Front(page), at);
      StepAgrees(s, rule, page, at);
    }
  }

  /** The sizes every registered Rule is held to. */
  predicate RuleSizes(rule: Rule) {
    |rule.id| <= MAX_RULE_ID && |rule.subjectType| <= MAX_SUBJECT_TYPE && rule.version >= 0
  }

  lemma {:induction false} MaterializedKeysAreValid(outcomes: OutcomeMap, rule: Rule, page: seq<Observation>,
                                                    at: Instant)
    requires RuleSizes(rule) && Materialize(outcomes, rule, page, at).Ok?
    ensures KeysValid(rule, page)
  {
    if page != [] {
      MaterializeSnoc(outcomes, rule, page, at);
      MaterializedKeysAreValid(outcomes, rule, Front(page), at);
      forall i | 0 <= i < |page| ensures FindingKeyValid(FindingKeyOf(rule, page[i])) {
        if i < |page| - 1 { assert page[i] == Front(page)[i]; }
      }
    }
  }

  /** If the one-by-one fold gets through, every outcome of the page can be decided. */
  lemma {:induction false} OneByOneDecidesAll(s: State, rule: Rule, page: seq<Observation>, at: Instant)
    requires WellKeyed(s.outcomes) && DistinctSubjects(page) && RuleSizes(rule) && FoldOneByOne(s, rule, page, at).1.Ok?
    ensures Materialize(s.outcomes, rule, page, at).Ok?
  {
    if page != [] {
      var front := Front(page);
      DistinctFront(page);
      OneByOneDecidesAll(s, rule, front, at);
      MaterializedKeysAreValid(s.outcomes, rule, front, at);
      FoldsAgree(s, rule, front, at);
      SaveTouchesThePage(s.outcomes, rule, front, at, OutcomeKeyOf(rule, Last(page)));
      hide Report, Apply, Mentions;
    }
  }

  /** Reading the page at once and deciding in memory is deciding one subject at a time:
      for distinct subjects the two succeed together, and then they leave the same
      outcomes, findings and history, and report the same changes. */
  lemma PageFoldIsOneByOne(s: State, rule: Rule, page: seq<Observation>, at: Instant)
    requires WellKeyed(s.outcomes) && DistinctSubjects(page) && RuleSizes(rule)
    ensures FoldPage(s, rule, page, at).1.Ok? <==> FoldOneByOne(s, rule, page, at).1.Ok?
    ensures FoldPage(s, rule, page, at).1.Ok? ==> FoldPage(s, rule, page, at) == FoldOneByOne(s, rule, page, at)
  {
    if Materialize(s.outcomes, rule, page, at).Ok? {
      MaterializedKeysAreValid(s.outcomes, rule, page, at);
      FoldsAgree(s, rule, page, at);
      hide FoldOneByOne, ReportAll, SaveAll, Materialize, KeysValid;
    } else if FoldOneByOne(s, rule, page, at).1.Ok? {
      OneByOneDecidesAll(s, rule, page, at);
    }
  }

  // ------------------------------------------------------- repeated subjects

  /** How often the page mentions the subject. */
  function Times(page: seq<Observation>, subject: string): nat {
    if page == [] then 0 else Times(Front(page), subject) + if Last(page).subject == subject then 1 else 0
  }

  lemma {:induction false} MentionedTimes(page: seq<Observation>, subject: string)
    ensures Times(page, subject) > 0 <==> Mentions(page, subject)
  {
    if page != [] {
      MentionedTimes(Front(page), subject);
      MentionsSnoc(page, subject);
    }
  }

  lemma {:induction false} RepeatedTimes(page: seq<Observation>, i: nat, j: nat)
    requires i < j < |page| && page[i].subject == page[j].subject
    ensures Times(page, page[i].subject) >= 2
  {
    if j < |page| - 1 { RepeatedTimes(Front(page), i, j); }
    else {
      assert Front(page)[i].subject == page[i].subject;
      MentionedTimes(Front(page), page[i].subject);
    }
  }

  function KeyFor(rule: Rule, subject: string): OutcomeKey {
    OutcomeKey(rule.id, rule.version, rule.subjectType, subject)
  }

  /** The page is the first to be known of its subjects, and could not decide any. */
  ghost predicate NewDoubts(s: State, rule: Rule, page: seq<Observation>, at: Instant) {
    && WellKeyed(s.outcomes) && !rule.opensOnUnknown && at != ZERO_TIME
    && forall i | 0 <= i < |page| ::
         && page[i].status == Scan.Unknown && Scan.ObservationValid(page[i])
         && OutcomeKeyValid(OutcomeKeyOf(rule, page[i])) && OutcomeKeyOf(rule, page[i]) !in s.outcomes
  }

  /** The subject's outcome is a doubt of this length, begun at that time. */
  ghost predicate Doubted(outcomes: OutcomeMap, k: OutcomeKey, at: Instant, count: nat) {
    && k in outcomes && outcomes[k].key == k && outcomes[k].status == Scan.Unknown
    && outcomes[k].firstUnknownAt == outcomes[k].lastObservedAt == at && outcomes[k].unknownCount == count
  }

  lemma NewDoubtsFront(s: State, rule: Rule, page: seq<Observation>, at: Instant)
    requires NewDoubts(s, rule, page, at) && page != []
    ensures NewDoubts(s, rule, Front(page), at)
    ensures var k := OutcomeKeyOf(rule, Last(page));
            && k !in s.outcomes && Last(page).status == Scan.Unknown && Apply(None, k, Last(page), at).Ok?
            && forall existing :: Apply(existing, k, Last(page), at).Ok?
  {
    assert forall i | 0 <= i < |Front(page)| :: Front(page)[i] == page[i];
    assert Last(page) == page[|page| - 1];
  }

  lemma {:induction false} DoubtsAreDecided(s: State, rule: Rule, page: seq<Observation>, at: Instant)
    requires NewDoubts(s, rule, page, at)
    ensures Materialize(s.outcomes, rule, page, at).Ok?
  {
    if page != [] {
      NewDoubtsFront(s, rule, page, at);
      DoubtsAreDecided(s, rule, Front(page), at);
      hide Apply, NewDoubts;
    }
  }

  lemma {:induction false} DoubtsAreSavedOnce(s: State, rule: Rule, page: seq<Observation>, at: Instant, x: string)
    requires NewDoubts(s, rule, page, at) && Materialize(s.outcomes, rule, page, at).Ok? && Mentions(page, x)
    ensures Doubted(SaveAll(s.outcomes, Materialize(s.outcomes, rule, page, at).value).0, KeyFor(rule, x), at, 1)
  {
    if page != [] {
      NewDoubtsFront(s, rule, page, at);
      MaterializeSnoc(s.outcomes, rule, page, at);
      MentionsSnoc(page, x);
      AppliedKey(s.outcomes, rule, Last(page), at);
      if Mentions(Front(page), x) { DoubtsAreSavedOnce(s, rule, Front(page), at, x); }
      else { SaveTouchesThePage(s.outcomes, rule, Front(page), at, KeyFor(rule, x)); }
      hide Mentions, NewDoubts;
    }
  }

  lemma {:induction false} DoubtsAreNotReported(book: Book, rule: Rule, page: seq<Observation>, records: seq<Outcome>,
                                                applied: set<string>, at: Instant)
    requires !rule.opensOnUnknown && |records| == |page| && forall i | 0 <= i < |page| :: page[i].status == Scan.Unknown
    ensures ReportAll(book, rule, page, records, applied, at) == (book, Ok([]))
  {
    if page != [] {
      assert forall i | 0 <= i < |Front(page)| :: Front(page)[i] == page[i];
      DoubtsAreNotReported(book, rule, Front(page), Front(records), applied, at);
      assert Report(book, rule, Last(page), Last(records), at) == (book, Ok(None));
      NothingListed();
    }
  }

  lemma NothingListed()
    ensures var none: seq<Finding> := []; none + Listed(None) == none
  {
  }

  lemma PageDoubtsOnce(s: State, rule: Rule, page: seq<Observation>, at: Instant)
    requires RuleSizes(rule) && NewDoubts(s, rule, page, at)
    ensures FoldPage(s, rule, page, at).1 == Ok([])
    ensures forall x | Mentions(page, x) :: Doubted(FoldPage(s, rule, page, at).0.outcomes, KeyFor(rule, x), at, 1)
  {
    DoubtsAreDecided(s, rule, page, at);
    MaterializedKeysAreValid(s.outcomes, rule, page, at);
    var records := Materialize(s.outcomes, rule, page, at).value;
    DoubtsAreNotReported(s.book, rule, page, records, SaveAll(s.outcomes, records).1, at);
    forall x | Mentions(page, x) ensures Doubted(SaveAll(s.outcomes, records).0, KeyFor(rule, x), at, 1) {
      DoubtsAreSavedOnce(s, rule, page, at, x);
    }
    hide Materialize, SaveAll, ReportAll, KeysValid, Doubted, NewDoubts;
  }

  /** Every doubt is counted, and what is not on the page is as it was. */
  ghost predicate DoubtsCounted(s: State, s': State, rule: Rule, page: seq<Observation>, at: Instant) {
    && s'.book == s.book
    && forall x ::
         if Times(page, x) == 0 then Lookup(s'.outcomes, KeyFor(rule, x)) == Lookup(s.outcomes, KeyFor(rule, x))
         else Doubted(s'.outcomes, KeyFor(rule, x), at, Times(page, x))
  }

  lemma DoubtCountedStep(s: State, before: State, rule: Rule, page: seq<Observation>, at: Instant)
    requires NewDoubts(s, rule, page, at) && page != [] && DoubtsCounted(s, before, rule, Front(page), at)
    ensures FoldOne(before, rule, Last(page), at).1 == Ok(None)
    ensures DoubtsCounted(s, FoldOne(before, rule, Last(page), at).0, rule, page, at)
  {
    NewDoubtsFront(s, rule, page, at);
    var o := Last(page);
    var k := OutcomeKeyOf(rule, o);
    assert k == KeyFor(rule, o.subject);
    var after := FoldOne(before, rule, o, at).0;
    hide NewDoubts, Scan.ObservationValid, OutcomeKeyValid;
    forall x
      ensures if Times(page, x) == 0 then Lookup(after.outcomes, KeyFor(rule, x)) == Lookup(s.outcomes, KeyFor(rule, x))
              else Doubted(after.outcomes, KeyFor(rule, x), at, Times(page, x))
    {
      assert Times(page, x) == Times(Front(page), x) + if o.subject == x then 1 else 0;
    }
  }

  lemma {:induction false} OneByOneCountsDoubts(s: State, rule: Rule, page: seq<Observation>, at: Instant)
    requires NewDoubts(s, rule, page, at)
    ensures FoldOneByOne(s, rule, page, at).1 == Ok([])
    ensures DoubtsCounted(s, FoldOneByOne(s, rule, page, at).0, rule, page, at)
  {
    if page != [] {
      NewDoubtsFront(s, rule, page, at);
      OneByOneCountsDoubts(s, rule, Front(page), at);
      DoubtCountedStep(s, FoldOneByOne(s, rule, Front(page), at).0, rule, page, at);
      NothingListed();
      hide NewDoubts, DoubtsCounted, FoldOne;
    }
  }

  /** Of the inconclusive observations of one new subject in a page, the page fold counts
      one and the one-by-one fold all. */
  lemma RepeatedSubjectIsCountedOnce(s: State, rule: Rule, page: seq<Observation>, at: Instant, x: string)
    requires RuleSizes(rule) && NewDoubts(s, rule, page, at) && Mentions(page, x)
    ensures FoldPage(s, rule, page, at).1 == Ok([]) && FoldOneByOne(s, rule, page, at).1 == Ok([])
    ensures Doubted(FoldPage(s, rule, page, at).0.outcomes, KeyFor(rule, x), at, 1)
    ensures Doubted(FoldOneByOne(s, rule, page, at).0.outcomes, KeyFor(rule, x), at, Times(page, x))
  {
    PageDoubtsOnce(s, rule, page, at);
    OneByOneCountsDoubts(s, rule, page, at);
    MentionedTimes(page, x);
    hide FoldPage, FoldOneByOne, NewDoubts, Doubted, Mentions;
  }

  ghost predicate SameFold(s: State, rule: Rule, page: seq<Observation>, at: Instant) {
    && (FoldPage(s, rule, page, at).1.Ok? <==> FoldOneByOne(s, rule, page, at).1.Ok?)
    && (FoldPage(s, rule, page, at).1.Ok? ==> FoldPage(s, rule, page, at) == FoldOneByOne(s, rule, page, at))
  }

  function SubjectsOf(page: seq<Observation>): (subjects: seq<string>)
    ensures |subjects| == |page| && forall i | 0 <= i < |page| :: subjects[i] == page[i].subject
  {
    if page == [] then [] else SubjectsOf(Front(page)) + [Last(page).subject]
  }

  predicate SubjectValid(x: string) { Trim(x) != "" && |x| <= Scan.MAX_SUBJECT }

  ghost predicate AllDiffer(subjects: seq<string>) {
    forall i, j | 0 <= i < j < |subjects| :: subjects[i] != subjects[j]
  }

  lemma {:induction false} InvalidSubjectIsRefused(s: State, rule: Rule, page: seq<Observation>, at: Instant, i: nat)
    requires i < |page| && !SubjectValid(page[i].subject)
    ensures Materialize(s.outcomes, rule, page, at).Err? && FoldOneByOne(s, rule, page, at).1.Err?
  {
    if i < |page| - 1 { InvalidSubjectIsRefused(s, rule, Front(page), at, i); }
  }

  /** A page of doubts about these subjects. */
  function DoubtsAbout(subjects: seq<string>): (page: seq<Observation>)
    ensures |page| == |subjects|
    ensures forall i | 0 <= i < |page| :: page[i] == Scan.Observation(subjects[i], Scan.Unknown, "", "")
  {
    if subjects == [] then []
      else DoubtsAbout(Front(subjects)) + [Scan.Observation(Last(subjects), Scan.Unknown, "", "")]
  }

  lemma DoubtsAreNew(subjects: seq<string>, rule: Rule)
    requires forall l | 0 <= l < |subjects| :: SubjectValid(subjects[l])
    requires !rule.opensOnUnknown && Trim(rule.id) != "" && Trim(rule.subjectType) != "" && rule.version >= 1
    ensures NewDoubts(State(map[], Book(map[], map[], 0)), rule, DoubtsAbout(subjects), 1)
  {
    hide Trim, DoubtsAbout;
    var page := DoubtsAbout(subjects);
    forall i | 0 <= i < |page| ensures Scan.ObservationValid(page[i]) && OutcomeKeyValid(OutcomeKeyOf(rule, page[i])) {
      assert SubjectValid(subjects[i]);
    }
  }

  lemma RepeatIsSeen(subjects: seq<string>, rule: Rule, i: nat, j: nat)
    requires i < j < |subjects| && subjects[i] == subjects[j]
    requires forall l | 0 <= l < |subjects| :: SubjectValid(subjects[l])
    requires RuleSizes(rule) && !rule.opensOnUnknown && Trim(rule.id) != "" && Trim(rule.subjectType) != ""
    requires rule.version >= 1
    ensures !SameFold(State(map[], Book(map[], map[], 0)), rule, DoubtsAbout(subjects), 1)
  {
    var s, page := State(map[], Book(map[], map[], 0)), DoubtsAbout(subjects);
    DoubtsAreNew(subjects, rule);
    var x := subjects[i];
    assert page[i].subject == page[j].subject == x;
    RepeatedTimes(page, i, j);
    assert Mentions(page, x);
    hide FoldPage, FoldOneByOne, NewDoubts, Mentions, Times, DoubtsAbout, Trim;
    RepeatedSubjectIsCountedOnce(s, rule, page, 1, x);
  }

  /** The two folds agree, on all states, Rules, times and pages with these subjects,
      exactly if no subject is repeated, or one of them is not a subject at all. */
  lemma FoldsAgreeExactly(subjects: seq<string>)
    ensures (forall s: State, rule: Rule, page, at |
               WellKeyed(s.outcomes) && RuleSizes(rule) && SubjectsOf(page) == subjects :: SameFold(s, rule, page, at))
            <==> AllDiffer(subjects) || exists i :: 0 <= i < |subjects| && !SubjectValid(subjects[i])
  {
    hide SameFold;
    if exists i :: 0 <= i < |subjects| && !SubjectValid(subjects[i]) {
      var i :| 0 <= i < |subjects| && !SubjectValid(subjects[i]);
      forall s: State, rule: Rule, page, at | WellKeyed(s.outcomes) && RuleSizes(rule) && SubjectsOf(page) == subjects
        ensures SameFold(s, rule, page, at)
      {
        InvalidMeansSame(s, rule, page, at, i);
      }
    } else if AllDiffer(subjects) {
      forall s: State, rule: Rule, page, at | WellKeyed(s.outcomes) && RuleSizes(rule) && SubjectsOf(page) == subjects
        ensures SameFold(s, rule, page, at)
      {
        DistinctMeansSame(s, rule, page, at);
      }
    } else {
      var i, j :| 0 <= i < j < |subjects| && subjects[i] == subjects[j];
      var rule := PlainRule();
      RepeatIsSeen(subjects, rule, i, j);
      assert SubjectsOf(DoubtsAbout(subjects)) == subjects;
      assert WellKeyed(State(map[], Book(map[], map[], 0)).outcomes);
    }
  }

  lemma InvalidMeansSame(s: State, rule: Rule, page: seq<Observation>, at: Instant, i: nat)
    requires i < |page| && !SubjectValid(page[i].subject)
    ensures SameFold(s, rule, page, at)
  {
    InvalidSubjectIsRefused(s, rule, page, at, i);
    hide FoldOneByOne, Materialize;
  }

  lemma DistinctMeansSame(s: State, rule: Rule, page: seq<Observation>, at: Instant)
    requires WellKeyed(s.outcomes) && RuleSizes(rule) && AllDiffer(SubjectsOf(page))
    ensures SameFold(s, rule, page, at)
  {
    var subjects := SubjectsOf(page);
    assert forall i, j | 0 <= i < j < |page| :: subjects[i] != subjects[j];
    PageFoldIsOneByOne(s, rule, page, at);
    hide FoldPage, FoldOneByOne;
  }

  lemma PlainRule() returns (rule: Rule)
    ensures RuleSizes(rule) && !rule.opensOnUnknown && Trim(rule.id) != "" && Trim(rule.subjectType) != ""
    ensures rule.version >= 1
  {
    rule := Rule("r", 1, "t", false, 0, o => "");
    assert Trim("r") == "r" && Trim("t") == "t";
  }

  // ------------------------------------------------------ which pages there are

  lemma {:induction false} SubjectsRise(start: Scan.Position, rows: seq<Scan.Row>, i: nat, j: nat)
    requires Scan.Acceptable(Scan.BySubject, start, rows) && i < j < |rows|
    ensures StringLess(rows[i].subject, rows[j].subject)
    decreases j
  {
    assert Scan.MayFollow(Scan.BySubject, start, rows, j);
    if i < j - 1 {
      SubjectsRise(start, rows, i, j - 1);
      StringLessTransitive(rows[i].subject, rows[j - 1].subject, rows[j].subject);
    }
  }

  /** The pages the evaluator lets through have distinct subjects exactly unless the Rule
      walks by change time: there a subject may come again with a later change. */
  lemma PagesHaveDistinctSubjects(walk: Scan.Walk)
    ensures (forall start, rows | Scan.Acceptable(walk, start, rows) :: DistinctSubjects(Scan.Observed(rows))) <==>
            !walk.ByChange?
  {
    if walk.ByChange? {
      var rows := ChangedTwice("x");
      ChangedTwiceIsAccepted("x");
      assert Scan.Observed(rows)[0].subject == Scan.Observed(rows)[1].subject;
      assert !DistinctSubjects(Scan.Observed(rows));
    } else {
      forall start, rows | Scan.Acceptable(walk, start, rows) ensures DistinctSubjects(Scan.Observed(rows)) {
        DistinctOnThePage(walk, start, rows);
      }
    }
  }

  lemma DistinctOnThePage(walk: Scan.Walk, start: Scan.Position, rows: seq<Scan.Row>)
    requires Scan.Acceptable(walk, start, rows) && !walk.ByChange?
    ensures DistinctSubjects(Scan.Observed(rows))
  {
    var page := Scan.Observed(rows);
    if walk.ForJob? {
      if |rows| > 1 { assert !Scan.MayFollow(walk, start, rows, 1); }
    } else {
      forall i, j | 0 <= i < j < |page| ensures page[i].subject != page[j].subject {
        SubjectsRise(start, rows, i, j);
        StringLessIrreflexive(rows[i].subject);
      }
    }
  }

  /** A subject that was found violated, changed, and was found to pass. */
  function ChangedTwice(x: string): seq<Scan.Row> {
    [Scan.Row(x, Some(true), "", "", 1), Scan.Row(x, Some(false), "", "", 2)]
  }

  lemma ChangedTwiceIsAccepted(x: string)
    requires SubjectValid(x)
    ensures Scan.Acceptable(Scan.ByChange, Scan.Position(ZERO_TIME, ""), ChangedTwice(x))
  {
  }

  // ----------------------------------------------------- stale observations

  lemma {:induction false} SavingGoesForward(outcomes: OutcomeMap, records: seq<Outcome>, k: OutcomeKey)
    requires k in outcomes
    ensures k in SaveAll(outcomes, records).0
    ensures SaveAll(outcomes, records).0[k].lastObservedAt >= outcomes[k].lastObservedAt
  {
    if records != [] { SavingGoesForward(outcomes, Front(records), k); }
  }

  /** Whether the fold succeeds or fails halfway, and whatever the page repeats, no
      subject's last observation goes back in time. */
  lemma ObservedTimesNeverDecrease(s: State, rule: Rule, page: seq<Observation>, at: Instant, k: OutcomeKey)
    requires k in s.outcomes
    ensures var s' := FoldPage(s, rule, page, at).0;
            k in s'.outcomes && s'.outcomes[k].lastObservedAt >= s.outcomes[k].lastObservedAt
  {
    if Materialize(s.outcomes, rule, page, at).Ok? {
      SavingGoesForward(s.outcomes, Materialize(s.outcomes, rule, page, at).value, k);
    }
  }

  lemma {:induction false} StaleIsNotSaved(outcomes: OutcomeMap, rule: Rule, page: seq<Observation>, at: Instant,
                                           k: OutcomeKey)
    requires WellKeyed(outcomes) && Materialize(outcomes, rule, page, at).Ok?
    requires k in outcomes && outcomes[k].lastObservedAt > at && k.ruleId == rule.id && k.version == rule.version
    requires k.subjectType == rule.subjectType
    ensures var (after, applied) := SaveAll(outcomes, Materialize(outcomes, rule, page, at).value);
            k in after && after[k] == outcomes[k] && k.subject !in applied
  {
    if page != [] {
      MaterializeSnoc(outcomes, rule, page, at);
      AppliedKey(outcomes, rule, Last(page), at);
      StaleIsNotSaved(outcomes, rule, Front(page), at, k);
      hide Apply;
    }
  }

  /** An observation older than what is known about its subject changes neither the
      outcome nor the finding nor its history. */
  lemma StaleObservationTouchesNothing(s: State, rule: Rule, page: seq<Observation>, at: Instant, i: nat)
    requires WellKeyed(s.outcomes) && i < |page| && OutcomeKeyOf(rule, page[i]) in s.outcomes
    requires s.outcomes[OutcomeKeyOf(rule, page[i])].lastObservedAt > at
    ensures var s' := FoldPage(s, rule, page, at).0;
            var k, f := OutcomeKeyOf(rule, page[i]), FindingKeyOf(rule, page[i]);
            && Lookup(s'.outcomes, k) == Lookup(s.outcomes, k)
            && LookupFinding(s'.book, f) == LookupFinding(s.book, f) && History(s'.book, f) == History(s.book, f)
  {
    var records := Materialize(s.outcomes, rule, page, at);
    if records.Ok? {
      StaleIsNotSaved(s.outcomes, rule, page, at, OutcomeKeyOf(rule, page[i]));
      var applied := SaveAll(s.outcomes, records.value).1;
      ReportsTouchThePage(s.book, rule, page, records.value, applied, at, FindingKeyOf(rule, page[i]));
      hide SaveAll, ReportAll, Materialize;
    }
  }
}
