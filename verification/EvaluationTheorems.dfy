/** What evaluations leave behind, over whole runs with deletions and decisions. */
module EvaluationTheorems {
  import opened Basics
  import Scan
  import opened Outcomes
  import opened Findings
  import PageFold
  import FoldTheorems
  import F = FindingTheorems
  import Rules
  import opened RuleTheorems

  // -------------------------------------------------------- findings and histories

  lemma ReportExplains(book: Book, rule: PageFold.Rule, o: PageFold.Observation, outcome: Outcome, at: Instant)
    requires F.BookExplained(book)
    ensures F.BookExplained(PageFold.Report(book, rule, o, outcome, at).0)
  {
    hide F.BookExplained;
    var key := PageFold.FindingKeyOf(rule, o);
    F.PassExplains(book, key, at);
    ObservingExplains(book, key, o.evidence, at);
    ObservingExplains(book, key, rule.explain(o), at);
    hide ObserveFinding, ObservePass, EscalationDue;
  }

  lemma ObservingExplains(book: Book, key: FindingKey, evidence: string, at: Instant)
    requires F.BookExplained(book)
    ensures F.BookExplained(ObserveFinding(book, key, evidence, at).0)
  {
    hide F.BookExplained;
    if ObserveFinding(book, key, evidence, at).1.Ok? { F.SightingExplains(book, key, evidence, at); }
  }

  lemma {:induction false} ReportAllExplains(book: Book, rule: PageFold.Rule, page: seq<PageFold.Observation>,
                                             records: seq<Outcome>, applied: set<string>, at: Instant)
    requires |records| == |page| && F.BookExplained(book)
    ensures F.BookExplained(PageFold.ReportAll(book, rule, page, records, applied, at).0)
  {
    hide PageFold.Report, F.BookExplained;
    if page != [] {
      ReportAllExplains(book, rule, Front(page), Front(records), applied, at);
      var before := PageFold.ReportAll(book, rule, Front(page), Front(records), applied, at).0;
      ReportExplains(before, rule, Last(page), Last(records), at);
    }
  }

  lemma FoldExplains(s: Rules.Store, rule: PageFold.Rule, page: seq<PageFold.Observation>, at: Instant)
    requires F.BookExplained(s.book)
    ensures F.BookExplained(Folded(s, rule, page, at).book)
  {
    hide F.BookExplained;
    var records := PageFold.Materialize(s.outcomes, rule, page, at);
    if records.Ok? {
      ReportAllExplains(s.book, rule, page, records.value, PageFold.SaveAll(s.outcomes, records.value).1, at);
    }
    hide PageFold.Materialize, PageFold.SaveAll, PageFold.ReportAll, PageFold.KeysValid;
  }

  lemma DeletionExplains(s: Rules.Store, request: Rules.DeleteRequest)
    requires F.BookExplained(s.book)
    ensures F.BookExplained(Rules.DeleteRule(s, request).0.book)
  {
    var gone := Rules.DoomedFindings(request.id, Rules.InScope(s, request), s.book);
    RemovalExplains(s.book, gone);
    RemovalExplains(s.book, {});
    hide F.BookExplained, Rules.DoomedFindings, Rules.InScope, Rules.Plan;
  }

  lemma RemovalExplains(book: Book, gone: set<FindingKey>)
    requires F.BookExplained(book)
    ensures F.BookExplained(Book(book.records - gone, book.events - gone, book.nextSeq))
  {
    hide F.Explained;
  }

  lemma StepExplains(s: Rules.Store, op: Op)
    requires WellFormed(s) && F.BookExplained(s.book)
    ensures F.BookExplained(RuleTheorems.Apply(s, op).book)
  {
    hide F.BookExplained;
    match op
    case Delete(request) => DeletionExplains(s, request); hide Rules.DeleteRule;
    case ClaimRuns(owner, now, leaseFor, limit) =>
      ClaimChangesSchedules(s, owner, now, leaseFor, limit); hide Rules.ClaimDue;
    case Evaluate(rule, page, at) => FoldExplains(s, rule, page, at); hide Folded;
    case Overlap(rule, page, at) => FoldExplains(s, rule, page, at); hide Folded;
    case Decide(key, decision) => F.DecisionExplains(s.book, key, decision); hide TransitionFinding;
    case _ => hide Folded, Rules.ClaimDue;
  }

  /** In every run of registrations, evaluations, decisions and deletions, every finding
      that is there is explained by its history. */
  lemma {:induction false} HistoriesExplainTheFindings(ops: seq<Op>)
    ensures F.BookExplained(Reached(ops).book)
  {
    if ops != [] {
      HistoriesExplainTheFindings(Front(ops));
      ReachedSnoc(ops);
      hide Reached, F.BookExplained;
      StepExplains(Reached(Front(ops)), Last(ops));
    }
  }

  // ------------------------------------------------------------ outcomes and samples

  /** The latest observation of the subject on the page. */
  function LastOf(page: seq<PageFold.Observation>, subject: string): Option<PageFold.Observation> {
    if page == [] then None
    else if Last(page).subject == subject then Some(Last(page))
    else LastOf(Front(page), subject)
  }

  predicate IsOf(rule: PageFold.Rule, k: OutcomeKey) {
    k.ruleId == rule.id && k.version == rule.version && k.subjectType == rule.subjectType
  }

  /** What a fold of the page adds to what is known under the key: the latest observation
      of its subject, unless a later one has been stored before. */
  function Added(outcomes: OutcomeMap, rule: PageFold.Rule, page: seq<PageFold.Observation>, at: Instant, k: OutcomeKey)
      : seq<F.Sample>
  {
    var o := LastOf(page, k.subject);
    if PageFold.Materialize(outcomes, rule, page, at).Err? || !IsOf(rule, k) || o.None? then []
    else if k in outcomes && outcomes[k].lastObservedAt > at then []
    else [F.Sample(o.value, at)]
  }

  lemma {:induction false} LastIsMentioned(page: seq<PageFold.Observation>, subject: string)
    ensures LastOf(page, subject).Some? <==> FoldTheorems.Mentions(page, subject)
    ensures LastOf(page, subject).Some? ==> LastOf(page, subject).value.subject == subject
  {
    if page != [] {
      FoldTheorems.MentionsSnoc(page, subject);
      LastIsMentioned(Front(page), subject);
      hide FoldTheorems.Mentions;
    }
  }

  /** The latest observation of the subject decides what is saved under its key. */
  lemma {:induction false} LastIsSaved(outcomes: OutcomeMap, rule: PageFold.Rule, page: seq<PageFold.Observation>,
                                       at: Instant, k: OutcomeKey)
    requires PageFold.WellKeyed(outcomes) && PageFold.Materialize(outcomes, rule, page, at).Ok?
    requires IsOf(rule, k) && LastOf(page, k.subject).Some? && !(k in outcomes && outcomes[k].lastObservedAt > at)
    ensures var next := Outcomes.Apply(Lookup(outcomes, k), k, LastOf(page, k.subject).value, at);
            && next.Ok?
            && Lookup(PageFold.SaveAll(outcomes, PageFold.Materialize(outcomes, rule, page, at).value).0, k)
               == Some(next.value)
  {
    FoldTheorems.MaterializeSnoc(outcomes, rule, page, at);
    FoldTheorems.AppliedKey(outcomes, rule, Last(page), at);
    hide Outcomes.Apply, FoldTheorems.Mentions;
    if Last(page).subject == k.subject {
      if LastOf(Front(page), k.subject).Some? {
        LastIsSaved(outcomes, rule, Front(page), at, k);
        SavedAt(outcomes, rule, Front(page), at, k);
      } else {
        LastIsMentioned(Front(page), k.subject);
        FoldTheorems.SaveTouchesThePage(outcomes, rule, Front(page), at, k);
      }
    } else {
      LastIsSaved(outcomes, rule, Front(page), at, k);
    }
  }

  lemma SavedAt(outcomes: OutcomeMap, rule: PageFold.Rule, page: seq<PageFold.Observation>, at: Instant, k: OutcomeKey)
    requires LastOf(page, k.subject).Some?
    ensures var next := Outcomes.Apply(Lookup(outcomes, k), k, LastOf(page, k.subject).value, at);
            next.Ok? ==> next.value.lastObservedAt == at
  {
  }

  /** The stored outcome after the fold is the one before with the added samples. */
  lemma FoldAdds(s: Rules.Store, rule: PageFold.Rule, page: seq<PageFold.Observation>, at: Instant, k: OutcomeKey)
    requires WellFormed(s)
    ensures var added, after := Added(s.outcomes, rule, page, at, k), Folded(s, rule, page, at).outcomes;
            if added == [] then Lookup(after, k) == Lookup(s.outcomes, k)
            else var next := Outcomes.Apply(Lookup(s.outcomes, k), k, added[0].observation, added[0].at);
                 |added| == 1 && next.Ok? && Lookup(after, k) == Some(next.value)
  {
    var records := PageFold.Materialize(s.outcomes, rule, page, at);
    hide Outcomes.Apply, FoldTheorems.Mentions;
    if records.Ok? && page != [] {
      FoldSaves(s, rule, page, at);
      LastIsMentioned(page, k.subject);
      if Added(s.outcomes, rule, page, at, k) != [] { LastIsSaved(s.outcomes, rule, page, at, k); }
      else if IsOf(rule, k) && k in s.outcomes && s.outcomes[k].lastObservedAt > at {
        FoldTheorems.StaleIsNotSaved(s.outcomes, rule, page, at, k);
      } else { FoldTheorems.SaveTouchesThePage(s.outcomes, rule, page, at, k); }
      hide PageFold.Materialize, PageFold.SaveAll, Folded;
    }
  }

  lemma FoldSaves(s: Rules.Store, rule: PageFold.Rule, page: seq<PageFold.Observation>, at: Instant)
    requires page != [] && PageFold.Materialize(s.outcomes, rule, page, at).Ok?
    ensures Folded(s, rule, page, at).outcomes
            == PageFold.SaveAll(s.outcomes, PageFold.Materialize(s.outcomes, rule, page, at).value).0
  {
    hide PageFold.Materialize, PageFold.SaveAll, PageFold.ReportAll, PageFold.KeysValid;
  }

  // ------------------------------------------------- a pass and a live finding

  /** The observation is reported as drift. */
  predicate Sights(rule: PageFold.Rule, o: PageFold.Observation, outcome: Outcome, at: Instant) {
    || o.status == Scan.Violated
    || (o.status == Scan.Unknown && rule.opensOnUnknown && EscalationDue(outcome, rule.grace, at))
  }

  /** The page reports drift of the subject. */
  predicate SightedOn(rule: PageFold.Rule, page: seq<PageFold.Observation>, records: seq<Outcome>, at: Instant,
                      x: string)
    requires |records| == |page|
  {
    page != [] &&
    (|| SightedOn(rule, Front(page), Front(records), at, x)
     || (Last(page).subject == x && Sights(rule, Last(page), Last(records), at)))
  }

  /** Whether the subject has a live finding after its observations were reported in turn:
      drift opens one, and a pass closes one only if the page found it open. */
  predicate LiveAfter(live: bool, rule: PageFold.Rule, page: seq<PageFold.Observation>, records: seq<Outcome>,
                      at: Instant, x: string)
    requires |records| == |page|
  {
    if page == [] then live
    else if Last(page).subject != x then LiveAfter(live, rule, Front(page), Front(records), at, x)
    else if Sights(rule, Last(page), Last(records), at) then true
    else if Last(page).status == Scan.Passed && live then false
    else LiveAfter(live, rule, Front(page), Front(records), at, x)
  }

  // ------------------------------------------------------- a fold is its calls

  /** The call on the findings that an observation is worth. Drift is reported with its own
      evidence, lasting doubt with the explanation of the Rule. */
  function CallsFor(before: Book, rule: PageFold.Rule, o: PageFold.Observation, outcome: Outcome, at: Instant)
      : seq<F.Call>
  {
    var key := FindingKey(rule.id, rule.subjectType, o.subject, rule.version);
    if o.status == Scan.Violated then [F.Sighting(key, o.evidence, at)]
    else if Sights(rule, o, outcome, at) then [F.Sighting(key, rule.explain(o), at)]
    else if o.status == Scan.Passed && Live(LookupFinding(before, key)) then [F.Pass(key, at)]
    else []
  }

  /** The calls of a page, in its order, for the subjects whose outcome is not outdated. */
  function CallsOf(before: Book, rule: PageFold.Rule, page: seq<PageFold.Observation>, records: seq<Outcome>,
                   applied: set<string>, at: Instant): seq<F.Call>
    requires |records| == |page|
  {
    if page == [] then []
    else
      CallsOf(before, rule, Front(page), Front(records), applied, at)
      + if Last(page).subject in applied then CallsFor(before, rule, Last(page), Last(records), at) else []
  }

  lemma ReportIsItsCall(book: Book, before: Book, rule: PageFold.Rule, o: PageFold.Observation, outcome: Outcome,
                        at: Instant)
    requires !PageFold.Skips(before, rule, o)
    ensures PageFold.Report(book, rule, o, outcome, at).0 == F.After(book, CallsFor(before, rule, o, outcome, at))
  {
    var calls := CallsFor(before, rule, o, outcome, at);
    if calls != [] {
      assert Front(calls) == [] && F.After(book, []) == book;
      assert F.After(book, calls) == F.Apply(book, calls[0]);
    }
    hide ObserveFinding, ObservePass, EscalationDue, Live;
  }

  lemma {:induction false} AfterConcat(book: Book, a: seq<F.Call>, b: seq<F.Call>)
    ensures F.After(book, a + b) == F.After(F.After(book, a), b)
  {
    hide F.Apply;
    if b == [] { assert a + b == a; }
    else {
      assert Front(a + b) == a + Front(b);
      AfterConcat(book, a, Front(b));
    }
  }

  lemma {:induction false} ReportsAreTheirCalls(book: Book, rule: PageFold.Rule, page: seq<PageFold.Observation>,
                                                records: seq<Outcome>, applied: set<string>, at: Instant)
    requires |records| == |page| && PageFold.ReportAll(book, rule, page, records, applied, at).1.Ok?
    ensures PageFold.ReportAll(book, rule, page, records, applied, at).0
            == F.After(book, CallsOf(book, rule, page, records, applied, at))
  {
    if page != [] {
      hide PageFold.Report, F.Apply, Sights, Live;
      var front := CallsOf(book, rule, Front(page), Front(records), applied, at);
      var before := PageFold.ReportAll(book, rule, Front(page), Front(records), applied, at).0;
      ReportsAreTheirCalls(book, rule, Front(page), Front(records), applied, at);
      if Last(page).subject in applied {
        var calls := CallsFor(book, rule, Last(page), Last(records), at);
        AfterConcat(book, front, calls);
        if PageFold.Skips(book, rule, Last(page)) { SkippedIsNoCall(book, rule, Last(page), Last(records), at); }
        else { ReportIsItsCall(before, book, rule, Last(page), Last(records), at); }
      } else {
        assert front + [] == front;
      }
    }
  }

  lemma SkippedIsNoCall(book: Book, rule: PageFold.Rule, o: PageFold.Observation, outcome: Outcome, at: Instant)
    requires PageFold.Skips(book, rule, o)
    ensures CallsFor(book, rule, o, outcome, at) == []
  {
  }

  /** A fold does to the findings what its calls do, one after the other: every subject of
      the page that is not outdated is sighted, passed or left alone as its verdict says. */
  lemma FoldIsItsCalls(s: PageFold.State, rule: PageFold.Rule, page: seq<PageFold.Observation>, at: Instant)
    requires PageFold.FoldPage(s, rule, page, at).1.Ok?
    ensures var records := PageFold.Materialize(s.outcomes, rule, page, at);
            && records.Ok?
            && PageFold.FoldPage(s, rule, page, at).0.book
               == F.After(s.book, CallsOf(s.book, rule, page, records.value,
                                          PageFold.SaveAll(s.outcomes, records.value).1, at))
  {
    if page != [] {
      var records := PageFold.Materialize(s.outcomes, rule, page, at);
      hide PageFold.Materialize, PageFold.SaveAll, PageFold.KeysValid, F.After;
      ReportsAreTheirCalls(s.book, rule, page, records.value, PageFold.SaveAll(s.outcomes, records.value).1, at);
      hide PageFold.ReportAll, CallsOf;
    }
  }

  lemma ReportSetsLive(book: Book, rule: PageFold.Rule, o: PageFold.Observation, outcome: Outcome, at: Instant)
    requires PageFold.Report(book, rule, o, outcome, at).1.Ok?
    ensures var k := PageFold.FindingKeyOf(rule, o);
            var after := PageFold.Report(book, rule, o, outcome, at).0;
            Live(LookupFinding(after, k)) <==>
              Sights(rule, o, outcome, at) || (o.status != Scan.Passed && Live(LookupFinding(book, k)))
  {
  }

  lemma {:induction false} ReportsSetLive(book: Book, rule: PageFold.Rule, page: seq<PageFold.Observation>,
                                          records: seq<Outcome>, applied: set<string>, at: Instant, k: FindingKey)
    requires |records| == |page| && PageFold.ReportAll(book, rule, page, records, applied, at).1.Ok?
    requires k.ruleId == rule.id && k.version == rule.version && k.subjectType == rule.subjectType
    requires k.subject in applied
    ensures Live(LookupFinding(PageFold.ReportAll(book, rule, page, records, applied, at).0, k)) <==>
            LiveAfter(Live(LookupFinding(book, k)), rule, page, records, at, k.subject)
  {
    if page != [] {
      var o := Last(page);
      var before := PageFold.ReportAll(book, rule, Front(page), Front(records), applied, at).0;
      ReportsSetLive(book, rule, Front(page), Front(records), applied, at, k);
      hide PageFold.Report, Sights;
      if o.subject in applied && !PageFold.Skips(book, rule, o) {
        if o.subject == k.subject { ReportSetsLive(before, rule, o, Last(records), at); }
        else { FoldTheorems.ReportTouchesItsSubject(before, rule, o, Last(records), at, k); }
      }
      PassesSightNothing(rule, o, Last(records), at);
    }
  }

  lemma PassesSightNothing(rule: PageFold.Rule, o: PageFold.Observation, outcome: Outcome, at: Instant)
    ensures o.status == Scan.Passed ==> !Sights(rule, o, outcome, at)
  {
  }

  lemma {:induction false} LiveAfterAPass(live: bool, rule: PageFold.Rule, page: seq<PageFold.Observation>,
                                          records: seq<Outcome>, at: Instant, x: string)
    requires |records| == |page| && LastOf(page, x).Some? && LastOf(page, x).value.status == Scan.Passed
    ensures LiveAfter(live, rule, page, records, at, x) <==> !live && SightedOn(rule, page, records, at, x)
  {
    if Last(page).subject != x { LiveAfterAPass(live, rule, Front(page), Front(records), at, x); }
    else {
      PassesSightNothing(rule, Last(page), Last(records), at);
      if !live { LiveMeansSighted(rule, Front(page), Front(records), at, x); }
    }
  }

  lemma {:induction false} LiveMeansSighted(rule: PageFold.Rule, page: seq<PageFold.Observation>, records: seq<Outcome>,
                                            at: Instant, x: string)
    requires |records| == |page|
    ensures LiveAfter(false, rule, page, records, at, x) <==> SightedOn(rule, page, records, at, x)
  {
    if page != [] { LiveMeansSighted(rule, Front(page), Front(records), at, x); }
  }

  /** Every subject of the page that is not outdated is applied. */
  lemma {:induction false} TimelyIsApplied(outcomes: OutcomeMap, rule: PageFold.Rule, page: seq<PageFold.Observation>,
                                           at: Instant, k: OutcomeKey)
    requires PageFold.WellKeyed(outcomes) && PageFold.Materialize(outcomes, rule, page, at).Ok?
    requires IsOf(rule, k) && LastOf(page, k.subject).Some? && !(k in outcomes && outcomes[k].lastObservedAt > at)
    ensures k.subject in PageFold.SaveAll(outcomes, PageFold.Materialize(outcomes, rule, page, at).value).1
  {
    FoldTheorems.MaterializeSnoc(outcomes, rule, page, at);
    FoldTheorems.AppliedKey(outcomes, rule, Last(page), at);
    hide Outcomes.Apply, FoldTheorems.Mentions;
    if LastOf(Front(page), k.subject).Some? { TimelyIsApplied(outcomes, rule, Front(page), at, k); }
    else {
      LastIsMentioned(Front(page), k.subject);
      FoldTheorems.SaveTouchesThePage(outcomes, rule, Front(page), at, k);
    }
  }

  /** A subject passes: after a successful fold its stored outcome says so. It still has a
      live finding exactly if it had none before the page and the page itself reports drift
      of it, as a page with the subject more than once can do. */
  lemma PassedSubjectIsLiveExactly(s: PageFold.State, rule: PageFold.Rule, page: seq<PageFold.Observation>, at: Instant,
                                   x: string)
    requires PageFold.WellKeyed(s.outcomes) && PageFold.FoldPage(s, rule, page, at).1.Ok?
    requires LastOf(page, x).Some? && LastOf(page, x).value.status == Scan.Passed
    requires var k := FoldTheorems.KeyFor(rule, x); !(k in s.outcomes && s.outcomes[k].lastObservedAt > at)
    ensures var k, f := FoldTheorems.KeyFor(rule, x), FindingKey(rule.id, rule.subjectType, x, rule.version);
            var s', records := PageFold.FoldPage(s, rule, page, at).0, PageFold.Materialize(s.outcomes, rule, page, at);
            && records.Ok? && k in s'.outcomes && s'.outcomes[k].status == Scan.Passed
            && (Live(LookupFinding(s'.book, f)) <==>
                  !Live(LookupFinding(s.book, f)) && SightedOn(rule, page, records.value, at, x))
  {
    var k, f := FoldTheorems.KeyFor(rule, x), FindingKey(rule.id, rule.subjectType, x, rule.version);
    var records := PageFold.Materialize(s.outcomes, rule, page, at).value;
    var applied := PageFold.SaveAll(s.outcomes, records).1;
    LastIsSaved(s.outcomes, rule, page, at, k);
    TimelyIsApplied(s.outcomes, rule, page, at, k);
    ReportsSetLive(s.book, rule, page, records, applied, at, f);
    LiveAfterAPass(Live(LookupFinding(s.book, f)), rule, page, records, at, x);
    hide PageFold.Materialize, PageFold.SaveAll, PageFold.ReportAll, PageFold.KeysValid, LiveAfter, SightedOn, Live;
  }

  /** A change walk does return such a page: the subject was seen violated and then passed.
      Its outcome is a pass, and the finding it opened stays live. */
  lemma ChangedSubjectPassesAndStaysOpen(rule: PageFold.Rule, x: string, at: Instant)
    requires FoldTheorems.RuleSizes(rule) && OutcomeKeyValid(FoldTheorems.KeyFor(rule, x)) && |x| <= Scan.MAX_SUBJECT
    requires at != ZERO_TIME
    ensures var rows := FoldTheorems.ChangedTwice(x);
            var s := PageFold.State(map[], Book(map[], map[], 0));
            var (s', changed) := PageFold.FoldPage(s, rule, Scan.Observed(rows), at);
            var k, f := FoldTheorems.KeyFor(rule, x), FindingKey(rule.id, rule.subjectType, x, rule.version);
            && Scan.Acceptable(Scan.ByChange, Scan.Position(ZERO_TIME, ""), rows)
            && changed.Ok? && k in s'.outcomes && s'.outcomes[k].status == Scan.Passed
            && Live(LookupFinding(s'.book, f))
  {
    var s := PageFold.State(map[], Book(map[], map[], 0));
    var a, b := Scan.Observation(x, Scan.Violated, "", ""), Scan.Observation(x, Scan.Passed, "", "");
    var rows := FoldTheorems.ChangedTwice(x);
    FoldTheorems.ChangedTwiceIsAccepted(x);
    assert Scan.Observed(rows) == [a, b];
    var page := [a, b];
    assert Front(page) == [a] && Last(page) == b && Front([a]) == [] && Last([a]) == a;
    assert LastOf(page, x) == Some(b);
    TwoAreDecided(rule, a, b, at);
    var records := PageFold.Materialize(s.outcomes, rule, page, at).value;
    FoldTheorems.MaterializedKeysAreValid(s.outcomes, rule, page, at);
    TwoAreReported(rule, a, b, records, PageFold.SaveAll(s.outcomes, records).1, at);
    assert SightedOn(rule, [a], Front(records), at, x);
    hide PageFold.Materialize, PageFold.SaveAll, PageFold.ReportAll, PageFold.KeysValid;
    PassedSubjectIsLiveExactly(s, rule, page, at, x);
  }

  lemma TwoAreDecided(rule: PageFold.Rule, a: PageFold.Observation, b: PageFold.Observation, at: Instant)
    requires Scan.ObservationValid(a) && Scan.ObservationValid(b) && at != ZERO_TIME
    requires OutcomeKeyValid(PageFold.OutcomeKeyOf(rule, a)) && OutcomeKeyValid(PageFold.OutcomeKeyOf(rule, b))
    ensures PageFold.Materialize(map[], rule, [a, b], at).Ok?
  {
    assert Front([a, b]) == [a] && Front([a]) == [];
    hide OutcomeKeyValid, Scan.ObservationValid;
    assert PageFold.Materialize(map[], rule, [], at).Ok?;
    assert PageFold.Materialize(map[], rule, [a], at).Ok?;
  }

  lemma TwoAreReported(rule: PageFold.Rule, a: PageFold.Observation, b: PageFold.Observation, records: seq<Outcome>,
                       applied: set<string>, at: Instant)
    requires |records| == 2 && a.status == Scan.Violated && a.evidence == "" && b.status == Scan.Passed
    requires at != ZERO_TIME && FindingKeyValid(PageFold.FindingKeyOf(rule, a)) && a.subject == b.subject
    ensures PageFold.ReportAll(Book(map[], map[], 0), rule, [a, b], records, applied, at).1.Ok?
  {
    var book := Book(map[], map[], 0);
    assert Front([a, b]) == [a] && Front([a]) == [] && Front(Front(records)) == [];
    assert PageFold.ReportAll(book, rule, [], [], applied, at) == (book, Ok([]));
    assert PageFold.Skips(book, rule, b);
    hide FindingKeyValid;
    assert PageFold.ReportAll(book, rule, [a], Front(records), applied, at).1.Ok?;
  }

  /** What one call adds under the key. */
  ghost function AddedBy(s: Rules.Store, op: Op, k: OutcomeKey): seq<F.Sample> {
    match op
    case Evaluate(rule, page, at) => if KeyOf(rule) in s.records then Added(s.outcomes, rule, page, at, k) else []
    case Overlap(rule, page, at) => Added(s.outcomes, rule, page, at, k)
    case _ => []
  }

  /** The samples of the subject that were applied since the version was last deleted. */
  ghost function Samples(ops: seq<Op>, k: OutcomeKey): seq<F.Sample> {
    if ops == [] || k !in Reached(ops).outcomes then []
    else Samples(Front(ops), k) + AddedBy(Reached(Front(ops)), Last(ops), k)
  }

  lemma OthersKeepOutcomes(s: Rules.Store, op: Op, k: OutcomeKey)
    requires WellFormed(s) && !op.Evaluate? && !op.Overlap? && k in RuleTheorems.Apply(s, op).outcomes
    ensures Lookup(RuleTheorems.Apply(s, op).outcomes, k) == Lookup(s.outcomes, k)
  {
    match op
    case ClaimRuns(owner, now, leaseFor, limit) =>
      ClaimChangesSchedules(s, owner, now, leaseFor, limit); hide Rules.ClaimDue;
    case _ => hide Rules.ClaimDue, Folded, TransitionFinding;
  }

  lemma SamplesSnoc(key: OutcomeKey, samples: seq<F.Sample>, sample: F.Sample, existing: Option<Outcome>)
    requires F.Outcome(key, samples) == Ok(existing)
    ensures var next := Outcomes.Apply(existing, key, sample.observation, sample.at);
            next.Ok? ==> F.Outcome(key, samples + [sample]) == Ok(Some(next.value))
  {
    assert Front(samples + [sample]) == samples && Last(samples + [sample]) == sample;
    hide Outcomes.Apply;
  }

  /** The step keeps the account: the stored outcome is the fold of the samples. */
  lemma StepAccounts(s: Rules.Store, op: Op, k: OutcomeKey, samples: seq<F.Sample>)
    requires WellFormed(s) && F.Outcome(k, samples) == Ok(Lookup(s.outcomes, k))
    requires k in RuleTheorems.Apply(s, op).outcomes
    ensures F.Outcome(k, samples + AddedBy(s, op, k)) == Ok(Lookup(RuleTheorems.Apply(s, op).outcomes, k))
  {
    var added := AddedBy(s, op, k);
    assert samples + [] == samples;
    if op.Evaluate? { FoldAdds(s, op.folding, op.page, op.at, k); }
    else if op.Overlap? { FoldAdds(s, op.late, op.latePage, op.lateAt, k); }
    else { OthersKeepOutcomes(s, op, k); }
    if added != [] {
      assert added == [added[0]];
      SamplesSnoc(k, samples, added[0], Lookup(s.outcomes, k));
    }
    hide Folded, Added, Outcomes.Apply, F.Outcome, Rules.ClaimDue, Rules.DeleteRule, TransitionFinding;
  }

  lemma {:induction false} OutcomeIsItsSamples(ops: seq<Op>, k: OutcomeKey)
    ensures F.Outcome(k, Samples(ops, k)) == Ok(Lookup(Reached(ops).outcomes, k))
  {
    if ops != [] {
      OutcomeIsItsSamples(Front(ops), k);
      ReachedSnoc(ops);
      hide Reached, RuleTheorems.Apply, F.Outcome;
      if k in Reached(ops).outcomes { StepAccounts(Reached(Front(ops)), Last(ops), k, Samples(Front(ops), k)); }
    }
    assert F.Outcome(k, []) == Ok(None);
  }

  /** In every run the stored outcome of a subject is the latest sample applied, and its
      streak is exactly the run of inconclusive samples at the end of those applied since
      its version was last deleted: as long, begun at its first, and escalated when it has
      lasted for the grace period. */
  lemma StoredStreakIsExact(ops: seq<Op>, k: OutcomeKey, grace: int, now: Instant)
    requires k in Reached(ops).outcomes
    ensures var o, samples := Reached(ops).outcomes[k], Samples(ops, k);
            var doubt := F.Doubt(samples);
            && samples != [] && doubt <= |samples|
            && o.key == k && o.status == Last(samples).observation.status && o.lastObservedAt == Last(samples).at
            && o.unknownCount == doubt
            && o.firstUnknownAt == (if doubt == 0 then ZERO_TIME else samples[|samples| - doubt].at)
            && (EscalationDue(o, grace, now) <==>
                  doubt > 0 && (grace <= 0 || samples[|samples| - doubt].at + grace <= now))
  {
    hide Reached, Samples, F.Outcome, F.Doubt, EscalationDue;
    OutcomeIsItsSamples(ops, k);
    NothingSampled(k);
    F.StreakIsExact(k, Samples(ops, k));
    F.EscalationMeansLastingDoubt(k, Samples(ops, k), grace, now);
  }

  lemma NothingSampled(k: OutcomeKey)
    ensures F.Outcome(k, []) == Ok(None)
  {
  }
}
