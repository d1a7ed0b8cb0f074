/** What holds of Rules, their schedules and what is derived from them, over whole runs. */
module RuleTheorems {
  import opened Basics
  import opened Outcomes
  import opened Findings
  import PageFold
  import FoldTheorems
  import opened Rules

  /** Calls on the stores. An `Evaluate` folds a page for a version that exists; an
      `Overlap` is the tail of an evaluation that read its version earlier. */
  datatype Op =
    | Save(rule: Rule, version: int, savedAt: Instant)
    | Explaining(explained: RuleKey, explanation: Explanation)
    | SetTo(key: RuleKey, status: RuleStatus, setAt: Instant)
    | Delete(request: DeleteRequest)
    | ClaimRuns(owner: string, now: Instant, leaseFor: int, limit: int)
    | EndOf(lease: ScheduleLease, how: RunEnd)
    | Evaluate(folding: PageFold.Rule, page: seq<PageFold.Observation>, at: Instant)
    | Overlap(late: PageFold.Rule, latePage: seq<PageFold.Observation>, lateAt: Instant)
    | Decide(finding: FindingKey, decision: Decision)

  ghost predicate WellFormed(s: Store) {
    && (forall k | k in s.records :: s.records[k].key == k && k.version >= 1)
    && PageFold.WellKeyed(s.outcomes) && s.book.events.Keys <= s.book.records.Keys
    && OneEnabled(s)
  }

  function KeyOf(rule: PageFold.Rule): RuleKey { RuleKey(rule.id, rule.version) }

  function Folded(s: Store, rule: PageFold.Rule, page: seq<PageFold.Observation>, at: Instant): Store {
    var folded := PageFold.FoldPage(PageFold.State(s.outcomes, s.book), rule, page, at).0;
    s.(outcomes := folded.outcomes, book := folded.book)
  }

  ghost function Apply(s: Store, op: Op): Store
    requires WellFormed(s)
  {
    match op
    case Save(rule, version, at) => SaveRule(s, AsDraft(rule, version, at)).0
    case Explaining(key, explanation) => Explain(s, key, explanation).0
    case SetTo(key, status, at) => SetStatus(s, key, status, at).0
    case Delete(request) => DeleteRule(s, request).0
    case ClaimRuns(owner, now, leaseFor, limit) => ClaimDue(s, owner, now, leaseFor, limit).0
    case EndOf(lease, how) => EndRun(s, lease, how).0
    case Evaluate(rule, page, at) => if KeyOf(rule) in s.records then Folded(s, rule, page, at) else s
    case Overlap(rule, page, at) => Folded(s, rule, page, at)
    case Decide(key, decision) => s.(book := TransitionFinding(s.book, key, decision).0)
  }

  // ---------------------------------------------------------- one enabled version

  lemma SetStatusKeepsOne(s: Store, key: RuleKey, status: RuleStatus, at: Instant)
    requires WellFormed(s)
    ensures WellFormed(SetStatus(s, key, status, at).0)
  {
  }

  lemma DeleteKeepsOne(s: Store, request: DeleteRequest)
    requires WellFormed(s)
    ensures WellFormed(DeleteRule(s, request).0)
  {
  }

  lemma DecideKeepsOne(s: Store, key: FindingKey, decision: Decision)
    requires WellFormed(s)
    ensures WellFormed(s.(book := TransitionFinding(s.book, key, decision).0))
  {
    hide Decided;
  }

  lemma {:induction false} ClaimAllChangesSchedules(s: Store, keys: seq<RuleKey>, owner: string, now: Instant,
                                                    leaseFor: int)
    requires forall i | 0 <= i < |keys| :: keys[i] in s.records
    ensures var s' := ClaimAll(s, keys, owner, now, leaseFor).0; s' == s.(schedules := s'.schedules)
    ensures forall k | k in s.schedules :: k in ClaimAll(s, keys, owner, now, leaseFor).0.schedules
    ensures forall k | k in ClaimAll(s, keys, owner, now, leaseFor).0.schedules :: k in s.schedules || k in s.records
  {
    if keys != [] { ClaimAllChangesSchedules(s, Front(keys), owner, now, leaseFor); }
  }

  lemma ClaimChangesSchedules(s: Store, owner: string, now: Instant, leaseFor: int, limit: int)
    requires OneEnabled(s)
    ensures var s' := ClaimDue(s, owner, now, leaseFor, limit).0; s' == s.(schedules := s'.schedules)
    ensures forall k | k in s.schedules :: k in ClaimDue(s, owner, now, leaseFor, limit).0.schedules
    ensures forall k | k in ClaimDue(s, owner, now, leaseFor, limit).0.schedules :: k in s.schedules || k in s.records
  {
    if ClaimAccepted(owner, now, leaseFor, limit) {
      ClaimableAreRecords(s, now, limit);
      ClaimAllChangesSchedules(s, Claimable(s, now, limit), owner, now, leaseFor);
    }
  }

  // --------------------------------------------------------- folding is framed

  ghost predicate BookOk(book: Book) { book.events.Keys <= book.records.Keys }

  lemma ReportStaysOk(book: Book, rule: PageFold.Rule, o: PageFold.Observation, outcome: Outcome, at: Instant)
    requires BookOk(book)
    ensures BookOk(PageFold.Report(book, rule, o, outcome, at).0)
  {
  }

  lemma {:induction false} ReportAllStaysOk(book: Book, rule: PageFold.Rule, page: seq<PageFold.Observation>,
                                            records: seq<Outcome>, applied: set<string>, at: Instant)
    requires |records| == |page| && BookOk(book)
    ensures BookOk(PageFold.ReportAll(book, rule, page, records, applied, at).0)
  {
    hide PageFold.Report, BookOk;
    if page != [] {
      ReportAllStaysOk(book, rule, Front(page), Front(records), applied, at);
      var before := PageFold.ReportAll(book, rule, Front(page), Front(records), applied, at).0;
      ReportStaysOk(before, rule, Last(page), Last(records), at);
    }
  }

  lemma FoldKeepsWellFormed(s: Store, rule: PageFold.Rule, page: seq<PageFold.Observation>, at: Instant)
    requires WellFormed(s)
    ensures WellFormed(Folded(s, rule, page, at))
  {
    var records := PageFold.Materialize(s.outcomes, rule, page, at);
    if records.Ok? {
      FoldTheorems.SaveAllStaysKeyed(s.outcomes, records.value);
      var applied := PageFold.SaveAll(s.outcomes, records.value).1;
      ReportAllStaysOk(s.book, rule, page, records.value, applied, at);
    }
    hide PageFold.Materialize, PageFold.SaveAll, PageFold.ReportAll, PageFold.KeysValid, PageFold.WellKeyed;
  }

  lemma ApplyKeepsWellFormed(s: Store, op: Op)
    requires WellFormed(s)
    ensures WellFormed(Apply(s, op))
  {
    match op
    case SetTo(key, status, at) => SetStatusKeepsOne(s, key, status, at);
    case Delete(request) => DeleteKeepsOne(s, request);
    case ClaimRuns(owner, now, leaseFor, limit) => ClaimChangesSchedules(s, owner, now, leaseFor, limit); hide ClaimDue;
    case Evaluate(rule, page, at) => FoldKeepsWellFormed(s, rule, page, at); hide Folded;
    case Overlap(rule, page, at) => FoldKeepsWellFormed(s, rule, page, at); hide Folded;
    case Decide(key, decision) => DecideKeepsOne(s, key, decision); hide TransitionFinding;
    case _ => hide ClaimDue, Folded, TransitionFinding;
  }

  ghost function Run(s: Store, ops: seq<Op>): (s': Store)
    requires WellFormed(s)
    ensures WellFormed(s')
    decreases |ops|
  {
    if ops == [] then s
    else
      var before := Run(s, Front(ops));
      ApplyKeepsWellFormed(before, Last(ops));
      Apply(before, Last(ops))
  }

  lemma EmptyIsWellFormed()
    ensures WellFormed(EMPTY_STORE)
  {
  }

  ghost function Reached(ops: seq<Op>): (s: Store)
    ensures WellFormed(s)
  {
    EmptyIsWellFormed();
    Run(EMPTY_STORE, ops)
  }

  /** In every run no Rule has two enabled versions. */
  lemma AtMostOneVersionIsEnabled(ops: seq<Op>, a: RuleKey, b: RuleKey)
    requires var s := Reached(ops);
             a in s.records && b in s.records && a.id == b.id && s.records[a].status == Enabled
               && s.records[b].status == Enabled
    ensures a == b
  {
    assert OneEnabled(Reached(ops));
    hide Reached;
  }

  // ------------------------------------------------------------------- deletion

  /** The map lost `n` keys and kept the rest as it was. */
  ghost predicate Shrinks<K, V>(m: map<K, V>, m': map<K, V>, n: nat) {
    m'.Keys <= m.Keys && (forall k | k in m' :: m'[k] == m[k]) && |m.Keys - m'.Keys| == n
  }

  lemma Shrinking<K, V>(m: map<K, V>, gone: set<K>)
    requires gone <= m.Keys
    ensures Shrinks(m, m - gone, |gone|) && m.Keys - (m - gone).Keys == gone
  {
    assert m.Keys - (m - gone).Keys == gone;
  }

  /** Nothing is kept for the version. */
  ghost predicate Clean(s: Store, k: RuleKey) {
    && k !in s.explanations && k !in s.schedules
    && (forall o | o in s.outcomes :: o.ruleId != k.id || o.version != k.version)
    && (forall f | f in s.book.records :: f.ruleId != k.id || f.version != k.version)
    && (forall f | f in s.book.events :: f.ruleId != k.id || f.version != k.version)
  }

  /** What the deletion takes is what it reports. */
  ghost predicate Takes(s: Store, s': Store, report: Deletion) {
    && Shrinks(s.records, s'.records, |report.versions|)
    && Shrinks(s.explanations, s'.explanations, report.explanations)
    && Shrinks(s.schedules, s'.schedules, report.schedules)
    && Shrinks(s.outcomes, s'.outcomes, report.outcomes)
    && Shrinks(s.book.records, s'.book.records, report.findings)
    && (forall k | k in s'.book.records :: History(s'.book, k) == History(s.book, k))
    && |EventsOf(s.book.records.Keys - s'.book.records.Keys, s.book)| == report.events
  }

  predicate MayDelete(s: Store, request: DeleteRequest) {
    var plan := Plan(s, request);
    IdOk(request.id) && request.version >= 0 && plan.versions != {} && plan.enabled == {}
      && (plan.findings == 0 || request.purge)
  }

  lemma DoomedVersions(s: Store, request: DeleteRequest)
    ensures |DoomedKeys(request.id, InScope(s, request), s.records)| == |InScope(s, request)|
  {
    SameCount(request.id, InScope(s, request), DoomedKeys(request.id, InScope(s, request), s.records));
  }

  lemma {:induction false} SameCount(id: string, versions: set<int>, keys: set<RuleKey>)
    requires forall v :: v in versions <==> RuleKey(id, v) in keys
    requires forall k | k in keys :: k.id == id
    ensures |keys| == |versions|
    decreases |versions|
  {
    if versions == {} {
      assert forall k | k in keys :: k == RuleKey(id, k.version);
      assert keys == {};
    } else {
      var v := Member(versions);
      SameCount(id, versions - {v}, keys - {RuleKey(id, v)});
    }
  }

  lemma FindingsTaken(s: Store, request: DeleteRequest)
    requires MayDelete(s, request)
    ensures var gone := DoomedFindings(request.id, InScope(s, request), s.book);
            Removed(s, request).book == Book(s.book.records - gone, s.book.events - gone, s.book.nextSeq)
  {
    if !request.purge { assert DoomedFindings(request.id, InScope(s, request), s.book) == {}; }
  }

  lemma RemovalTakes(s: Store, request: DeleteRequest)
    requires MayDelete(s, request)
    ensures Takes(s, Removed(s, request), Plan(s, request))
  {
    var id, versions := request.id, InScope(s, request);
    var gone := DoomedFindings(id, versions, s.book);
    FindingsTaken(s, request);
    DoomedVersions(s, request);
    Shrinking(s.records, DoomedKeys(id, versions, s.records));
    Shrinking(s.explanations, DoomedKeys(id, versions, s.explanations));
    Shrinking(s.schedules, DoomedKeys(id, versions, s.schedules));
    Shrinking(s.outcomes, DoomedOutcomes(id, versions, s.outcomes));
    Shrinking(s.book.records, gone);
    HistoryStays(s.book, gone);
    hide Shrinks, DoomedKeys, DoomedOutcomes, DoomedFindings, EventsOf, InScope, History;
  }

  lemma HistoryStays(book: Book, gone: set<FindingKey>)
    ensures forall k | k in book.records - gone ::
              History(Book(book.records - gone, book.events - gone, book.nextSeq), k) == History(book, k)
  {
  }

  lemma NothingIsLeft(s: Store, request: DeleteRequest, k: RuleKey)
    requires WellFormed(s) && MayDelete(s, request) && k in s.records && k !in Removed(s, request).records
    ensures Clean(Removed(s, request), k)
  {
    FindingsTaken(s, request);
  }

  /** A dry run changes nothing and reports, to the number, what the applied call then
      removes; everything else stays as it is, and nothing is left of the deleted versions. */
  lemma DryRunForetellsTheDeletion(s: Store, request: DeleteRequest)
    requires WellFormed(s) && !request.dryRun && DeleteRule(s, request.(dryRun := true)).2.Ok?
    ensures var (same, foretold, _) := DeleteRule(s, request.(dryRun := true));
            var (after, report, result) := DeleteRule(s, request);
            && same == s && !foretold.applied
            && result.Ok? && report == foretold.(applied := true)
            && Takes(s, after, report)
            && (forall k | k in s.records :: k in after.records <==>
                !(k.id == request.id && k.version in report.versions))
            && (forall k | k in s.records && k !in after.records :: Clean(after, k))
  {
    SamePlan(s, request, request.(dryRun := true));
    assert MayDelete(s, request);
    RemovalTakes(s, request);
    forall k | k in s.records && k !in Removed(s, request).records ensures Clean(Removed(s, request), k) {
      NothingIsLeft(s, request, k);
    }
    KeptVersions(s, request);
    TakesIgnoresTheFlag(s, Removed(s, request), Plan(s, request));
    hide Plan, Removed, Takes, Clean, WellFormed, IdOk;
  }

  lemma TakesIgnoresTheFlag(s: Store, s': Store, report: Deletion)
    requires Takes(s, s', report)
    ensures Takes(s, s', report.(applied := true))
  {
  }

  lemma KeptVersions(s: Store, request: DeleteRequest)
    ensures var after, versions := Removed(s, request), Plan(s, request).versions;
            forall k | k in s.records :: k in after.records <==> !(k.id == request.id && k.version in versions)
  {
  }

  lemma SamePlan(s: Store, a: DeleteRequest, b: DeleteRequest)
    requires a.id == b.id && a.version == b.version
    ensures Plan(s, a) == Plan(s, b)
  {
    assert InScope(s, a) == InScope(s, b) && EnabledIn(s, a) == EnabledIn(s, b);
  }

  // -------------------------------------------------------- nothing is left over

  /** Nothing is kept for a version that does not exist. */
  ghost predicate Tidy(s: Store) { forall k | k !in s.records :: Clean(s, k) }

  lemma FoldTouchesItsRule(s: Store, rule: PageFold.Rule, page: seq<PageFold.Observation>, at: Instant, k: RuleKey)
    requires WellFormed(s) && k != KeyOf(rule) && Clean(s, k)
    ensures Clean(Folded(s, rule, page, at), k)
  {
    var s' := Folded(s, rule, page, at);
    var records := PageFold.Materialize(s.outcomes, rule, page, at);
    if page != [] && records.Ok? {
      var (outcomes, applied) := PageFold.SaveAll(s.outcomes, records.value);
      var book := PageFold.ReportAll(s.book, rule, page, records.value, applied, at).0;
      forall o | o in outcomes ensures o.ruleId != k.id || o.version != k.version {
        if o.ruleId == k.id && o.version == k.version {
          FoldTheorems.SaveTouchesThePage(s.outcomes, rule, page, at, o);
        }
      }
      forall f | f in book.records || f in book.events ensures f.ruleId != k.id || f.version != k.version {
        if f.ruleId == k.id && f.version == k.version {
          FoldTheorems.ReportsTouchThePage(s.book, rule, page, records.value, applied, at, f);
          ReportAllStaysOk(s.book, rule, page, records.value, applied, at);
        }
      }
      hide PageFold.Materialize, PageFold.SaveAll, PageFold.ReportAll;
    }
  }

  /** A fold of a version that is there keeps the others clean. */
  lemma FoldStaysTidy(s: Store, rule: PageFold.Rule, page: seq<PageFold.Observation>, at: Instant)
    requires WellFormed(s) && Tidy(s) && KeyOf(rule) in s.records
    ensures Tidy(Folded(s, rule, page, at))
  {
    var s' := Folded(s, rule, page, at);
    forall k | k !in s'.records ensures Clean(s', k) { FoldTouchesItsRule(s, rule, page, at, k); }
  }

  lemma StepStaysTidy(s: Store, op: Op)
    requires WellFormed(s) && Tidy(s) && !op.Overlap?
    ensures Tidy(Apply(s, op))
  {
    var s' := Apply(s, op);
    match op
    case Delete(request) => DeleteStaysTidy(s, request);
    case ClaimRuns(owner, now, leaseFor, limit) =>
      ClaimChangesSchedules(s, owner, now, leaseFor, limit);
      hide ClaimDue;
      forall k | k !in s'.records ensures Clean(s', k) { assert Clean(s, k); }
    case Evaluate(rule, page, at) =>
      if KeyOf(rule) in s.records { FoldStaysTidy(s, rule, page, at); }
    case _ => QuietStepStaysTidy(s, op);
  }

  lemma QuietStepStaysTidy(s: Store, op: Op)
    requires WellFormed(s) && Tidy(s) && (op.Save? || op.Explaining? || op.SetTo? || op.EndOf? || op.Decide?)
    ensures Tidy(Apply(s, op))
  {
    hide ClaimDue, Folded, DeleteRule, Decided;
    var s' := Apply(s, op);
    forall k | k !in s'.records ensures Clean(s', k) { assert Clean(s, k); }
  }

  lemma DeleteStaysTidy(s: Store, request: DeleteRequest)
    requires WellFormed(s) && Tidy(s)
    ensures Tidy(DeleteRule(s, request).0)
  {
    if MayDelete(s, request) && !request.dryRun {
      FindingsTaken(s, request);
      var s' := Removed(s, request);
      forall k | k !in s'.records ensures Clean(s', k) {
        if k in s.records { NothingIsLeft(s, request, k); } else { assert Clean(s, k); }
      }
    }
  }

  /** A page that is decided at all leaves an outcome for each of its subjects. */
  lemma {:induction false} SavesThePage(outcomes: OutcomeMap, rule: PageFold.Rule, page: seq<PageFold.Observation>,
                                        at: Instant, i: nat)
    requires PageFold.WellKeyed(outcomes) && PageFold.Materialize(outcomes, rule, page, at).Ok? && i < |page|
    ensures var records := PageFold.Materialize(outcomes, rule, page, at).value;
            PageFold.OutcomeKeyOf(rule, page[i]) in PageFold.SaveAll(outcomes, records).0
  {
    FoldTheorems.MaterializeSnoc(outcomes, rule, page, at);
    FoldTheorems.AppliedKey(outcomes, rule, Last(page), at);
    if i < |page| - 1 { SavesThePage(outcomes, rule, Front(page), at, i); }
  }

  lemma LeavesThePage(s: Store, rule: PageFold.Rule, page: seq<PageFold.Observation>, at: Instant, i: nat)
    requires WellFormed(s) && PageFold.Materialize(s.outcomes, rule, page, at).Ok? && i < |page|
    ensures PageFold.OutcomeKeyOf(rule, page[i]) in Folded(s, rule, page, at).outcomes
  {
    SavesThePage(s.outcomes, rule, page, at, i);
    hide PageFold.Materialize, PageFold.SaveAll, PageFold.ReportAll, PageFold.KeysValid;
  }

  /** Whether the call leaves nothing behind for a version that does not exist: an
      evaluation that outlives its version must have nothing to write. */
  ghost predicate Harmless(s: Store, op: Op) {
    op.Overlap? ==>
      || KeyOf(op.late) in s.records
      || op.latePage == []
      || PageFold.Materialize(s.outcomes, op.late, op.latePage, op.lateAt).Err?
  }

  lemma OverlapStaysTidy(s: Store, op: Op)
    requires WellFormed(s) && Tidy(s) && op.Overlap?
    ensures Tidy(Apply(s, op)) <==> Harmless(s, op)
  {
    var rule, page, at := op.late, op.latePage, op.lateAt;
    if KeyOf(rule) in s.records { FoldStaysTidy(s, rule, page, at); }
    else if page == [] || PageFold.Materialize(s.outcomes, rule, page, at).Err? {
      assert Folded(s, rule, page, at) == s;
    }
    else {
      LeavesThePage(s, rule, page, at, 0);
      assert KeyOf(rule) !in Folded(s, rule, page, at).records;
      assert !Clean(Folded(s, rule, page, at), KeyOf(rule)) by { hide Folded; }
      hide Folded, Clean;
    }
  }

  ghost predicate AllHarmless(ops: seq<Op>) {
    ops != [] ==> AllHarmless(Front(ops)) && Harmless(Reached(Front(ops)), Last(ops))
  }

  /** At no point of the run anything is kept for a version that does not exist. */
  ghost predicate AlwaysTidy(ops: seq<Op>) {
    Tidy(Reached(ops)) && (ops != [] ==> AlwaysTidy(Front(ops)))
  }

  /** A version number that is used again starts clean, throughout a run, exactly if no
      evaluation of the run writes for a version that is gone. */
  lemma {:induction false} ReusedVersionStartsClean(ops: seq<Op>)
    ensures AlwaysTidy(ops) <==> AllHarmless(ops)
  {
    if ops != [] {
      var before, op := Reached(Front(ops)), Last(ops);
      ReusedVersionStartsClean(Front(ops));
      hide Tidy, Harmless, Reached;
      if AlwaysTidy(Front(ops)) {
        ReachedSnoc(ops);
        hide Apply;
        if op.Overlap? { OverlapStaysTidy(before, op); }
        else {
          StepStaysTidy(before, op);
          OnlyOverlapsHarm(before, op);
        }
      }
    } else { StartIsTidy(); }
  }

  lemma ReachedIsRun(ops: seq<Op>)
    ensures WellFormed(EMPTY_STORE) && Reached(ops) == Run(EMPTY_STORE, ops)
  {
    EmptyIsWellFormed();
  }

  lemma RunNothing(s: Store)
    requires WellFormed(s)
    ensures Run(s, []) == s
  {
    hide WellFormed;
  }

  lemma RunSnoc(s: Store, ops: seq<Op>)
    requires WellFormed(s) && ops != []
    ensures Run(s, ops) == Apply(Run(s, Front(ops)), Last(ops))
  {
    hide Apply, WellFormed;
  }

  lemma ReachedSnoc(ops: seq<Op>)
    requires ops != []
    ensures Reached(ops) == Apply(Reached(Front(ops)), Last(ops))
  {
    hide Apply;
  }

  lemma StartIsTidy()
    ensures Tidy(Reached([]))
  {
  }

  lemma OnlyOverlapsHarm(s: Store, op: Op)
    requires !op.Overlap?
    ensures Harmless(s, op)
  {
  }

  lemma WrittenThenSaved(rule: Rule, folding: PageFold.Rule, page: seq<PageFold.Observation>, at: Instant, i: nat)
    requires RuleValid(rule) && PageFold.Materialize(map[], folding, page, at).Ok? && i < |page|
    ensures WellFormed(EMPTY_STORE) && WellFormed(Apply(EMPTY_STORE, Overlap(folding, page, at)))
    ensures var s := Apply(Apply(EMPTY_STORE, Overlap(folding, page, at)), Save(rule, rule.key.version, 1));
            && rule.key in s.records && s.records[rule.key].status == Draft
            && PageFold.OutcomeKeyOf(folding, page[i]) in s.outcomes
  {
    LeavesThePage(EMPTY_STORE, folding, page, at, i);
    ApplyKeepsWellFormed(EMPTY_STORE, Overlap(folding, page, at));
    assert Folded(EMPTY_STORE, folding, page, at).records == map[] by { hide PageFold.FoldPage; }
    hide Folded, PageFold.Materialize, WellFormed, PageFold.OutcomeKeyOf;
  }

  lemma RunTwo(s: Store, a: Op, b: Op)
    requires WellFormed(s)
    ensures WellFormed(Apply(s, a)) && Run(s, [a, b]) == Apply(Apply(s, a), b)
  {
    ApplyKeepsWellFormed(s, a);
    hide Apply, WellFormed;
    assert Front([a, b]) == [a] && Front([a]) == [];
    assert Run(s, []) == s;
    assert Run(s, [a]) == Apply(s, a);
  }

  lemma {:induction false} RunConcat(s: Store, a: seq<Op>, b: seq<Op>)
    requires WellFormed(s)
    ensures Run(s, a + b) == Run(Run(s, a), b)
  {
    if b == [] { assert a + b == a; }
    else {
      assert Front(a + b) == a + Front(b) && Last(a + b) == Last(b);
      RunConcat(s, a, Front(b));
      hide Apply, WellFormed;
    }
  }

  lemma TwoMore(ops: seq<Op>, s: Store, a: Op, b: Op)
    requires WellFormed(EMPTY_STORE) && Run(EMPTY_STORE, ops) == s
    ensures WellFormed(s) && WellFormed(Apply(s, a)) && Reached(ops + [a, b]) == Apply(Apply(s, a), b)
  {
    RunConcat(EMPTY_STORE, ops, [a, b]);
    RunTwo(s, a, b);
    hide Run, Apply, WellFormed;
  }

  /** The request asks for this version, alone or with the others of its Rule. */
  predicate Covers(request: DeleteRequest, key: RuleKey) {
    request.id == key.id && (request.version == 0 || request.version == key.version)
  }

  /** A store with one version and at most its schedule. */
  function Single(rule: Rule, schedules: map<RuleKey, Schedule>): Store {
    Store(map[rule.key := rule], map[], schedules, map[], Book(map[], map[], 0))
  }

  lemma DeletingTheOnlyOne(rule: Rule, schedules: map<RuleKey, Schedule>, request: DeleteRequest)
    requires IdOk(rule.key.id) && rule.key.version >= 1 && rule.status != Enabled && schedules.Keys <= {rule.key}
    requires Covers(request, rule.key) && !request.dryRun
    ensures DeleteRule(Single(rule, schedules), request).0 == EMPTY_STORE
  {
    var s := Single(rule, schedules);
    assert rule.key in s.records;
    assert InScope(s, request) == {rule.key.version};
    assert EnabledIn(s, request) == {};
    assert DoomedFindings(request.id, {rule.key.version}, s.book) == {};
    assert EventsOf({}, s.book) == {};
    assert DoomedKeys(request.id, {rule.key.version}, s.records) == {rule.key};
    assert DoomedKeys(request.id, {rule.key.version}, s.schedules) == schedules.Keys;
    assert Removed(s, request) == EMPTY_STORE;
  }
}
