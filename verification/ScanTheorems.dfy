/** A walk over fixed rows sees every row once, and when it does not. */
module ScanTheorems {
  import opened Basics
  import opened Scan

  // -------------------------------------------------------------- strict order

  lemma PastIsStrict(walk: Walk, a: Row, b: Row)
    ensures !Past(walk, PositionOf(a), a)
    ensures Past(walk, PositionOf(a), b) ==> !Past(walk, PositionOf(b), a)
  {
    StringLessIrreflexive(a.subject);
    if StringLess(a.subject, b.subject) && StringLess(b.subject, a.subject) {
      StringLessTransitive(a.subject, b.subject, a.subject);
    }
  }

  lemma PastIsTransitive(walk: Walk, p: Position, a: Row, b: Row)
    requires Past(walk, p, a) && Past(walk, PositionOf(a), b)
    ensures Past(walk, p, b)
  {
    if StringLess(p.subject, a.subject) && StringLess(a.subject, b.subject) {
      StringLessTransitive(p.subject, a.subject, b.subject);
    }
  }

  ghost predicate Ordered(walk: Walk, rows: seq<Row>) {
    forall i, j | 0 <= i < j < |rows| :: Past(walk, PositionOf(rows[i]), rows[j])
  }

  // ------------------------------------------------------------------ filtering

  lemma {:induction false} FilterAll(walk: Walk, p: Position, rows: seq<Row>)
    requires forall i | 0 <= i < |rows| :: Past(walk, p, rows[i])
    ensures Filter(walk, p, rows) == rows
  {
    if rows != [] { FilterAll(walk, p, rows[1..]); }
  }

  /** In an ordered table the rows past a position are a suffix. */
  lemma {:induction false} FilterIsSuffix(walk: Walk, p: Position, rows: seq<Row>) returns (k: nat)
    requires Ordered(walk, rows)
    ensures k <= |rows| && Filter(walk, p, rows) == rows[k..]
    ensures forall i | 0 <= i < |rows| :: Past(walk, p, rows[i]) <==> k <= i
  {
    if rows == [] { k := 0; }
    else if Past(walk, p, rows[0]) {
      forall i | 0 <= i < |rows| ensures Past(walk, p, rows[i]) {
        if i > 0 { PastIsTransitive(walk, p, rows[0], rows[i]); }
      }
      FilterAll(walk, p, rows);
      k := 0;
    } else {
      var rest := FilterIsSuffix(walk, p, rows[1..]);
      k := rest + 1;
      assert rows[k..] == rows[1..][rest..];
      forall i | 0 < i < |rows| ensures Past(walk, p, rows[i]) <==> k <= i { assert rows[i] == rows[1..][i - 1]; }
    }
  }

  lemma {:induction false} FilterAtRow(walk: Walk, rows: seq<Row>, k: nat)
    requires Ordered(walk, rows) && k < |rows|
    ensures Filter(walk, PositionOf(rows[k]), rows) == rows[k + 1..]
  {
    PastIsStrict(walk, rows[k], rows[0]);
    if k == 0 {
      FilterAll(walk, PositionOf(rows[0]), rows[1..]);
    } else {
      PastIsStrict(walk, rows[0], rows[k]);
      FilterAtRow(walk, rows[1..], k - 1);
      assert rows[1..][k - 1] == rows[k] && rows[1..][k..] == rows[k + 1..];
    }
  }

  /** Only the order relation to the rows matters of a position. */
  lemma {:induction false} FilterAgrees(walk: Walk, p: Position, q: Position, rows: seq<Row>)
    requires forall i | 0 <= i < |rows| :: Past(walk, p, rows[i]) == Past(walk, q, rows[i])
    ensures Filter(walk, p, rows) == Filter(walk, q, rows)
  {
    if rows != [] { FilterAgrees(walk, p, q, rows[1..]); }
  }

  // ------------------------------------------------------------------ resuming

  function CursorOf(t: Table, row: Row): string {
    if t.walk.ByChange? then EncodeCursor(t.clock, row.changedAt, row.subject) else row.subject
  }

  /** The cursor made from row `i` leads back to it, as far as the rows of the table go. */
  ghost predicate LeadsBack(t: Table, i: nat)
    requires i < |t.rows|
  {
    forall j | 0 <= j < |t.rows| ::
      Past(t.walk, StartAt(t, CursorOf(t, t.rows[i])), t.rows[j]) == Past(t.walk, PositionOf(t.rows[i]), t.rows[j])
  }

  ghost predicate LeadBackFrom(t: Table, from: nat) { forall i | from <= i < |t.rows| :: LeadsBack(t, i) }

  /** A table the evaluator accepts, in whatever order its cursors lead. */
  ghost predicate Readable(t: Table) {
    && !t.walk.ForJob? && t.maxRows > 0 && Ordered(t.walk, t.rows)
    && forall i | 0 <= i < |t.rows| :: ObservationValid(Observe(t.rows[i]))
  }

  ghost predicate Sound(t: Table) { Readable(t) && LeadBackFrom(t, 0) }

  predicate LooksLikeCursor(clock: Clock, subject: string) {
    Stamp(subject).Some? && clock.parse(Stamp(subject).value).Some?
  }

  /** A row of a subject walk leads back if its subject does not look like a change cursor,
      a row of a change walk if it carries a time whose stamp reads back. */
  lemma PlainRowLeadsBack(t: Table, i: nat)
    requires i < |t.rows| && !t.walk.ForJob?
    requires if t.walk.ByChange? then t.rows[i].changedAt != ZERO_TIME && ReadsBack(t.clock, t.rows[i].changedAt)
             else !LooksLikeCursor(t.clock, t.rows[i].subject)
    ensures LeadsBack(t, i)
  {
    var row := t.rows[i];
    if t.walk.ByChange? { ChangeCursorReadsBack(t.clock, row.changedAt, row.subject); }
    else { assert DecodeCursor(t.clock, row.subject).subject == row.subject; }
  }

  lemma RemainingAfterRow(t: Table, k: nat)
    requires Readable(t) && k < |t.rows| && LeadsBack(t, k)
    ensures Remaining(t, CursorOf(t, t.rows[k])) == t.rows[k + 1..]
  {
    FilterAgrees(t.walk, StartAt(t, CursorOf(t, t.rows[k])), PositionOf(t.rows[k]), t.rows);
    FilterAtRow(t.walk, t.rows, k);
  }

  /** A page of an ordered table is accepted. */
  lemma PageIsAccepted(t: Table, cursor: string, k: nat)
    requires Readable(t) && k <= |t.rows| && Remaining(t, cursor) == t.rows[k..]
    requires forall i | k <= i < |t.rows| :: Past(t.walk, StartAt(t, cursor), t.rows[i])
    ensures var rows := Cut(t.rows[k..], t.maxRows);
            Page(t, cursor) == Ok(Evaluation(Observed(rows), NextCursor(t.clock, t.walk, rows),
                                             |t.rows| - k >= t.maxRows))
  {
    var rows := Cut(t.rows[k..], t.maxRows);
    forall i | 0 <= i < |rows| ensures MayFollow(t.walk, StartAt(t, cursor), rows, i) {
      assert rows[i] == t.rows[k + i];
      if i > 0 { assert rows[i - 1] == t.rows[k + i - 1]; }
    }
  }

  /** The cursor of a page's last row is new. */
  lemma CursorAdvances(t: Table, cursor: string, i: nat)
    requires Readable(t) && i < |t.rows| && LeadsBack(t, i) && Past(t.walk, StartAt(t, cursor), t.rows[i])
    ensures CursorOf(t, t.rows[i]) != "" && CursorOf(t, t.rows[i]) != cursor
  {
    CursorIsNotEmpty(t, i);
    PastIsStrict(t.walk, t.rows[i], t.rows[i]);
  }

  lemma CursorIsNotEmpty(t: Table, i: nat)
    requires Readable(t) && i < |t.rows|
    ensures CursorOf(t, t.rows[i]) != ""
  {
    assert Trim("") == "";
  }

  // ------------------------------------------------------------------ the theorem

  lemma ObservedConcat(a: seq<Row>, b: seq<Row>)
    ensures Observed(a) + Observed(b) == Observed(a + b)
  {
  }

  /** The number of rows a page budget covers. */
  function Reach(budget: nat, maxRows: nat): nat {
    if budget == 0 then 0 else maxRows + Reach(budget - 1, maxRows)
  }

  lemma {:induction false} ReachIsProduct(budget: nat, maxRows: nat)
    ensures Reach(budget, maxRows) == budget * maxRows
  {
    if budget > 0 {
      ReachIsProduct(budget - 1, maxRows);
      assert budget * maxRows == maxRows + (budget - 1) * maxRows;
    }
  }

  /** The walk stands before row `k`. */
  ghost predicate StandsAt(t: Table, cursor: string, k: nat) {
    k <= |t.rows| && Remaining(t, cursor) == t.rows[k..]
      && forall i | k <= i < |t.rows| :: Past(t.walk, StartAt(t, cursor), t.rows[i])
  }

  lemma StandsAfter(t: Table, cursor: string, k: nat)
    requires Readable(t) && StandsAt(t, cursor, k) && |t.rows| - k >= t.maxRows
    requires LeadsBack(t, k + t.maxRows - 1)
    ensures var row := t.rows[k + t.maxRows - 1];
            StandsAt(t, CursorOf(t, row), k + t.maxRows) && CursorOf(t, row) != "" && CursorOf(t, row) != cursor
  {
    var last := k + t.maxRows - 1;
    RemainingAfterRow(t, last);
    CursorAdvances(t, cursor, last);
  }

  /** The scan folded exactly the next rows its budget covers, each once and in order, and
      reports more exactly if that many were there to fold. */
  ghost predicate Sees(t: Table, k: nat, budget: nat, s: Summary)
    requires k <= |t.rows|
  {
    && s.failure.None?
    && Flat(s.pages) == Observed(Cut(t.rows[k..], Reach(budget, t.maxRows)))
    && (s.hasMore <==> |t.rows| - k >= Reach(budget, t.maxRows))
  }

  lemma SeesMore(t: Table, k: nat, budget: nat, rest: Summary)
    requires k + t.maxRows <= |t.rows| && budget > 0 && Sees(t, k + t.maxRows, budget - 1, rest)
    ensures Sees(t, k, budget, rest.(pages := [Observed(Cut(t.rows[k..], t.maxRows))] + rest.pages))
  {
    FoldedRows(t, k, rest.pages, Reach(budget - 1, t.maxRows));
  }

  lemma SeesNothing(t: Table, cursor: string, k: nat)
    requires k <= |t.rows|
    ensures Sees(t, k, 0, ScanFrom(t, cursor, 0, false))
  {
    assert Cut(t.rows[k..], 0) == [];
  }

  /** Standing before row `k`, a scan sees the rows from there on. Only the cursors of rows
      that can end a page have to lead back. */
  lemma {:induction false} ScanSeesTheRest(t: Table, cursor: string, k: nat, budget: nat)
    requires Readable(t) && StandsAt(t, cursor, k) && k <= |t.rows| && LeadBackFrom(t, k + t.maxRows - 1)
    ensures Sees(t, k, budget, ScanFrom(t, cursor, budget, false))
    decreases budget
  {
    hide Sees, Readable, StandsAt, ScanFrom, Observed, Cut, CursorOf, LeadsBack;
    Bounded(t, cursor, k);
    if budget == 0 {
      SeesNothing(t, cursor, k);
    } else if |t.rows| - k >= t.maxRows {
      StandsAfter(t, cursor, k);
      FullStep(t, cursor, k, budget);
      var next := CursorOf(t, t.rows[k + t.maxRows - 1]);
      ScanSeesTheRest(t, next, k + t.maxRows, budget - 1);
      SeesMore(t, k, budget, ScanFrom(t, next, budget - 1, false));
    } else {
      LastPage(t, cursor, k, budget);
    }
  }

  lemma Bounded(t: Table, cursor: string, k: nat)
    requires Readable(t) && StandsAt(t, cursor, k)
    ensures k <= |t.rows| && t.maxRows > 0
  {
  }

  lemma FullStep(t: Table, cursor: string, k: nat, budget: nat)
    requires Readable(t) && StandsAt(t, cursor, k) && |t.rows| - k >= t.maxRows && budget > 0
    requires LeadsBack(t, k + t.maxRows - 1)
    ensures var rest := ScanFrom(t, CursorOf(t, t.rows[k + t.maxRows - 1]), budget - 1, false);
            ScanFrom(t, cursor, budget, false) == rest.(pages := [Observed(Cut(t.rows[k..], t.maxRows))] + rest.pages)
  {
    PageIsAccepted(t, cursor, k);
    StandsAfter(t, cursor, k);
    hide Page, ScanFrom, Remaining;
    FullPage(t, cursor, k, budget);
  }

  lemma FoldedRows(t: Table, k: nat, rest: seq<seq<Observation>>, n: nat)
    requires k + t.maxRows <= |t.rows| && Flat(rest) == Observed(Cut(t.rows[k + t.maxRows..], n))
    ensures Flat([Observed(Cut(t.rows[k..], t.maxRows))] + rest) == Observed(Cut(t.rows[k..], t.maxRows + n))
  {
    var page, more := Cut(t.rows[k..], t.maxRows), Cut(t.rows[k + t.maxRows..], n);
    assert t.rows[k..][t.maxRows..] == t.rows[k + t.maxRows..];
    SplitCut(t.rows[k..], t.maxRows, n);
    FlatCons(Observed(page), rest);
    ObservedConcat(page, more);
    hide Flat, Cut, Observed;
  }

  lemma FlatCons(page: seq<Observation>, rest: seq<seq<Observation>>)
    ensures Flat([page] + rest) == page + Flat(rest)
  {
    assert ([page] + rest)[1..] == rest;
  }

  lemma FlatOne(page: seq<Observation>)
    ensures Flat([page]) == page
  {
    assert [page] + [] == [page];
    FlatCons(page, []);
  }

  lemma LastPage(t: Table, cursor: string, k: nat, budget: nat)
    requires Readable(t) && StandsAt(t, cursor, k) && k <= |t.rows| && |t.rows| - k < t.maxRows && budget > 0
    ensures Sees(t, k, budget, ScanFrom(t, cursor, budget, false))
  {
    PageIsAccepted(t, cursor, k);
    assert Cut(t.rows[k..], t.maxRows) == t.rows[k..];
    assert ScanFrom(t, cursor, budget, false) == Summary([Observed(t.rows[k..])], false, "", None);
    hide Page, ScanFrom;
    FlatOne(Observed(t.rows[k..]));
    assert Cut(t.rows[k..], Reach(budget, t.maxRows)) == t.rows[k..];
  }

  lemma FullPage(t: Table, cursor: string, k: nat, budget: nat)
    requires Readable(t) && k <= |t.rows| && |t.rows| - k >= t.maxRows && budget > 0
    requires Page(t, cursor)
             == Ok(Evaluation(Observed(Cut(t.rows[k..], t.maxRows)),
                              NextCursor(t.clock, t.walk, Cut(t.rows[k..], t.maxRows)), true))
    requires var next := CursorOf(t, t.rows[k + t.maxRows - 1]); next != "" && next != cursor
    ensures var next := CursorOf(t, t.rows[k + t.maxRows - 1]);
            var rest := ScanFrom(t, next, budget - 1, false);
            ScanFrom(t, cursor, budget, false) == rest.(pages := [Observed(Cut(t.rows[k..], t.maxRows))] + rest.pages)
  {
    assert Last(Cut(t.rows[k..], t.maxRows)) == t.rows[k + t.maxRows - 1];
    hide Page, Observed;
  }

  lemma SplitCut(rows: seq<Row>, m: nat, n: nat)
    requires m <= |rows|
    ensures Cut(rows, m + n) == Cut(rows, m) + Cut(rows[m..], n)
  {
  }

  /** A scan from any cursor that runs to its end has folded every row past the cursor,
      once and in order. */
  lemma CompletedScanSeesEveryRow(t: Table, cursor: string, budget: nat)
    requires Sound(t)
    ensures var s := ScanFrom(t, cursor, budget, false);
            && s.failure.None?
            && (!s.hasMore ==> Flat(s.pages) == Observed(Remaining(t, cursor)))
            && (budget * t.maxRows > |t.rows| ==> !s.hasMore)
  {
    ReachIsProduct(budget, t.maxRows);
    var k := FilterIsSuffix(t.walk, StartAt(t, cursor), t.rows);
    ScanSeesTheRest(t, cursor, k, budget);
    hide ScanFrom;
  }

  // ------------------------------------------------ when every scan is exact

  /** The table read in pages of this size. */
  function Paged(t: Table, maxRows: nat): Table { t.(maxRows := maxRows) }

  /** Whatever the page size and the budget, a scan from the start sees the rows. */
  ghost predicate ScansExactly(t: Table) {
    forall maxRows: nat, budget: nat | maxRows > 0 ::
      Sees(Paged(t, maxRows), 0, budget, ScanFrom(Paged(t, maxRows), "", budget, false))
  }

  lemma {:induction false} ReachCovers(budget: nat, maxRows: nat)
    requires maxRows > 0
    ensures Reach(budget, maxRows) >= budget
  {
    if budget > 0 { ReachCovers(budget - 1, maxRows); }
  }

  /** A scan whose second page starts over does not get past it. */
  lemma StartingOverFails(t: Table, cursor: string, budget: nat)
    requires Readable(t) && t.maxRows <= |t.rows| && StandsAt(t, cursor, 0) && budget > 0
    requires cursor == CursorOf(t, t.rows[t.maxRows - 1])
    ensures ScanFrom(t, cursor, budget, false)
            == Summary([Observed(t.rows[..t.maxRows])], true, cursor, Some(NotAdvancing))
  {
    PageIsAccepted(t, cursor, 0);
    assert Cut(t.rows[0..], t.maxRows) == t.rows[..t.maxRows];
    assert Last(t.rows[..t.maxRows]) == t.rows[t.maxRows - 1];
    hide Page, Observed, StartAt;
  }

  /** The first page and the scan from its cursor. */
  lemma FirstPageThenRest(t: Table, budget: nat)
    requires Readable(t) && t.maxRows <= |t.rows| && StandsAt(t, "", 0) && budget > 0
    ensures var rest := ScanFrom(t, CursorOf(t, t.rows[t.maxRows - 1]), budget - 1, false);
            ScanFrom(t, "", budget, false) == rest.(pages := [Observed(t.rows[..t.maxRows])] + rest.pages)
  {
    PageIsAccepted(t, "", 0);
    CursorIsNotEmpty(t, t.maxRows - 1);
    assert Cut(t.rows[0..], t.maxRows) == t.rows[..t.maxRows];
    hide Page, Remaining, StandsAt;
    FullPage(t, "", 0, budget);
  }

  lemma NoFailureSeen(t: Table, k: nat, budget: nat, s: Summary)
    requires k <= |t.rows| && Sees(t, k, budget, s)
    ensures s.failure.None?
  {
  }

  /** Where the scan stands after its first page, judging by the rows it sees in all. */
  lemma StandsAfterTheFirstPage(t: Table, cursor: string, m: nat)
    requires Readable(t) && t.maxRows <= |t.rows| && StandsAt(t, "", 0) && LeadBackFrom(t, t.maxRows)
    requires cursor == CursorOf(t, t.rows[t.maxRows - 1]) && StandsAt(t, cursor, m)
    requires Sees(t, 0, |t.rows| + 2, ScanFrom(t, "", |t.rows| + 2, false))
    ensures m == t.maxRows
  {
    hide *;
    var n := |t.rows|;
    Bounded(t, cursor, m);
    FirstPageThenRest(t, n + 2);
    NoFailureSeen(t, 0, n + 2, ScanFrom(t, "", n + 2, false));
    if m == 0 { StartingOverFails(t, cursor, n + 1); }
    else {
      LaterLeadBack(t, t.maxRows, m + t.maxRows - 1);
      ScanSeesTheRest(t, cursor, m, n + 1);
      CountsTheRows(t, m, ScanFrom(t, cursor, n + 1, false));
    }
  }

  lemma LaterLeadBack(t: Table, from: nat, later: nat)
    requires LeadBackFrom(t, from) && from <= later
    ensures LeadBackFrom(t, later)
  {
    hide LeadsBack;
  }

  /** If all scans are exact and the later rows lead back, so does row `k - 1`: read in
      pages of `k` rows, the scan comes to it first. */
  lemma ExactScanLeadsBack(t: Table, k: nat)
    requires Readable(t) && StandsAt(t, "", 0) && ScansExactly(t) && 1 <= k <= |t.rows| && LeadBackFrom(t, k)
    ensures LeadsBack(t, k - 1)
  {
    var paged, cursor := Paged(t, k), CursorOf(t, t.rows[k - 1]);
    var m := FilterIsSuffix(t.walk, StartAt(t, cursor), t.rows);
    PagedAlike(t, k, cursor, m);
    SameLeads(t, k);
    assert Sees(paged, 0, |t.rows| + 2, ScanFrom(paged, "", |t.rows| + 2, false));
    hide Readable, StandsAt, Sees, ScanFrom, CursorOf, LeadsBack, LeadBackFrom, ScansExactly, Past, StartAt;
    StandsAfterTheFirstPage(paged, cursor, m);
    LeadsToNext(t, k);
  }

  /** The page size does not matter for where a cursor stands. */
  lemma PagedAlike(t: Table, k: nat, cursor: string, m: nat)
    requires Readable(t) && StandsAt(t, "", 0) && 1 <= k <= |t.rows| && cursor == CursorOf(t, t.rows[k - 1])
    requires m <= |t.rows| && Filter(t.walk, StartAt(t, cursor), t.rows) == t.rows[m..]
    requires forall i | 0 <= i < |t.rows| :: Past(t.walk, StartAt(t, cursor), t.rows[i]) <==> m <= i
    ensures var paged := Paged(t, k);
            && Readable(paged) && StandsAt(paged, "", 0) && StandsAt(paged, cursor, m)
            && cursor == CursorOf(paged, paged.rows[k - 1])
  {
  }

  lemma SameLeads(t: Table, k: nat)
    requires LeadBackFrom(t, k)
    ensures LeadBackFrom(Paged(t, k), k)
  {
    var paged := Paged(t, k);
    forall i | k <= i < |paged.rows| ensures LeadsBack(paged, i) { assert LeadsBack(t, i); }
  }

  /** Both ways of counting the rows seen. */
  lemma CountsTheRows(t: Table, m: nat, rest: Summary)
    requires m <= |t.rows| && 0 < t.maxRows <= |t.rows|
    requires Sees(t, m, |t.rows| + 1, rest)
    requires Sees(t, 0, |t.rows| + 2, rest.(pages := [Observed(t.rows[..t.maxRows])] + rest.pages))
    ensures m == t.maxRows
  {
    var n := |t.rows|;
    ReachCovers(n + 1, t.maxRows);
    ReachCovers(n + 2, t.maxRows);
    FlatCons(Observed(t.rows[..t.maxRows]), rest.pages);
    hide Reach, Flat, Observed;
  }

  lemma LeadsToNext(t: Table, k: nat)
    requires Readable(t) && 1 <= k <= |t.rows|
    requires forall i | 0 <= i < |t.rows| :: Past(t.walk, StartAt(t, CursorOf(t, t.rows[k - 1])), t.rows[i]) <==> k <= i
    ensures LeadsBack(t, k - 1)
  {
    hide StartAt, CursorOf;
    forall j | 0 <= j < |t.rows| ensures Past(t.walk, PositionOf(t.rows[k - 1]), t.rows[j]) <==> k <= j {
      if j < k {
        PastIsStrict(t.walk, t.rows[j], t.rows[k - 1]);
        PastIsStrict(t.walk, t.rows[k - 1], t.rows[k - 1]);
      }
    }
  }

  lemma {:induction false} ExactScansLeadBack(t: Table, from: nat)
    requires Readable(t) && StandsAt(t, "", 0) && ScansExactly(t) && from <= |t.rows|
    ensures LeadBackFrom(t, from)
    decreases |t.rows| - from
  {
    if from < |t.rows| {
      ExactScansLeadBack(t, from + 1);
      ExactScanLeadsBack(t, from + 1);
      hide Readable, StandsAt, ScansExactly, LeadsBack;
    }
  }

  /** For rows in order that lie past the start: every scan from the start, with every page
      size and every budget, sees each row once and in order exactly if the cursor of each
      row leads back to it. */
  lemma ScansAreExact(t: Table)
    requires Readable(t) && StandsAt(t, "", 0)
    ensures ScansExactly(t) <==> LeadBackFrom(t, 0)
  {
    if ScansExactly(t) { ExactScansLeadBack(t, 0); }
    if LeadBackFrom(t, 0) {
      forall maxRows: nat, budget: nat | maxRows > 0
        ensures Sees(Paged(t, maxRows), 0, budget, ScanFrom(Paged(t, maxRows), "", budget, false))
      {
        SoundScanSees(t, maxRows, budget);
      }
    }
    hide Readable, StandsAt, LeadBackFrom;
  }

  lemma SoundScanSees(t: Table, maxRows: nat, budget: nat)
    requires Readable(t) && StandsAt(t, "", 0) && LeadBackFrom(t, 0) && maxRows > 0
    ensures Sees(Paged(t, maxRows), 0, budget, ScanFrom(Paged(t, maxRows), "", budget, false))
  {
    var paged := Paged(t, maxRows);
    forall i | 0 <= i < |paged.rows| ensures LeadsBack(paged, i) { assert LeadsBack(t, i); }
    assert Readable(paged) && StandsAt(paged, "", 0);
    hide Sees, ScanFrom, LeadsBack;
    ScanSeesTheRest(paged, "", 0, budget);
  }

  /** The start of a subject walk lies before every row. */
  lemma SubjectWalkStartsBeforeAll(t: Table)
    requires Readable(t) && t.walk.BySubject?
    ensures StandsAt(t, "", 0)
  {
    assert Trim("") == "" && DecodeCursor(t.clock, "") == Position(ZERO_TIME, "");
    FilterAll(t.walk, StartAt(t, ""), t.rows);
  }

  /** So it is with every table of a subject walk, whatever its rows. */
  lemma SubjectScansAreExact(t: Table)
    requires Readable(t) && t.walk.BySubject?
    ensures ScansExactly(t) <==> LeadBackFrom(t, 0)
  {
    SubjectWalkStartsBeforeAll(t);
    ScansAreExact(t);
    hide Readable, StandsAt, ScansExactly, LeadBackFrom;
  }

  /** In a change walk a stamp that does not read back sends the walk to the baseline: the
      page it ends is folded once more, and the scan fails. */
  lemma UnreadableStampStartsOver(t: Table, budget: nat)
    requires Readable(t) && t.walk.ByChange? && t.maxRows <= |t.rows| && budget >= 2
    requires forall i | 0 <= i < |t.rows| :: t.baseline < t.rows[i].changedAt
    requires var stamp := t.clock.format(t.rows[t.maxRows - 1].changedAt);
             SEPARATOR !in stamp && t.clock.parse(stamp).None?
    ensures var page, cursor := Observed(t.rows[..t.maxRows]), CursorOf(t, t.rows[t.maxRows - 1]);
            ScanFrom(t, "", budget, false) == Summary([page, page], true, cursor, Some(NotAdvancing))
  {
    var row := t.rows[t.maxRows - 1];
    CursorIsNotEmpty(t, t.maxRows - 1);
    StampOfJoined(t.clock.format(row.changedAt), row.subject);
    FromTheBaseline(t, "");
    FromTheBaseline(t, CursorOf(t, row));
    FirstPageThenRest(t, budget);
    StartingOverFails(t, CursorOf(t, row), budget - 1);
    hide ScanFrom, Readable, StandsAt;
  }

  lemma FromTheBaseline(t: Table, cursor: string)
    requires t.walk.ByChange? && DecodeCursor(t.clock, cursor).changedAt == ZERO_TIME
    requires forall i | 0 <= i < |t.rows| :: t.baseline < t.rows[i].changedAt
    ensures StandsAt(t, cursor, 0)
  {
    FilterAll(t.walk, StartAt(t, cursor), t.rows);
  }

  // --------------------------------------------- subjects that look like cursors

  /** Resuming a subject walk after a subject continues with the rows past it, on every
      table, exactly if the subject does not look like a change cursor. */
  lemma ResumeIsExactForPlainSubjects(clock: Clock, subject: string)
    ensures (forall rows, baseline, maxRows ::
             Remaining(Table(clock, BySubject, baseline, rows, maxRows), subject)
               == Filter(BySubject, Position(ZERO_TIME, subject), rows))
            <==> !LooksLikeCursor(clock, subject)
  {
    StampIsPrefix(subject);
    var found := DecodeCursor(clock, subject);
    if !LooksLikeCursor(clock, subject) {
      assert found == Position(ZERO_TIME, subject);
    } else {
      assert |found.subject| < |subject|;
      StringLessTotal(found.subject, subject);
      StringLessIrreflexive(subject);
      StringLessIrreflexive(found.subject);
      var row := Row(if StringLess(found.subject, subject) then subject else found.subject, Some(false), "", "",
                     ZERO_TIME);
      if StringLess(found.subject, subject) && StringLess(subject, found.subject) {
        StringLessTransitive(subject, found.subject, subject);
      }
      var t := Table(clock, BySubject, 0, [row], 1);
      assert Remaining(t, subject) == Filter(BySubject, found, [row]);
      assert [row][1..] == [];
      assert Past(BySubject, found, row) != Past(BySubject, Position(ZERO_TIME, subject), row);
      assert Filter(BySubject, found, [row]) != Filter(BySubject, Position(ZERO_TIME, subject), [row]);
      assert Remaining(Table(clock, BySubject, 0, [row], 1), subject)
        != Filter(BySubject, Position(ZERO_TIME, subject), [row]);
    }
  }

  /** Such a subject can hide others: a scan of two rows comes to its end, reports no
      failure, and has never looked at the second row. */
  lemma RowIsNeverSeen(clock: Clock, a: Row, b: Row)
    requires LooksLikeCursor(clock, a.subject) && b.subject == DecodeCursor(clock, a.subject).subject
    requires StringLess(a.subject, b.subject)
    requires ObservationValid(Observe(a)) && ObservationValid(Observe(b))
    ensures var t := Table(clock, BySubject, 1, [a, b], 1);
            && Ordered(BySubject, t.rows)
            && ScanFrom(t, "", 2, false) == Summary([[Observe(a)], []], false, "", None)
  {
    var t := Table(clock, BySubject, 1, [a, b], 1);
    assert [a, b][1..] == [b] && [b][1..] == [];
    assert Trim("") == "";
    assert DecodeCursor(clock, "") == Position(ZERO_TIME, "");
    assert Past(BySubject, Position(ZERO_TIME, ""), a);
    assert PageRows(t, "") == [a];
    assert Observed([a]) == [Observe(a)] by { assert Front([a]) == []; }
    assert Page(t, "") == Ok(Evaluation([Observe(a)], a.subject, true));
    NothingPast(clock, a, b);
    assert Page(t, a.subject) == Ok(Evaluation([], "", false));
  }

  lemma NothingPast(clock: Clock, a: Row, b: Row)
    requires b.subject == DecodeCursor(clock, a.subject).subject && StringLess(a.subject, b.subject)
    ensures PageRows(Table(clock, BySubject, 1, [a, b], 1), a.subject) == []
  {
    var found := DecodeCursor(clock, a.subject);
    assert [a, b][1..] == [b] && [b][1..] == [];
    StringLessIrreflexive(b.subject);
    StringLessIrreflexive(a.subject);
    assert !StringLess(b.subject, a.subject) by {
      if StringLess(b.subject, a.subject) { StringLessTransitive(a.subject, b.subject, a.subject); }
    }
    assert !Past(BySubject, found, a) && !Past(BySubject, found, b);
    assert Filter(BySubject, found, [b]) == [];
    assert Filter(BySubject, found, [a, b]) == [];
  }

  // ------------------------------------------------------------------ verdicts

  function RowsWith(rows: seq<Row>, verdict: Option<bool>): nat {
    if rows == [] then 0 else RowsWith(Front(rows), verdict) + if Last(rows).verdict == verdict then 1 else 0
  }

  lemma {:induction false} StatusesAreCounted(rows: seq<Row>)
    ensures CountOf(Observed(rows), Violated) == RowsWith(rows, Some(true))
    ensures CountOf(Observed(rows), Passed) == RowsWith(rows, Some(false))
    ensures CountOf(Observed(rows), Unknown) == RowsWith(rows, None)
    ensures RowsWith(rows, Some(true)) + RowsWith(rows, Some(false)) + RowsWith(rows, None) == |rows|
  {
    hide Trim;
    if rows != [] {
      StatusesAreCounted(Front(rows));
      assert Front(Observed(rows)) == Observed(Front(rows));
    }
  }

  /** The counters of a scan count verdicts: a row the query could not decide is neither a
      pass nor a violation, and every observation is of its own row; only a row that could
      not be decided has a reason, and always some. */
  lemma VerdictsAreCounted(rows: seq<Row>)
    ensures CountOf(Observed(rows), Violated) == RowsWith(rows, Some(true))
    ensures CountOf(Observed(rows), Passed) == RowsWith(rows, Some(false))
    ensures CountOf(Observed(rows), Unknown) == RowsWith(rows, None)
    ensures RowsWith(rows, Some(true)) + RowsWith(rows, Some(false)) + RowsWith(rows, None) == |rows|
    ensures forall i | 0 <= i < |rows| ::
              Observed(rows)[i].subject == rows[i].subject && Observed(rows)[i].evidence == rows[i].evidence
    ensures forall i | 0 <= i < |rows| ::
              Observed(rows)[i].reason == if rows[i].verdict.Some? then ""
                                          else if Trim(rows[i].reason) != "" then Trim(rows[i].reason)
                                            else "unspecified"
  {
    StatusesAreCounted(rows);
    hide Trim, CountOf, RowsWith, Observed;
  }
}
