/**
 Scanning a table with a Rule: the evaluator reads one page of rows past a cursor, the
 scan follows the cursors within a page budget, and a later scan resumes where it
 stopped. The rows are fixed while a walk is under way.
 */
module Scan {
  import opened Basics

  datatype Status = Passed | Violated | Unknown

  datatype Observation = Observation(subject: string, status: Status, evidence: string, reason: string)

  /** A row of the Rule's query; no verdict means the query could not decide. */
  datatype Row = Row(subject: string, verdict: Option<bool>, evidence: string, reason: string, changedAt: Instant)

  /** How a Rule walks: one job, a table by subject id, or a table by change time and id. */
  datatype Walk = ForJob(jobSubject: string) | BySubject | ByChange

  datatype Position = Position(changedAt: Instant, subject: string)

  datatype Evaluation = Evaluation(observations: seq<Observation>, next: string, hasMore: bool)

  datatype ScanError = RowRefused | SubjectRequired | NotAdvancing | InvalidBudget | SubjectWithCursor

  const MAX_SUBJECT := 256
  const MAX_EVIDENCE := 65536
  const MAX_REASON := 128
  const UNSPECIFIED := "unspecified"

  /** Rendering and parsing of time stamps is not part of the model; all that matters is
      at which times a rendered stamp reads back. */
  datatype Clock = Clock(format: Instant -> string, parse: string -> Option<Instant>)

  const SEPARATOR := '|'

  predicate ReadsBack(clock: Clock, t: Instant) {
    clock.parse(clock.format(t)) == Some(t) && SEPARATOR !in clock.format(t)
  }

  // ------------------------------------------------------------------ cursors

  function EncodeCursor(clock: Clock, changedAt: Instant, subject: string): string {
    if changedAt == ZERO_TIME && subject == "" then "" else clock.format(changedAt) + [SEPARATOR] + subject
  }

  /** The part before the first separator, if there is one. */
  function Stamp(cursor: string): Option<string> {
    if cursor == "" then None
    else if cursor[0] == SEPARATOR then Some("")
    else
      var rest := Stamp(cursor[1..]);
      if rest.None? then None else Some([cursor[0]] + rest.value)
  }

  lemma {:induction false} StampIsPrefix(cursor: string)
    ensures Stamp(cursor).None? <==> SEPARATOR !in cursor
    ensures Stamp(cursor).Some? ==>
              var stamp := Stamp(cursor).value;
              |stamp| < |cursor| && cursor[..|stamp|] == stamp && cursor[|stamp|] == SEPARATOR && SEPARATOR !in stamp
  {
    if cursor != "" && cursor[0] != SEPARATOR {
      StampIsPrefix(cursor[1..]);
      if Stamp(cursor).Some? {
        var stamp := Stamp(cursor).value;
        assert cursor[..|stamp|] == [cursor[0]] + cursor[1..][..|stamp| - 1];
      }
    }
  }

  /** A token that is no time stamp with a subject is a plain subject. */
  function DecodeCursor(clock: Clock, cursor: string): Position {
    var stamp := Stamp(cursor);
    if stamp.None? then Position(ZERO_TIME, cursor)
    else
      StampIsPrefix(cursor);
      var parsed := clock.parse(stamp.value);
      if parsed.None? then Position(ZERO_TIME, cursor) else Position(parsed.value, cursor[|stamp.value| + 1..])
  }

  lemma {:induction false} StampOfJoined(stamp: string, rest: string)
    requires SEPARATOR !in stamp
    ensures Stamp(stamp + [SEPARATOR] + rest) == Some(stamp)
  {
    var cursor := stamp + [SEPARATOR] + rest;
    if stamp != "" {
      assert cursor[1..] == stamp[1..] + [SEPARATOR] + rest;
      StampOfJoined(stamp[1..], rest);
      assert stamp == [stamp[0]] + stamp[1..];
    }
  }

  /** A change cursor reads back to the row it was made from, whatever the subject contains. */
  lemma ChangeCursorReadsBack(clock: Clock, changedAt: Instant, subject: string)
    requires ReadsBack(clock, changedAt)
    ensures DecodeCursor(clock, EncodeCursor(clock, changedAt, subject)) == Position(changedAt, subject)
  {
    if changedAt != ZERO_TIME || subject != "" {
      var stamp := clock.format(changedAt);
      StampOfJoined(stamp, subject);
      var cursor := stamp + [SEPARATOR] + subject;
      assert cursor[|stamp| + 1..] == subject;
    }
  }

  // -------------------------------------------------------------------- pages

  predicate ObservationValid(o: Observation) {
    && Trim(o.subject) != "" && |o.subject| <= MAX_SUBJECT && |o.evidence| <= MAX_EVIDENCE && |o.reason| <= MAX_REASON
    && (o.status != Unknown ==> o.reason == "")
  }

  /** What a row says. An unlabelled unknown is kept. */
  function Observe(row: Row): Observation {
    match row.verdict
    case None =>
      Observation(row.subject, Unknown, row.evidence, if Trim(row.reason) == "" then UNSPECIFIED else Trim(row.reason))
    case Some(true) => Observation(row.subject, Violated, row.evidence, "")
    case Some(false) => Observation(row.subject, Passed, row.evidence, "")
  }

  function Observed(rows: seq<Row>): (os: seq<Observation>)
    ensures |os| == |rows| && forall i | 0 <= i < |rows| :: os[i] == Observe(rows[i])
  {
    if rows == [] then [] else Observed(Front(rows)) + [Observe(Last(rows))]
  }

  function PositionOf(row: Row): Position { Position(row.changedAt, row.subject) }

  /** The row lies past the position in the order of the walk. */
  predicate Past(walk: Walk, p: Position, row: Row) {
    if walk.ByChange? then p.changedAt < row.changedAt
      || (p.changedAt == row.changedAt && StringLess(p.subject, row.subject))
    else StringLess(p.subject, row.subject)
  }

  /** Row `i` may follow the rows before it. */
  predicate MayFollow(walk: Walk, start: Position, rows: seq<Row>, i: nat)
    requires i < |rows|
  {
    && ObservationValid(Observe(rows[i]))
    && (if walk.ForJob? then i == 0 && rows[i].subject == walk.jobSubject
        else Past(walk, if i == 0 then start else PositionOf(rows[i - 1]), rows[i]))
  }

  predicate Acceptable(walk: Walk, start: Position, rows: seq<Row>) {
    forall i | 0 <= i < |rows| :: MayFollow(walk, start, rows, i)
  }

  function NextCursor(clock: Clock, walk: Walk, rows: seq<Row>): string {
    if walk.ForJob? || rows == [] then ""
    else if walk.ByChange? then EncodeCursor(clock, Last(rows).changedAt, Last(rows).subject)
    else Last(rows).subject
  }

  /** `EvaluateRule` on the rows the database returned: every row is kept if each may
      follow, and nothing is if one may not. */
  function Evaluate(clock: Clock, walk: Walk, start: Position, rows: seq<Row>, maxRows: nat)
      : Result<Evaluation, ScanError>
  {
    if Acceptable(walk, start, rows)
    then Ok(Evaluation(Observed(rows), NextCursor(clock, walk, rows), !walk.ForJob? && |rows| > 0 && |rows| == maxRows))
    else Err(RowRefused)
  }

  /** The row loop. */
  method EvaluateRows(clock: Clock, walk: Walk, start: Position, rows: seq<Row>, maxRows: nat)
      returns (result: Result<Evaluation, ScanError>)
    ensures result == Evaluate(clock, walk, start, rows, maxRows)
  {
    var observations: seq<Observation> := [];
    var previous := start;
    var i := 0;
    while i < |rows|
      invariant 0 <= i <= |rows|
      invariant forall j | 0 <= j < i :: MayFollow(walk, start, rows, j)
      invariant observations == Observed(rows[..i])
      invariant previous == if i == 0 then start else PositionOf(rows[i - 1])
    {
      var observation := Observe(rows[i]);
      if !ObservationValid(observation) { assert !MayFollow(walk, start, rows, i); return Err(RowRefused); }
      if walk.ForJob? {
        if observation.subject != walk.jobSubject || |observations| > 0 {
          assert !MayFollow(walk, start, rows, i);
          return Err(RowRefused);
        }
      } else if !Past(walk, previous, rows[i]) {
        assert !MayFollow(walk, start, rows, i);
        return Err(RowRefused);
      }
      previous := PositionOf(rows[i]);
      observations := observations + [observation];
      assert Front(rows[..i + 1]) == rows[..i];
      i := i + 1;
    }
    assert rows[..i] == rows;
    if walk.ForJob? || observations == [] { return Ok(Evaluation(observations, "", false)); }
    var next := if walk.ByChange? then EncodeCursor(clock, previous.changedAt, previous.subject) else previous.subject;
    return Ok(Evaluation(observations, next, |observations| == maxRows));
  }

  // -------------------------------------------------------------------- tables

  /** The rows a Rule's query can return, as the database holds them. */
  datatype Table = Table(clock: Clock, walk: Walk, baseline: Instant, rows: seq<Row>, maxRows: nat)

  function Filter(walk: Walk, p: Position, rows: seq<Row>): seq<Row> {
    if rows == [] then [] else (if Past(walk, p, rows[0]) then [rows[0]] else []) + Filter(walk, p, rows[1..])
  }

  /** Where a walk starts that is given this cursor. */
  function StartAt(t: Table, cursor: string): Position {
    var p := DecodeCursor(t.clock, cursor);
    if t.walk.ByChange? && p.changedAt == ZERO_TIME then p.(changedAt := t.baseline) else p
  }

  function Remaining(t: Table, cursor: string): seq<Row> { Filter(t.walk, StartAt(t, cursor), t.rows) }

  function Cut<T>(s: seq<T>, n: nat): seq<T> { if n <= |s| then s[..n] else s }

  function PageRows(t: Table, cursor: string): seq<Row> { Cut(Remaining(t, cursor), t.maxRows) }

  function Page(t: Table, cursor: string): Result<Evaluation, ScanError> {
    Evaluate(t.clock, t.walk, StartAt(t, cursor), PageRows(t, cursor), t.maxRows)
  }

  // ---------------------------------------------------------------- the scan

  /** What a scan did: the pages it folded, and where it stands. */
  datatype Summary = Summary(pages: seq<seq<Observation>>, hasMore: bool, next: string, failure: Option<ScanError>)

  function ScanFrom(t: Table, cursor: string, budget: nat, single: bool): Summary
    decreases budget
  {
    if budget == 0 then Summary([], true, cursor, None)
    else
      var page := Page(t, cursor);
      if page.Err? then Summary([], true, cursor, Some(page.error))
      else if !page.value.hasMore then Summary([page.value.observations], false, "", None)
      else if single then Summary([page.value.observations], true, cursor, None)
      else if page.value.next == "" || page.value.next == cursor
        then Summary([page.value.observations], true, cursor, Some(NotAdvancing))
      else
        var rest := ScanFrom(t, page.value.next, budget - 1, single);
        rest.(pages := [page.value.observations] + rest.pages)
  }

  function Flat(pages: seq<seq<Observation>>): seq<Observation> {
    if pages == [] then [] else pages[0] + Flat(pages[1..])
  }

  /** A scan of `n` pages resumed for `m` more is one scan of `n + m` pages: the same
      pages, so the same observations and counters, and the same place to resume from. */
  lemma {:induction false} ScanComposes(t: Table, cursor: string, n: nat, m: nat)
    requires ScanFrom(t, cursor, n, false).hasMore && ScanFrom(t, cursor, n, false).failure.None?
    ensures var first := ScanFrom(t, cursor, n, false);
            var second := ScanFrom(t, first.next, m, false);
            ScanFrom(t, cursor, n + m, false) == second.(pages := first.pages + second.pages)
    decreases n
  {
    hide Page;
    if n == 0 {
      assert ScanFrom(t, cursor, n, false).pages + ScanFrom(t, cursor, m, false).pages
        == ScanFrom(t, cursor, m, false).pages;
    } else {
      var page := Page(t, cursor).value;
      ScanComposes(t, page.next, n - 1, m);
      var first := ScanFrom(t, page.next, n - 1, false);
      var second := ScanFrom(t, first.next, m, false);
      assert [page.observations] + (first.pages + second.pages) == ([page.observations] + first.pages) + second.pages;
    }
  }

  // ------------------------------------------------------------ the scan loop

  const DEFAULT_PAGES := 100
  const MAX_PAGES := 10000

  function CountOf(os: seq<Observation>, status: Status): nat {
    if os == [] then 0 else CountOf(Front(os), status) + if Last(os).status == status then 1 else 0
  }

  lemma {:induction false} FlatSnoc(pages: seq<seq<Observation>>, page: seq<Observation>)
    ensures Flat(pages + [page]) == Flat(pages) + page
  {
    if pages == [] { assert [page][1..] == []; assert pages + [page] == [page]; }
    else {
      assert (pages + [page])[1..] == pages[1..] + [page];
      FlatSnoc(pages[1..], page);
    }
  }

  lemma FlatOfNothing()
    ensures Flat([]) == []
  {
  }

  datatype Tally = Tally(observed: nat, passed: nat, violated: nat, unknown: nat)

  ghost predicate Tallies(tally: Tally, os: seq<Observation>) {
    && tally.observed == |os| && tally.passed == CountOf(os, Passed)
    && tally.violated == CountOf(os, Violated) && tally.unknown == CountOf(os, Unknown)
  }

  method AddPage(tally: Tally, ghost before: seq<Observation>, page: seq<Observation>) returns (next: Tally)
    requires Tallies(tally, before)
    ensures Tallies(next, before + page)
  {
    next := tally;
    var i := 0;
    assert before + page[..0] == before;
    while i < |page|
      invariant 0 <= i <= |page| && Tallies(next, before + page[..i])
    {
      assert before + page[..i + 1] == (before + page[..i]) + [page[i]];
      assert Front((before + page[..i]) + [page[i]]) == before + page[..i];
      match page[i].status {
        case Violated => next := next.(observed := next.observed + 1, violated := next.violated + 1);
        case Unknown => next := next.(observed := next.observed + 1, unknown := next.unknown + 1);
        case Passed => next := next.(observed := next.observed + 1, passed := next.passed + 1);
      }
      i := i + 1;
    }
    assert page[..i] == page;
  }

  /** `Scan` after its argument checks: the page loop with its counters. */
  method ScanPages(t: Table, cursor: string, budget: nat, single: bool) returns (summary: Summary, tally: Tally)
    ensures summary == ScanFrom(t, cursor, budget, single)
    ensures Tallies(tally, Flat(summary.pages))
  {
    hide Evaluate, StartAt, PageRows, Flat;
    var pages, at, done := [], cursor, 0;
    FlatOfNothing();
    tally := Tally(0, 0, 0, 0);
    while done < budget
      invariant 0 <= done <= budget && Tallies(tally, Flat(pages))
      invariant ScanFrom(t, cursor, budget, single) ==
                var rest := ScanFrom(t, at, budget - done, single); rest.(pages := pages + rest.pages)
    {
      var start := StartAt(t, at);
      var page := EvaluateRows(t.clock, t.walk, start, PageRows(t, at), t.maxRows);
      if page.Err? { return Summary(pages, true, at, Some(page.error)), tally; }
      tally := AddPage(tally, Flat(pages), page.value.observations);
      FlatSnoc(pages, page.value.observations);
      done := done + 1;
      ghost var was := pages;
      pages := pages + [page.value.observations];
      if !page.value.hasMore { return Summary(pages, false, "", None), tally; }
      if single { return Summary(pages, true, at, None), tally; }
      if page.value.next == "" || page.value.next == at { return Summary(pages, true, at, Some(NotAdvancing)), tally; }
      at := page.value.next;
      assert forall more: seq<seq<Observation>> :: was + ([page.value.observations] + more) == pages + more;
    }
    return Summary(pages, true, at, None), tally;
  }

  /** `Scan`: a negative or oversized budget is refused, zero means the default. A request
      for one subject takes a single page of that subject's rows. A Rule for jobs evaluates
      nothing without a subject. */
  method ScanTable(t: Table, subject: string, cursor: string, maxPages: int)
      returns (result: Result<(Summary, Tally), ScanError>)
    ensures subject != "" && cursor != "" ==> result == Err(SubjectWithCursor)
    ensures !(subject != "" && cursor != "") && (maxPages < 0 || maxPages > MAX_PAGES) ==> result == Err(InvalidBudget)
    ensures !(subject != "" && cursor != "") && 0 <= maxPages <= MAX_PAGES ==>
              && result.Ok?
              && result.value.0 ==
                 (if t.walk.ForJob? && Trim(subject) == "" then Summary([], true, cursor, Some(SubjectRequired))
                  else ScanFrom(RowsOf(t, subject), cursor,
                                if maxPages == 0 then DEFAULT_PAGES else maxPages, subject != ""))
              && Tallies(result.value.1, Flat(result.value.0.pages))
  {
    if subject != "" && cursor != "" { return Err(SubjectWithCursor); }
    if maxPages < 0 { return Err(InvalidBudget); }
    var budget := if maxPages == 0 then DEFAULT_PAGES else maxPages;
    if budget > MAX_PAGES { return Err(InvalidBudget); }
    if t.walk.ForJob? && Trim(subject) == "" {
      FlatOfNothing();
      return Ok((Summary([], true, cursor, Some(SubjectRequired)), Tally(0, 0, 0, 0)));
    }
    var summary, tally := ScanPages(RowsOf(t, subject), cursor, budget, subject != "");
    return Ok((summary, tally));
  }

  function OnlySubject(rows: seq<Row>, subject: string): seq<Row> {
    if rows == [] then [] else (if rows[0].subject == subject then [rows[0]] else []) + OnlySubject(rows[1..], subject)
  }

  function RowsOf(t: Table, subject: string): Table {
    if subject == "" then t
    else t.(rows := OnlySubject(t.rows, subject), walk := if t.walk.ForJob? then ForJob(subject) else t.walk)
  }
}
