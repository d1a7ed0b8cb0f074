/**
 Paging through the executions of a task by cursor, while executions are being added.
 A page holds the executions after the cursor in order of creation time and id; the
 cursor of the next page is the last execution of this one.
 */
module ExecutionPages {
  import opened Basics
  import opened SortedSets
  import opened Tasks
  import TaskRuns
  import TaskTheorems

  datatype Key = Key(createdAt: Instant, id: string)

  predicate KeyLess(a: Key, b: Key) {
    a.createdAt < b.createdAt || (a.createdAt == b.createdAt && StringLess(a.id, b.id))
  }

  lemma KeysAreOrdered(keys: set<Key>)
    ensures StrictOrder(KeyLess, keys)
  {
    forall x | x in keys ensures !KeyLess(x, x) { StringLessIrreflexive(x.id); }
    forall x, y | x in keys && y in keys && x != y ensures KeyLess(x, y) || KeyLess(y, x) {
      StringLessTotal(x.id, y.id);
    }
    forall x, y, z | x in keys && y in keys && z in keys && KeyLess(x, y) && KeyLess(y, z) ensures KeyLess(x, z) {
      if x.createdAt == y.createdAt == z.createdAt { StringLessTransitive(x.id, y.id, z.id); }
    }
  }

  predicate Past(cursor: Option<Key>, k: Key) { cursor.Some? ==> KeyLess(cursor.value, k) }

  function KeysPast(view: set<Key>, cursor: Option<Key>): set<Key> { set k | k in view && Past(cursor, k) }

  ghost function InOrder(keys: set<Key>): (ks: seq<Key>)
    ensures IsSorted(KeyLess, ks) && Elements(ks) == keys && Distinct(ks)
  {
    KeysAreOrdered(keys);
    SortedLists(KeyLess, keys);
    Sorted(KeyLess, keys)
  }

  /** One page: the first `limit` keys past the cursor. */
  ghost function Page(view: set<Key>, cursor: Option<Key>, limit: nat): seq<Key> {
    var all := InOrder(KeysPast(view, cursor));
    all[..Min(limit, |all|)]
  }

  ghost predicate HasMore(view: set<Key>, cursor: Option<Key>, limit: nat) {
    |KeysPast(view, cursor)| > limit
  }

  /** A page is in order of creation time and then of id, and it names a next page exactly
      when an execution past the cursor is not on it. */
  lemma PageIsExact(view: set<Key>, cursor: Option<Key>, limit: nat)
    ensures var page := Page(view, cursor, limit);
            && |page| <= limit
            && (forall i, j | 0 <= i < j < |page| ::
                  || page[i].createdAt < page[j].createdAt
                  || (page[i].createdAt == page[j].createdAt && StringLess(page[i].id, page[j].id)))
            && (HasMore(view, cursor, limit) <==> exists k :: k in view && Past(cursor, k) && k !in page)
  {
    var all, page := InOrder(KeysPast(view, cursor)), Page(view, cursor, limit);
    DistinctCardinality(all);
    if HasMore(view, cursor, limit) {
      var k := all[limit];
      assert k in Elements(all);
      assert k !in page;
    } else {
      assert page == all;
      forall k | k in view && Past(cursor, k) ensures k in page { assert k in Elements(all); }
    }
  }

  // ---------------------------------------------------------------- the walk

  /** What following the cursors returns when page `i` is taken from `views[i]`. */
  ghost function Walk(views: seq<set<Key>>, cursor: Option<Key>, limit: nat): seq<Key>
    requires limit > 0
    decreases |views|
  {
    if views == [] then []
    else
      var page := Page(views[0], cursor, limit);
      if !HasMore(views[0], cursor, limit) then page
      else MorePages(views[0], cursor, limit); page + Walk(views[1..], Some(Last(page)), limit)
  }

  /** The walk came to a page without a next cursor. */
  ghost predicate Finished(views: seq<set<Key>>, cursor: Option<Key>, limit: nat)
    requires limit > 0
    decreases |views|
  {
    views != [] &&
    (HasMore(views[0], cursor, limit) ==>
       (MorePages(views[0], cursor, limit); Finished(views[1..], Some(Last(Page(views[0], cursor, limit))), limit)))
  }

  lemma MorePages(view: set<Key>, cursor: Option<Key>, limit: nat)
    requires limit > 0 && HasMore(view, cursor, limit)
    ensures |Page(view, cursor, limit)| == limit
  {
    DistinctCardinality(InOrder(KeysPast(view, cursor)));
  }

  ghost predicate Growing(views: seq<set<Key>>) {
    |views| > 1 ==> views[0] <= views[1] && Growing(views[1..])
  }

  ghost predicate Within(views: seq<set<Key>>, universe: set<Key>) {
    views != [] ==> views[0] <= universe && Within(views[1..], universe)
  }

  lemma PageIsPast(view: set<Key>, cursor: Option<Key>, limit: nat, i: nat)
    requires i < |Page(view, cursor, limit)|
    ensures Page(view, cursor, limit)[i] in view && Past(cursor, Page(view, cursor, limit)[i])
  {
    var all := InOrder(KeysPast(view, cursor));
    assert all[i] in Elements(all);
  }

  /** A key past the cursor is on the page or past its end. */
  lemma PageOrLater(view: set<Key>, cursor: Option<Key>, limit: nat, k: Key)
    requires limit > 0 && k in view && Past(cursor, k)
    ensures k in Page(view, cursor, limit)
            || (HasMore(view, cursor, limit) && Page(view, cursor, limit) != []
                && KeyLess(Last(Page(view, cursor, limit)), k))
  {
    var all := InOrder(KeysPast(view, cursor));
    DistinctCardinality(all);
    assert k in Elements(all);
    var j :| 0 <= j < |all| && all[j] == k;
    if j < limit { assert Page(view, cursor, limit)[j] == k; }
  }

  lemma PastTransitive(cursor: Option<Key>, a: Key, b: Key)
    requires Past(cursor, a) && KeyLess(a, b)
    ensures Past(cursor, b)
  {
    if cursor.Some? { KeysAreOrdered({cursor.value, a, b}); }
  }

  lemma {:induction false} WalkIsPast(views: seq<set<Key>>, cursor: Option<Key>, limit: nat, i: nat)
    requires limit > 0 && i < |Walk(views, cursor, limit)|
    ensures Past(cursor, Walk(views, cursor, limit)[i])
    decreases |views|
  {
    var page := Page(views[0], cursor, limit);
    if i < |page| {
      PageIsPast(views[0], cursor, limit, i);
    } else {
      MorePages(views[0], cursor, limit);
      WalkIsPast(views[1..], Some(Last(page)), limit, i - |page|);
      PageIsPast(views[0], cursor, limit, |page| - 1);
      PastTransitive(cursor, Last(page), Walk(views, cursor, limit)[i]);
    }
  }

  /** The walk goes forward in strict order, so it returns nothing twice. */
  lemma {:induction false} WalkIsSorted(views: seq<set<Key>>, cursor: Option<Key>, limit: nat)
    requires limit > 0
    ensures IsSorted(KeyLess, Walk(views, cursor, limit))
    decreases |views|
  {
    if views != [] && HasMore(views[0], cursor, limit) {
      var page := Page(views[0], cursor, limit);
      MorePages(views[0], cursor, limit);
      var rest := Walk(views[1..], Some(Last(page)), limit);
      WalkIsSorted(views[1..], Some(Last(page)), limit);
      forall i, j | 0 <= i < |page| && 0 <= j < |rest| ensures KeyLess(page[i], rest[j]) {
        WalkIsPast(views[1..], Some(Last(page)), limit, j);
        if i < |page| - 1 { PastTransitive(Some(page[i]), Last(page), rest[j]); }
      }
    }
  }

  /** A finished walk has returned everything that was there when it started. */
  lemma {:induction false} FinishedWalkReturnsAll(views: seq<set<Key>>, cursor: Option<Key>, limit: nat, k: Key)
    requires limit > 0 && Growing(views) && Finished(views, cursor, limit)
    requires k in views[0] && Past(cursor, k)
    ensures k in Walk(views, cursor, limit)
    decreases |views|
  {
    PageOrLater(views[0], cursor, limit, k);
    if k !in Page(views[0], cursor, limit) {
      assert views[1..] != [] && k in views[1..][0];
      FinishedWalkReturnsAll(views[1..], Some(Last(Page(views[0], cursor, limit))), limit, k);
    }
  }

  /** ...and nothing that was never there. */
  lemma {:induction false} WalkReturnsOnlyExecutions(views: seq<set<Key>>, cursor: Option<Key>, limit: nat,
                                                     universe: set<Key>, i: nat)
    requires limit > 0 && Within(views, universe)
    requires i < |Walk(views, cursor, limit)|
    ensures Walk(views, cursor, limit)[i] in universe
    decreases |views|
  {
    var page := Page(views[0], cursor, limit);
    if i < |page| { PageIsPast(views[0], cursor, limit, i); }
    else {
      MorePages(views[0], cursor, limit);
      WalkReturnsOnlyExecutions(views[1..], Some(Last(page)), limit, universe, i - |page|);
    }
  }

  /** The walk ends: every page with a successor uses up at least one execution. */
  lemma {:induction false} WalkFinishes(views: seq<set<Key>>, cursor: Option<Key>, limit: nat, universe: set<Key>)
    requires limit > 0 && Within(views, universe)
    requires |views| > |KeysPast(universe, cursor)|
    ensures Finished(views, cursor, limit)
    decreases |views|
  {
    if HasMore(views[0], cursor, limit) {
      var page := Page(views[0], cursor, limit);
      MorePages(views[0], cursor, limit);
      var next := Some(Last(page));
      PageIsPast(views[0], cursor, limit, |page| - 1);
      KeysAreOrdered({Last(page)});
      forall k | k in KeysPast(universe, next) ensures k in KeysPast(universe, cursor) {
        PastTransitive(cursor, Last(page), k);
      }
      assert Last(page) in KeysPast(universe, cursor) && Last(page) !in KeysPast(universe, next);
      SubsetCardinality(KeysPast(universe, next), KeysPast(universe, cursor));
      WalkFinishes(views[1..], next, limit, universe);
    }
  }

  // ------------------------------------------------------------- from the store

  function KeyOf(e: Execution): Key { Key(e.createdAt, e.id) }

  ghost function TaskKeys(s: Store, t: string): set<Key>
    requires WellFormed(s)
  {
    set n | n in AttemptsOf(s, t) :: KeyOf(s.executions[AttemptsOf(s, t)[n]])
  }

  function Records(s: Store, keys: seq<Key>): (records: seq<Execution>)
    requires forall i | 0 <= i < |keys| :: keys[i].id in s.executions
    ensures |records| == |keys| && forall i | 0 <= i < |keys| :: records[i] == s.executions[keys[i].id]
  {
    if keys == [] then [] else Records(s, Front(keys)) + [s.executions[Last(keys).id]]
  }

  function CursorAt(s: Store, afterId: string): Option<Key>
    requires afterId == "" || afterId in s.executions
  {
    if afterId == "" then None else Some(KeyOf(s.executions[afterId]))
  }

  /** `ListTaskExecutionsPage`: the records of one page and whether more follow. */
  ghost function ListPage(s: Store, t: string, afterId: string, limit: int): Result<(seq<Execution>, bool), StoreError>
    requires WellFormed(s)
  {
    if t == "" || limit <= 0 then Err(InvalidInput)
    else if afterId != "" && (afterId !in s.executions || s.executions[afterId].taskId != t) then Err(InvalidInput)
    else
      var cursor := CursorAt(s, afterId);
      PageIsKnown(s, t, cursor, limit);
      Ok((Records(s, Page(TaskKeys(s, t), cursor, limit)), HasMore(TaskKeys(s, t), cursor, limit)))
  }

  lemma PageIsKnown(s: Store, t: string, cursor: Option<Key>, limit: nat)
    requires WellFormed(s)
    ensures var page := Page(TaskKeys(s, t), cursor, limit);
            forall i | 0 <= i < |page| :: page[i].id in s.executions && KeyOf(s.executions[page[i].id]) == page[i]
  {
    var page := Page(TaskKeys(s, t), cursor, limit);
    forall i | 0 <= i < |page| ensures page[i].id in s.executions && KeyOf(s.executions[page[i].id]) == page[i] {
      PageIsPast(TaskKeys(s, t), cursor, limit, i);
    }
  }

  const MAX_PAGE := 500

  /** `ListExecutionsPage`: a page of the task with the cursor of the next one. */
  ghost function ServePage(s: Store, t: string, cursor: string, limit: int)
      : Result<(seq<Execution>, Option<string>), StoreError>
    requires WellFormed(s)
  {
    if limit <= 0 || limit > MAX_PAGE then Err(InvalidInput)
    else if t !in s.tasks then Err(TaskMissing)
    else
      var page := ListPage(s, t, cursor, limit);
      if page.Err? then Err(page.error)
      else if exists i :: 0 <= i < |page.value.0| && page.value.0[i].taskId != t then Err(InvalidInput)
      else Ok((page.value.0, if page.value.1 && page.value.0 != [] then Some(Last(page.value.0).id) else None))
  }

  ghost predicate Formed(stores: seq<Store>) {
    stores != [] ==> WellFormed(stores[0]) && Formed(stores[1..])
  }

  /** A client that pages through the executions of a task, one page from each store. It
      returns the executions seen and whether it came to an end. */
  ghost function Follow(stores: seq<Store>, t: string, cursor: string, limit: int): (seq<Key>, bool)
    requires Formed(stores)
  {
    if stores == [] then ([], false)
    else
      var page := ServePage(stores[0], t, cursor, limit);
      if page.Err? then ([], false)
      else if page.value.1.None? then (KeysOf(page.value.0), true)
      else
        var (seen, ended) := Follow(stores[1..], t, page.value.1.value, limit);
        (KeysOf(page.value.0) + seen, ended)
  }

  function KeysOf(records: seq<Execution>): (keys: seq<Key>)
    ensures |keys| == |records| && forall i | 0 <= i < |records| :: keys[i] == KeyOf(records[i])
  {
    if records == [] then [] else KeysOf(Front(records)) + [KeyOf(Last(records))]
  }

  function KeyIds(keys: seq<Key>): (ids: seq<string>)
    ensures |ids| == |keys| && forall i | 0 <= i < |keys| :: ids[i] == keys[i].id
  {
    if keys == [] then [] else KeyIds(Front(keys)) + [Last(keys).id]
  }

  /** The keys present whenever a page is taken. */
  ghost function Views(stores: seq<Store>, t: string): (views: seq<set<Key>>)
    requires Formed(stores)
    ensures |views| == |stores|
  {
    if stores == [] then [] else [TaskKeys(stores[0], t)] + Views(stores[1..], t)
  }

  lemma TaskRecordsAreOwn(s: Store, t: string, cursor: Option<Key>, limit: nat)
    requires TaskRuns.StoreInv(s) && t in s.tasks && TaskRuns.Clean(t)
    ensures var page := Page(TaskKeys(s, t), cursor, limit);
            forall i | 0 <= i < |page| :: page[i].id in s.executions && s.executions[page[i].id].taskId == t
  {
    var page := Page(TaskKeys(s, t), cursor, limit);
    var attempts := AttemptsOf(s, t);
    forall i | 0 <= i < |page| ensures page[i].id in s.executions && s.executions[page[i].id].taskId == t {
      PageIsPast(TaskKeys(s, t), cursor, limit, i);
      var n :| n in attempts && KeyOf(s.executions[attempts[n]]) == page[i];
      assert TaskRuns.Numbered(s, t);
      assert TaskRuns.FiledAt(attempts, s.executions, Trim(t), n);
    }
  }

  /** On a consistent store a valid request is served its page. */
  lemma ServedPage(s: Store, t: string, cursor: string, limit: int)
    requires TaskRuns.StoreInv(s) && t in s.tasks && TaskRuns.Clean(t) && t != "" && 0 < limit <= MAX_PAGE
    requires cursor == "" || (cursor in s.executions && s.executions[cursor].taskId == t)
    ensures var served := ServePage(s, t, cursor, limit);
            var at := CursorAt(s, cursor);
            var page := Page(TaskKeys(s, t), at, limit);
            && served.Ok? && KeysOf(served.value.0) == page
            && (served.value.1.Some? <==> HasMore(TaskKeys(s, t), at, limit))
            && (served.value.1.Some? ==> page != [] && served.value.1.value == Last(page).id
                                         && Last(page).id in s.executions && s.executions[Last(page).id].taskId == t
                                         && KeyOf(s.executions[Last(page).id]) == Last(page))
  {
    hide TaskRuns.Numbered, TaskRuns.Owned, TaskRuns.Clean, Page;
    var at := CursorAt(s, cursor);
    var view := TaskKeys(s, t);
    var page := Page(view, at, limit);
    PageIsKnown(s, t, at, limit);
    TaskRecordsAreOwn(s, t, at, limit);
    if HasMore(view, at, limit) { MorePages(view, at, limit); }
    assert ListPage(s, t, cursor, limit) == Ok((Records(s, page), HasMore(view, at, limit)));
    ServesList(s, t, cursor, limit, Records(s, page), HasMore(view, at, limit));
    RecordsHaveKeys(s, page);
    hide *;
    if page != [] { assert page[|page| - 1].id in s.executions; }
  }

  lemma ServesList(s: Store, t: string, cursor: string, limit: int, records: seq<Execution>, more: bool)
    requires WellFormed(s) && t in s.tasks && 0 < limit <= MAX_PAGE
    requires ListPage(s, t, cursor, limit) == Ok((records, more))
    requires forall i | 0 <= i < |records| :: records[i].taskId == t
    ensures ServePage(s, t, cursor, limit)
            == Ok((records, if more && records != [] then Some(Last(records).id) else None))
  {
    hide ListPage, WellFormed;
  }

  lemma RecordsHaveKeys(s: Store, keys: seq<Key>)
    requires forall i | 0 <= i < |keys| :: keys[i].id in s.executions && KeyOf(s.executions[keys[i].id]) == keys[i]
    ensures KeysOf(Records(s, keys)) == keys
  {
  }

  lemma ExecutionsPersist(s: Store, change: TaskRuns.Change, s': Store)
    requires WellFormed(s) && TaskRuns.Made(s, change, s')
    ensures forall id | id in s.executions ::
              id in s'.executions && KeyOf(s'.executions[id]) == KeyOf(s.executions[id])
                && s'.executions[id].taskId == s.executions[id].taskId
  {
    hide Recount, AttemptsOf;
  }

  lemma AttemptsPersist(s: Store, change: TaskRuns.Change, s': Store, t: string, n: int)
    requires TaskRuns.Made(s, change, s') && n in AttemptsOf(s, t)
    ensures n in AttemptsOf(s', t) && AttemptsOf(s', t)[n] == AttemptsOf(s, t)[n]
  {
    hide Recount;
  }

  lemma KeysPersist(s: Store, change: TaskRuns.Change, s': Store, t: string)
    requires WellFormed(s) && WellFormed(s') && TaskRuns.Made(s, change, s')
    ensures TaskKeys(s, t) <= TaskKeys(s', t)
  {
    ExecutionsPersist(s, change, s');
    hide TaskRuns.Made, AttemptsOf;
    forall k | k in TaskKeys(s, t) ensures k in TaskKeys(s', t) {
      var n :| n in AttemptsOf(s, t) && KeyOf(s.executions[AttemptsOf(s, t)[n]]) == k;
      AttemptsPersist(s, change, s', t, n);
    }
  }

  /** Later in a run, a task still has the executions it had. */
  ghost predicate Persists(s: Store, s': Store, t: string)
    requires WellFormed(s) && WellFormed(s')
  {
    && t in s'.tasks && TaskKeys(s, t) <= TaskKeys(s', t)
    && forall id | id in s.executions ::
         id in s'.executions && KeyOf(s'.executions[id]) == KeyOf(s.executions[id])
           && s'.executions[id].taskId == s.executions[id].taskId
  }

  /** Stores of one run: each is consistent and keeps what the one before had. */
  ghost predicate Chain(stores: seq<Store>, t: string) {
    stores != [] ==>
      && TaskRuns.StoreInv(stores[0]) && t in stores[0].tasks
      && (|stores| > 1 ==> WellFormed(stores[1]) && Persists(stores[0], stores[1], t))
      && Chain(stores[1..], t)
  }

  lemma {:induction false} ViewsGrow(stores: seq<Store>, t: string)
    requires Chain(stores, t) && Formed(stores)
    ensures Growing(Views(stores, t))
  {
    if |stores| > 1 {
      hide TaskRuns.StoreInv, WellFormed, TaskKeys;
      ViewsGrow(stores[1..], t);
      assert Views(stores, t)[1..] == Views(stores[1..], t);
    }
  }

  lemma {:induction false} ViewsAreBounded(stores: seq<Store>, t: string)
    requires Chain(stores, t) && Formed(stores) && stores != [] && WellFormed(Last(stores))
    ensures TaskKeys(stores[0], t) <= TaskKeys(Last(stores), t)
    ensures Within(Views(stores, t), TaskKeys(Last(stores), t))
  {
    hide TaskRuns.StoreInv, WellFormed, TaskKeys;
    if |stores| > 1 {
      assert Last(stores[1..]) == Last(stores);
      ViewsAreBounded(stores[1..], t);
    }
    assert Views(stores, t)[1..] == Views(stores[1..], t);
  }

  /** The cursor names an execution of the task, or nothing yet. */
  ghost predicate CursorOk(s: Store, t: string, cursor: string) {
    cursor == "" || (cursor in s.executions && s.executions[cursor].taskId == t)
  }

  lemma CursorKeeps(s: Store, s': Store, t: string, cursor: string)
    requires WellFormed(s) && WellFormed(s') && Persists(s, s', t) && CursorOk(s, t, cursor)
    ensures CursorOk(s', t, cursor) && CursorAt(s', cursor) == CursorAt(s, cursor)
  {
    hide TaskKeys, WellFormed;
  }

  /** The page served, and the cursor it hands out. */
  lemma ServedCursor(s: Store, t: string, cursor: string, limit: int)
    requires TaskRuns.StoreInv(s) && t in s.tasks && TaskRuns.Clean(t) && t != "" && 0 < limit <= MAX_PAGE
    requires CursorOk(s, t, cursor)
    ensures var served := ServePage(s, t, cursor, limit);
            var view, at := TaskKeys(s, t), CursorAt(s, cursor);
            var page := Page(view, at, limit);
            && served.Ok? && KeysOf(served.value.0) == page
            && (served.value.1.Some? <==> HasMore(view, at, limit))
            && (served.value.1.Some? ==>
                page != [] && CursorOk(s, t, served.value.1.value)
                  && CursorAt(s, served.value.1.value) == Some(Last(page)))
  {
    assert WellFormed(s) && "" !in s.executions;
    hide TaskRuns.StoreInv, TaskRuns.Clean, WellFormed, ServePage, Page, HasMore, TaskKeys;
    ServedPage(s, t, cursor, limit);
  }

  /** Following cursors is the walk over the keys. */
  lemma {:induction false} FollowIsWalk(stores: seq<Store>, t: string, cursor: string, limit: int)
    requires Chain(stores, t) && Formed(stores) && TaskRuns.Clean(t) && t != "" && 0 < limit <= MAX_PAGE
    requires stores != [] && CursorOk(stores[0], t, cursor)
    ensures var views, at := Views(stores, t), CursorAt(stores[0], cursor);
            Follow(stores, t, cursor, limit) == (Walk(views, at, limit), Finished(views, at, limit))
  {
    var s, rest := stores[0], stores[1..];
    var view, at := TaskKeys(s, t), CursorAt(s, cursor);
    ServedCursor(s, t, cursor, limit);
    FollowStep(stores, t, cursor, limit);
    assert Views(stores, t)[1..] == Views(rest, t) && Views(stores, t)[0] == view;
    WalkStep(Views(stores, t), at, limit);
    var next := ServePage(s, t, cursor, limit).value.1;
    hide TaskRuns.StoreInv, TaskRuns.Clean, WellFormed, Persists, ServePage, Page, HasMore, TaskKeys;
    hide CursorOk, CursorAt, Follow, Walk, Finished, Views;
    if next.Some? {
      if rest == [] { NothingFollows(rest, t, next.value, limit); }
      else {
        CursorKeeps(s, rest[0], t, next.value);
        FollowIsWalk(rest, t, next.value, limit);
      }
    }
  }

  lemma FollowStep(stores: seq<Store>, t: string, cursor: string, limit: int)
    requires Formed(stores) && stores != [] && ServePage(stores[0], t, cursor, limit).Ok?
    ensures var (records, next) := ServePage(stores[0], t, cursor, limit).value;
            Follow(stores, t, cursor, limit) ==
              if next.None? then (KeysOf(records), true)
              else
                var (seen, ended) := Follow(stores[1..], t, next.value, limit);
                (KeysOf(records) + seen, ended)
  {
    hide ServePage, WellFormed;
  }

  lemma WalkStep(views: seq<set<Key>>, at: Option<Key>, limit: nat)
    requires views != [] && limit > 0
    ensures var page := Page(views[0], at, limit);
            if HasMore(views[0], at, limit) then
              && page != []
              && Walk(views, at, limit) == page + Walk(views[1..], Some(Last(page)), limit)
              && Finished(views, at, limit) == Finished(views[1..], Some(Last(page)), limit)
            else Walk(views, at, limit) == page && Finished(views, at, limit)
  {
    if HasMore(views[0], at, limit) { MorePages(views[0], at, limit); }
  }

  lemma NothingFollows(stores: seq<Store>, t: string, cursor: string, limit: int)
    requires stores == [] && limit > 0
    ensures Follow(stores, t, cursor, limit) == ([], false) && Views(stores, t) == []
    ensures forall at :: Walk([], at, limit) == [] && !Finished([], at, limit)
  {
  }

  /** Different keys of one store have different ids. */
  lemma WalkIdsDiffer(stores: seq<Store>, t: string, limit: nat)
    requires Chain(stores, t) && Formed(stores) && stores != [] && WellFormed(Last(stores)) && limit > 0
    ensures Distinct(KeyIds(Walk(Views(stores, t), None, limit)))
  {
    var walk, final := Walk(Views(stores, t), None, limit), Last(stores);
    ViewsAreBounded(stores, t);
    WalkIsSorted(Views(stores, t), None, limit);
    forall i | 0 <= i < |walk| ensures walk[i].id in final.executions && KeyOf(final.executions[walk[i].id]) == walk[i]
    {
      WalkReturnsOnlyExecutions(Views(stores, t), None, limit, TaskKeys(final, t), i);
    }
    hide Views, Walk, Chain, Formed, WellFormed;
    forall i, j | 0 <= i < j < |walk| ensures KeyIds(walk)[i] != KeyIds(walk)[j] {
      StringLessIrreflexive(walk[i].id);
    }
  }

  /** Paging from the start over the stores of a run: every execution the task had when
      the first page was taken is returned, in order of creation time and id, nothing is
      returned twice, and the paging ends once there have been more requests than
      executions. */
  lemma EveryExecutionOnce(stores: seq<Store>, t: string, limit: int)
    requires Chain(stores, t) && Formed(stores) && stores != [] && WellFormed(stores[0]) && WellFormed(Last(stores))
    requires TaskRuns.Clean(t) && t != "" && 0 < limit <= MAX_PAGE
    ensures var (seen, ended) := Follow(stores, t, "", limit);
            && IsSorted(KeyLess, seen) && Distinct(KeyIds(seen))
            && (forall i | 0 <= i < |seen| :: seen[i] in TaskKeys(Last(stores), t))
            && (ended ==> forall k | k in TaskKeys(stores[0], t) :: k in seen)
            && (|stores| > |TaskKeys(Last(stores), t)| ==> ended)
  {
    var views, universe := Views(stores, t), TaskKeys(Last(stores), t);
    assert views[0] == TaskKeys(stores[0], t) && CursorAt(stores[0], "") == None && CursorOk(stores[0], t, "");
    hide Follow, Views, TaskKeys, Chain, Formed, WellFormed, IsSorted, Walk, Finished;
    hide CursorAt, CursorOk, TaskRuns.Clean;
    FollowIsWalk(stores, t, "", limit);
    ViewsGrow(stores, t);
    ViewsAreBounded(stores, t);
    WalkIdsDiffer(stores, t, limit);
    WholeWalk(views, limit, universe);
  }

  lemma WholeWalk(views: seq<set<Key>>, limit: nat, universe: set<Key>)
    requires limit > 0 && Growing(views) && Within(views, universe)
    ensures var walk := Walk(views, None, limit);
            && IsSorted(KeyLess, walk) && (forall i | 0 <= i < |walk| :: walk[i] in universe)
            && (|views| > |universe| ==> Finished(views, None, limit))
            && (Finished(views, None, limit) ==> forall k | k in views[0] :: k in walk)
  {
    hide Walk, IsSorted;
    WalkIsSorted(views, None, limit);
    forall i | 0 <= i < |Walk(views, None, limit)| ensures Walk(views, None, limit)[i] in universe {
      WalkReturnsOnlyExecutions(views, None, limit, universe, i);
    }
    assert KeysPast(universe, None) == universe;
    if |views| > |universe| { WalkFinishes(views, None, limit, universe); }
    if Finished(views, None, limit) { AllReturned(views, limit); }
  }

  lemma AllReturned(views: seq<set<Key>>, limit: nat)
    requires limit > 0 && Growing(views) && Finished(views, None, limit)
    ensures forall k | k in views[0] :: k in Walk(views, None, limit)
  {
    forall k | k in views[0] ensures k in Walk(views, None, limit) { FinishedWalkReturnsAll(views, None, limit, k); }
  }

  // --------------------------------------------------- the stores of a real run

  lemma PersistsTransitive(a: Store, b: Store, c: Store, t: string)
    requires WellFormed(a) && WellFormed(b) && WellFormed(c) && Persists(a, b, t) && Persists(b, c, t)
    ensures Persists(a, c, t)
  {
    hide TaskKeys, WellFormed;
  }

  lemma StepPersists(w: TaskRuns.World, step: TaskRuns.Step, t: string)
    requires TaskRuns.Inv(w) && t in w.store.tasks && WellFormed(TaskRuns.Take(w, step).store)
    ensures Persists(w.store, TaskRuns.Take(w, step).store, t)
  {
    var change := TaskRuns.TakeMakes(w, step);
    var s' := TaskRuns.Take(w, step).store;
    assert TaskRuns.StoreInv(w.store);
    TaskTheorems.ChangeCreates(w.store, change, s');
    hide TaskRuns.Made, TaskRuns.Take, TaskRuns.StoreInv;
    ExecutionsPersist(w.store, change, s');
    KeysPersist(w.store, change, s', t);
  }

  lemma {:induction false} RunPersists(w: TaskRuns.World, steps: seq<TaskRuns.Step>, t: string)
    requires TaskRuns.Inv(w) && t in w.store.tasks
    ensures Persists(w.store, TaskTheorems.Run(w, steps).store, t)
  {
    InvIsWellFormed(w);
    if steps == [] {
      SamePersists(w.store, t);
    } else {
      var before := TaskTheorems.Run(w, Front(steps));
      TaskTheorems.RunSnoc(w, steps);
      hide TaskTheorems.Run, TaskRuns.Take, TaskRuns.Inv, Persists, WellFormed;
      RunPersists(w, Front(steps), t);
      TaskTheorems.RunKeepsInv(w, Front(steps));
      PersistsNames(w.store, before.store, t);
      StepPersists(before, Last(steps), t);
      PersistsTransitive(w.store, before.store, TaskTheorems.Run(w, steps).store, t);
    }
  }

  lemma InvIsWellFormed(w: TaskRuns.World)
    requires TaskRuns.Inv(w)
    ensures WellFormed(w.store)
  {
  }

  lemma SamePersists(s: Store, t: string)
    requires WellFormed(s) && t in s.tasks
    ensures Persists(s, s, t)
  {
  }

  lemma PersistsNames(s: Store, s': Store, t: string)
    requires WellFormed(s) && WellFormed(s') && Persists(s, s', t)
    ensures t in s'.tasks
  {
  }

  /** The stores a client meets when any commands run before each of its requests. */
  ghost function Met(w: TaskRuns.World, chunks: seq<seq<TaskRuns.Step>>): (stores: seq<Store>)
    requires WellFormed(w.store)
    ensures |stores| == |chunks| && Formed(stores)
    decreases |chunks|
  {
    if chunks == [] then [] else
    var w' := TaskTheorems.Run(w, chunks[0]);
    [w'.store] + Met(w', chunks[1..])
  }

  /** They form a chain, so `EveryExecutionOnce` applies to every interleaving. */
  lemma {:induction false} RunsAreChains(w: TaskRuns.World, chunks: seq<seq<TaskRuns.Step>>, t: string)
    requires TaskRuns.Inv(w) && t in w.store.tasks
    ensures Chain(Met(w, chunks), t)
    ensures chunks != [] ==> Persists(w.store, Met(w, chunks)[0], t)
    decreases |chunks|
  {
    if chunks != [] {
      var w' := TaskTheorems.Run(w, chunks[0]);
      RunPersists(w, chunks[0], t);
      PersistsNames(w.store, w'.store, t);
      TaskTheorems.RunKeepsInv(w, chunks[0]);
      hide TaskTheorems.Run, Persists;
      RunsAreChains(w', chunks[1..], t);
      assert Met(w, chunks)[1..] == Met(w', chunks[1..]);
    }
  }

  lemma {:induction false} LastIsFormed(stores: seq<Store>)
    requires Formed(stores) && stores != []
    ensures WellFormed(Last(stores))
  {
    if |stores| > 1 { LastIsFormed(stores[1..]); }
  }

  /** A client pages through the executions of a task while any commands run before each
      of its requests. It gets every execution the task had when the first page was taken,
      in order of creation time and id, none twice and none that never existed; and once
      there have been more requests than executions, it has come to the end. */
  lemma PagingReturnsEveryExecutionOnce(before: seq<TaskRuns.Step>, chunks: seq<seq<TaskRuns.Step>>, t: string,
                                        limit: int)
    requires chunks != [] && TaskRuns.Clean(t) && t != "" && 0 < limit <= MAX_PAGE
    ensures var w := TaskTheorems.Run(TaskTheorems.START, before);
            var stores := Met(w, chunks);
            && WellFormed(stores[0]) && WellFormed(Last(stores))
            && (t in w.store.tasks ==>
                  var (seen, ended) := Follow(stores, t, "", limit);
                  && IsSorted(KeyLess, seen) && Distinct(KeyIds(seen))
                  && (forall i | 0 <= i < |seen| :: seen[i] in TaskKeys(Last(stores), t))
                  && (ended ==> forall k | k in TaskKeys(stores[0], t) :: k in seen)
                  && (|stores| > |TaskKeys(Last(stores), t)| ==> ended))
  {
    TaskTheorems.StartIsOk();
    TaskTheorems.RunKeepsInv(TaskTheorems.START, before);
    var w := TaskTheorems.Run(TaskTheorems.START, before);
    var stores := Met(w, chunks);
    LastIsFormed(stores);
    assert WellFormed(stores[0]);
    hide TaskTheorems.Run, Met, TaskRuns.Inv, TaskRuns.Clean, WellFormed, Formed, Chain, Follow, Walk, Views, TaskKeys;
    if t in w.store.tasks {
      RunsAreChains(w, chunks, t);
      EveryExecutionOnce(stores, t, limit);
    }
  }

  // ------------------------------------------------ when the first page is refused

  lemma NumberedKeys(s: Store, t: string)
    requires TaskRuns.StoreInv(s) && t in s.tasks
    ensures TaskKeys(s, t) != {} <==> s.tasks[t].counts.total > 0
  {
    assert TaskRuns.Numbered(s, t);
    var attempts := AttemptsOf(s, t);
    hide AttemptsOf;
    if s.tasks[t].counts.total > 0 { assert KeyOf(s.executions[attempts[1]]) in TaskKeys(s, t); }
  }

  /** Under an id with white space around it, every execution names another task. */
  lemma UncleanRecordsAreForeign(s: Store, t: string, limit: nat)
    requires TaskRuns.StoreInv(s) && t in s.tasks && !TaskRuns.Clean(t)
    ensures var page := Page(TaskKeys(s, t), None, limit);
            forall i | 0 <= i < |page| :: page[i].id in s.executions && s.executions[page[i].id].taskId != t
  {
    var page := Page(TaskKeys(s, t), None, limit);
    var attempts := AttemptsOf(s, t);
    forall i | 0 <= i < |page| ensures page[i].id in s.executions && s.executions[page[i].id].taskId != t {
      PageIsPast(TaskKeys(s, t), None, limit, i);
      var n :| n in attempts && KeyOf(s.executions[attempts[n]]) == page[i];
      assert TaskRuns.Numbered(s, t);
      assert TaskRuns.FiledAt(attempts, s.executions, Trim(t), n);
    }
  }

  lemma FirstPage(s: Store, t: string, limit: nat)
    requires WellFormed(s) && limit > 0
    ensures Page(TaskKeys(s, t), None, limit) == [] <==> TaskKeys(s, t) == {}
  {
    var view := TaskKeys(s, t);
    assert KeysPast(view, None) == view;
    var all := InOrder(view);
    assert forall i | 0 <= i < |all| :: all[i] in Elements(all);
    if view != {} {
      var k :| k in view;
      assert k in Elements(all);
    }
  }

  /** In every run, a client is refused the first page of a task exactly if the task's id
      has white space around it and the task has executions: those name the trimmed id. */
  lemma FirstPageIsRefused(steps: seq<TaskRuns.Step>, t: string, limit: int)
    requires t != "" && 0 < limit <= MAX_PAGE
    ensures var s := TaskTheorems.Run(TaskTheorems.START, steps).store;
            t in s.tasks ==> (ServePage(s, t, "", limit).Err? <==> !TaskRuns.Clean(t) && s.tasks[t].counts.total > 0)
  {
    TaskTheorems.StartIsOk();
    TaskTheorems.RunKeepsInv(TaskTheorems.START, steps);
    var s := TaskTheorems.Run(TaskTheorems.START, steps).store;
    assert TaskRuns.StoreInv(s) && WellFormed(s);
    hide TaskTheorems.Run, TaskRuns.Inv, TaskRuns.Clean;
    if t in s.tasks {
      if TaskRuns.Clean(t) { ServedPage(s, t, "", limit); } else { UncleanFirstPage(s, t, limit); }
    }
  }

  lemma UncleanFirstPage(s: Store, t: string, limit: int)
    requires TaskRuns.StoreInv(s) && t in s.tasks && !TaskRuns.Clean(t) && t != "" && 0 < limit <= MAX_PAGE
    ensures ServePage(s, t, "", limit).Err? <==> s.tasks[t].counts.total > 0
  {
    NumberedKeys(s, t);
    FirstPage(s, t, limit);
    PageIsKnown(s, t, None, limit);
    UncleanRecordsAreForeign(s, t, limit);
    var page := Page(TaskKeys(s, t), None, limit);
    hide Page, TaskKeys, HasMore, TaskRuns.StoreInv, TaskRuns.Clean;
    var records := Records(s, page);
    assert ListPage(s, t, "", limit) == Ok((records, HasMore(TaskKeys(s, t), None, limit)));
    hide ListPage, Records;
    if page != [] { assert records[0].taskId != t; }
  }
}
