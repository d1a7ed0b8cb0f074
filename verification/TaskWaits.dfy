/** Waitpoints: one per task and key, answered once and in time. */
module TaskWaits {
  import opened Basics
  import WR = WaitpointRecords
  import opened Tasks
  import opened TaskRuns
  import opened TaskTheorems
  import EnqueueTheorems
  import Jobs

  // -------------------------------------------------------------------- answers

  /** The answer comes in time: a resolution before the deadline, an expiry from it on. */
  ghost predicate InTime(r: Waitpoint, answer: WaitpointCommand, now: Instant) {
    match answer
    case Resolve(_, _, _, _) => r.createdAt <= now && (r.deadline == ZERO_TIME || now < r.deadline)
    case CancelWait => r.createdAt <= now
    case ExpireWait => r.deadline != ZERO_TIME && r.deadline <= now
  }

  ghost predicate CompleteAnswer(answer: WaitpointCommand) {
    answer.Resolve? ==>
      && answer.resolution != "" && Trim(answer.hash) != "" && Trim(answer.resolutionId) != ""
      && Trim(answer.actor) != ""
  }

  /** The waitpoint with its answer, before it is dated. */
  function Answered(r: Waitpoint, answer: WaitpointCommand, now: Instant): Waitpoint {
    match answer
    case Resolve(resolution, hash, resolutionId, actor) =>
      r.(state := WR.Resolved, resolution := resolution, resolutionHash := Trim(hash),
         resolutionId := Trim(resolutionId), resolvedBy := Trim(actor), resolvedAt := now)
    case CancelWait => r.(state := WR.Cancelled)
    case ExpireWait => r.(state := WR.Expired)
  }

  /** A waitpoint takes an answer exactly while it waits, when the answer is complete and in
      time, and, except for an expiry, comes with the current version. */
  lemma AnswerIsExact(r: Waitpoint, expected: int, answer: WaitpointCommand, now: Instant)
    ensures var next := NextWaitpoint(r, expected, answer, now);
            && (next.Some? <==>
                && r.state == WR.Waiting && now != ZERO_TIME && CompleteAnswer(answer) && InTime(r, answer, now)
                && (answer.ExpireWait? || (expected == r.version && expected > 0)))
            && (next.Some? ==> next.value == Answered(r, answer, now).(version := r.version + 1, updatedAt := now))
  {
    hide Trim;
  }

  /** A waitpoint starts waiting, with a deadline that is still to come if it has one. */
  lemma WaitIsExact(spec: WR.WaitpointSpec)
    ensures var made := WR.NewWaitpoint(spec);
            && (made.Ok? <==>
                && Trim(spec.id) != "" && Trim(spec.taskId) != "" && Trim(spec.key) != "" && spec.schema >= 1
                && spec.kind != WR.UnknownKind && spec.now != ZERO_TIME
                && (spec.deadline == ZERO_TIME || spec.now < spec.deadline))
            && (made.Ok? ==>
                  made.value == WR.Waitpoint(Trim(spec.id), Trim(spec.taskId), Trim(spec.key), spec.kind, spec.schema,
                                             WR.Waiting, spec.deadline, "", "", "", "", ZERO_TIME, 1, spec.now,
                                               spec.now))
  {
    hide Trim;
  }

  /** Storing an answer that is already there succeeds and changes nothing. */
  lemma AnsweringAgainIsHarmless(s: Store, r: Waitpoint)
    requires r.id in s.waitpoints && s.waitpoints[r.id] == r
    ensures UpdateWaitpoint(s, r, r.version) == (s, Ok(r))
  {
  }

  // ----------------------------------------------------------------------- keys

  /** The index names every waitpoint under its own task and key, and nothing else. */
  ghost predicate Keyed(s: Store) {
    && (forall k | k in s.waitpointKeys ::
          && s.waitpointKeys[k] in s.waitpoints
          && WaitpointKey(s.waitpoints[s.waitpointKeys[k]].taskId, s.waitpoints[s.waitpointKeys[k]].key) == k)
    && (forall id | id in s.waitpoints ::
          && WaitpointKey(s.waitpoints[id].taskId, s.waitpoints[id].key) in s.waitpointKeys
          && s.waitpointKeys[WaitpointKey(s.waitpoints[id].taskId, s.waitpoints[id].key)] == id)
  }

  ghost predicate SameWait(p: Waitpoint, q: Waitpoint) { p.taskId == q.taskId && p.key == q.key }

  lemma NewIsKeyed(s: Store, s': Store, p: Waitpoint)
    requires Keyed(s) && p.id !in s.waitpoints && WaitpointKey(p.taskId, p.key) !in s.waitpointKeys
    requires s'.waitpoints == s.waitpoints[p.id := p]
    requires s'.waitpointKeys == s.waitpointKeys[WaitpointKey(p.taskId, p.key) := p.id]
    ensures Keyed(s')
  {
    hide WaitpointKey;
  }

  lemma ChangedIsKeyed(s: Store, s': Store, p: Waitpoint)
    requires Keyed(s) && p.id in s.waitpoints && SameWait(s.waitpoints[p.id], p)
    requires s'.waitpoints == s.waitpoints[p.id := p] && s'.waitpointKeys == s.waitpointKeys
    ensures Keyed(s')
  {
    hide WaitpointKey;
  }

  lemma ChangeKeepsKeyed(s: Store, change: Change, s': Store)
    requires Keyed(s) && Made(s, change, s') && Lawful(s, change)
    ensures Keyed(s')
  {
    hide NextAttempt, Recount, AttemptsOf, TaskLives, ExecutionLives, WaitpointKey, Touched;
    if change.NewWaitpoint? { NewIsKeyed(s, s', change.wait); }
    else if change.ChangedWaitpoint? { ChangedIsKeyed(s, s', change.waitpoint); }
    else { assert s'.waitpoints == s.waitpoints && s'.waitpointKeys == s.waitpointKeys; }
  }

  lemma {:induction false} RunKeepsKeyed(w: World, steps: seq<Step>)
    requires Inv(w) && Keyed(w.store)
    ensures Keyed(Run(w, steps).store)
  {
    hide Keyed, Take, Made, Lawful;
    RunKeepsInv(w, steps);
    if steps != [] {
      var before := Run(w, Front(steps));
      RunKeepsKeyed(w, Front(steps));
      RunKeepsInv(w, Front(steps));
      RunSnoc(w, steps);
      var change := TakeMakes(before, Last(steps));
      ChangeKeepsKeyed(before.store, change, Take(before, Last(steps)).store);
    }
  }

  /** No task id, followed by a NUL byte, begins another. */
  ghost predicate TasksApart(s: Store) {
    forall a, b | a in s.tasks && b in s.tasks :: !EnqueueTheorems.Nested(a, b)
  }

  ghost predicate AnswersRightly(s: Store, record: Waitpoint, s': Store, made: Result<(Waitpoint, bool), StoreError>) {
    && (record.taskId !in s.tasks ==> made == Err(TaskMissing) && s' == s)
    && (record.taskId in s.tasks ==>
          if there :| there in s.waitpoints && SameWait(s.waitpoints[there], record) then
            var prior := s.waitpoints[there];
            && s' == s
            && made == if prior.id == record.id && prior.kind == record.kind && prior.schema == record.schema
                          && prior.deadline == record.deadline
                       then Ok((prior, true)) else Err(WaitpointConflict)
          else if record.id in s.waitpoints then s' == s && made == Err(AlreadyExists)
          else made == Ok((record, false)) && s'.waitpoints == s.waitpoints[record.id := record])
  }

  /** In every reachable state whose task ids are apart there is one waitpoint per task and
      key. Creating it again returns the one that is there, or reports a conflict if the two
      differ; creating another one under a fresh id succeeds. */
  lemma OneWaitpointPerKey(steps: seq<Step>, record: Waitpoint)
    requires TasksApart(Run(START, steps).store)
    ensures var s := Run(START, steps).store;
            && WellFormed(s)
            && (forall a, b | a in s.waitpoints && b in s.waitpoints && SameWait(s.waitpoints[a], s.waitpoints[b]) ::
                  a == b)
            && AnswersRightly(s, record, CreateWaitpoint(s, record).0, CreateWaitpoint(s, record).1)
  {
    StartIsOk();
    RunKeepsInv(START, steps);
    RunKeepsKeyed(START, steps);
    var s := Run(START, steps).store;
    hide Run;
    KeysTellApart(s, record);
    CreationAnswers(s, record);
    hide CreateWaitpoint, AnswersRightly, Keyed, SameWait;
  }

  lemma CreationAnswers(s: Store, record: Waitpoint)
    requires WellFormed(s) && Keyed(s)
    requires forall a, b | a in s.waitpoints && b in s.waitpoints && SameWait(s.waitpoints[a], s.waitpoints[b]) ::
               a == b
    requires record.taskId in s.tasks ==> KeyTellsApart(s, record)
    ensures AnswersRightly(s, record, CreateWaitpoint(s, record).0, CreateWaitpoint(s, record).1)
  {
    hide WaitpointKey;
  }

  ghost predicate KeyTellsApart(s: Store, record: Waitpoint) {
    forall id | id in s.waitpoints ::
      WaitpointKey(s.waitpoints[id].taskId, s.waitpoints[id].key) == WaitpointKey(record.taskId, record.key)
      <==> SameWait(s.waitpoints[id], record)
  }

  lemma KeysTellApart(s: Store, record: Waitpoint)
    requires StoreInv(s) && Keyed(s) && TasksApart(s)
    ensures forall a, b | a in s.waitpoints && b in s.waitpoints && SameWait(s.waitpoints[a], s.waitpoints[b]) :: a == b
    ensures record.taskId in s.tasks ==> KeyTellsApart(s, record)
  {
    hide Numbered, WellFormed;
    if record.taskId in s.tasks {
      forall id | id in s.waitpoints
        ensures WaitpointKey(s.waitpoints[id].taskId, s.waitpoints[id].key) == WaitpointKey(record.taskId, record.key)
                <==> SameWait(s.waitpoints[id], record)
      {
        TellApart(s.waitpoints[id], record);
      }
    }
  }

  lemma TellApart(p: Waitpoint, q: Waitpoint)
    requires !EnqueueTheorems.Nested(p.taskId, q.taskId)
    ensures WaitpointKey(p.taskId, p.key) == WaitpointKey(q.taskId, q.key) <==> SameWait(p, q)
  {
    if WaitpointKey(p.taskId, p.key) == WaitpointKey(q.taskId, q.key) {
      assert Jobs.Scope(p.taskId, p.key) == Jobs.Scope(q.taskId, q.key);
      if p.taskId == q.taskId { EnqueueTheorems.ScopeOfOneLane(p.taskId, p.key, q.key); }
      else if |p.taskId| <= |q.taskId| { EnqueueTheorems.CollisionNests(p.taskId, p.key, q.taskId, q.key); }
      else { EnqueueTheorems.CollisionNests(q.taskId, q.key, p.taskId, p.key); }
    }
  }

  /** Apart from that, tasks stand in each other's way: of two nested ids, some waitpoint of
      the one makes some waitpoint of the other impossible. */
  lemma NestedTasksClash(s: Store, a: string, b: string) returns (j: string, k: string)
    requires WellFormed(s) && a in s.tasks && b in s.tasks && EnqueueTheorems.Nested(a, b)
    ensures a != b
    ensures forall p: Waitpoint, q: Waitpoint |
              && p.taskId == a && p.key == j && q.taskId == b && q.key == k && p.id != q.id
              && CreateWaitpoint(s, p).1 == Ok((p, false)) ::
              WellFormed(CreateWaitpoint(s, p).0)
              && CreateWaitpoint(CreateWaitpoint(s, p).0, q).1 == Err(WaitpointConflict)
  {
    j, k := EnqueueTheorems.CollidingKeys(a, b);
    assert WaitpointKey(a, j) == WaitpointKey(b, k);
    hide EnqueueTheorems.Nested, WaitpointKey;
  }
}
