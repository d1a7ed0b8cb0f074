/** How tasks, executions and waitpoints live, over whole runs with stale reads. */
module TaskLifecycles {
  import opened Basics
  import TR = TaskRecords
  import ER = ExecutionRecords
  import WR = WaitpointRecords
  import opened Tasks
  import opened TaskRuns
  import opened TaskTheorems

  /** What a later state of a run owes to an earlier one. */
  ghost predicate Grown(s: Store, s': Store) {
    && (forall id | id in s.tasks :: id in s'.tasks && ProgressGrows(s.tasks[id].progress, s'.tasks[id].progress))
    && (forall id | id in s.executions :: id in s'.executions && StaysFinished(s.executions[id], s'.executions[id]))
    && (forall id | id in s.waitpoints :: id in s'.waitpoints && StaysSettled(s.waitpoints[id], s'.waitpoints[id]))
  }

  /** A finished execution keeps its state and its reason, a bound one its reference. */
  ghost predicate StaysFinished(e: Execution, e': Execution) {
    && (Finished(e.state) ==> e'.state == e.state && e'.failureReason == e.failureReason)
    && (!ER.ReferenceEmpty(e.reference) ==> e'.reference == e.reference)
  }

  ghost predicate StaysSettled(p: Waitpoint, p': Waitpoint) { p.state != WR.Waiting ==> p' == p }

  /** What holds of a task at any time. */
  ghost predicate SensibleTask(r: Task) { CancellationFits(r) && TR.ProgressValid(r.progress) && Founded(r) }

  ghost predicate Sensible(s: Store) {
    && (forall id | id in s.tasks :: SensibleTask(s.tasks[id]))
    && (forall id | id in s.executions :: ER.ExecutionValid(s.executions[id], 1))
  }

  lemma TouchedIsSensible(r: Task, counts: TR.Counts, at: Instant)
    requires SensibleTask(r) && at != ZERO_TIME
    ensures SensibleTask(Touched(r.(counts := counts), at))
  {
  }

  lemma LivingIsSensible(r: Task, next: Task)
    requires SensibleTask(r) && TaskLives(r, next) && Succeeds(next, r)
    ensures SensibleTask(next)
  {
    hide Trim, CancellationFits;
  }

  lemma ChangeKeepsSensibleTasks(s: Store, change: Change, s': Store, id: string)
    requires Sensible(s) && Made(s, change, s') && Lawful(s, change) && id in s'.tasks
    ensures SensibleTask(s'.tasks[id])
  {
    hide NextAttempt, Recount, AttemptsOf, SensibleTask, TaskLives, WellFormed, ER.ExecutionValid, Trim;
    match change
    case Nothing =>
    case NewTask(task) => if id == task.id { NewIsSensible(task); }
    case Swapped(next) => if id == next.id { LivingIsSensible(s.tasks[id], next); }
    case NewExecution(taskId, parent, record) => if id == taskId { LivingIsSensible(s.tasks[id], parent); }
    case ChangedExecution(previous, changed) =>
      if id == changed.taskId {
        ChangedIsDated(previous, changed);
        TouchedIsSensible(s.tasks[id], Recount(s.tasks[id].counts, previous.state, changed.state), changed.updatedAt);
      }
    case NewWaitpoint(wait) =>
      if id == wait.taskId { TouchedIsSensible(s.tasks[id], s.tasks[id].counts, wait.updatedAt); }
    case ChangedWaitpoint(waitpoint) =>
      if id == waitpoint.taskId { TouchedIsSensible(s.tasks[id], s.tasks[id].counts, waitpoint.updatedAt); }
  }

  lemma NewIsSensible(task: Task)
    requires CancellationFits(task) && TR.ProgressValid(task.progress) && Founded(task)
    ensures SensibleTask(task)
  {
  }

  lemma ChangedIsDated(previous: Execution, changed: Execution)
    requires ExecutionLives(previous, changed)
    ensures ER.ExecutionValid(changed, 1) && changed.updatedAt != ZERO_TIME
  {
  }

  lemma ChangeKeepsSensible(s: Store, change: Change, s': Store)
    requires Sensible(s) && Made(s, change, s') && Lawful(s, change)
    ensures Sensible(s')
  {
    forall id | id in s'.tasks ensures SensibleTask(s'.tasks[id]) { ChangeKeepsSensibleTasks(s, change, s', id); }
    hide NextAttempt, Recount, AttemptsOf, SensibleTask, TaskLives, ExecutionLives, ER.ExecutionValid, WaitpointLives,
         Touched;
    if change.ChangedExecution? { ChangedIsDated(change.previous, change.changed); }
  }

  lemma ChangeGrowsTasks(s: Store, change: Change, s': Store)
    requires WellFormed(s) && Made(s, change, s') && Lawful(s, change)
    ensures forall id | id in s.tasks :: id in s'.tasks && ProgressGrows(s.tasks[id].progress, s'.tasks[id].progress)
  {
    hide NextAttempt, Recount, AttemptsOf, CancellationFits, TR.ProgressValid, ExecutionLives, WaitpointLives;
  }

  lemma ChangeKeepsChildren(s: Store, change: Change, s': Store)
    requires WellFormed(s) && Made(s, change, s') && Lawful(s, change)
    ensures forall id | id in s.executions :: id in s'.executions && StaysFinished(s.executions[id], s'.executions[id])
    ensures forall id | id in s.waitpoints :: id in s'.waitpoints && StaysSettled(s.waitpoints[id], s'.waitpoints[id])
  {
    hide NextAttempt, Recount, AttemptsOf, TaskLives, Touched, OneMorePending;
  }

  lemma GrownTransitive(a: Store, b: Store, c: Store)
    requires Grown(a, b) && Grown(b, c)
    ensures Grown(a, c)
  {
  }

  lemma StepGrows(w: World, step: Step)
    requires Inv(w) && Sensible(w.store)
    ensures Grown(w.store, Take(w, step).store) && Sensible(Take(w, step).store)
  {
    var change := TakeMakes(w, step);
    assert WellFormed(w.store);
    var s' := Take(w, step).store;
    hide Take, Inv, Made, Lawful, Sensible, WellFormed;
    ChangeGrowsTasks(w.store, change, s');
    ChangeKeepsChildren(w.store, change, s');
    ChangeKeepsSensible(w.store, change, s');
  }

  lemma {:induction false} RunGrows(w: World, steps: seq<Step>)
    requires Inv(w) && Sensible(w.store)
    ensures Grown(w.store, Run(w, steps).store) && Sensible(Run(w, steps).store)
  {
    InvIsFormed(w);
    if steps == [] {
      GrownFromItself(w.store);
    } else {
      var before := Run(w, Front(steps));
      RunSnoc(w, steps);
      hide Run, Take, Inv, Grown, Sensible, WellFormed;
      RunGrows(w, Front(steps));
      RunKeepsInv(w, Front(steps));
      StepGrows(before, Last(steps));
      GrownTransitive(w.store, before.store, Run(w, steps).store);
    }
  }

  lemma InvIsFormed(w: World)
    requires Inv(w)
    ensures WellFormed(w.store)
  {
  }

  lemma GrownFromItself(s: Store)
    ensures Grown(s, s)
  {
  }

  /** In any run, with any stale reads: progress never goes back and a known total never
      changes; a finished execution stays finished with its reason; a bound execution keeps
      its reference; and a waitpoint that has been answered is never touched again. */
  lemma NothingIsUndone(steps: seq<Step>, more: seq<Step>)
    ensures Grown(Run(START, steps).store, Run(START, steps + more).store)
  {
    StartIsOk();
    RunKeepsInv(START, steps);
    RunGrows(START, steps);
    RunConcat(START, steps, more);
    RunGrows(Run(START, steps), more);
    hide Run, Grown, Inv, Sensible;
  }

  /** In every reachable state the cancellation status fits the state of the task, the
      progress is within its total, and every record has its identity and its dates. */
  lemma CancellationFitsTheState(steps: seq<Step>)
    ensures Sensible(Run(START, steps).store)
  {
    StartIsOk();
    RunGrows(START, steps);
    hide Run, Grown, Inv, Sensible;
  }

  /** The deadline decides: a waiting waitpoint can be answered strictly before it and
      expired from then on, so at every moment exactly one of the two is possible. */
  lemma AnswerOrExpiry(r: Waitpoint, resolution: string, hash: string, resolutionId: string, actor: string,
                       now: Instant)
    requires r.state == WR.Waiting && r.deadline != ZERO_TIME && now != ZERO_TIME && now >= r.createdAt
    requires resolution != "" && Trim(hash) != "" && Trim(resolutionId) != "" && Trim(actor) != ""
    ensures WR.Resolve(r, resolution, hash, resolutionId, actor, now).Ok? <==> now < r.deadline
    ensures WR.Expire(r, now).Ok? <==> now >= r.deadline
    ensures WR.Resolve(r, resolution, hash, resolutionId, actor, now).Ok? ==>
              var answered := WR.Resolve(r, resolution, hash, resolutionId, actor, now).value;
              && answered.state == WR.Resolved && answered.resolution == resolution
              && WR.Resolve(answered, resolution, hash, resolutionId, actor, now) == Ok(answered)
  {
  }

  /** Over every run with clean ids the stored records pass the checks that every command
      makes first, so a command on a current record at a proper time is never refused as a
      damaged record. */
  lemma StoredRecordsAreValid(steps: seq<Step>, now: Instant)
    requires CreatesClean(steps) && now != ZERO_TIME
    ensures var s := Run(START, steps).store;
            && (forall id | id in s.tasks :: TR.TaskValid(s.tasks[id], now))
            && (forall id | id in s.executions :: ER.ExecutionValid(s.executions[id], now))
  {
    CancellationFitsTheState(steps);
    CountersAreExact(steps);
    hide Run, Trim, TR.CountsValid, CancellationFits;
  }

  /** No step, with whatever stale read, moves a task or an execution off its table. */
  lemma MovesFollowTheTables(steps: seq<Step>, step: Step)
    ensures var s, s' := Run(START, steps).store, Run(START, steps + [step]).store;
            && (forall id | id in s.tasks ::
                  id in s'.tasks && (s'.tasks[id].state == s.tasks[id].state
                                     || (s.tasks[id].state, s'.tasks[id].state) in TASK_MOVES))
            && (forall id | id in s.executions ::
                  id in s'.executions && (s'.executions[id].state == s.executions[id].state
                                          || (s.executions[id].state, s'.executions[id].state) in EXECUTION_MOVES))
  {
    StartIsOk();
    RunKeepsInv(START, steps);
    RunConcat(START, steps, [step]);
    RunOne(Run(START, steps), step);
    var w := Run(START, steps);
    hide Run;
    var change := TakeMakes(w, step);
    ChangeFollowsTheTables(w.store, change, Take(w, step).store);
  }

  lemma ChangeFollowsTheTables(s: Store, change: Change, s': Store)
    requires WellFormed(s) && Made(s, change, s') && Lawful(s, change)
    ensures forall id | id in s.tasks ::
              id in s'.tasks && (s'.tasks[id].state == s.tasks[id].state
                                 || (s.tasks[id].state, s'.tasks[id].state) in TASK_MOVES)
    ensures forall id | id in s.executions ::
              id in s'.executions && (s'.executions[id].state == s.executions[id].state
                                      || (s.executions[id].state, s'.executions[id].state) in EXECUTION_MOVES)
  {
    hide NextAttempt, Recount, AttemptsOf, CancellationFits, TR.ProgressValid, ER.ExecutionValid, Founded, TASK_MOVES,
         EXECUTION_MOVES;
  }

  /** The task moves with its child: one version up, and as recent as the later of the two. */
  ghost predicate FollowsChild(s: Store, s': Store, t: string, childAt: Instant) {
    && t in s.tasks && t in s'.tasks && s'.tasks[t].version == s.tasks[t].version + 1
    && s'.tasks[t].updatedAt == (if s.tasks[t].updatedAt < childAt then childAt else s.tasks[t].updatedAt)
  }

  /** Whenever a step changes an execution or a waitpoint, the task it belongs to follows. */
  lemma TaskFollowsItsChildren(steps: seq<Step>, step: Step)
    ensures var s, s' := Run(START, steps).store, Run(START, steps + [step]).store;
            && (forall id | id in s.executions && id in s'.executions && s'.executions[id] != s.executions[id] ::
                  FollowsChild(s, s', s'.executions[id].taskId, s'.executions[id].updatedAt))
            && (forall id | id in s.waitpoints && id in s'.waitpoints && s'.waitpoints[id] != s.waitpoints[id] ::
                  FollowsChild(s, s', s'.waitpoints[id].taskId, s'.waitpoints[id].updatedAt))
  {
    StartIsOk();
    RunKeepsInv(START, steps);
    RunConcat(START, steps, [step]);
    RunOne(Run(START, steps), step);
    var w := Run(START, steps);
    hide Run;
    var change := TakeMakes(w, step);
    ChangeIsFollowed(w.store, change, Take(w, step).store);
  }

  lemma ChangeIsFollowed(s: Store, change: Change, s': Store)
    requires WellFormed(s) && Made(s, change, s')
    ensures forall id | id in s.executions && id in s'.executions && s'.executions[id] != s.executions[id] ::
              FollowsChild(s, s', s'.executions[id].taskId, s'.executions[id].updatedAt)
    ensures forall id | id in s.waitpoints && id in s'.waitpoints && s'.waitpoints[id] != s.waitpoints[id] ::
              FollowsChild(s, s', s'.waitpoints[id].taskId, s'.waitpoints[id].updatedAt)
  {
    hide NextAttempt, Recount, AttemptsOf;
  }
}
