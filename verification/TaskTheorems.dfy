/** What holds of the Task aggregate in every interleaving. */
module TaskTheorems {
  import opened Basics
  import TR = TaskRecords
  import ER = ExecutionRecords
  import opened Tasks
  import opened TaskRuns

  // ------------------------------------------------ every change keeps the truth

  lemma ChangeKeepsWellFormed(s: Store, change: Change, s': Store)
    requires WellFormed(s) && Made(s, change, s')
    ensures WellFormed(s')
  {
    ChangeKeepsIds(s, change, s');
    ChangeKeepsIndexes(s, change, s');
    hide Made;
  }

  lemma ChangeKeepsIds(s: Store, change: Change, s': Store)
    requires WellFormed(s) && Made(s, change, s')
    ensures forall id | id in s'.tasks :: s'.tasks[id].id == id
    ensures (forall id | id in s'.executions :: s'.executions[id].id == id) && "" !in s'.executions
    ensures forall id | id in s'.waitpoints :: s'.waitpoints[id].id == id
    ensures s'.fingerprints.Keys == s'.retries.Keys
  {
    hide NextAttempt, Recount, AttemptsOf;
  }

  lemma ChangeKeepsIndexes(s: Store, change: Change, s': Store)
    requires WellFormed(s) && Made(s, change, s')
    ensures forall id | id in s'.attempts :: forall n | n in s'.attempts[id] :: s'.attempts[id][n] in s'.executions
    ensures forall k | k in s'.waitpointKeys :: s'.waitpointKeys[k] in s'.waitpoints
  {
    hide NextAttempt, Recount;
    if change.NewExecution? {
      forall id | id in s'.attempts ensures forall n | n in s'.attempts[id] :: s'.attempts[id][n] in s'.executions {
        assert id == change.taskId || s'.attempts[id] == s.attempts[id];
      }
    }
  }

  lemma ChangeKeepsOwned(s: Store, change: Change, s': Store)
    requires Owned(s) && Made(s, change, s')
    ensures Owned(s')
  {
    hide NextAttempt, Recount, AttemptsOf;
  }

  lemma NothingToCount(executions: map<string, Execution>, t: string)
    requires forall id | id in executions :: executions[id].taskId != t
    ensures CountsMatch(TR.NO_COUNTS, executions, t)
  {
    assert AllOf(executions, t) == {};
    forall state ensures InState(executions, t, state) == {} { }
  }

  lemma AddedIn(executions: map<string, Execution>, record: Execution, state: ER.ExecutionState)
    requires record.id !in executions
    ensures |InState(executions[record.id := record], record.taskId, state)|
         == |InState(executions, record.taskId, state)| + if state == record.state then 1 else 0
  {
    var was, now := InState(executions, record.taskId, state),
      InState(executions[record.id := record], record.taskId, state);
    if state == record.state { assert now == was + {record.id}; } else { assert now == was; }
  }

  lemma OneMore(counts: TR.Counts, executions: map<string, Execution>, record: Execution)
    requires CountsMatch(counts, executions, record.taskId) && record.id !in executions
    requires record.state == ER.PendingDispatch
    ensures CountsMatch(counts.(total := counts.total + 1, pendingDispatch := counts.pendingDispatch + 1),
                        executions[record.id := record], record.taskId)
  {
    var t, executions' := record.taskId, executions[record.id := record];
    assert AllOf(executions', t) == AllOf(executions, t) + {record.id};
    var counts' := counts.(total := counts.total + 1, pendingDispatch := counts.pendingDispatch + 1);
    assert |AllOf(executions', t)| == counts'.total;
    hide InState, AllOf;
    forall state ensures CountOf(counts', state) == |InState(executions', t, state)| {
      AddedIn(executions, record, state);
      assert CountOf(counts, state) == |InState(executions, t, state)|;
    }
  }

  lemma Elsewhere(counts: TR.Counts, executions: map<string, Execution>, record: Execution, t: string)
    requires CountsMatch(counts, executions, t) && record.taskId != t
    requires record.id in executions ==> executions[record.id].taskId != t
    ensures CountsMatch(counts, executions[record.id := record], t)
  {
    var executions' := executions[record.id := record];
    assert AllOf(executions', t) == AllOf(executions, t);
    forall state ensures InState(executions', t, state) == InState(executions, t, state) { }
  }

  lemma RecountMoves(c: TR.Counts, from: ER.ExecutionState, to: ER.ExecutionState, state: ER.ExecutionState)
    requires from != to
    ensures CountOf(Recount(c, from, to), state)
            == CountOf(c, state) + (if state == to then 1 else 0) - (if state == from then 1 else 0)
    ensures Recount(c, from, to).total == c.total
  {
  }

  lemma MovedIn(executions: map<string, Execution>, record: Execution, state: ER.ExecutionState)
    requires record.id in executions && executions[record.id].taskId == record.taskId
    requires executions[record.id].state != record.state
    ensures |InState(executions[record.id := record], record.taskId, state)|
         == |InState(executions, record.taskId, state)|
           + (if state == record.state then 1 else 0) - (if state == executions[record.id].state then 1 else 0)
  {
    var was, now := InState(executions, record.taskId, state),
      InState(executions[record.id := record], record.taskId, state);
    if state == record.state { assert now == was + {record.id}; }
    else if state == executions[record.id].state { assert now == was - {record.id}; }
    else { assert now == was; }
  }

  /** Moving one execution from state to state leaves the sum alone. */
  lemma CountsAddUp(c: TR.Counts, from: ER.ExecutionState, to: ER.ExecutionState)
    requires TR.CountsValid(c) && from != to && CountOf(c, from) > 0
    ensures TR.CountsValid(Recount(c, from, to))
  {
  }

  lemma Moved(counts: TR.Counts, executions: map<string, Execution>, record: Execution)
    requires CountsMatch(counts, executions, record.taskId)
    requires record.id in executions && executions[record.id].taskId == record.taskId
    ensures CountsMatch(Recount(counts, executions[record.id].state, record.state), executions[record.id := record],
                        record.taskId)
  {
    var t, from, executions' := record.taskId, executions[record.id].state, executions[record.id := record];
    assert AllOf(executions', t) == AllOf(executions, t);
    assert record.id in InState(executions, t, from);
    if from == record.state {
      forall state ensures InState(executions', t, state) == InState(executions, t, state) { }
    } else {
      CountsAddUp(counts, from, record.state);
      hide Recount, InState, CountOf, AllOf;
      forall state ensures CountOf(Recount(counts, from, record.state), state) == |InState(executions', t, state)| {
        RecountMoves(counts, from, record.state, state);
        MovedIn(executions, record, state);
      }
      RecountMoves(counts, from, record.state, from);
    }
  }

  lemma ChangeKeepsCounted(s: Store, change: Change, s': Store, t: string)
    requires Exact(s) && Made(s, change, s') && t in s'.tasks
    ensures Counted(s', t)
  {
    hide CountsMatch, Complete, Recount;
    if t in s.tasks { assert Counted(s, t); }
    match change
    case NewTask(task) => if t == task.id { NothingToCount(s.executions, t); }
    case NewExecution(taskId, parent, record) =>
      assert Clean(taskId);
      if t == taskId { OneMore(s.tasks[t].counts, s.executions, record); }
      else { Elsewhere(s.tasks[t].counts, s.executions, record, t); }
    case ChangedExecution(previous, changed) =>
      if t == changed.taskId { Moved(s.tasks[t].counts, s.executions, changed); }
      else { Elsewhere(s.tasks[t].counts, s.executions, changed, t); }
    case _ =>
  }

  lemma OneMoreNumber(attempts: Attempts, executions: map<string, Execution>, record: Execution, total: int)
    requires NumbersMatch(attempts, executions, record.taskId, total) && record.taskId != ""
    requires record.id !in executions && record.attempt == total + 1
    ensures NumbersMatch(attempts[record.attempt := record.id], executions[record.id := record], record.taskId,
                         total + 1)
  {
    var attempts', executions' := attempts[record.attempt := record.id], executions[record.id := record];
    forall n | n in attempts' ensures FiledAt(attempts', executions', record.taskId, n) {
      if n != record.attempt { assert FiledAt(attempts, executions, record.taskId, n); }
    }
  }

  lemma LastNumber(attempts: Attempts, total: int)
    requires total >= 0 && forall n :: n in attempts <==> 1 <= n <= total
    ensures NextAttempt(attempts) == total + 1
  {
    assert IsNextAttempt(attempts, total + 1);
    NextAttemptIsUnique(attempts, total + 1, NextAttempt(attempts));
  }

  /** The same execution, or a new one filed elsewhere. */
  ghost predicate KeepsItsPlace(executions: map<string, Execution>, record: Execution) {
    record.id in executions ==>
      executions[record.id].taskId == record.taskId && executions[record.id].attempt == record.attempt
  }

  lemma SameNumbers(attempts: Attempts, executions: map<string, Execution>, record: Execution, owner: string,
                    total: int)
    requires NumbersMatch(attempts, executions, owner, total) && KeepsItsPlace(executions, record)
    ensures NumbersMatch(attempts, executions[record.id := record], owner, total)
  {
    var executions' := executions[record.id := record];
    forall n | n in attempts ensures FiledAt(attempts, executions', owner, n) {
      assert FiledAt(attempts, executions, owner, n);
    }
  }

  lemma NumberedSoFar(s: Store, t: string)
    requires StoreInv(s) && t in s.tasks
    ensures var total := s.tasks[t].counts.total;
            && NumbersMatch(AttemptsOf(s, t), s.executions, Trim(t), total)
            && NextAttempt(AttemptsOf(s, t)) == total + 1
  {
    assert Numbered(s, t);
    LastNumber(AttemptsOf(s, t), s.tasks[t].counts.total);
  }

  lemma NewExecutionIsNumbered(s: Store, change: Change, s': Store)
    requires StoreInv(s) && Made(s, change, s') && change.NewExecution?
    ensures Numbered(s', change.taskId)
  {
    var t, record := change.taskId, change.record;
    NumberedSoFar(s, t);
    hide StoreInv, NumbersMatch, NextAttempt, WellFormed, Owned;
    OneMoreNumber(AttemptsOf(s, t), s.executions, record, s.tasks[t].counts.total);
  }

  lemma ChangeKeepsNumbered(s: Store, change: Change, s': Store, t: string)
    requires StoreInv(s) && Made(s, change, s') && t in s'.tasks
    ensures Numbered(s', t)
  {
    if t in s.tasks { assert Numbered(s, t); }
    hide NumbersMatch, WellFormed, NextAttempt, Recount;
    match change
    case NewTask(task) => if t == task.id { NoNumbers(s.executions, Trim(t)); }
    case NewExecution(taskId, parent, record) =>
      if t == taskId { NewExecutionIsNumbered(s, change, s'); }
      else { SameNumbers(AttemptsOf(s, t), s.executions, record, Trim(t), s.tasks[t].counts.total); }
    case ChangedExecution(previous, changed) =>
      assert s'.tasks[t].counts.total == s.tasks[t].counts.total by {
        RecountKeepsTotal(s.tasks[changed.taskId].counts, previous.state, changed.state);
      }
      SameNumbers(AttemptsOf(s, t), s.executions, changed, Trim(t), s.tasks[t].counts.total);
    case _ =>
  }

  lemma NoNumbers(executions: map<string, Execution>, owner: string)
    ensures NumbersMatch(map[], executions, owner, 0)
  {
  }

  lemma OneMoreComplete(attempts: Attempts, executions: map<string, Execution>, record: Execution)
    requires Complete(attempts, executions, record.taskId) && record.id !in executions && record.attempt !in attempts
    ensures Complete(attempts[record.attempt := record.id], executions[record.id := record], record.taskId)
  {
    forall id | id in executions && executions[id].taskId == record.taskId
      ensures HasNumber(attempts[record.attempt := record.id], executions[record.id := record], id)
    {
      assert HasNumber(attempts, executions, id);
    }
  }

  lemma SameComplete(attempts: Attempts, executions: map<string, Execution>, record: Execution, t: string)
    requires Complete(attempts, executions, t) && KeepsItsPlace(executions, record)
    requires record.id !in executions ==> record.taskId != t
    ensures Complete(attempts, executions[record.id := record], t)
  {
    var executions' := executions[record.id := record];
    forall id | id in executions' && executions'[id].taskId == t ensures HasNumber(attempts, executions', id) {
      assert HasNumber(attempts, executions, id);
    }
  }

  lemma NextIsFree(attempts: Attempts)
    ensures NextAttempt(attempts) !in attempts
  {
    hide NextAttempt;
  }

  lemma ChangeKeepsComplete(s: Store, change: Change, s': Store, t: string)
    requires Exact(s) && Owned(s) && Made(s, change, s') && t in s'.tasks
    ensures Complete(AttemptsOf(s', t), s'.executions, t)
  {
    hide Complete, CountsMatch, NextAttempt, Recount;
    match change
    case NewTask(task) => if t == task.id { NothingToComplete(AttemptsOf(s', t), s'.executions, t); }
    case NewExecution(taskId, parent, record) =>
      assert Clean(taskId);
      NextIsFree(AttemptsOf(s, taskId));
      if t == taskId { OneMoreComplete(AttemptsOf(s, t), s.executions, record); }
      else { SameComplete(AttemptsOf(s, t), s.executions, record, t); }
    case ChangedExecution(previous, changed) => SameComplete(AttemptsOf(s, t), s.executions, changed, t);
    case _ =>
  }

  lemma NothingToComplete(attempts: Attempts, executions: map<string, Execution>, t: string)
    requires forall id | id in executions :: executions[id].taskId != t
    ensures Complete(attempts, executions, t)
  {
  }

  lemma RecountKeepsTotal(c: TR.Counts, from: ER.ExecutionState, to: ER.ExecutionState)
    ensures Recount(c, from, to).total == c.total
  {
  }

  lemma ChangeKeepsHeld(s: Store, change: Change, s': Store, held: Held)
    requires Made(s, change, s') && WellFormed(s) && HeldOk(s, held)
    ensures HeldOk(s', held)
  {
    hide NextAttempt, AttemptsOf, Recount, WaitpointKey;
  }

  lemma ChangeKeepsStoreInv(s: Store, change: Change, s': Store)
    requires StoreInv(s) && Made(s, change, s')
    ensures StoreInv(s')
  {
    ChangeKeepsWellFormed(s, change, s');
    ChangeKeepsOwned(s, change, s');
    forall t | t in s'.tasks ensures Numbered(s', t) { ChangeKeepsNumbered(s, change, s', t); }
    hide Made, Numbered, WellFormed, Owned;
  }

  lemma ChangeKeepsExact(s: Store, change: Change, s': Store)
    requires StoreInv(s) && Exact(s) && Made(s, change, s')
    requires change.NewTask? ==> Clean(change.task.id)
    ensures Exact(s')
  {
    ChangeKeepsParents(s, change, s');
    ChangeKeepsClean(s, change, s');
    assert Owned(s);
    hide Made, StoreInv, Exact, Counted, Complete, Clean, Owned;
    forall t | t in s'.tasks ensures Counted(s', t) && Complete(AttemptsOf(s', t), s'.executions, t) {
      ChangeKeepsCounted(s, change, s', t);
      ChangeKeepsComplete(s, change, s', t);
    }
    ExactBy(s');
  }

  lemma ExactBy(s: Store)
    requires forall id | id in s.executions :: s.executions[id].taskId in s.tasks
    requires forall t | t in s.tasks :: Clean(t)
    requires forall t | t in s.tasks :: Counted(s, t) && Complete(AttemptsOf(s, t), s.executions, t)
    ensures Exact(s)
  {
    hide Clean, Counted, Complete;
  }

  lemma ChangeKeepsClean(s: Store, change: Change, s': Store)
    requires Exact(s) && Made(s, change, s') && (change.NewTask? ==> Clean(change.task.id))
    ensures forall t | t in s'.tasks :: Clean(t)
  {
    hide Counted, Complete, NextAttempt, Recount, AttemptsOf, Clean;
    forall t | t in s'.tasks ensures Clean(t) { assert t in s.tasks || (change.NewTask? && t == change.task.id); }
  }

  lemma ChangeKeepsParents(s: Store, change: Change, s': Store)
    requires Exact(s) && Made(s, change, s')
    ensures forall id | id in s'.executions :: s'.executions[id].taskId in s'.tasks
  {
    hide CountsMatch, Complete, NextAttempt, Recount, AttemptsOf;
    if change.NewExecution? { assert Clean(change.taskId); }
  }

  lemma TakeKeepsInv(w: World, step: Step)
    requires Inv(w)
    ensures Inv(Take(w, step))
  {
    var w' := Take(w, step);
    var change := TakeMakes(w, step);
    ChangeKeepsStoreInv(w.store, change, w'.store);
    HeldAfter(w, step);
    hide Take, Made, StoreInv, HeldOk, Lawful;
    forall t | t in w'.held ensures HeldOk(w'.store, w'.held[t]) {
      KeepHeld(w.store, change, w'.store, w'.held[t]);
    }
  }

  lemma KeepHeld(s: Store, change: Change, s': Store, held: Held)
    requires Made(s, change, s') && StoreInv(s) && HeldOk(s, held)
    ensures HeldOk(s', held)
  {
    hide Numbered;
    ChangeKeepsHeld(s, change, s', held);
  }

  /** A fresh read is the stored record. */
  lemma HeldAfter(w: World, step: Step)
    requires Inv(w)
    ensures forall t | t in Take(w, step).held :: HeldOk(w.store, Take(w, step).held[t])
  {
    hide Numbered, StoreStep, HeldWrite;
  }

  // ------------------------------------------------------------------- theorems

  lemma TakeKeepsWellFormed(w: World, step: Step)
    requires WellFormed(w.store)
    ensures WellFormed(Take(w, step).store)
  {
    if Writes(step) {
      if step.t in w.held { WriteKeepsWellFormed(w.store, w.held[step.t], step); }
    } else if !Reads(step) { StoreStepKeepsWellFormed(w.store, step); }
    hide WellFormed, StoreStep, HeldWrite;
  }

  lemma WriteKeepsWellFormed(s: Store, held: Held, step: Step)
    requires WellFormed(s)
    ensures WellFormed(HeldWrite(s, held, step))
  {
    hide NextTask, NextExecution, NextWaitpoint, Recount;
  }

  lemma StoreStepKeepsWellFormed(s: Store, step: Step)
    requires WellFormed(s)
    ensures WellFormed(StoreStep(s, step))
  {
    var change := StoreStepMakes(s, step);
    hide StoreStep, Made;
    ChangeKeepsWellFormed(s, change, StoreStep(s, step));
  }

  const START := World(EMPTY_STORE, map[])

  ghost function Run(w: World, steps: seq<Step>): (w': World)
    requires WellFormed(w.store)
    ensures WellFormed(w'.store)
    decreases |steps|
  {
    if steps == [] then w
    else
      var before := Run(w, Front(steps));
      TakeKeepsWellFormed(before, Last(steps));
      Take(before, Last(steps))
  }

  lemma RunSnoc(w: World, steps: seq<Step>)
    requires WellFormed(w.store) && steps != []
    ensures Run(w, steps) == Take(Run(w, Front(steps)), Last(steps))
  {
  }

  ghost predicate CreatesOnly(steps: seq<Step>, ids: iset<string>) {
    forall i | 0 <= i < |steps| && steps[i].Create? :: steps[i].spec.id in ids
  }

  ghost predicate CreatesClean(steps: seq<Step>) {
    forall i | 0 <= i < |steps| && steps[i].Create? :: Clean(steps[i].spec.id)
  }

  lemma {:induction false} RunKeepsInv(w: World, steps: seq<Step>)
    requires Inv(w)
    ensures Inv(Run(w, steps))
  {
    hide Take;
    assert WellFormed(w.store);
    if steps != [] {
      RunKeepsInv(w, Front(steps));
      hide StoreInv;
      TakeKeepsInv(Run(w, Front(steps)), Last(steps));
    }
  }

  lemma {:induction false} RunKeepsExact(w: World, steps: seq<Step>)
    requires Inv(w) && Exact(w.store) && CreatesClean(steps)
    ensures Exact(Run(w, steps).store)
  {
    if steps != [] {
      RunKeepsExact(w, Front(steps));
      RunKeepsInv(w, Front(steps));
      RunSnoc(w, steps);
      var before := Run(w, Front(steps));
      var change := TakeMakes(before, Last(steps));
      assert StoreInv(before.store);
      hide Run, Take, Inv, StoreInv, Exact, Made, Lawful;
      ChangeKeepsExact(before.store, change, Take(before, Last(steps)).store);
    }
  }

  lemma StartIsOk()
    ensures Inv(START) && Exact(START.store)
  {
  }

  /** In every run, whatever the ids, the attempts of a task are numbered 1 to its total. */
  lemma AttemptsAreNumbered(steps: seq<Step>)
    ensures var s := Run(START, steps).store;
            forall t | t in s.tasks :: Numbered(s, t)
  {
    StartIsOk();
    RunKeepsInv(START, steps);
    hide Numbered, Run;
  }

  /** In every interleaving of commands with stale reads, each cached counter equals the
      number of the task's executions in that state, the total is their sum, and every
      execution of the task is filed under its number. */
  lemma CountersAreExact(steps: seq<Step>)
    requires CreatesClean(steps)
    ensures var s := Run(START, steps).store;
            forall t | t in s.tasks :: Counted(s, t) && Complete(AttemptsOf(s, t), s.executions, t)
  {
    StartIsOk();
    RunKeepsExact(START, steps);
    hide Counted, Complete, Run;
  }

  function Named(id: string): Step { Create(TR.TaskSpec(id, "k", "", 1, 1)) }

  /** A task id with white space around it breaks the counters: its executions are filed
      under the trimmed id, so the task counts an execution that is not its own. */
  lemma UncleanIdMiscounts(id: string)
    requires !Clean(id)
    ensures var steps := [Named(id), CreateExecution("e", id, "native", 1)];
            id in Run(START, steps).store.tasks && !Counted(Run(START, steps).store, id)
  {
    var create := Named(id);
    var execute := CreateExecution("e", id, "native", 1);
    var steps := [create, execute];
    RunTwo(START, create, execute);
    var s1 := Take(START, create).store;
    FirstTask(id);
    FirstExecution(s1, id);
    var s2 := Run(START, steps).store;
    hide Take, Run, CreateNextExecution;
    assert AllOf(s2.executions, id) == {};
  }

  lemma FirstTask(id: string)
    requires !Clean(id)
    ensures var s := Take(START, Named(id)).store;
            && WellFormed(s) && id in s.tasks && s.tasks[id].counts == TR.NO_COUNTS && s.executions == map[]
            && Take(World(s, map[]), CreateExecution("e", id, "native", 1)).store
               == CreateNextExecution(s, "e", id, "native", 1).0
  {
    TrimmedWords();
    TrimOfEmpty();
    TakeKeepsWellFormed(START, Named(id));
    hide CreateNextExecution;
  }

  lemma RunTwo(w: World, a: Step, b: Step)
    requires WellFormed(w.store)
    ensures WellFormed(Take(w, a).store) && Run(w, [a, b]) == Take(Take(w, a), b)
  {
    hide Take, WellFormed;
    assert Front([a, b]) == [a] && Front([a]) == [];
    assert Run(w, []) == w;
    assert Run(w, [a]) == Take(w, a);
  }

  lemma TrimmedWords()
    ensures Trim("k") == "k" && Trim("native") == "native"
  {
  }

  lemma TrimOfEmpty()
    ensures Trim("") == ""
  {
  }

  lemma FirstExecution(s: Store, id: string)
    requires id in s.tasks && s.tasks[id].counts == TR.NO_COUNTS && s.executions == map[] && !Clean(id)
    ensures var s' := CreateNextExecution(s, "e", id, "native", 1).0;
            id in s'.tasks && s'.tasks[id].counts.total == 1 && s'.executions.Keys == {"e"}
              && s'.executions["e"].taskId == Trim(id)
  {
    TrimmedWords();
    assert CreateNextExecution(s, "e", id, "native", 1).1.Ok?;
  }

  ghost predicate AllCounted(s: Store) { forall t | t in s.tasks :: Counted(s, t) }

  /** The counters can be trusted in all runs exactly if every task id in use is clean. */
  lemma CountersNeedCleanIds(ids: iset<string>)
    ensures (forall steps | CreatesOnly(steps, ids) :: AllCounted(Run(START, steps).store)) <==>
            (forall id | id in ids :: Clean(id))
  {
    hide Run, Counted;
    if forall id | id in ids :: Clean(id) {
      forall steps | CreatesOnly(steps, ids) ensures AllCounted(Run(START, steps).store) {
        CountersAreExact(steps);
      }
    } else {
      var id :| id in ids && !Clean(id);
      UncleanIdMiscounts(id);
      var steps := [Named(id), CreateExecution("e", id, "native", 1)];
      assert CreatesOnly(steps, ids) && !AllCounted(Run(START, steps).store);
    }
  }

  // ------------------------------------------------------------ versions decide

  /** Nothing that belongs to the task differs. */
  ghost predicate SameFor(s: Store, s': Store, id: string)
    requires id in s.tasks && id in s'.tasks
  {
    && s'.tasks[id] == s.tasks[id]
    && (forall e :: (e in s'.executions && s'.executions[e].taskId == id) <==>
        (e in s.executions && s.executions[e].taskId == id))
    && (forall e | e in s.executions && s.executions[e].taskId == id :: s'.executions[e] == s.executions[e])
    && (forall p :: (p in s'.waitpoints && s'.waitpoints[p].taskId == id) <==>
        (p in s.waitpoints && s.waitpoints[p].taskId == id))
    && (forall p | p in s.waitpoints && s.waitpoints[p].taskId == id :: s'.waitpoints[p] == s.waitpoints[p])
  }

  lemma SameForIsSame(s: Store, s': Store, id: string)
    requires id in s.tasks && id in s'.tasks && SameFor(s, s', id)
    ensures AggregateOf(s', id) == AggregateOf(s, id)
  {
    assert ExecutionsOf(s', id) == ExecutionsOf(s, id);
    assert WaitpointsOf(s', id) == WaitpointsOf(s, id);
  }

  /** No id has another one of the set as its trimmed form. */
  ghost predicate Apart(ids: iset<string>) {
    forall x | x in ids :: Clean(x) || Trim(x) !in ids
  }

  ghost predicate TasksFrom(s: Store, ids: iset<string>) { forall t | t in s.tasks :: t in ids }

  /** A change leaves the version alone only where nothing of the task has changed. */
  lemma ChangeIsSeen(s: Store, change: Change, s': Store, id: string)
    requires WellFormed(s) && Made(s, change, s') && id in s.tasks
    requires change.NewExecution? ==> Clean(change.taskId) || Trim(change.taskId) !in s.tasks
    ensures id in s'.tasks && s'.tasks[id].version >= s.tasks[id].version
    ensures s'.tasks[id].version == s.tasks[id].version ==> SameFor(s, s', id)
  {
    if change.NewExecution? || change.ChangedExecution? { ExecutionIsSeen(s, change, s', id); }
    else { OtherChangeIsSeen(s, change, s', id); }
    hide Made, SameFor, WellFormed, Clean;
  }

  lemma ExecutionIsSeen(s: Store, change: Change, s': Store, id: string)
    requires WellFormed(s) && Made(s, change, s') && id in s.tasks && (change.NewExecution? || change.ChangedExecution?)
    requires change.NewExecution? ==> Clean(change.taskId) || Trim(change.taskId) !in s.tasks
    ensures id in s'.tasks && s'.tasks[id].version >= s.tasks[id].version
    ensures s'.tasks[id].version == s.tasks[id].version ==> SameFor(s, s', id)
  {
    hide NextAttempt, Recount, AttemptsOf, Trim, OneMorePending;
  }

  lemma OtherChangeIsSeen(s: Store, change: Change, s': Store, id: string)
    requires WellFormed(s) && Made(s, change, s') && id in s.tasks && !change.NewExecution? && !change.ChangedExecution?
    ensures id in s'.tasks && s'.tasks[id].version >= s.tasks[id].version
    ensures s'.tasks[id].version == s.tasks[id].version ==> SameFor(s, s', id)
  {
    hide WaitpointKey;
  }

  lemma ChangeRaises(s: Store, change: Change, s': Store, id: string, ids: iset<string>)
    requires WellFormed(s) && Made(s, change, s') && id in s.tasks && TasksFrom(s, ids) && Apart(ids)
    ensures id in s'.tasks && s'.tasks[id].version >= s.tasks[id].version
    ensures s'.tasks[id].version == s.tasks[id].version ==> AggregateOf(s', id) == AggregateOf(s, id)
  {
    if change.NewExecution? { assert change.taskId in ids; }
    hide Made, SameFor, AggregateOf, WellFormed;
    ChangeIsSeen(s, change, s', id);
    if s'.tasks[id].version == s.tasks[id].version { SameForIsSame(s, s', id); }
  }

  lemma {:induction false} RunCreatesFrom(w: World, steps: seq<Step>, ids: iset<string>)
    requires Inv(w) && TasksFrom(w.store, ids) && CreatesOnly(steps, ids)
    ensures TasksFrom(Run(w, steps).store, ids)
  {
    if steps != [] {
      RunCreatesFrom(w, Front(steps), ids);
      RunKeepsInv(w, Front(steps));
      RunSnoc(w, steps);
      var before := Run(w, Front(steps));
      var change := TakeMakes(before, Last(steps));
      hide Run, Take, Inv, Lawful;
      ChangeCreates(before.store, change, Take(before, Last(steps)).store);
      hide Made;
    }
  }

  lemma ChangeCreates(s: Store, change: Change, s': Store)
    requires Made(s, change, s')
    ensures s'.tasks.Keys == s.tasks.Keys + if change.NewTask? then {change.task.id} else {}
  {
    hide NextAttempt, Recount, AttemptsOf;
  }

  lemma {:induction false} VersionsRise(w: World, steps: seq<Step>, id: string, ids: iset<string>)
    requires Inv(w) && TasksFrom(w.store, ids) && CreatesOnly(steps, ids) && Apart(ids) && id in w.store.tasks
    ensures var s' := Run(w, steps).store;
            && id in s'.tasks && s'.tasks[id].version >= w.store.tasks[id].version
            && (s'.tasks[id].version == w.store.tasks[id].version ==> AggregateOf(s', id) == AggregateOf(w.store, id))
  {
    if steps != [] {
      VersionsRise(w, Front(steps), id, ids);
      RunKeepsInv(w, Front(steps));
      RunCreatesFrom(w, Front(steps), ids);
      var before := Run(w, Front(steps));
      var change := TakeMakes(before, Last(steps));
      assert WellFormed(before.store);
      hide Take, StoreInv, Made, AggregateOf, Lawful, Apart, TasksFrom;
      ChangeRaises(before.store, change, Take(before, Last(steps)).store, id, ids);
    }
  }

  lemma {:induction false} RunConcat(w: World, a: seq<Step>, b: seq<Step>)
    requires WellFormed(w.store)
    ensures Run(w, a + b) == Run(Run(w, a), b)
  {
    if b == [] { assert a + b == a; }
    else {
      assert Front(a + b) == a + Front(b) && Last(a + b) == Last(b);
      RunConcat(w, a, Front(b));
      hide Take, WellFormed;
    }
  }

  /** Later the version is not lower, and if it is the same, so is everything of the task. */
  ghost predicate VersionDecides(s: Store, s': Store) {
    forall id | id in s.tasks ::
      && id in s'.tasks && s'.tasks[id].version >= s.tasks[id].version
      && (s'.tasks[id].version == s.tasks[id].version ==> AggregateOf(s', id) == AggregateOf(s, id))
  }

  /** A task's version decides everything about it: later in a run the version is not
      lower, and if it is the same, so are the task, its executions and its waitpoints. */
  lemma SameVersionSameAggregate(ids: iset<string>, steps: seq<Step>, more: seq<Step>)
    requires Apart(ids) && CreatesOnly(steps, ids) && CreatesOnly(more, ids)
    ensures VersionDecides(Run(START, steps).store, Run(START, steps + more).store)
  {
    var w := Run(START, steps);
    StartIsOk();
    RunKeepsInv(START, steps);
    RunCreatesFrom(START, steps, ids);
    RunConcat(START, steps, more);
    hide Run, Inv, AggregateOf, WellFormed, Apart, TasksFrom;
    forall id | id in w.store.tasks
      ensures var s' := Run(w, more).store;
              && id in s'.tasks && s'.tasks[id].version >= w.store.tasks[id].version
              && (s'.tasks[id].version == w.store.tasks[id].version ==> AggregateOf(s', id) == AggregateOf(w.store, id))
    {
      VersionsRise(w, more, id, ids);
    }
  }

  /** With a task and its untrimmed double, an execution requested for the double appears
      under the task while the task's version stays. */
  lemma DoubleHidesAChange(id: string)
    requires !Clean(id)
    ensures var steps, more := [Named(Trim(id)), Named(id)], [CreateExecution("e", id, "native", 1)];
            var s, s' := Run(START, steps).store, Run(START, steps + more).store;
            && Trim(id) in s.tasks && Trim(id) in s'.tasks && s'.tasks[Trim(id)] == s.tasks[Trim(id)]
            && AggregateOf(s', Trim(id)) != AggregateOf(s, Trim(id))
  {
    var t := Trim(id);
    var steps, execute := [Named(t), Named(id)], CreateExecution("e", id, "native", 1);
    RunTwo(START, Named(t), Named(id));
    TwoTasks(t, id);
    var w := Run(START, steps);
    RunConcat(START, steps, [execute]);
    RunOne(w, execute);
    ExecutionStep(w, id);
    ForeignExecution(w.store, id);
    hide Run, Take, CreateNextExecution, AggregateOf, Trim;
  }

  lemma RunOne(w: World, step: Step)
    requires WellFormed(w.store)
    ensures Run(w, [step]) == Take(w, step)
  {
    assert Front([step]) == [] && Run(w, []) == w;
    hide Take, WellFormed;
  }

  lemma ExecutionStep(w: World, id: string)
    requires WellFormed(w.store)
    ensures Take(w, CreateExecution("e", id, "native", 1)).store == CreateNextExecution(w.store, "e", id, "native", 1).0
  {
    hide CreateNextExecution, WellFormed;
  }

  lemma ForeignExecution(s: Store, id: string)
    requires !Clean(id) && Trim(id) in s.tasks && id in s.tasks && s.tasks[id].counts == TR.NO_COUNTS
    requires s.executions == map[]
    ensures var s' := CreateNextExecution(s, "e", id, "native", 1).0;
            && Trim(id) in s'.tasks && s'.tasks[Trim(id)] == s.tasks[Trim(id)]
            && AggregateOf(s', Trim(id)) != AggregateOf(s, Trim(id))
  {
    FirstExecution(s, id);
    TouchesOnly(s, "e", id, "native", 1, Trim(id));
    var s' := CreateNextExecution(s, "e", id, "native", 1).0;
    hide CreateNextExecution;
    assert "e" in ExecutionsOf(s', Trim(id)) && "e" !in ExecutionsOf(s, Trim(id));
  }

  lemma TouchesOnly(s: Store, id: string, taskId: string, runtime: string, now: Instant, t: string)
    requires t in s.tasks && t != taskId
    ensures var s' := CreateNextExecution(s, id, taskId, runtime, now).0; t in s'.tasks && s'.tasks[t] == s.tasks[t]
  {
    hide NextAttempt;
  }

  lemma TwoTasks(a: string, b: string)
    requires a != b && a != "" && b != ""
    ensures WellFormed(Take(START, Named(a)).store)
    ensures var s := Take(Take(START, Named(a)), Named(b)).store;
            && a in s.tasks && b in s.tasks && s.tasks[b].counts == TR.NO_COUNTS && s.executions == map[]
  {
    TrimmedWords();
    TrimOfEmpty();
    TakeKeepsWellFormed(START, Named(a));
    assert Take(START, Named(a)).store == CreateTask(EMPTY_STORE, TR.NewTask(Named(a).spec).value).0;
  }

  /** Versions can be trusted in all runs exactly if no task id in use is an untrimmed
      double of another. */
  lemma VersionsNeedIdsApart(ids: iset<string>)
    ensures (forall steps, more | CreatesOnly(steps, ids) && CreatesOnly(more, ids) ::
               VersionDecides(Run(START, steps).store, Run(START, steps + more).store))
            <==> Apart(ids)
  {
    hide Run, VersionDecides;
    if Apart(ids) {
      forall steps, more | CreatesOnly(steps, ids) && CreatesOnly(more, ids)
        ensures VersionDecides(Run(START, steps).store, Run(START, steps + more).store)
      {
        SameVersionSameAggregate(ids, steps, more);
      }
    } else {
      var id :| id in ids && !Clean(id) && Trim(id) in ids;
      var steps, more := [Named(Trim(id)), Named(id)], [CreateExecution("e", id, "native", 1)];
      DoubleHidesAChange(id);
      NotDecided(Run(START, steps).store, Run(START, steps + more).store, Trim(id));
      assert CreatesOnly(steps, ids) && CreatesOnly(more, ids);
    }
  }

  lemma NotDecided(s: Store, s': Store, id: string)
    requires id in s.tasks && id in s'.tasks && s'.tasks[id] == s.tasks[id] && AggregateOf(s', id) != AggregateOf(s, id)
    ensures !VersionDecides(s, s')
  {
    hide AggregateOf;
  }

  /** No lost update: in any run, a task command that changes anything was computed from
      the record that is stored, however long ago its client read it. */
  lemma CommandSawTheTruth(steps: seq<Step>, step: Step)
    requires step.WriteTask?
    ensures var w := Run(START, steps);
            Take(w, step).store != w.store ==>
              && step.t in w.held && w.held[step.t].HeldTask?
              && var held := w.held[step.t].task;
                 && held.id in w.store.tasks && w.store.tasks[held.id] == held
                 && NextTask(held, step.expected, step.command, step.now).Some?
                 && Take(w, step).store
                    == w.store.(tasks :=
                                w.store.tasks[held.id := NextTask(held, step.expected, step.command, step.now).value])
  {
    var w := Run(START, steps);
    StartIsOk();
    RunKeepsInv(START, steps);
    hide Run;
    if Take(w, step).store != w.store { SwapSawTheTruth(w, step); }
  }

  lemma SwapSawTheTruth(w: World, step: Step)
    requires Inv(w) && step.WriteTask? && Take(w, step).store != w.store
    ensures step.t in w.held && w.held[step.t].HeldTask?
    ensures var held := w.held[step.t].task;
            && held.id in w.store.tasks && w.store.tasks[held.id] == held
            && NextTask(held, step.expected, step.command, step.now).Some?
            && Take(w, step).store
               == w.store.(tasks :=
                           w.store.tasks[held.id := NextTask(held, step.expected, step.command, step.now).value])
  {
    var held := w.held[step.t].task;
    assert HeldOk(w.store, w.held[step.t]);
    assert NextTask(held, step.expected, step.command, step.now).Some?;
    TaskCommandsSucceed(held, step.expected, step.command, step.now);
    hide StoreInv, NextTask;
  }

  // -------------------------------------------------------------------- retries

  lemma RetriesStay(w: World, step: Step, command: string)
    requires WellFormed(w.store) && command in w.store.retries
    ensures var s' := Take(w, step).store;
            && command in s'.retries && s'.retries[command] == w.store.retries[command]
            && command in s'.fingerprints && s'.fingerprints[command] == w.store.fingerprints[command]
  {
    assert command in w.store.fingerprints;
    hide WellFormed, StoreStep, HeldWrite;
    if Writes(step) {
      if step.t in w.held { WritesAreNotRetries(w.store, w.held[step.t], step); }
    } else if !Reads(step) { StepKeepsRetry(w.store, step, command); }
  }

  lemma WritesAreNotRetries(s: Store, held: Held, step: Step)
    ensures HeldWrite(s, held, step).retries == s.retries && HeldWrite(s, held, step).fingerprints == s.fingerprints
  {
    hide NextTask, NextExecution, NextWaitpoint, Recount;
  }

  lemma StepKeepsRetry(s: Store, step: Step, command: string)
    requires WellFormed(s) && command in s.retries
    ensures var s' := StoreStep(s, step);
            && command in s'.retries && s'.retries[command] == s.retries[command]
            && command in s'.fingerprints && s'.fingerprints[command] == s.fingerprints[command]
  {
    hide NextAttempt;
  }

  lemma {:induction false} RetriesAreForever(w: World, steps: seq<Step>, command: string)
    requires WellFormed(w.store) && command in w.store.retries
    ensures var s' := Run(w, steps).store;
            && command in s'.retries && s'.retries[command] == w.store.retries[command]
            && command in s'.fingerprints && s'.fingerprints[command] == w.store.fingerprints[command]
  {
    hide Take;
    if steps != [] {
      RetriesAreForever(w, Front(steps), command);
      RetriesStay(Run(w, Front(steps)), Last(steps), command);
    }
  }

  predicate SameRequest(a: RetryInput, b: RetryInput) {
    a.command == b.command && a.taskId == b.taskId && a.executionId == b.executionId && Fingerprint(a) == Fingerprint(b)
  }

  /** A retry command that went through once is answered from its record ever after: the
      same result, nothing changes, whatever version the repeat expects. */
  lemma RepeatedRetryReplays(w: World, input: RetryInput, steps: seq<Step>, again: RetryInput)
    requires WellFormed(w.store) && RetryTask(w.store, input).1.Ok?
    requires SameRequest(input, again) && RetryAccepted(again)
    ensures var s := RetryTask(w.store, input).0;
            && WellFormed(s)
            && var later := Run(w.(store := s), steps).store;
               RetryTask(later, again) == (later, Ok(RetryTask(w.store, input).1.value.(replayed := true)))
  {
    TakeKeepsWellFormed(w, Retry(input));
    var s := RetryTask(w.store, input).0;
    assert Take(w, Retry(input)).store == s;
    RetryIsFiled(w.store, input);
    RetriesAreForever(w.(store := s), steps, input.command);
    hide Run, FreshRetry;
  }

  lemma RetryIsFiled(s: Store, input: RetryInput)
    requires WellFormed(s) && RetryTask(s, input).1.Ok?
    ensures var (s', result) := RetryTask(s, input);
            && input.command in s'.retries
            && s'.retries[input.command].(replayed := true) == result.value.(replayed := true)
            && result.value.task.id == input.taskId && result.value.execution.id == input.executionId
            && input.command in s'.fingerprints && s'.fingerprints[input.command] == Fingerprint(input)
  {
  }
}
