/**
 The in-memory Task store: the maps of `Tasks.Store`, updated in place. Every method is
 proved to do what the function of the same name describes.
 */
module TaskStores {
  import opened Basics
  import opened SortedSets
  import TR = TaskRecords
  import ER = ExecutionRecords
  import opened Tasks
  import opened ExecutionPages

  lemma TransitionKeepsId(r: Task, now: Instant)
    ensures TR.Transition(r, TR.Queued, now).Ok? ==> TR.Transition(r, TR.Queued, now).value.id == r.id
  {
  }

  lemma NewExecutionKeepsId(id: string, taskId: string, attempt: int, runtime: string, now: Instant)
    ensures var made := ER.NewExecution(id, taskId, attempt, runtime, now); made.Ok? ==> made.value.id == id != ""
  {
  }

  class TaskStore {
    var tasks: map<string, Task>
    var executions: map<string, Execution>
    var attempts: map<string, Attempts>
    var retries: map<string, RetryResult>
    var fingerprints: map<string, string>
    var waitpoints: map<string, Waitpoint>
    var waitpointKeys: map<string, string>

    function Contents(): Store
      reads this
    {
      Store(tasks, executions, attempts, retries, fingerprints, waitpoints, waitpointKeys)
    }

    ghost predicate Valid()
      reads this
    {
      WellFormed(Contents())
    }

    constructor ()
      ensures Valid() && Contents() == EMPTY_STORE
    {
      tasks, executions, attempts, retries := map[], map[], map[], map[];
      fingerprints, waitpoints, waitpointKeys := map[], map[], map[];
    }

    method CreateTask(record: Task) returns (result: Result<Task, StoreError>)
      requires Valid()
      modifies this`tasks
      ensures Valid() && (Contents(), result) == Tasks.CreateTask(old(Contents()), record)
    {
      if record.id == "" || record.version != 1 { return Err(InvalidInput); }
      if record.id in tasks { return Err(AlreadyExists); }
      tasks := tasks[record.id := record];
      return Ok(record);
    }

    method UpdateTask(record: Task, expected: int) returns (result: Result<Task, StoreError>)
      requires Valid()
      modifies this`tasks
      ensures Valid() && (Contents(), result) == Tasks.UpdateTask(old(Contents()), record, expected)
    {
      if record.id !in tasks { return Err(TaskMissing); }
      if tasks[record.id].version != expected || record.version != expected + 1 { return Err(VersionConflict); }
      tasks := tasks[record.id := record];
      return Ok(record);
    }

    /** One past the highest attempt number of the task, found by visiting them all. */
    method NextNumber(taskId: string) returns (attempt: int)
      ensures attempt == NextAttempt(AttemptsOf(Contents(), taskId))
    {
      var byAttempt := if taskId in attempts then attempts[taskId] else map[];
      attempt := 1;
      var todo := byAttempt.Keys;
      while todo != {}
        invariant todo <= byAttempt.Keys && attempt >= 1
        invariant forall n | n in byAttempt && n !in todo :: n < attempt
        invariant attempt == 1 || attempt - 1 in byAttempt
        decreases todo
      {
        ghost var some := Member(todo);
        var number :| number in todo;
        if number >= attempt { attempt := number + 1; }
        todo := todo - {number};
      }
      NextAttemptIsUnique(byAttempt, attempt, NextAttempt(byAttempt));
    }

    method FileExecution(taskId: string, parent: Task, record: Execution)
      requires Valid() && parent.id == taskId && record.id != ""
      modifies this`tasks, this`executions, this`attempts
      ensures Valid() && Contents() == AddExecution(old(Contents()), taskId, parent, record)
    {
      executions := executions[record.id := record];
      var byAttempt := if taskId in attempts then attempts[taskId] else map[];
      attempts := attempts[taskId := byAttempt[record.attempt := record.id]];
      tasks := tasks[taskId := parent];
    }

    method CreateNextExecution(id: string, taskId: string, runtime: string, now: Instant)
        returns (result: Result<(Execution, int), StoreError>)
      requires Valid()
      modifies this`tasks, this`executions, this`attempts
      ensures Valid() && (Contents(), result) == Tasks.CreateNextExecution(old(Contents()), id, taskId, runtime, now)
    {
      if taskId !in tasks { return Err(TaskMissing); }
      if id in executions { return Err(AlreadyExists); }
      var parent := tasks[taskId];
      var attempt := NextNumber(taskId);
      var record := ER.NewExecution(id, taskId, attempt, runtime, now);
      if record.Err? { return Err(InvalidInput); }
      var counts := parent.counts;
      counts := counts.(total := counts.total + 1);
      counts := counts.(pendingDispatch := counts.pendingDispatch + 1);
      parent := parent.(counts := counts, version := parent.version + 1);
      if now > parent.updatedAt { parent := parent.(updatedAt := now); }
      FileExecution(taskId, parent, record.value);
      return Ok((record.value, parent.version));
    }

    method UpdateExecution(record: Execution, expected: int) returns (result: Result<(Execution, int), StoreError>)
      requires Valid()
      modifies this`tasks, this`executions
      ensures Valid() && (Contents(), result) == Tasks.UpdateExecution(old(Contents()), record, expected)
    {
      if record.id !in executions { return Err(ExecutionMissing); }
      var current := executions[record.id];
      if current.version != expected || record.version != expected + 1 { return Err(VersionConflict); }
      if current.taskId != record.taskId || current.attempt != record.attempt { return Err(InvalidInput); }
      if record.taskId !in tasks { return Err(TaskMissing); }
      var parent := tasks[record.taskId];
      executions := executions[record.id := record];
      if current.state != record.state {
        parent := parent.(counts := Adjusted(parent.counts, current.state, -1));
        parent := parent.(counts := Adjusted(parent.counts, record.state, 1));
      }
      parent := parent.(version := parent.version + 1);
      if record.updatedAt > parent.updatedAt { parent := parent.(updatedAt := record.updatedAt); }
      tasks := tasks[record.taskId := parent];
      return Ok((record, parent.version));
    }

    method RetryTask(input: RetryInput) returns (result: Result<RetryResult, StoreError>)
      requires Valid()
      modifies this`tasks, this`executions, this`attempts, this`retries, this`fingerprints
      ensures Valid() && (Contents(), result) == Tasks.RetryTask(old(Contents()), input)
    {
      if !RetryAccepted(input) { return Err(InvalidInput); }
      if input.command in retries {
        if !SameRetry(Contents(), input) { return Err(AlreadyExists); }
        return Ok(retries[input.command].(replayed := true));
      }
      result := RetryOnce(input);
    }

    method RetryOnce(input: RetryInput) returns (result: Result<RetryResult, StoreError>)
      requires Valid()
      modifies this`tasks, this`executions, this`attempts, this`retries, this`fingerprints
      ensures Valid() && (Contents(), result) == FreshRetry(old(Contents()), input)
    {
      if input.taskId !in tasks { return Err(TaskMissing); }
      var parent := tasks[input.taskId];
      if parent.version != input.expected { return Err(VersionConflict); }
      TransitionKeepsId(parent, input.now);
      hide TR.Transition, ER.NewExecution;
      var next := TR.Transition(parent, TR.Queued, input.now);
      if next.Err? { return Err(InvalidInput); }
      if input.executionId in executions { return Err(AlreadyExists); }
      var attempt := NextNumber(input.taskId);
      var record := ER.NewExecution(input.executionId, input.taskId, attempt, input.runtime, input.now);
      if record.Err? { return Err(InvalidInput); }
      NewExecutionKeepsId(input.executionId, input.taskId, attempt, input.runtime, input.now);
      var task := OneMorePending(next.value);
      FileExecution(input.taskId, task, record.value);
      var made := RetryResult(task, record.value, false);
      Remember(input, made);
      hide WellFormed;
      return Ok(made);
    }

    method Remember(input: RetryInput, made: RetryResult)
      requires Valid()
      modifies this`retries, this`fingerprints
      ensures Valid() && retries == old(retries)[input.command := made]
      ensures fingerprints == old(fingerprints)[input.command := Fingerprint(input)]
    {
      retries := retries[input.command := made];
      fingerprints := fingerprints[input.command := Fingerprint(input)];
    }

    method CreateWaitpoint(record: Waitpoint) returns (result: Result<(Waitpoint, bool), StoreError>)
      requires Valid()
      modifies this`tasks, this`waitpoints, this`waitpointKeys
      ensures Valid() && (Contents(), result) == Tasks.CreateWaitpoint(old(Contents()), record)
    {
      if record.taskId !in tasks { return Err(TaskMissing); }
      var identity := WaitpointKey(record.taskId, record.key);
      if identity in waitpointKeys {
        var prior := waitpoints[waitpointKeys[identity]];
        if prior.id != record.id || prior.kind != record.kind || prior.schema != record.schema
          || prior.deadline != record.deadline {
          return Err(WaitpointConflict);
        }
        return Ok((prior, true));
      }
      if record.id in waitpoints { return Err(AlreadyExists); }
      waitpoints, waitpointKeys := waitpoints[record.id := record], waitpointKeys[identity := record.id];
      var parent := tasks[record.taskId];
      parent := parent.(version := parent.version + 1);
      if record.updatedAt > parent.updatedAt { parent := parent.(updatedAt := record.updatedAt); }
      tasks := tasks[record.taskId := parent];
      return Ok((record, false));
    }

    method UpdateWaitpoint(record: Waitpoint, expected: int) returns (result: Result<Waitpoint, StoreError>)
      requires Valid()
      modifies this`tasks, this`waitpoints
      ensures Valid() && (Contents(), result) == Tasks.UpdateWaitpoint(old(Contents()), record, expected)
    {
      if record.id !in waitpoints { return Err(WaitpointMissing); }
      var current := waitpoints[record.id];
      if record.version == expected && current.state == record.state && current.resolutionId == record.resolutionId
         && current.resolutionHash == record.resolutionHash && current.resolution == record.resolution
      {
        return Ok(current);
      }
      if current.version != expected || record.version != expected + 1 { return Err(VersionConflict); }
      waitpoints := waitpoints[record.id := record];
      var parent := if record.taskId in tasks then tasks[record.taskId] else ZERO_TASK;
      parent := parent.(version := parent.version + 1);
      if record.updatedAt > parent.updatedAt { parent := parent.(updatedAt := record.updatedAt); }
      tasks := tasks[parent.id := parent];
      return Ok(record);
    }

    /** Collect what lies past the cursor, sort it, and cut it to the limit. */
    method ListTaskExecutionsPage(taskId: string, afterId: string, limit: int)
        returns (result: Result<(seq<Execution>, bool), StoreError>)
      requires Valid()
      ensures result == ListPage(Contents(), taskId, afterId, limit)
    {
      if taskId == "" || limit <= 0 { return Err(InvalidInput); }
      if afterId != "" && (afterId !in executions || executions[afterId].taskId != taskId) { return Err(InvalidInput); }
      var cursor := CursorAt(Contents(), afterId);
      var keys := CollectPast(taskId, cursor);
      KeysAreOrdered(keys);
      var all := SortSet(KeyLess, keys);
      assert all == InOrder(keys);
      DistinctCardinality(all);
      var more := |all| > limit;
      if more { all := all[..limit]; }
      assert all == Page(TaskKeys(Contents(), taskId), cursor, limit);
      PageIsKnown(Contents(), taskId, cursor, limit);
      return Ok((Records(Contents(), all), more));
    }

    method CollectPast(taskId: string, cursor: Option<Key>) returns (keys: set<Key>)
      requires Valid()
      ensures keys == KeysPast(TaskKeys(Contents(), taskId), cursor)
    {
      var byAttempt := if taskId in attempts then attempts[taskId] else map[];
      keys := {};
      var todo := byAttempt.Keys;
      while todo != {}
        invariant todo <= byAttempt.Keys
        invariant keys == set n | n in byAttempt && n !in todo && Past(cursor, KeyOf(executions[byAttempt[n]])) ::
                    KeyOf(executions[byAttempt[n]])
        decreases todo
      {
        ghost var some := Member(todo);
        var n :| n in todo;
        var key := KeyOf(executions[byAttempt[n]]);
        if Past(cursor, key) { keys := keys + {key}; }
        todo := todo - {n};
      }
      assert byAttempt == AttemptsOf(Contents(), taskId);
      assert forall n | n in byAttempt :: n !in todo;
      assert forall k :: k in keys <==> k in TaskKeys(Contents(), taskId) && Past(cursor, k);
    }
  }
}
