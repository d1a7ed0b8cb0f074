/**
 The read, compute, compare-and-swap commands of the task service, run on the store
 without interruption. `TaskRuns` takes the same commands apart at the store calls.
 */
module TaskServices {
  import opened Basics
  import TR = TaskRecords
  import ER = ExecutionRecords
  import opened Tasks
  import opened TaskRuns
  import opened TaskStores
  import opened TaskCommands

  /** The command asks for what the task already is. */
  predicate Repeats(r: Task, command: TaskCommand) {
    || (command.RequestCancel? && r.state == TR.CancelRequested)
    || (command.ReportProgress? && TR.ProgressIsCurrent(r, command.progress))
  }

  /** What the caller is told: a repeated command succeeds whatever version it expects, any
      other needs the current version and a record that may change so. */
  function TaskAnswer(r: Task, expected: int, command: TaskCommand, now: Instant): Result<Task, StoreError> {
    if Repeats(r, command) then Ok(r)
    else if r.version != expected then Err(VersionConflict)
    else
      var next := NextTask(r, expected, command, now);
      if next.None? then Err(InvalidInput) else Ok(next.value)
  }

  /** An execution command likewise; publishing the output again changes nothing. */
  function ExecutionAnswer(s: Store, r: Execution, expected: int, change: ExecutionCommand, now: Instant)
      : Result<Execution, StoreError>
  {
    if !change.Bind? && r.version != expected then Err(VersionConflict)
    else
      var next := NextExecution(r, expected, change, now);
      if next.None? then
        if change.PublishOutput? && ER.AttachResult(r, change.output, now).Ok? then Ok(r) else Err(InvalidInput)
      else if r.taskId !in s.tasks then Err(TaskMissing)
      else Ok(next.value)
  }

  /** The answer is what the command's own description says, for every record and version. */
  lemma TaskAnswerIsRight(r: Task, expected: int, command: TaskCommand, now: Instant)
    ensures TaskOutcome(r, expected, command, now, TaskAnswer(r, expected, command, now))
  {
    hide Trim;
  }

  lemma BindIsRight(r: Execution, reference: ER.Reference, now: Instant)
    ensures var next := ER.Bind(r, reference, now);
            && (next.Ok? <==> ER.ExecutionValid(r, now) && ExecutionFits(r, Bind(reference)))
            && (next.Ok? ==> next.value.version == r.version + 1 && next.value.updatedAt == now
                             && AskedExecution(r, Bind(reference),
                                               next.value.(version := r.version, updatedAt := r.updatedAt)))
  {
    TrimTwice(reference.runtime);
    TrimTwice(reference.jobId);
    TrimTwice(reference.externalId);
    hide Trim;
  }

  lemma ReasonIsKept(reason: string)
    ensures KeptReason(reason, ER.Truncated(reason))
  {
    if ER.Characters(reason) > 512 {
      var cut := ER.Cut(reason, 512);
      assert (cut + ER.ELLIPSIS)[..|cut|] == cut;
    }
  }

  /** Likewise for executions. */
  lemma ExecutionAnswerIsRight(s: Store, r: Execution, expected: int, change: ExecutionCommand, now: Instant)
    ensures ExecutionOutcome(s, r, expected, change, now, ExecutionAnswer(s, r, expected, change, now))
  {
    hide Trim, KeptReason, ER.Truncated;
    if change.Bind? {
      BindIsRight(r, change.reference, now);
      hide ER.Bind, ExecutionFits, AskedExecution, ER.ExecutionValid;
    } else if change.FailExecution? {
      ReasonIsKept(Trim(change.reason));
    }
  }

  /** `Transition`, `RequestCancellation`, `UpdateProgress`, `ResolveCancellation` and
      `AttachResult`: they differ in the record they compute. */
  method ChangeTask(store: TaskStore, id: string, expected: int, command: TaskCommand, now: Instant)
      returns (result: Result<Task, StoreError>)
    requires store.Valid()
    modifies store
    ensures store.Valid()
    ensures id !in old(store.tasks) ==> result == Err(TaskMissing) && store.Contents() == old(store.Contents())
    ensures id in old(store.tasks) ==>
              var held := old(store.tasks)[id];
              && store.Contents()
                 == HeldWrite(old(store.Contents()), HeldTask(held), WriteTask(0, expected, command, now))
              && result == TaskAnswer(held, expected, command, now)
              && TaskOutcome(held, expected, command, now, result)
              && (result.Ok? ==> result.value == store.tasks[id])
  {
    hide TaskOutcome;
    if id !in store.tasks { return Err(TaskMissing); }
    var record := store.tasks[id];
    TaskAnswerIsRight(record, expected, command, now);
    if command.RequestCancel? && record.state == TR.CancelRequested { return Ok(record); }
    if command.ReportProgress? && TR.ProgressIsCurrent(record, command.progress) { return Ok(record); }
    if record.version != expected { return Err(VersionConflict); }
    var next := NextTask(record, expected, command, now);
    if next.None? { return Err(InvalidInput); }
    TaskCommandsSucceed(record, expected, command, now);
    hide NextTask;
    result := store.UpdateTask(next.value, expected);
  }

  /** `BindExecution`, `TransitionExecutionSnapshot`, `AttachExecutionResult` and
      `FailExecutionSnapshot`. */
  method ChangeExecution(store: TaskStore, id: string, expected: int, change: ExecutionCommand, now: Instant)
      returns (result: Result<Execution, StoreError>)
    requires store.Valid()
    modifies store
    ensures store.Valid()
    ensures id !in old(store.executions) ==>
            result == Err(ExecutionMissing) && store.Contents() == old(store.Contents())
    ensures id in old(store.executions) ==>
              var held := old(store.executions)[id];
              && store.Contents()
                 == HeldWrite(old(store.Contents()), HeldExecution(held), WriteExecution(0, expected, change, now))
              && result == ExecutionAnswer(old(store.Contents()), held, expected, change, now)
              && ExecutionOutcome(old(store.Contents()), held, expected, change, now, result)
    ensures result.Ok? ==> id in store.executions && result.value == store.executions[id]
  {
    hide ExecutionOutcome;
    if id !in store.executions { return Err(ExecutionMissing); }
    var record := store.executions[id];
    ExecutionAnswerIsRight(store.Contents(), record, expected, change, now);
    if !change.Bind? && record.version != expected { return Err(VersionConflict); }
    var next := NextExecution(record, expected, change, now);
    if next.None? {
      if change.PublishOutput? && ER.AttachResult(record, change.output, now).Ok? { return Ok(record); }
      return Err(InvalidInput);
    }
    ExecutionCommandsSucceed(record, expected, change, now);
    hide NextExecution;
    var written := store.UpdateExecution(next.value, record.version);
    if written.Err? { return Err(written.error); }
    return Ok(written.value.0);
  }
}
