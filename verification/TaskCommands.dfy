/**
 What each task command does, told without the code that does it: when it succeeds, and
 which record is stored then. A move succeeds along the tables of `TaskRuns`.
 */
module TaskCommands {
  import opened Basics
  import TR = TaskRecords
  import ER = ExecutionRecords
  import WR = WaitpointRecords
  import opened Tasks
  import opened TaskRuns

  // ------------------------------------------------------------------ creation

  /** A task starts pending, with nothing done and nothing running, exactly when it has an
      id, a kind, a definition and a time. */
  lemma CreationIsExact(spec: TR.TaskSpec)
    ensures var made := TR.NewTask(spec);
            && (made.Ok? <==> spec.id != "" && Trim(spec.kind) != "" && spec.definition >= 1 && spec.now != ZERO_TIME)
            && (made.Ok? ==>
                  made.value == TR.Task(spec.id, Trim(spec.kind), Trim(spec.owner), spec.definition, TR.Pending,
                                        TR.Progress(0, 0, false, ""), TR.Counts(0, 0, 0, 0, 0, 0, 0, 0), "",
                                        TR.NotRequested, "", 1, spec.now, spec.now))
  {
  }

  // --------------------------------------------------------------------- tasks

  /** What becomes of a cancellation request when the task moves on. */
  const CANCELLATION_OUTCOMES: map<(TR.TaskState, TR.TaskState), TR.Cancellation> := map[
    (TR.CancelRequested, TR.Cancelled) := TR.CancellationDone,
    (TR.CancelRequested, TR.Succeeded) := TR.TooLate,
    (TR.CancelRequested, TR.Failed) := TR.CancellationFailed,
    (TR.Failed, TR.Queued) := TR.NotRequested,
    (TR.Cancelled, TR.Queued) := TR.NotRequested
  ]

  function CancellationAfter(r: Task, to: TR.TaskState): TR.Cancellation {
    if (r.state, to) in CANCELLATION_OUTCOMES then CANCELLATION_OUTCOMES[(r.state, to)]
    else if to == TR.CancelRequested && r.cancellation == TR.NotRequested then TR.Requested
    else r.cancellation
  }

  /** The task in its new state. One that is queued again forgets why it was to be cancelled. */
  function MovedTo(r: Task, to: TR.TaskState): Task {
    r.(state := to, cancellation := CancellationAfter(r, to),
       cancellationReason := if to == TR.Queued && r.state != TR.Pending then "" else r.cancellationReason)
  }

  predicate Plausible(p: TR.Progress) { 0 <= p.completed && 0 <= p.total && (p.hasTotal ==> p.completed <= p.total) }

  /** The command may be carried out on the record. */
  ghost predicate Fits(r: Task, command: TaskCommand) {
    match command
    case MoveTask(to) => (r.state, to) in TASK_MOVES
    case RequestCancel => (r.state, TR.CancelRequested) in TASK_MOVES
    case ReportProgress(p) =>
      && r.state in {TR.Running, TR.CancelRequested} && Plausible(p) && r.progress.completed <= p.completed
      && (r.progress.hasTotal ==> p.hasTotal && p.total == r.progress.total)
    case ResolveCancel(status, _) =>
      && r.state == TR.CancelRequested && r.cancellation in {TR.Requested, TR.Acknowledged}
      && status in {TR.Acknowledged, TR.CannotCancel, TR.CancellationFailed}
    case PublishResult(reference) => Trim(reference) != ""
  }

  /** The record the command asks for, before it is dated. */
  function Asked(r: Task, command: TaskCommand): Task {
    match command
    case MoveTask(to) => MovedTo(r, to)
    case RequestCancel => MovedTo(r, TR.CancelRequested)
    case ReportProgress(p) => r.(progress := p)
    case ResolveCancel(status, reason) => r.(cancellation := status, cancellationReason := Trim(reason))
    case PublishResult(reference) => r.(resultRef := Trim(reference))
  }

  /** The task is already what the command asks for, and says so whatever the version. */
  ghost predicate AlreadySo(r: Task, command: TaskCommand) {
    match command
    case RequestCancel => r.state == TR.CancelRequested
    case ReportProgress(p) => r.state in {TR.Running, TR.CancelRequested} && Plausible(p) && p == r.progress
    case _ => false
  }

  /** What the caller of a task command is told, and what is stored if it is told success. */
  ghost predicate TaskOutcome(r: Task, expected: int, command: TaskCommand, now: Instant,
                              result: Result<Task, StoreError>)
  {
    if AlreadySo(r, command) then result == Ok(r)
    else if r.version != expected then result == Err(VersionConflict)
    else if TR.TaskValid(r, now) && Fits(r, command) then
      result == Ok(Asked(r, command).(version := r.version + 1, updatedAt := now))
    else result == Err(InvalidInput)
  }

  // ---------------------------------------------------------------- executions

  /** A reference to where the attempt runs: a job of this queue, or something outside. */
  predicate Bindable(runtime: string, reference: ER.Reference) {
    && Trim(reference.runtime) == runtime
    && (if runtime == "native" then Trim(reference.jobId) != "" && Trim(reference.externalId) == ""
        else Trim(reference.jobId) == "" && Trim(reference.externalId) != "")
  }

  ghost predicate ExecutionFits(r: Execution, change: ExecutionCommand) {
    match change
    case Bind(reference) =>
      r.state == ER.PendingDispatch && ER.ReferenceEmpty(r.reference) && Bindable(r.runtime, reference)
    case MoveExecution(to) =>
      (r.state, to) in EXECUTION_MOVES && (to != ER.Cancelled ==> !ER.ReferenceEmpty(r.reference))
    case PublishOutput(output) => Trim(output) != ""
    case FailExecution(_) => (r.state, ER.Failed) in EXECUTION_MOVES && !ER.ReferenceEmpty(r.reference)
  }

  /** The reason as it is kept: whole up to 512 characters, else cut there and marked. */
  ghost predicate KeptReason(reason: string, kept: string) {
    if ER.Characters(reason) <= 512 then kept == reason
    else |kept| >= 3 && var cut := kept[..|kept| - 3];
      kept == cut + ER.ELLIPSIS && cut < reason && ER.Characters(cut) == 512 && !ER.Continues(reason[|cut|])
  }

  ghost predicate AskedExecution(r: Execution, change: ExecutionCommand, next: Execution) {
    match change
    case Bind(reference) =>
      next == r.(state := ER.Dispatched,
                 reference := ER.Reference(r.runtime, Trim(reference.jobId), Trim(reference.externalId)))
    case MoveExecution(to) => next == r.(state := to)
    case PublishOutput(output) => next == r.(resultRef := Trim(output))
    case FailExecution(reason) =>
      next == r.(state := ER.Failed, failureReason := next.failureReason)
        && KeptReason(Trim(reason), next.failureReason)
  }

  /** The answer to an execution command. Binding needs no version; publishing the same
      output again succeeds without a write. */
  ghost predicate ExecutionOutcome(s: Store, r: Execution, expected: int, change: ExecutionCommand, now: Instant,
                                   result: Result<Execution, StoreError>)
  {
    if !change.Bind? && r.version != expected then result == Err(VersionConflict)
    else if !ER.ExecutionValid(r, now) || !ExecutionFits(r, change) then result == Err(InvalidInput)
    else if change.PublishOutput? && Trim(change.output) == r.resultRef then result == Ok(r)
    else if r.taskId !in s.tasks then result == Err(TaskMissing)
    else
      && result.Ok? && result.value.version == r.version + 1 && result.value.updatedAt == now
      && AskedExecution(r, change, result.value.(version := r.version, updatedAt := r.updatedAt))
  }
}
