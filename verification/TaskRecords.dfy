/** A Task as its user sees it, and the commands that move it on. */
module TaskRecords {
  import opened Basics

  datatype TaskState = Pending | Queued | Running | Uncertain | Succeeded | Failed | CancelRequested | Cancelled

  datatype Cancellation = NotRequested | Requested | Acknowledged | CancellationDone | TooLate | CannotCancel
      | CancellationFailed

  datatype Progress = Progress(completed: int, total: int, hasTotal: bool, message: string)

  /** Cached numbers of executions: all of them, and by state. */
  datatype Counts = Counts(
    total: int, pendingDispatch: int, dispatched: int, running: int,
    succeeded: int, failed: int, stalled: int, cancelled: int)

  datatype Task = Task(
    id: string, kind: string, owner: string, definition: int, state: TaskState, progress: Progress,
    counts: Counts, resultRef: string, cancellation: Cancellation, cancellationReason: string,
    version: int, createdAt: Instant, updatedAt: Instant)

  datatype TaskSpec = TaskSpec(id: string, kind: string, owner: string, definition: int, now: Instant)

  datatype TaskError =
    | InvalidTask | InvalidTransition | InvalidProgress | ProgressState | ProgressRegression | ProgressTotal
    | InvalidResult | InvalidCancellation

  const NO_COUNTS := Counts(0, 0, 0, 0, 0, 0, 0, 0)
  const NO_PROGRESS := Progress(0, 0, false, "")

  predicate CountsValid(c: Counts) {
    && c.total >= 0 && c.pendingDispatch >= 0 && c.dispatched >= 0 && c.running >= 0
    && c.succeeded >= 0 && c.failed >= 0 && c.stalled >= 0 && c.cancelled >= 0
    && c.total == c.pendingDispatch + c.dispatched + c.running + c.succeeded + c.failed + c.stalled + c.cancelled
  }

  predicate ProgressValid(p: Progress) {
    p.completed >= 0 && p.total >= 0 && (p.hasTotal ==> p.total >= p.completed)
  }

  function NewTask(spec: TaskSpec): Result<Task, TaskError> {
    if spec.id == "" || Trim(spec.kind) == "" || spec.definition <= 0 || spec.now == ZERO_TIME then Err(InvalidTask)
    else Ok(Task(spec.id, Trim(spec.kind), Trim(spec.owner), spec.definition, Pending, NO_PROGRESS,
                 NO_COUNTS, "", NotRequested, "", 1, spec.now, spec.now))
  }

  predicate TaskValid(r: Task, now: Instant) {
    && r.id != "" && Trim(r.kind) != "" && r.definition > 0 && r.version > 0
    && r.createdAt != ZERO_TIME && r.updatedAt != ZERO_TIME && now != ZERO_TIME
    && ProgressValid(r.progress) && CountsValid(r.counts)
  }

  predicate CanMove(from: TaskState, to: TaskState) {
    match from
    case Pending => to == Queued || to == Cancelled
    case Queued => to == Running || to == CancelRequested || to == Cancelled
    case Running => to == Uncertain || to == Succeeded || to == Failed || to == CancelRequested
    case Uncertain => to == Succeeded || to == Failed
    case CancelRequested => to == Uncertain || to == Succeeded || to == Failed || to == Cancelled
    case Failed => to == Queued
    case Succeeded => false
    case Cancelled => to == Queued
  }

  function Transition(r: Task, to: TaskState, now: Instant): Result<Task, TaskError> {
    if !TaskValid(r, now) then Err(InvalidTask)
    else if !CanMove(r.state, to) then Err(InvalidTransition)
    else
      var moved := r.(state := to, version := r.version + 1, updatedAt := now);
      Ok(if to == Queued && (r.state == Failed || r.state == Cancelled)
         then moved.(cancellation := NotRequested, cancellationReason := "")
         else if to == CancelRequested && r.cancellation == NotRequested then moved.(cancellation := Requested)
         else if r.state == CancelRequested && to == Cancelled then moved.(cancellation := CancellationDone)
         else if r.state == CancelRequested && to == Succeeded then moved.(cancellation := TooLate)
         else if r.state == CancelRequested && to == Failed then moved.(cancellation := CancellationFailed)
         else moved)
  }

  predicate AcceptsProgress(r: Task) { r.state == Running || r.state == CancelRequested }

  predicate ProgressIsCurrent(r: Task, p: Progress) { AcceptsProgress(r) && ProgressValid(p) && p == r.progress }

  function ApplyProgress(r: Task, p: Progress, now: Instant): Result<Task, TaskError> {
    if !TaskValid(r, now) then Err(InvalidTask)
    else if !ProgressValid(p) then Err(InvalidProgress)
    else if !AcceptsProgress(r) then Err(ProgressState)
    else if p.completed < r.progress.completed then Err(ProgressRegression)
    else if r.progress.hasTotal && (!p.hasTotal || p.total != r.progress.total) then Err(ProgressTotal)
    else if p == r.progress then Ok(r)
    else Ok(r.(progress := p, version := r.version + 1, updatedAt := now))
  }

  function AttachResult(r: Task, reference: string, now: Instant): Result<Task, TaskError> {
    if !TaskValid(r, now) then Err(InvalidTask)
    else if Trim(reference) == "" then Err(InvalidResult)
    else Ok(r.(resultRef := Trim(reference), version := r.version + 1, updatedAt := now))
  }

  function RequestCancellation(r: Task, now: Instant): Result<Task, TaskError> {
    if !TaskValid(r, now) then Err(InvalidTask)
    else if r.state == CancelRequested then Ok(r)
    else Transition(r, CancelRequested, now)
  }

  function ResolveCancellation(r: Task, status: Cancellation, reason: string, now: Instant): Result<Task, TaskError> {
    if !TaskValid(r, now) then Err(InvalidTask)
    else if r.state != CancelRequested || (r.cancellation != Requested && r.cancellation != Acknowledged)
      then Err(InvalidCancellation)
    else if status != Acknowledged && status != CannotCancel && status != CancellationFailed
      then Err(InvalidCancellation)
    else Ok(r.(cancellation := status, cancellationReason := Trim(reason), version := r.version + 1, updatedAt := now))
  }
}

/** One attempt to execute a Task. */
module ExecutionRecords {
  import opened Basics

  datatype ExecutionState = PendingDispatch | Dispatched | Running | Succeeded | Failed | Stalled | Cancelled

  datatype Reference = Reference(runtime: string, jobId: string, externalId: string)

  datatype Execution = Execution(
    id: string, taskId: string, attempt: int, runtime: string, resultRef: string, failureReason: string,
    reference: Reference, state: ExecutionState, version: int, createdAt: Instant, updatedAt: Instant)

  datatype ExecutionError = InvalidExecution | InvalidReference | AlreadyBound | InvalidResult | InvalidTransition

  const RUNTIME_NATIVE := "native"
  const MAX_FAILURE_REASON := 512
  const NO_REFERENCE := Reference("", "", "")

  predicate ReferenceEmpty(r: Reference) { Trim(r.jobId) == "" && Trim(r.externalId) == "" }

  predicate ReferenceValid(r: Reference) {
    && Trim(r.runtime) != ""
    && (if Trim(r.runtime) == RUNTIME_NATIVE then Trim(r.jobId) != "" && Trim(r.externalId) == ""
        else Trim(r.externalId) != "" && Trim(r.jobId) == "")
  }

  /** The task id is stored without surrounding white space. */
  function NewExecution(id: string, taskId: string, attempt: int, runtime: string, now: Instant)
      : Result<Execution, ExecutionError>
  {
    if id == "" || Trim(taskId) == "" || attempt <= 0 || Trim(runtime) == "" || now == ZERO_TIME
      then Err(InvalidExecution)
    else Ok(Execution(id, Trim(taskId), attempt, Trim(runtime), "", "", NO_REFERENCE, PendingDispatch, 1, now, now))
  }

  predicate ExecutionValid(r: Execution, now: Instant) {
    && r.id != "" && Trim(r.taskId) != "" && r.attempt > 0 && Trim(r.runtime) != "" && r.version > 0
    && r.createdAt != ZERO_TIME && r.updatedAt != ZERO_TIME && now != ZERO_TIME
    && (!ReferenceEmpty(r.reference) ==> r.reference.runtime == r.runtime && ReferenceValid(r.reference))
  }

  function Bind(r: Execution, reference: Reference, now: Instant): Result<Execution, ExecutionError> {
    if !ExecutionValid(r, now) then Err(InvalidExecution)
    else if !ReferenceEmpty(r.reference) || r.state != PendingDispatch then Err(AlreadyBound)
    else
      var bound := Reference(Trim(reference.runtime), Trim(reference.jobId), Trim(reference.externalId));
      if bound.runtime != r.runtime || !ReferenceValid(bound) then Err(InvalidReference)
      else Ok(r.(reference := bound, state := Dispatched, version := r.version + 1, updatedAt := now))
  }

  predicate CanMove(from: ExecutionState, to: ExecutionState) {
    match from
    case PendingDispatch => to == Dispatched || to == Cancelled
    case Dispatched => to == Running || to == Failed || to == Stalled || to == Cancelled
    case Running => to == Succeeded || to == Failed || to == Stalled || to == Cancelled
    case Stalled => to == Dispatched || to == Failed || to == Cancelled
    case _ => false
  }

  function Transition(r: Execution, to: ExecutionState, now: Instant): Result<Execution, ExecutionError> {
    if !ExecutionValid(r, now) then Err(InvalidExecution)
    else if !CanMove(r.state, to) then Err(InvalidTransition)
    else if to != PendingDispatch && to != Cancelled && !ReferenceValid(r.reference) then Err(InvalidReference)
    else Ok(r.(state := to, version := r.version + 1, updatedAt := now))
  }

  function AttachResult(r: Execution, reference: string, now: Instant): Result<Execution, ExecutionError> {
    if !ExecutionValid(r, now) then Err(InvalidExecution)
    else if Trim(reference) == "" then Err(InvalidResult)
    else if Trim(reference) == r.resultRef then Ok(r)
    else Ok(r.(resultRef := Trim(reference), version := r.version + 1, updatedAt := now))
  }

  function Fail(r: Execution, reason: string, now: Instant): Result<Execution, ExecutionError> {
    var next := Transition(r, Failed, now);
    if next.Err? then next else Ok(next.value.(failureReason := Truncated(Trim(reason))))
  }

  /** The byte continues a UTF-8 character that an earlier byte began. */
  predicate Continues(c: char) { '\U{80}' <= c <= '\U{BF}' }

  /** The number of characters the bytes encode. */
  function Characters(s: string): nat {
    if s == "" then 0 else Characters(Front(s)) + if Continues(Last(s)) then 0 else 1
  }

  /** The text cut to so many characters, and never inside one. */
  function Cut(s: string, n: nat): (r: string)
    ensures r <= s && Characters(r) <= n
    ensures Characters(s) <= n ==> r == s
    ensures r != s ==> Characters(r) == n && !Continues(s[|r|])
  {
    if Characters(s) <= n then s else Cut(Front(s), n)
  }

  const ELLIPSIS := "\U{E2}\U{80}\U{A6}"

  function Truncated(reason: string): string {
    if Characters(reason) <= MAX_FAILURE_REASON then reason else Cut(reason, MAX_FAILURE_REASON) + ELLIPSIS
  }
}

/** A Task's pause for input, approval or a webhook. */
module WaitpointRecords {
  import opened Basics

  datatype WaitpointState = Waiting | Resolved | Expired | Cancelled
  datatype WaitpointKind = Input | Approval | Webhook | UnknownKind

  datatype Waitpoint = Waitpoint(
    id: string, taskId: string, key: string, kind: WaitpointKind, schema: int, state: WaitpointState, deadline: Instant,
    resolution: string, resolutionHash: string, resolvedBy: string, resolutionId: string, resolvedAt: Instant,
    version: int, createdAt: Instant, updatedAt: Instant)

  datatype WaitpointSpec = WaitpointSpec(
    id: string, taskId: string, key: string, kind: WaitpointKind, schema: int, deadline: Instant, now: Instant)

  datatype WaitpointError = InvalidWaitpoint | AlreadySettled | ResolutionConflict

  function NewWaitpoint(spec: WaitpointSpec): Result<Waitpoint, WaitpointError> {
    if Trim(spec.id) == "" || Trim(spec.taskId) == "" || Trim(spec.key) == "" || spec.schema <= 0
      || spec.now == ZERO_TIME
       || spec.kind == UnknownKind || (spec.deadline != ZERO_TIME && spec.deadline <= spec.now)
    then Err(InvalidWaitpoint)
    else Ok(Waitpoint(Trim(spec.id), Trim(spec.taskId), Trim(spec.key), spec.kind, spec.schema, Waiting, spec.deadline,
                      "", "", "", "", ZERO_TIME, 1, spec.now, spec.now))
  }

  function Resolve(r: Waitpoint, resolution: string, hash: string, resolutionId: string, actor: string, now: Instant)
    : Result<Waitpoint, WaitpointError>
  {
    if resolution == "" || Trim(hash) == "" || Trim(resolutionId) == "" || Trim(actor) == "" || now == ZERO_TIME
      || now < r.createdAt
    then Err(InvalidWaitpoint)
    else if r.state == Resolved then
      if r.resolutionId == Trim(resolutionId) && r.resolutionHash == Trim(hash) then Ok(r) else Err(ResolutionConflict)
    else if r.state != Waiting || (r.deadline != ZERO_TIME && now >= r.deadline) then Err(AlreadySettled)
    else Ok(r.(state := Resolved, resolution := resolution, resolutionHash := Trim(hash),
               resolutionId := Trim(resolutionId),
               resolvedBy := Trim(actor), resolvedAt := now, updatedAt := now, version := r.version + 1))
  }

  function Expire(r: Waitpoint, now: Instant): Result<Waitpoint, WaitpointError> {
    if r.state != Waiting then Err(AlreadySettled)
    else if r.deadline == ZERO_TIME || now == ZERO_TIME || now < r.deadline then Err(InvalidWaitpoint)
    else Ok(r.(state := Expired, updatedAt := now, version := r.version + 1))
  }

  function Cancel(r: Waitpoint, now: Instant): Result<Waitpoint, WaitpointError> {
    if r.state != Waiting then Err(AlreadySettled)
    else if now == ZERO_TIME || now < r.createdAt then Err(InvalidWaitpoint)
    else Ok(r.(state := Cancelled, updatedAt := now, version := r.version + 1))
  }
}
