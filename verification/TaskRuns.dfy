/**
 Task commands in every interleaving. A command reads a record, computes the next one
 and swaps it in if the version still matches; anything may happen between the read and
 the swap, and a client may come back with a record it read long ago.
 */
module TaskRuns {
  import opened Basics
  import TR = TaskRecords
  import ER = ExecutionRecords
  import WR = WaitpointRecords
  import opened Tasks

  datatype TaskCommand =
    | MoveTask(to: TR.TaskState)
    | RequestCancel
    | ReportProgress(progress: TR.Progress)
    | ResolveCancel(status: TR.Cancellation, reason: string)
    | PublishResult(reference: string)

  datatype ExecutionCommand =
    | Bind(reference: ER.Reference)
    | MoveExecution(to: ER.ExecutionState)
    | PublishOutput(output: string)
    | FailExecution(reason: string)

  datatype WaitpointCommand =
    | Resolve(resolution: string, hash: string, resolutionId: string, actor: string)
    | CancelWait
    | ExpireWait

  /** A record some client has read. */
  datatype Held = HeldTask(task: Task) | HeldExecution(execution: Execution) | HeldWaitpoint(waitpoint: Waitpoint)

  datatype World = World(store: Store, held: map<nat, Held>)

  datatype Step =
    | Create(spec: TR.TaskSpec)
    | ReadTask(t: nat, id: string)
    | WriteTask(t: nat, expected: int, command: TaskCommand, now: Instant)
    | CreateExecution(id: string, taskId: string, runtime: string, now: Instant)
    | ReadExecution(t: nat, id: string)
    | WriteExecution(t: nat, expected: int, change: ExecutionCommand, now: Instant)
    | Retry(input: RetryInput)
    | Wait(wait: WR.WaitpointSpec)
    | ReadWaitpoint(t: nat, id: string)
    | WriteWaitpoint(t: nat, expected: int, answer: WaitpointCommand, now: Instant)

  /** The record a task command wants stored, if any. A repeated cancellation or progress
      report is answered without a write and without a version. */
  function NextTask(r: Task, expected: int, command: TaskCommand, now: Instant): Option<Task> {
    if (command.RequestCancel? && r.state == TR.CancelRequested)
       || (command.ReportProgress? && TR.ProgressIsCurrent(r, command.progress))
       || r.version != expected
    then None
    else
      var next := match command
        case MoveTask(to) => TR.Transition(r, to, now)
        case RequestCancel => TR.RequestCancellation(r, now)
        case ReportProgress(progress) => TR.ApplyProgress(r, progress, now)
        case ResolveCancel(status, reason) => TR.ResolveCancellation(r, status, reason, now)
        case PublishResult(reference) => TR.AttachResult(r, reference, now);
      if next.Ok? then Some(next.value) else None
  }

  /** Binding an execution uses the version just read; the other commands name the
      version their caller expects. */
  function NextExecution(r: Execution, expected: int, change: ExecutionCommand, now: Instant): Option<Execution> {
    if !change.Bind? && r.version != expected then None
    else
      var next := match change
        case Bind(reference) => ER.Bind(r, reference, now)
        case MoveExecution(to) => ER.Transition(r, to, now)
        case PublishOutput(output) => ER.AttachResult(r, output, now)
        case FailExecution(reason) => ER.Fail(r, reason, now);
      if next.Ok? && next.value.version != r.version then Some(next.value) else None
  }

  function NextWaitpoint(r: Waitpoint, expected: int, answer: WaitpointCommand, now: Instant): Option<Waitpoint> {
    match answer
    case Resolve(resolution, hash, resolutionId, actor) =>
      if expected <= 0 || resolution == "" || r.state == WR.Resolved || r.version != expected then None
      else
        var next := WR.Resolve(r, resolution, hash, resolutionId, actor, now);
        if next.Ok? then Some(next.value) else None
    case CancelWait =>
      if expected <= 0 || r.version != expected then None
      else
        var next := WR.Cancel(r, now);
        if next.Ok? then Some(next.value) else None
    case ExpireWait =>
      var next := WR.Expire(r, now);
      if next.Ok? then Some(next.value) else None
  }

  // ------------------------------------------------------------------- steps

  ghost function StoreStep(s: Store, step: Step): Store
    requires WellFormed(s)
  {
    match step
    case Create(spec) =>
      var record := TR.NewTask(spec);
      if record.Ok? then CreateTask(s, record.value).0 else s
    case CreateExecution(id, taskId, runtime, now) => CreateNextExecution(s, id, taskId, runtime, now).0
    case Retry(input) => RetryTask(s, input).0
    case Wait(wait) =>
      var record := WR.NewWaitpoint(wait);
      if record.Ok? then CreateWaitpoint(s, record.value).0 else s
    case _ => s
  }

  /** The three compare-and-swap writes, each from a record read before. */
  function HeldWrite(s: Store, held: Held, step: Step): Store {
    match step
    case WriteTask(t, expected, command, now) =>
      if !held.HeldTask? then s else
      var next := NextTask(held.task, expected, command, now);
      if next.Some? then UpdateTask(s, next.value, held.task.version).0 else s
    case WriteExecution(t, expected, change, now) =>
      if !held.HeldExecution? then s else
      var next := NextExecution(held.execution, expected, change, now);
      if next.Some? then UpdateExecution(s, next.value, held.execution.version).0 else s
    case WriteWaitpoint(t, expected, answer, now) =>
      if !held.HeldWaitpoint? then s else
      var next := NextWaitpoint(held.waitpoint, expected, answer, now);
      if next.Some? then UpdateWaitpoint(s, next.value, held.waitpoint.version).0 else s
    case _ => s
  }

  function Read(s: Store, step: Step): Option<Held> {
    match step
    case ReadTask(_, id) => if id in s.tasks then Some(HeldTask(s.tasks[id])) else None
    case ReadExecution(_, id) => if id in s.executions then Some(HeldExecution(s.executions[id])) else None
    case ReadWaitpoint(_, id) => if id in s.waitpoints then Some(HeldWaitpoint(s.waitpoints[id])) else None
    case _ => None
  }

  predicate Reads(step: Step) { step.ReadTask? || step.ReadExecution? || step.ReadWaitpoint? }

  predicate Writes(step: Step) { step.WriteTask? || step.WriteExecution? || step.WriteWaitpoint? }

  ghost function Take(w: World, step: Step): World
    requires WellFormed(w.store)
  {
    if Reads(step) then
      var read := Read(w.store, step);
      if read.Some? then w.(held := w.held[step.t := read.value]) else w
    else if Writes(step) then
      if step.t in w.held then w.(store := HeldWrite(w.store, w.held[step.t], step)) else w
    else w.(store := StoreStep(w.store, step))
  }

  // -------------------------------------------------------- what a step may do

  /** The executions of a task, by state. */
  ghost function InState(executions: map<string, Execution>, taskId: string, state: ER.ExecutionState): set<string> {
    set id | id in executions && executions[id].taskId == taskId && executions[id].state == state
  }

  ghost function AllOf(executions: map<string, Execution>, taskId: string): set<string> {
    set id | id in executions && executions[id].taskId == taskId
  }

  ghost function ExecutionsOf(s: Store, taskId: string): map<string, Execution> {
    map id | id in s.executions && s.executions[id].taskId == taskId :: s.executions[id]
  }

  ghost function WaitpointsOf(s: Store, taskId: string): map<string, Waitpoint> {
    map id | id in s.waitpoints && s.waitpoints[id].taskId == taskId :: s.waitpoints[id]
  }

  /** Everything that belongs to one task. */
  datatype Aggregate = Aggregate(task: Task, executions: map<string, Execution>, waitpoints: map<string, Waitpoint>)

  ghost function AggregateOf(s: Store, id: string): Aggregate
    requires id in s.tasks
  {
    Aggregate(s.tasks[id], ExecutionsOf(s, id), WaitpointsOf(s, id))
  }

  /** An id that means the same task with and without surrounding white space, or one
      that no execution can be filed under at all. */
  predicate Clean(id: string) { Trim(id) == id || Trim(id) == "" }

  /** All the ways a step can change the store. Each names the task it touches. */
  datatype Change =
    | Nothing
    | NewTask(task: Task)
    | Swapped(next: Task)
    | NewExecution(taskId: string, parent: Task, record: Execution)
    | ChangedExecution(previous: Execution, changed: Execution)
    | NewWaitpoint(wait: Waitpoint)
    | ChangedWaitpoint(waitpoint: Waitpoint)

  /** The new task record of a change. */
  ghost predicate Succeeds(next: Task, current: Task) {
    next.id == current.id && next.version == current.version + 1
  }

  ghost predicate Made(s: Store, change: Change, s': Store) {
    match change
    case Nothing => s' == s
    case NewTask(task) =>
      task.id != "" && task.id !in s.tasks && task.counts == TR.NO_COUNTS && s' == s.(tasks := s.tasks[task.id := task])
    case Swapped(next) =>
      && next.id in s.tasks && Succeeds(next, s.tasks[next.id]) && next.counts == s.tasks[next.id].counts
      && s' == s.(tasks := s.tasks[next.id := next])
    case NewExecution(taskId, parent, record) =>
      && taskId in s.tasks && Succeeds(parent, s.tasks[taskId])
      && parent.counts == OneMorePending(s.tasks[taskId]).counts
      && record.id != "" && record.id !in s.executions && record.taskId == Trim(taskId) != ""
      && record.state == ER.PendingDispatch
      && record.attempt == NextAttempt(AttemptsOf(s, taskId))
      && s' == AddExecution(s, taskId, parent, record).(retries := s'.retries, fingerprints := s'.fingerprints)
      && s'.fingerprints.Keys == s'.retries.Keys
    case ChangedExecution(previous, changed) =>
      && changed.id in s.executions && s.executions[changed.id] == previous
      && changed.taskId == previous.taskId && changed.attempt == previous.attempt
      && changed.version == previous.version + 1
      && changed.createdAt == previous.createdAt
      && changed.taskId in s.tasks
      && var parent := s.tasks[changed.taskId];
         s' == s.(executions := s.executions[changed.id := changed],
                  tasks := s.tasks[changed.taskId :=
                                   Touched(parent.(counts := Recount(parent.counts, previous.state, changed.state)),
                                           changed.updatedAt)])
    case NewWaitpoint(wait) =>
      && wait.id !in s.waitpoints && wait.taskId in s.tasks
      && WaitpointKey(wait.taskId, wait.key) !in s.waitpointKeys
      && s' == s.(waitpoints := s.waitpoints[wait.id := wait],
                  waitpointKeys := s.waitpointKeys[WaitpointKey(wait.taskId, wait.key) := wait.id],
                  tasks := s.tasks[wait.taskId := Touched(s.tasks[wait.taskId], wait.updatedAt)])
    case ChangedWaitpoint(waitpoint) =>
      && waitpoint.id in s.waitpoints && s.waitpoints[waitpoint.id].taskId == waitpoint.taskId
      && waitpoint.taskId in s.tasks
      && waitpoint.version == s.waitpoints[waitpoint.id].version + 1
      && s' == s.(waitpoints := s.waitpoints[waitpoint.id := waitpoint],
                  tasks := s.tasks[waitpoint.taskId := Touched(s.tasks[waitpoint.taskId], waitpoint.updatedAt)])
  }

  // ------------------------------------------------------------- lifecycles

  /** Reported progress goes forward, and a total once known stays. */
  ghost predicate ProgressGrows(p: TR.Progress, q: TR.Progress) {
    p.completed <= q.completed && (p.hasTotal ==> q.hasTotal && q.total == p.total)
  }

  /** The cancellation status a task may have in its state. */
  predicate CancellationFits(r: Task) {
    match r.state
    case Pending => r.cancellation == TR.NotRequested
    case Queued => r.cancellation == TR.NotRequested
    case Running => r.cancellation == TR.NotRequested
    case CancelRequested =>
      r.cancellation != TR.NotRequested && r.cancellation != TR.CancellationDone && r.cancellation != TR.TooLate
    case Cancelled => r.cancellation == TR.NotRequested || r.cancellation == TR.CancellationDone
    case _ => r.cancellation != TR.CancellationDone
  }

  /** Where a task may go from where it is. */
  const TASK_MOVES: set<(TR.TaskState, TR.TaskState)> := {
    (TR.Pending, TR.Queued), (TR.Pending, TR.Cancelled),
    (TR.Queued, TR.Running), (TR.Queued, TR.CancelRequested), (TR.Queued, TR.Cancelled),
    (TR.Running, TR.Uncertain), (TR.Running, TR.Succeeded), (TR.Running, TR.Failed), (TR.Running, TR.CancelRequested),
    (TR.Uncertain, TR.Succeeded), (TR.Uncertain, TR.Failed),
    (TR.CancelRequested, TR.Uncertain), (TR.CancelRequested, TR.Succeeded), (TR.CancelRequested, TR.Failed),
    (TR.CancelRequested, TR.Cancelled),
    (TR.Failed, TR.Queued), (TR.Cancelled, TR.Queued)
  }

  /** Where an execution may go. */
  const EXECUTION_MOVES: set<(ER.ExecutionState, ER.ExecutionState)> := {
    (ER.PendingDispatch, ER.Dispatched), (ER.PendingDispatch, ER.Cancelled),
    (ER.Dispatched, ER.Running), (ER.Dispatched, ER.Failed), (ER.Dispatched, ER.Stalled), (ER.Dispatched, ER.Cancelled),
    (ER.Running, ER.Succeeded), (ER.Running, ER.Failed), (ER.Running, ER.Stalled), (ER.Running, ER.Cancelled),
    (ER.Stalled, ER.Dispatched), (ER.Stalled, ER.Failed), (ER.Stalled, ER.Cancelled)
  }

  /** What is true of a task from its creation on. */
  predicate Founded(r: Task) {
    && r.id != "" && Trim(r.kind) != "" && r.definition > 0 && r.version > 0
    && r.createdAt != ZERO_TIME && r.updatedAt != ZERO_TIME
  }

  ghost predicate TaskLives(r: Task, next: Task) {
    && (next.state == r.state || (r.state, next.state) in TASK_MOVES)
    && (r.updatedAt != ZERO_TIME ==> next.updatedAt != ZERO_TIME)
    && ProgressGrows(r.progress, next.progress) && (TR.ProgressValid(r.progress) ==> TR.ProgressValid(next.progress))
    && (CancellationFits(r) ==> CancellationFits(next))
    && next.createdAt == r.createdAt && next.owner == r.owner && next.kind == r.kind && next.definition == r.definition
  }

  predicate Finished(state: ER.ExecutionState) { state == ER.Succeeded || state == ER.Failed || state == ER.Cancelled }

  ghost predicate ExecutionLives(r: Execution, next: Execution) {
    && (next.state == r.state || (r.state, next.state) in EXECUTION_MOVES)
    && ER.ExecutionValid(next, 1)
    && (Finished(r.state) ==> next.state == r.state && next.failureReason == r.failureReason)
    && (!ER.ReferenceEmpty(r.reference) ==> next.reference == r.reference)
    && next.runtime == r.runtime
  }

  /** A waitpoint changes once, from waiting to its answer. */
  ghost predicate WaitpointLives(r: Waitpoint, next: Waitpoint) {
    r.state == WR.Waiting && next.state != WR.Waiting && next.key == r.key && next.kind == r.kind
      && next.schema == r.schema && next.updatedAt != ZERO_TIME
  }

  /** The change follows the lifecycles of what it touches. */
  ghost predicate Lawful(s: Store, change: Change) {
    match change
    case NewTask(task) => CancellationFits(task) && TR.ProgressValid(task.progress) && Founded(task)
    case Swapped(next) => next.id in s.tasks && TaskLives(s.tasks[next.id], next)
    case NewExecution(taskId, parent, record) =>
      taskId in s.tasks && TaskLives(s.tasks[taskId], parent) && ER.ExecutionValid(record, 1)
    case ChangedExecution(previous, changed) => ExecutionLives(previous, changed)
    case NewWaitpoint(wait) => wait.updatedAt != ZERO_TIME
    case ChangedWaitpoint(waitpoint) =>
      waitpoint.id in s.waitpoints && WaitpointLives(s.waitpoints[waitpoint.id], waitpoint)
    case _ => true
  }

  // -------------------------------------------------------------- invariants

  /** Counters that tell the truth about the executions of a task. */
  ghost predicate CountsMatch(counts: TR.Counts, executions: map<string, Execution>, t: string) {
    && (forall state :: CountOf(counts, state) == |InState(executions, t, state)|)
    && counts.total == |AllOf(executions, t)|
    && TR.CountsValid(counts)
  }

  ghost predicate Counted(s: Store, t: string)
    requires t in s.tasks
  {
    CountsMatch(s.tasks[t].counts, s.executions, t)
  }

  /** The attempts filed under a task are numbered from 1 without gaps, and belong to the
      owner their executions name. */
  ghost predicate NumbersMatch(attempts: Attempts, executions: map<string, Execution>, owner: string, total: int) {
    && total >= 0 && (forall n :: n in attempts <==> 1 <= n <= total)
    && (forall n | n in attempts :: owner != "" && FiledAt(attempts, executions, owner, n))
  }

  ghost predicate FiledAt(attempts: Attempts, executions: map<string, Execution>, owner: string, n: int)
    requires n in attempts
  {
    var id := attempts[n];
    id in executions && executions[id].taskId == owner && executions[id].attempt == n
  }

  /** Executions are filed under the task they were requested for, but name the trimmed id. */
  ghost predicate Numbered(s: Store, t: string)
    requires t in s.tasks
  {
    NumbersMatch(AttemptsOf(s, t), s.executions, Trim(t), s.tasks[t].counts.total)
  }

  ghost predicate HasNumber(attempts: Attempts, executions: map<string, Execution>, id: string)
    requires id in executions
  {
    var n := executions[id].attempt;
    n in attempts && attempts[n] == id
  }

  /** Every execution that names the task is filed under it. */
  ghost predicate Complete(attempts: Attempts, executions: map<string, Execution>, t: string) {
    forall id | id in executions && executions[id].taskId == t :: HasNumber(attempts, executions, id)
  }

  /** A record read before is the stored one, or an older version of it. */
  ghost predicate HeldOk(s: Store, held: Held) {
    match held
    case HeldTask(r) => r.id in s.tasks && (s.tasks[r.id] == r || s.tasks[r.id].version > r.version)
    case HeldExecution(r) =>
      && r.id in s.executions && (s.executions[r.id] == r || s.executions[r.id].version > r.version)
      && s.executions[r.id].taskId == r.taskId && s.executions[r.id].attempt == r.attempt
      && s.executions[r.id].createdAt == r.createdAt
    case HeldWaitpoint(r) =>
      && r.id in s.waitpoints && (s.waitpoints[r.id] == r || s.waitpoints[r.id].version > r.version)
      && s.waitpoints[r.id].taskId == r.taskId
  }

  /** No waitpoint and no attempt belongs to a task that does not exist. */
  ghost predicate Owned(s: Store) {
    && (forall id | id in s.waitpoints :: s.waitpoints[id].taskId in s.tasks)
    && s.attempts.Keys <= s.tasks.Keys
  }

  /** What holds in every run, whatever the ids. */
  ghost predicate StoreInv(s: Store) {
    WellFormed(s) && Owned(s) && forall t | t in s.tasks :: Numbered(s, t)
  }

  ghost predicate Inv(w: World) {
    StoreInv(w.store) && forall t | t in w.held :: HeldOk(w.store, w.held[t])
  }

  /** What holds besides as long as every task id is clean. */
  ghost predicate Exact(s: Store) {
    && (forall id | id in s.executions :: s.executions[id].taskId in s.tasks)
    && (forall t | t in s.tasks :: Clean(t) && Counted(s, t) && Complete(AttemptsOf(s, t), s.executions, t))
  }

  // ------------------------------------------------- every change is lawful

  lemma TransitionLives(r: Task, to: TR.TaskState, now: Instant)
    requires TR.Transition(r, to, now).Ok?
    ensures TaskLives(r, TR.Transition(r, to, now).value)
  {
  }

  lemma CountingLives(r: Task, next: Task)
    requires TaskLives(r, next)
    ensures TaskLives(r, OneMorePending(next))
  {
  }

  lemma TouchingLives(r: Task, at: Instant)
    requires at != ZERO_TIME
    ensures TaskLives(r, Touched(OneMorePending(r), at))
  {
  }

  lemma TaskCommandsLive(r: Task, expected: int, command: TaskCommand, now: Instant)
    requires NextTask(r, expected, command, now).Some?
    ensures TaskLives(r, NextTask(r, expected, command, now).value)
  {
    match command
    case MoveTask(to) => TransitionLives(r, to, now);
    case RequestCancel => TransitionLives(r, TR.CancelRequested, now);
    case _ =>
  }

  lemma ExecutionCommandsLive(r: Execution, expected: int, change: ExecutionCommand, now: Instant)
    requires NextExecution(r, expected, change, now).Some?
    ensures ExecutionLives(r, NextExecution(r, expected, change, now).value)
  {
  }

  lemma WaitpointCommandsLive(r: Waitpoint, expected: int, answer: WaitpointCommand, now: Instant)
    requires NextWaitpoint(r, expected, answer, now).Some?
    ensures WaitpointLives(r, NextWaitpoint(r, expected, answer, now).value)
  {
  }

  // ----------------------------------------------------- every step is a change

  lemma TaskCommandsSucceed(r: Task, expected: int, command: TaskCommand, now: Instant)
    requires NextTask(r, expected, command, now).Some?
    ensures var next := NextTask(r, expected, command, now).value;
            next.id == r.id && next.counts == r.counts && (next.version == r.version + 1 || next == r)
  {
  }

  lemma ExecutionCommandsSucceed(r: Execution, expected: int, change: ExecutionCommand, now: Instant)
    requires NextExecution(r, expected, change, now).Some?
    ensures var next := NextExecution(r, expected, change, now).value;
            next.id == r.id && next.taskId == r.taskId && next.attempt == r.attempt && next.createdAt == r.createdAt
              && next.version == r.version + 1
  {
  }

  lemma WaitpointCommandsSucceed(r: Waitpoint, expected: int, answer: WaitpointCommand, now: Instant)
    requires NextWaitpoint(r, expected, answer, now).Some?
    ensures var next := NextWaitpoint(r, expected, answer, now).value;
            next.id == r.id && next.taskId == r.taskId && next.version == r.version + 1
  {
  }

  lemma TaskWriteMakes(s: Store, held: Held, step: Step) returns (change: Change)
    requires WellFormed(s) && HeldOk(s, held) && step.WriteTask?
    ensures Made(s, change, HeldWrite(s, held, step)) && !change.NewTask? && Lawful(s, change)
  {
    hide NextTask, Recount, TaskLives;
    change := Nothing;
    if held.HeldTask? && NextTask(held.task, step.expected, step.command, step.now).Some? {
      TaskCommandsSucceed(held.task, step.expected, step.command, step.now);
      TaskCommandsLive(held.task, step.expected, step.command, step.now);
      var next := NextTask(held.task, step.expected, step.command, step.now).value;
      if UpdateTask(s, next, held.task.version).1.Ok? { change := Swapped(next); }
    }
  }

  lemma ExecutionWriteMakes(s: Store, held: Held, step: Step) returns (change: Change)
    requires WellFormed(s) && HeldOk(s, held) && step.WriteExecution?
    ensures Made(s, change, HeldWrite(s, held, step)) && !change.NewTask? && Lawful(s, change)
  {
    hide NextExecution, Recount, ExecutionLives;
    change := Nothing;
    if held.HeldExecution? && NextExecution(held.execution, step.expected, step.change, step.now).Some? {
      ExecutionCommandsSucceed(held.execution, step.expected, step.change, step.now);
      ExecutionCommandsLive(held.execution, step.expected, step.change, step.now);
      var next := NextExecution(held.execution, step.expected, step.change, step.now).value;
      if UpdateExecution(s, next, held.execution.version).1.Ok? {
        change := ChangedExecution(s.executions[next.id], next);
      }
    }
  }

  lemma WaitpointWriteMakes(s: Store, held: Held, step: Step) returns (change: Change)
    requires WellFormed(s) && Owned(s) && HeldOk(s, held) && step.WriteWaitpoint?
    ensures Made(s, change, HeldWrite(s, held, step)) && !change.NewTask? && Lawful(s, change)
  {
    hide NextWaitpoint, Recount, WaitpointLives;
    change := Nothing;
    if held.HeldWaitpoint? && NextWaitpoint(held.waitpoint, step.expected, step.answer, step.now).Some? {
      WaitpointCommandsSucceed(held.waitpoint, step.expected, step.answer, step.now);
      WaitpointCommandsLive(held.waitpoint, step.expected, step.answer, step.now);
      var next := NextWaitpoint(held.waitpoint, step.expected, step.answer, step.now).value;
      if UpdateWaitpoint(s, next, held.waitpoint.version).1.Ok? { change := ChangedWaitpoint(next); }
    }
  }

  lemma WriteMakes(s: Store, held: Held, step: Step) returns (change: Change)
    requires WellFormed(s) && Owned(s) && HeldOk(s, held) && Writes(step)
    ensures Made(s, change, HeldWrite(s, held, step)) && !change.NewTask? && Lawful(s, change)
  {
    hide Made, Lawful, HeldWrite, HeldOk, WellFormed, Owned;
    if step.WriteTask? { change := TaskWriteMakes(s, held, step); }
    else if step.WriteExecution? { change := ExecutionWriteMakes(s, held, step); }
    else { change := WaitpointWriteMakes(s, held, step); }
  }

  lemma RetryMakes(s: Store, input: RetryInput) returns (change: Change)
    requires WellFormed(s)
    ensures Made(s, change, RetryTask(s, input).0) && !change.NewTask? && Lawful(s, change)
  {
    change := Nothing;
    if RetryAccepted(input) && input.command !in s.retries && FreshRetry(s, input).1.Ok? {
      change := FreshRetryMakes(s, input);
    }
    hide RetryAccepted, SameRetry;
  }

  lemma NewExecutionIsValid(id: string, taskId: string, attempt: int, runtime: string, now: Instant)
    requires ER.NewExecution(id, taskId, attempt, runtime, now).Ok?
    ensures ER.ExecutionValid(ER.NewExecution(id, taskId, attempt, runtime, now).value, 1)
  {
    TrimTwice(taskId);
    TrimTwice(runtime);
  }

  lemma FreshRetryMakes(s: Store, input: RetryInput) returns (change: Change)
    requires WellFormed(s) && FreshRetry(s, input).1.Ok?
    ensures Made(s, change, FreshRetry(s, input).0) && change.NewExecution? && Lawful(s, change)
  {
    hide TaskLives, TR.Transition, NextAttempt, Fingerprint, ER.ExecutionValid;
    var r := s.tasks[input.taskId];
    TransitionLives(r, TR.Queued, input.now);
    CountingLives(r, TR.Transition(r, TR.Queued, input.now).value);
    TransitionCounts(r, TR.Queued, input.now);
    var result := FreshRetry(s, input).1.value;
    NewExecutionIsValid(input.executionId, input.taskId, NextAttempt(AttemptsOf(s, input.taskId)), input.runtime,
                        input.now);
    change := NewExecution(input.taskId, result.task, result.execution);
  }

  lemma TransitionCounts(r: Task, to: TR.TaskState, now: Instant)
    ensures var next := TR.Transition(r, to, now);
            next.Ok? ==> Succeeds(next.value, r) && next.value.counts == r.counts
  {
  }

  lemma CreationMakes(s: Store, spec: TR.TaskSpec) returns (change: Change)
    requires WellFormed(s)
    ensures Made(s, change, StoreStep(s, Create(spec))) && Lawful(s, change)
    ensures change.NewTask? ==> change.task.id == spec.id
  {
    change := Nothing;
    TrimTwice(spec.kind);
    hide Trim;
    if TR.NewTask(spec).Ok? && CreateTask(s, TR.NewTask(spec).value).1.Ok? {
      change := NewTask(TR.NewTask(spec).value);
    }
  }

  lemma DispatchMakes(s: Store, id: string, taskId: string, runtime: string, now: Instant) returns (change: Change)
    requires WellFormed(s)
    ensures Made(s, change, CreateNextExecution(s, id, taskId, runtime, now).0) && !change.NewTask? && Lawful(s, change)
  {
    hide TaskLives, ER.ExecutionValid;
    var (s', made) := CreateNextExecution(s, id, taskId, runtime, now);
    change := Nothing;
    if made.Ok? {
      TouchingLives(s.tasks[taskId], now);
      NewExecutionIsValid(id, taskId, NextAttempt(AttemptsOf(s, taskId)), runtime, now);
      change := NewExecution(taskId, s'.tasks[taskId], made.value.0);
    }
  }

  lemma WaitingMakes(s: Store, wait: WR.WaitpointSpec) returns (change: Change)
    requires WellFormed(s)
    ensures Made(s, change, StoreStep(s, Wait(wait))) && !change.NewTask? && Lawful(s, change)
  {
    var record := WR.NewWaitpoint(wait);
    change := Nothing;
    if record.Ok? {
      var made := CreateWaitpoint(s, record.value).1;
      if made.Ok? && !made.value.1 { change := NewWaitpoint(record.value); }
    }
  }

  lemma StoreStepMakes(s: Store, step: Step) returns (change: Change)
    requires WellFormed(s)
    ensures Made(s, change, StoreStep(s, step)) && Lawful(s, change)
    ensures change.NewTask? ==> step.Create? && change.task.id == step.spec.id
  {
    hide Lawful, WellFormed, CreateNextExecution, RetryTask, CreateWaitpoint, CreateTask, TR.NewTask, WR.NewWaitpoint;
    match step
    case Create(spec) => change := CreationMakes(s, spec);
    case CreateExecution(id, taskId, runtime, now) => change := DispatchMakes(s, id, taskId, runtime, now);
    case Retry(input) => change := RetryMakes(s, input);
    case Wait(wait) => change := WaitingMakes(s, wait);
    case _ => change := NothingMakes(s);
  }

  lemma NothingMakes(s: Store) returns (change: Change)
    ensures change.Nothing? && Made(s, change, s) && Lawful(s, change)
  {
    change := Nothing;
  }

  lemma TakeMakes(w: World, step: Step) returns (change: Change)
    requires Inv(w)
    ensures Made(w.store, change, Take(w, step).store) && Lawful(w.store, change)
    ensures change.NewTask? ==> step.Create? && change.task.id == step.spec.id
  {
    hide StoreStep, HeldWrite, Numbered, TaskLives, ExecutionLives, WaitpointLives;
    if Reads(step) { change := Nothing; }
    else if Writes(step) {
      change := Nothing;
      if step.t in w.held {
        change := WriteMakes(w.store, w.held[step.t], step);
      }
    } else { change := StoreStepMakes(w.store, step); }
  }
}
