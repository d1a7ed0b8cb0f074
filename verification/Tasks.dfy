/**
 The Task aggregate as a value: tasks, their executions, retries and waitpoints, one
 function per store operation. `TaskStores.TaskStore` updates the same maps in place
 and is proved against these functions.

 Writing a record is a compare-and-swap on its version. Every change of an execution or
 a waitpoint also raises the version of the task it belongs to.
 */
module Tasks {
  import opened Basics
  import TR = TaskRecords
  import ER = ExecutionRecords
  import WR = WaitpointRecords

  type Task = TR.Task
  type Execution = ER.Execution
  type Waitpoint = WR.Waitpoint
  type Attempts = map<int, string>

  datatype RetryInput = RetryInput(
    command: string, taskId: string, expected: int, executionId: string, runtime: string, queue: string,
    jobName: string, payload: string, payloadIsJson: bool, now: Instant)

  datatype RetryResult = RetryResult(task: Task, execution: Execution, replayed: bool)

  datatype Store = Store(
    tasks: map<string, Task>, executions: map<string, Execution>, attempts: map<string, Attempts>,
    retries: map<string, RetryResult>, fingerprints: map<string, string>,
    waitpoints: map<string, Waitpoint>, waitpointKeys: map<string, string>)

  const EMPTY_STORE := Store(map[], map[], map[], map[], map[], map[], map[])

  datatype StoreError =
    | TaskMissing | ExecutionMissing | WaitpointMissing | VersionConflict | AlreadyExists | InvalidInput
    | WaitpointConflict

  /** Records are stored under their own ids, and the secondary indexes point at records. */
  ghost predicate WellFormed(s: Store) {
    && (forall id | id in s.tasks :: s.tasks[id].id == id)
    && (forall id | id in s.executions :: s.executions[id].id == id) && "" !in s.executions
    && (forall id | id in s.waitpoints :: s.waitpoints[id].id == id)
    && (forall id | id in s.attempts :: forall n | n in s.attempts[id] :: s.attempts[id][n] in s.executions)
    && (forall k | k in s.waitpointKeys :: s.waitpointKeys[k] in s.waitpoints)
    && s.fingerprints.Keys == s.retries.Keys
  }

  // ------------------------------------------------------------------- tasks

  function CreateTask(s: Store, record: Task): (Store, Result<Task, StoreError>) {
    if record.id == "" || record.version != 1 then (s, Err(InvalidInput))
    else if record.id in s.tasks then (s, Err(AlreadyExists))
    else (s.(tasks := s.tasks[record.id := record]), Ok(record))
  }

  function UpdateTask(s: Store, record: Task, expected: int): (Store, Result<Task, StoreError>) {
    if record.id !in s.tasks then (s, Err(TaskMissing))
    else if s.tasks[record.id].version != expected || record.version != expected + 1 then (s, Err(VersionConflict))
    else (s.(tasks := s.tasks[record.id := record]), Ok(record))
  }

  /** The task of a changed child: one version up, and not older than the child. */
  function Touched(parent: Task, at: Instant): Task {
    parent.(version := parent.version + 1, updatedAt := Max(parent.updatedAt, at))
  }

  // -------------------------------------------------------------- executions

  function AttemptsOf(s: Store, taskId: string): Attempts {
    if taskId in s.attempts then s.attempts[taskId] else map[]
  }

  /** One past the highest attempt number in use, and 1 to begin with. */
  ghost predicate IsNextAttempt(attempts: Attempts, n: int) {
    n >= 1 && (forall k | k in attempts :: k < n) && (n == 1 || n - 1 in attempts)
  }

  lemma NextAttemptIsUnique(attempts: Attempts, m: int, n: int)
    requires IsNextAttempt(attempts, m) && IsNextAttempt(attempts, n)
    ensures m == n
  {
  }

  ghost function NextAttempt(attempts: Attempts): (n: int)
    ensures IsNextAttempt(attempts, n)
  {
    NextAttemptExists(attempts.Keys, attempts);
    var n :| IsNextAttempt(attempts, n);
    n
  }

  lemma {:induction false} NextAttemptExists(keys: set<int>, attempts: Attempts)
    requires keys == attempts.Keys
    ensures exists n :: IsNextAttempt(attempts, n)
  {
    if forall k | k in keys :: k < 1 {
      assert IsNextAttempt(attempts, 1);
    } else {
      var top := Highest(keys);
      assert IsNextAttempt(attempts, top + 1);
    }
  }

  lemma Highest(keys: set<int>) returns (top: int)
    requires keys != {}
    ensures top in keys && forall k | k in keys :: k <= top
  {
    var k := Member(keys);
    var rest := keys - {k};
    assert forall j | j in keys :: j == k || j in rest;
    top := k;
    if rest != {} {
      var other := Highest(rest);
      top := Max(k, other);
    }
  }

  function CountOf(c: TR.Counts, state: ER.ExecutionState): int {
    match state
    case PendingDispatch => c.pendingDispatch
    case Dispatched => c.dispatched
    case Running => c.running
    case Succeeded => c.succeeded
    case Failed => c.failed
    case Stalled => c.stalled
    case Cancelled => c.cancelled
  }

  /** `adjustExecutionCount`. */
  function Adjusted(c: TR.Counts, state: ER.ExecutionState, delta: int): TR.Counts {
    match state
    case PendingDispatch => c.(pendingDispatch := c.pendingDispatch + delta)
    case Dispatched => c.(dispatched := c.dispatched + delta)
    case Running => c.(running := c.running + delta)
    case Succeeded => c.(succeeded := c.succeeded + delta)
    case Failed => c.(failed := c.failed + delta)
    case Stalled => c.(stalled := c.stalled + delta)
    case Cancelled => c.(cancelled := c.cancelled + delta)
  }

  function OneMorePending(parent: Task): Task {
    parent.(counts := parent.counts.(total := parent.counts.total + 1,
                                     pendingDispatch := parent.counts.pendingDispatch + 1))
  }

  /** File a new execution under the task it was requested for. */
  function AddExecution(s: Store, taskId: string, parent: Task, record: Execution): Store {
    s.(tasks := s.tasks[taskId := parent],
       executions := s.executions[record.id := record],
       attempts := s.attempts[taskId := AttemptsOf(s, taskId)[record.attempt := record.id]])
  }

  ghost function CreateNextExecution(s: Store, id: string, taskId: string, runtime: string, now: Instant)
    : (Store, Result<(Execution, int), StoreError>)
  {
    if taskId !in s.tasks then (s, Err(TaskMissing))
    else if id in s.executions then (s, Err(AlreadyExists))
    else
      var record := ER.NewExecution(id, taskId, NextAttempt(AttemptsOf(s, taskId)), runtime, now);
      if record.Err? then (s, Err(InvalidInput))
      else
        var parent := Touched(OneMorePending(s.tasks[taskId]), now);
        (AddExecution(s, taskId, parent, record.value), Ok((record.value, parent.version)))
  }

  function Recount(c: TR.Counts, from: ER.ExecutionState, to: ER.ExecutionState): TR.Counts {
    if from == to then c else Adjusted(Adjusted(c, from, -1), to, 1)
  }

  function UpdateExecution(s: Store, record: Execution, expected: int): (Store, Result<(Execution, int), StoreError>) {
    if record.id !in s.executions then (s, Err(ExecutionMissing))
    else
      var current := s.executions[record.id];
      if current.version != expected || record.version != expected + 1 then (s, Err(VersionConflict))
      else if current.taskId != record.taskId || current.attempt != record.attempt then (s, Err(InvalidInput))
      else if record.taskId !in s.tasks then (s, Err(TaskMissing))
      else
        var parent := s.tasks[record.taskId];
        var parent' := Touched(parent.(counts := Recount(parent.counts, current.state, record.state)),
                               record.updatedAt);
        (s.(executions := s.executions[record.id := record], tasks := s.tasks[record.taskId := parent']),
         Ok((record, parent'.version)))
  }

  // ------------------------------------------------------------------- retry

  function RetryAccepted(input: RetryInput): bool {
    && input.command != "" && input.taskId != "" && input.executionId != "" && input.runtime != "" && input.queue != ""
    && input.jobName != "" && input.payload != "" && input.payloadIsJson && input.expected > 0 && input.now != ZERO_TIME
  }

  /** What the fingerprint is a digest of. */
  function Fingerprint(input: RetryInput): string {
    input.runtime + "\0" + input.queue + "\0" + input.jobName + "\0" + input.payload
  }

  predicate SameRetry(s: Store, input: RetryInput)
    requires input.command in s.retries && s.fingerprints.Keys == s.retries.Keys
  {
    var prior := s.retries[input.command];
    prior.task.id == input.taskId && prior.execution.id == input.executionId
      && s.fingerprints[input.command] == Fingerprint(input)
  }

  /** The task goes back to queued and gets a fresh execution, in one step. */
  ghost function FreshRetry(s: Store, input: RetryInput): (Store, Result<RetryResult, StoreError>) {
    if input.taskId !in s.tasks then (s, Err(TaskMissing))
    else if s.tasks[input.taskId].version != input.expected then (s, Err(VersionConflict))
    else
      var next := TR.Transition(s.tasks[input.taskId], TR.Queued, input.now);
      if next.Err? then (s, Err(InvalidInput))
      else if input.executionId in s.executions then (s, Err(AlreadyExists))
      else
        var record := ER.NewExecution(input.executionId, input.taskId, NextAttempt(AttemptsOf(s, input.taskId)),
                                      input.runtime, input.now);
        if record.Err? then (s, Err(InvalidInput))
        else
          var parent := OneMorePending(next.value);
          var result := RetryResult(parent, record.value, false);
          (AddExecution(s, input.taskId, parent, record.value).(
             retries := s.retries[input.command := result],
             fingerprints := s.fingerprints[input.command := Fingerprint(input)]), Ok(result))
  }

  ghost function RetryTask(s: Store, input: RetryInput): (Store, Result<RetryResult, StoreError>)
    requires WellFormed(s)
  {
    if !RetryAccepted(input) then (s, Err(InvalidInput))
    else if input.command in s.retries then
      (s, if SameRetry(s, input) then Ok(s.retries[input.command].(replayed := true)) else Err(AlreadyExists))
    else FreshRetry(s, input)
  }

  // -------------------------------------------------------------- waitpoints

  function WaitpointKey(taskId: string, key: string): string { taskId + "\0" + key }

  /** The result says whether the waitpoint had been created before. */
  function CreateWaitpoint(s: Store, record: Waitpoint): (Store, Result<(Waitpoint, bool), StoreError>)
    requires WellFormed(s)
  {
    var identity := WaitpointKey(record.taskId, record.key);
    if record.taskId !in s.tasks then (s, Err(TaskMissing))
    else if identity in s.waitpointKeys then
      var prior := s.waitpoints[s.waitpointKeys[identity]];
      if prior.id != record.id || prior.kind != record.kind || prior.schema != record.schema
        || prior.deadline != record.deadline
      then (s, Err(WaitpointConflict)) else (s, Ok((prior, true)))
    else if record.id in s.waitpoints then (s, Err(AlreadyExists))
    else
      (s.(waitpoints := s.waitpoints[record.id := record],
          waitpointKeys := s.waitpointKeys[identity := record.id],
          tasks := s.tasks[record.taskId := Touched(s.tasks[record.taskId], record.updatedAt)]), Ok((record, false)))
  }

  /** What a Go map holds for a missing task. */
  const ZERO_TASK: Task :=
    TR.Task("", "", "", 0, TR.Pending, TR.NO_PROGRESS, TR.NO_COUNTS, "", TR.NotRequested, "", 0, ZERO_TIME, ZERO_TIME)

  function UpdateWaitpoint(s: Store, record: Waitpoint, expected: int): (Store, Result<Waitpoint, StoreError>) {
    if record.id !in s.waitpoints then (s, Err(WaitpointMissing))
    else
      var current := s.waitpoints[record.id];
      if record.version == expected && current.state == record.state && current.resolutionId == record.resolutionId
         && current.resolutionHash == record.resolutionHash && current.resolution == record.resolution
      then (s, Ok(current))
      else if current.version != expected || record.version != expected + 1 then (s, Err(VersionConflict))
      else
        var parent := if record.taskId in s.tasks then s.tasks[record.taskId] else ZERO_TASK;
        (s.(waitpoints := s.waitpoints[record.id := record],
            tasks := s.tasks[parent.id := Touched(parent, record.updatedAt)]), Ok(record))
  }
}
