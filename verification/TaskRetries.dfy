/**
 The retry command: when a task is queued again, what is stored then, and which later
 requests count as the same command.
 */
module TaskRetries {
  import opened Basics
  import TR = TaskRecords
  import ER = ExecutionRecords
  import opened Tasks
  import opened TaskRuns
  import opened TaskTheorems
  import opened TaskCommands

  // -------------------------------------------------------------- a new command

  /** The request names everything it needs, with a payload that is JSON. */
  ghost predicate WellStated(input: RetryInput) {
    && "" !in {input.command, input.taskId, input.executionId, input.runtime, input.queue, input.jobName, input.payload}
    && input.payloadIsJson && input.expected >= 1 && input.now != ZERO_TIME
  }

  /** The task may be queued again under the request's expectations. */
  ghost predicate Retryable(s: Store, input: RetryInput) {
    && input.taskId in s.tasks && input.executionId !in s.executions
    && s.tasks[input.taskId].version == input.expected && TR.TaskValid(s.tasks[input.taskId], input.now)
    && s.tasks[input.taskId].state in {TR.Pending, TR.Failed, TR.Cancelled}
    && Trim(input.taskId) != "" && Trim(input.runtime) != ""
  }

  /** The task as it goes back into the queue, with one more attempt to come. */
  function QueuedAgain(r: Task, now: Instant): Task {
    MovedTo(r, TR.Queued).(
      counts := r.counts.(total := r.counts.total + 1, pendingDispatch := r.counts.pendingDispatch + 1),
      version := r.version + 1, updatedAt := now)
  }

  ghost predicate FreshAttempt(s: Store, input: RetryInput, e: Execution) {
    && IsNextAttempt(AttemptsOf(s, input.taskId), e.attempt)
    && e == ER.Execution(input.executionId, Trim(input.taskId), e.attempt, Trim(input.runtime), "", "",
                         ER.Reference("", "", ""), ER.PendingDispatch, 1, input.now, input.now)
  }

  /** A command that was not seen before queues the task again exactly when the request is
      complete and the task may be retried. It stores the task, a fresh attempt under the
      next number and its own answer; a refused command stores nothing. */
  lemma RetryIsExact(s: Store, input: RetryInput)
    requires WellFormed(s) && input.command !in s.retries
    ensures var (s', result) := RetryTask(s, input);
            && (result.Ok? <==> WellStated(input) && Retryable(s, input))
            && (result.Err? ==> s' == s)
            && (result.Ok? ==>
                && result.value.task == QueuedAgain(s.tasks[input.taskId], input.now)
                && FreshAttempt(s, input, result.value.execution) && !result.value.replayed
                && s'.tasks == s.tasks[input.taskId := result.value.task]
                && s'.executions == s.executions[input.executionId := result.value.execution]
                && s'.attempts == s.attempts[input.taskId :=
                     AttemptsOf(s, input.taskId)[result.value.execution.attempt := input.executionId]]
                && s'.retries == s.retries[input.command := result.value])
  {
    hide Trim, NextAttempt, Fingerprint, TR.TaskValid, WellFormed;
    if RetryAccepted(input) && input.taskId in s.tasks {
      QueueingIsExact(s.tasks[input.taskId], input.now);
      hide TR.Transition;
    }
  }

  lemma QueueingIsExact(r: Task, now: Instant)
    ensures var next := TR.Transition(r, TR.Queued, now);
            && (next.Ok? <==> TR.TaskValid(r, now) && r.state in {TR.Pending, TR.Failed, TR.Cancelled})
            && (next.Ok? ==> OneMorePending(next.value) == QueuedAgain(r, now) && next.value.id == r.id)
  {
    hide TR.TaskValid;
  }

  // --------------------------------------------------------- the command again

  predicate Plain(text: string) { '\0' !in text }

  lemma SplitAtNul(a: string, x: string, b: string, y: string)
    requires Plain(a) && Plain(b) && a + "\0" + x == b + "\0" + y
    ensures a == b && x == y
  {
    var left, right := a + "\0" + x, b + "\0" + y;
    assert left[|a|] == '\0' && right[|b|] == '\0';
    assert left[..|a|] == a && right[..|b|] == b;
    assert left[|a| + 1..] == x && right[|b| + 1..] == y;
  }

  predicate PlainNames(input: RetryInput) { Plain(input.runtime) && Plain(input.queue) && Plain(input.jobName) }

  predicate SameWork(a: RetryInput, b: RetryInput) {
    a.runtime == b.runtime && a.queue == b.queue && a.jobName == b.jobName && a.payload == b.payload
  }

  /** Names without a NUL byte make the fingerprint tell any two pieces of work apart. */
  lemma FingerprintTellsApart(a: RetryInput, b: RetryInput)
    requires PlainNames(a) && PlainNames(b)
    ensures Fingerprint(a) == Fingerprint(b) <==> SameWork(a, b)
  {
    if Fingerprint(a) == Fingerprint(b) {
      var restA := a.queue + "\0" + (a.jobName + "\0" + a.payload);
      var restB := b.queue + "\0" + (b.jobName + "\0" + b.payload);
      assert Fingerprint(a) == a.runtime + "\0" + restA && Fingerprint(b) == b.runtime + "\0" + restB;
      SplitAtNul(a.runtime, restA, b.runtime, restB);
      SplitAtNul(a.queue, a.jobName + "\0" + a.payload, b.queue, b.jobName + "\0" + b.payload);
      SplitAtNul(a.jobName, a.payload, b.jobName, b.payload);
    }
  }

  /** Without that, two different pieces of work share a fingerprint. */
  lemma NulConfusesFingerprints(input: RetryInput, queue: string, middle: string, job: string)
    ensures var a := input.(queue := queue + "\0" + middle, jobName := job);
            var b := input.(queue := queue, jobName := middle + "\0" + job);
            Fingerprint(a) == Fingerprint(b) && !SameWork(a, b)
  {
    var a := input.(queue := queue + "\0" + middle, jobName := job);
    var b := input.(queue := queue, jobName := middle + "\0" + job);
    assert Fingerprint(a) == Fingerprint(b);
    assert |a.queue| > |b.queue|;
  }

  /** A command id is used for one request: after it went through, any later request under
      the same id for other work, another task or another execution is refused and changes
      nothing. */
  lemma CommandIdIsUsedOnce(w: World, input: RetryInput, steps: seq<Step>, again: RetryInput)
    requires WellFormed(w.store) && RetryTask(w.store, input).1.Ok? && input.command !in w.store.retries
    requires again.command == input.command && PlainNames(input) && PlainNames(again)
    requires again.taskId != input.taskId || again.executionId != input.executionId || !SameWork(input, again)
    ensures var s := RetryTask(w.store, input).0;
            && WellFormed(s)
            && var later := Run(w.(store := s), steps).store;
               RetryTask(later, again).0 == later && RetryTask(later, again).1.Err?
  {
    TakeKeepsWellFormed(w, Retry(input));
    var s := RetryTask(w.store, input).0;
    assert Take(w, Retry(input)).store == s;
    RetryIsFiled(w.store, input);
    RetriesAreForever(w.(store := s), steps, input.command);
    FingerprintTellsApart(input, again);
    hide Run, FreshRetry, Fingerprint, SameWork;
  }
}
