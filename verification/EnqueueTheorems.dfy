/** The idempotency index over whole runs, and the batch that is all or nothing. */
module EnqueueTheorems {
  import opened Basics
  import opened Jobs
  import opened JobRuns
  import opened JobTheorems
  import opened LaneTheorems

  // ---------------------------------------------------------------- batches

  /** Input `k` is refused when its turn comes. */
  ghost predicate RefusedAt(s: Store, inputs: seq<EnqueueInput>, k: nat)
    requires k < |inputs|
  {
    Jobs.Enqueue(EnqueueInOrder(s, inputs[..k]).0, inputs[k]).1.Err?
  }

  /** A batch either enqueues every input in order, with one id per input, or leaves
      the store exactly as it was; it fails exactly when its size or one of its inputs
      is refused. */
  lemma BatchIsAllOrNothing(s: Store, inputs: seq<EnqueueInput>)
    ensures var (after, ids) := Jobs.EnqueueBatch(s, inputs);
            && (ids.Err? ==> after == s)
            && (ids.Ok? ==> (after, ids) == EnqueueInOrder(s, inputs) && |ids.value| == |inputs|)
            && (ids.Err? <==>
                  || |inputs| == 0 || |inputs| > MAX_ENQUEUE_BATCH
                  || exists k | 0 <= k < |inputs| :: RefusedAt(s, inputs, k))
  {
    hide EnqueueInOrder, RefusedAt;
    InOrderSucceeds(s, inputs);
  }

  lemma RefusedInFront(s: Store, inputs: seq<EnqueueInput>, k: nat)
    requires k + 1 < |inputs|
    ensures RefusedAt(s, Front(inputs), k) <==> RefusedAt(s, inputs, k)
  {
    assert Front(inputs)[..k] == inputs[..k];
  }

  lemma RefusedLast(s: Store, inputs: seq<EnqueueInput>)
    requires inputs != []
    ensures RefusedAt(s, inputs, |inputs| - 1) <==>
            Jobs.Enqueue(EnqueueInOrder(s, Front(inputs)).0, Last(inputs)).1.Err?
  {
    assert inputs[..|inputs| - 1] == Front(inputs);
  }

  lemma {:induction false} InOrderSucceeds(s: Store, inputs: seq<EnqueueInput>)
    ensures var ids := EnqueueInOrder(s, inputs).1;
            && (ids.Ok? ==> |ids.value| == |inputs|)
            && (ids.Err? <==> exists k | 0 <= k < |inputs| :: RefusedAt(s, inputs, k))
  {
    if inputs != [] {
      hide Jobs.Enqueue, RefusedAt;
      InOrderSucceeds(s, Front(inputs));
      RefusedLast(s, inputs);
      forall k | 0 <= k < |inputs| - 1 ensures RefusedAt(s, Front(inputs), k) <==> RefusedAt(s, inputs, k) {
        RefusedInFront(s, inputs, k);
      }
    }
  }

  // ------------------------------------------------------------------ scopes

  /** Two different lanes share a scope for some pair of keys exactly when one lane,
      followed by the NUL separator, begins the other. */
  lemma ScopesCollide(a: string, b: string)
    requires a != b
    ensures (exists j, k :: j != "" && k != "" && Scope(a, j) == Scope(b, k)) <==> a + "\0" <= b || b + "\0" <= a
  {
    if j, k :| j != "" && k != "" && Scope(a, j) == Scope(b, k) {
      if |a| < |b| { CollisionNests(a, j, b, k); } else { CollisionNests(b, k, a, j); }
    }
    if a + "\0" <= b { NestingCollides(a, b); }
    if b + "\0" <= a { NestingCollides(b, a); }
  }

  lemma CollisionNests(a: string, j: string, b: string, k: string)
    requires a != b && |a| <= |b| && Scope(a, j) == Scope(b, k)
    ensures a + "\0" <= b
  {
    var s := Scope(a, j);
    assert s[..|a|] == a && s[|a|] == '\0';
    assert s[..|b|] == b;
    if |a| < |b| {
      assert b[..|a| + 1] == s[..|a| + 1] == a + "\0";
    }
  }

  lemma NestingCollides(a: string, b: string)
    requires a + "\0" <= b
    ensures exists j, k :: j != "" && k != "" && Scope(a, j) == Scope(b, k)
  {
    var rest := b[|a| + 1..];
    assert b == a + "\0" + rest;
    var j, k := rest + "\0" + "k", "k";
    assert Scope(a, j) == Scope(b, k);
  }

  lemma ScopeOfOneLane(lane: string, j: string, k: string)
    requires Scope(lane, j) == Scope(lane, k)
    ensures j == k
  {
    assert Scope(lane, j)[|lane| + 1..] == j && Scope(lane, k)[|lane| + 1..] == k;
  }

  // ------------------------------------------------------------------- index

  ghost predicate IndexEntryOk(s: Store, scope: string)
    requires scope in s.byIdem
  {
    var id := s.byIdem[scope];
    id in s.jobs && s.jobs[id].idempotencyKey != "" && Scope(s.jobs[id].lane, s.jobs[id].idempotencyKey) == scope
  }

  ghost predicate Indexed(s: Store, id: JobId)
    requires id in s.jobs
  {
    var scope := Scope(s.jobs[id].lane, s.jobs[id].idempotencyKey);
    scope in s.byIdem && s.byIdem[scope] == id
  }

  /** The index holds exactly the keyed jobs, each under its own scope; hence at most
      one job per scope. */
  ghost predicate IndexOk(s: Store) {
    && (forall scope | scope in s.byIdem :: IndexEntryOk(s, scope))
    && (forall id | id in s.jobs && s.jobs[id].idempotencyKey != "" :: Indexed(s, id))
  }

  /** What an enqueue that stores a job does to jobs and index. */
  ghost predicate Stored(s: Store, after: Store, job: Job) {
    && job.id !in s.jobs && after.jobs == s.jobs[job.id := job]
    && var scope := Scope(job.lane, job.idempotencyKey);
       if job.idempotencyKey == "" then after.byIdem == s.byIdem
       else scope !in s.byIdem && after.byIdem == s.byIdem[scope := job.id]
  }

  lemma EnqueueStores(s: Store, input: EnqueueInput)
    requires WellNamed(s)
    ensures var after := Jobs.Enqueue(s, input).0;
            after == s || (JobIdFor(s.nextID + 1) in after.jobs && Stored(s, after, after.jobs[JobIdFor(s.nextID + 1)]))
  {
    FreshId(s);
    hide Admit;
  }

  lemma StoringKeepsIndex(s: Store, after: Store, job: Job)
    requires IndexOk(s) && Stored(s, after, job)
    ensures IndexOk(after)
  {
    forall scope | scope in after.byIdem ensures IndexEntryOk(after, scope) {
      if scope in s.byIdem { assert IndexEntryOk(s, scope); }
    }
    forall other | other in after.jobs && after.jobs[other].idempotencyKey != "" ensures Indexed(after, other) {
      if other in s.jobs { assert Indexed(s, other); }
    }
  }

  lemma EnqueueKeepsIndex(s: Store, input: EnqueueInput)
    requires WellNamed(s) && IndexOk(s)
    ensures IndexOk(Jobs.Enqueue(s, input).0)
  {
    hide Jobs.Enqueue, IndexOk, Stored;
    EnqueueStores(s, input);
    var after := Jobs.Enqueue(s, input).0;
    if after != s { StoringKeepsIndex(s, after, after.jobs[JobIdFor(s.nextID + 1)]); }
  }

  lemma {:induction false} BatchKeepsIndex(s: Store, inputs: seq<EnqueueInput>)
    requires WellNamed(s) && IndexOk(s)
    ensures IndexOk(EnqueueInOrder(s, inputs).0)
  {
    if inputs != [] {
      BatchKeepsIndex(s, Front(inputs));
      BatchOnlyAdds(s, Front(inputs));
      EnqueueKeepsIndex(EnqueueInOrder(s, Front(inputs)).0, Last(inputs));
    }
  }

  /** Identity of a job: what no call on an existing job changes. */
  lemma StepKeepsIdentity(v: JobView, change: Change, w: JobView)
    requires Steps(v, change, w)
    ensures w.job.id == v.job.id && w.job.lane == v.job.lane && w.job.idempotencyKey == v.job.idempotencyKey
  {
  }

  lemma OthersKeepTheIndex(s: Store, op: Op)
    requires IdsMatch(s) && !op.Enqueue? && !op.EnqueueBatch?
    ensures Apply(s, op).byIdem == s.byIdem
  {
    hide LeaseAll, ReapAll, SettleWith, RequestCancel;
    match op
    case Claim(input) =>
      if ClaimAccepted(input) {
        SelectionIsLeasable(s, input);
        LeaseAllKeepsControls(s.(rates := SelectionOf(s, input).rates), SelectionOf(s, input).chosen, input);
      }
    case Renew(_, _, _) =>
    case Settle(lease, now, how) => SettleKeepsControls(s, lease, now, how);
    case Cancel(id) => CancelKeepsControls(s, id);
    case Reap(victims, now, budget, limit) =>
      if ReapsNow(s, op) { ReapAllKeepsControls(s, victims, now, CrashBudget(budget)); }
    case Replay(_, _) =>
    case Configure(_) =>
  }

  lemma ApplyKeepsIndex(s: Store, op: Op)
    requires WellNamed(s) && IndexOk(s)
    ensures IndexOk(Apply(s, op))
  {
    if op.Enqueue? {
      EnqueueKeepsIndex(s, op.input);
    } else if op.EnqueueBatch? {
      BatchKeepsIndex(s, op.inputs);
    } else {
      hide Apply, Steps;
      OthersKeepTheIndex(s, op);
      OthersKeepTheJobs(s, op);
      var after := Apply(s, op);
      forall id | id in s.jobs
        ensures after.jobs[id].lane == s.jobs[id].lane && after.jobs[id].idempotencyKey == s.jobs[id].idempotencyKey
      {
        var change := ApplyStep(s, op, id);
        StepKeepsIdentity(View(s, id), change, View(after, id));
      }
      assert forall scope | scope in s.byIdem :: IndexEntryOk(s, scope) ==> IndexEntryOk(after, scope);
      assert forall id | id in s.jobs && s.jobs[id].idempotencyKey != "" :: Indexed(s, id) ==> Indexed(after, id);
    }
  }

  /** In every reachable state the index is exact. */
  lemma {:induction false} IndexIsExact(ops: seq<Op>)
    ensures IndexOk(Reached(ops))
  {
    if ops != [] {
      hide IndexOk, Apply;
      IndexIsExact(Front(ops));
      ReachedStep(ops);
      ApplyKeepsIndex(Reached(Front(ops)), Last(ops));
    }
  }

  // -------------------------------------------------------------- repetition

  lemma {:induction false} BatchKeepsEntries(s: Store, inputs: seq<EnqueueInput>, scope: string)
    requires scope in s.byIdem
    ensures var after := EnqueueInOrder(s, inputs).0; scope in after.byIdem && after.byIdem[scope] == s.byIdem[scope]
  {
    if inputs != [] { BatchKeepsEntries(s, Front(inputs), scope); }
  }

  lemma {:induction false} EntriesAreForever(s: Store, ops: seq<Op>, scope: string)
    requires IdsMatch(s) && scope in s.byIdem
    ensures scope in Run(s, ops).byIdem && Run(s, ops).byIdem[scope] == s.byIdem[scope]
  {
    if ops != [] {
      EntriesAreForever(s, Front(ops), scope);
      var before, op := Run(s, Front(ops)), Last(ops);
      if op.EnqueueBatch? {
        BatchKeepsEntries(before, op.inputs, scope);
      } else if !op.Enqueue? {
        hide Apply;
        OthersKeepTheIndex(before, op);
      }
    }
  }

  /** Once a key was accepted, presenting it again on the same lane returns the first
      id and changes nothing, whatever happened to the job since. */
  lemma RepeatedKeyReturnsTheFirstId(s: Store, first: EnqueueInput, ops: seq<Op>, again: EnqueueInput)
    requires WellNamed(s) && first.idempotencyKey != "" && Jobs.Enqueue(s, first).1.Ok?
    requires Trim(again.lane) == Trim(first.lane) && again.idempotencyKey == first.idempotencyKey
    ensures var (stored, id) := Jobs.Enqueue(s, first);
            && IdsMatch(stored)
            && Jobs.Enqueue(Run(stored, ops), again) == (Run(stored, ops), id)
  {
    EnqueueOnlyAdds(s, first);
    EntriesAreForever(Jobs.Enqueue(s, first).0, ops, Scope(Trim(first.lane), first.idempotencyKey));
  }

  /** The job a repeated key resolves to carries that lane and that key, unless the two
      lanes are nested around a NUL byte. */
  lemma ReplayedJobIsTheRightOne(ops: seq<Op>, input: EnqueueInput)
    requires input.idempotencyKey != "" && Scope(Trim(input.lane), input.idempotencyKey) in Reached(ops).byIdem
    ensures var s := Reached(ops);
            var id := Jobs.Enqueue(s, input).1.value;
            && id in s.jobs
            && var job := s.jobs[id];
               var lane := Trim(input.lane);
               (job.lane == lane && job.idempotencyKey == input.idempotencyKey)
               <==> !(job.lane + "\0" <= lane || lane + "\0" <= job.lane)
  {
    IndexIsExact(ops);
    var s := Reached(ops);
    var lane := Trim(input.lane);
    var scope := Scope(lane, input.idempotencyKey);
    assert IndexEntryOk(s, scope);
    var job := s.jobs[s.byIdem[scope]];
    if job.lane == lane {
      ScopeOfOneLane(lane, job.idempotencyKey, input.idempotencyKey);
    } else {
      ScopesCollide(job.lane, lane);
    }
  }

  // ------------------------------------------------------------ lanes in use

  /** A lane that jobs can have. */
  predicate LaneOk(lane: string) { Trim(lane) == lane && 0 < |lane| <= MAX_IDENTITY_PART_BYTES }

  ghost predicate InputsOn(inputs: seq<EnqueueInput>, lanes: iset<string>) {
    forall i | 0 <= i < |inputs| :: Trim(inputs[i].lane) in lanes
  }

  /** The run enqueues on these lanes only. */
  ghost predicate EnqueuesOn(ops: seq<Op>, lanes: iset<string>) {
    forall i | 0 <= i < |ops| ::
      && (ops[i].Enqueue? ==> Trim(ops[i].input.lane) in lanes)
      && (ops[i].EnqueueBatch? ==> InputsOn(ops[i].inputs, lanes))
  }

  ghost predicate JobsOn(s: Store, lanes: iset<string>) {
    forall id | id in s.jobs :: s.jobs[id].lane in lanes && LaneOk(s.jobs[id].lane)
  }

  lemma EnqueueStaysOn(s: Store, input: EnqueueInput, lanes: iset<string>)
    requires WellNamed(s) && JobsOn(s, lanes) && Trim(input.lane) in lanes
    ensures JobsOn(Jobs.Enqueue(s, input).0, lanes)
  {
    TrimTwice(input.lane);
    hide Admit, Trim;
  }

  lemma {:induction false} BatchStaysOn(s: Store, inputs: seq<EnqueueInput>, lanes: iset<string>)
    requires WellNamed(s) && JobsOn(s, lanes) && InputsOn(inputs, lanes)
    ensures JobsOn(EnqueueInOrder(s, inputs).0, lanes)
  {
    if inputs != [] {
      assert forall i | 0 <= i < |Front(inputs)| :: Front(inputs)[i] == inputs[i];
      assert Last(inputs) == inputs[|inputs| - 1];
      BatchStaysOn(s, Front(inputs), lanes);
      BatchOnlyAdds(s, Front(inputs));
      EnqueueStaysOn(EnqueueInOrder(s, Front(inputs)).0, Last(inputs), lanes);
      hide Jobs.Enqueue, JobsOn;
    }
  }

  lemma ApplyStaysOn(s: Store, op: Op, lanes: iset<string>)
    requires WellNamed(s) && JobsOn(s, lanes) && EnqueuesOn([op], lanes)
    ensures JobsOn(Apply(s, op), lanes)
  {
    assert op == [op][0];
    if op.Enqueue? {
      EnqueueStaysOn(s, op.input, lanes);
    } else if op.EnqueueBatch? {
      BatchStaysOn(s, op.inputs, lanes);
    } else {
      hide Apply, Steps, LaneOk;
      OthersKeepTheJobs(s, op);
      forall id | id in s.jobs ensures Apply(s, op).jobs[id].lane == s.jobs[id].lane {
        var change := ApplyStep(s, op, id);
        StepKeepsIdentity(View(s, id), change, View(Apply(s, op), id));
      }
    }
  }

  lemma {:induction false} RunStaysOn(ops: seq<Op>, lanes: iset<string>)
    requires EnqueuesOn(ops, lanes)
    ensures JobsOn(Reached(ops), lanes)
  {
    if ops != [] {
      assert forall i | 0 <= i < |Front(ops)| :: Front(ops)[i] == ops[i];
      assert Last(ops) == ops[|ops| - 1] && EnqueuesOn([Last(ops)], lanes);
      RunStaysOn(Front(ops), lanes);
      ReachedStep(ops);
      hide Apply, JobsOn, Reached;
      ApplyStaysOn(Reached(Front(ops)), Last(ops), lanes);
    }
  }

  /** The job that an accepted enqueue answers with has the lane and the key asked for. */
  ghost predicate AnswersRight(s: Store, input: EnqueueInput) {
    var (after, id) := Jobs.Enqueue(s, input);
    id.Ok? ==>
      && id.value in after.jobs
      && after.jobs[id.value].lane == Trim(input.lane) && after.jobs[id.value].idempotencyKey == input.idempotencyKey
  }

  /** The one lane, followed by NUL, begins the other. */
  predicate Nested(a: string, b: string) { a + "\0" <= b || b + "\0" <= a }

  /** No lane that is asked for and no lane that jobs can have are nested around NUL. The
      index is asked before the lane is checked, so the first may be too long. */
  ghost predicate LanesApart(lanes: iset<string>) {
    forall a, b | a in lanes && b in lanes && Trim(a) == a && LaneOk(b) :: !Nested(a, b)
  }

  lemma NewJobIsRight(s: Store, input: EnqueueInput)
    requires input.idempotencyKey == "" || Scope(Trim(input.lane), input.idempotencyKey) !in s.byIdem
    ensures AnswersRight(s, input)
  {
    hide Admit, Trim;
  }

  lemma ApartLanesAnswerRight(ops: seq<Op>, input: EnqueueInput, lanes: iset<string>)
    requires EnqueuesOn(ops, lanes) && Trim(input.lane) in lanes && LanesApart(lanes)
    ensures AnswersRight(Reached(ops), input)
  {
    var s, lane := Reached(ops), Trim(input.lane);
    if input.idempotencyKey == "" || Scope(lane, input.idempotencyKey) !in s.byIdem { NewJobIsRight(s, input); }
    else {
      RunStaysOn(ops, lanes);
      ReplayedJobIsTheRightOne(ops, input);
      TrimTwice(input.lane);
      var job := s.jobs[Jobs.Enqueue(s, input).1.value];
      hide Reached, Trim, LaneOk;
      assert !Nested(lane, job.lane);
    }
  }

  function Keyed(lane: string, key: string): EnqueueInput { EnqueueInput(lane, "j", "", "", Some(0), key, 0, 0, 1) }

  /** Where two scopes coincide, a key presented on one lane gets the job of the other. */
  lemma NestedLaneGetsAnothersJob(a: string, j: string, b: string, k: string)
    requires Trim(a) == a != b && LaneOk(b) && j != "" && k != "" && Scope(a, j) == Scope(b, k)
    ensures var s := Reached([Enqueue(Keyed(b, k))]);
            var (after, id) := Jobs.Enqueue(s, Keyed(a, j));
            after == s && id.Ok? && id.value in s.jobs && s.jobs[id.value].lane == b
  {
    var first := Keyed(b, k);
    assert Front([Enqueue(first)]) == [];
    ReachedStep([Enqueue(first)]);
    assert Reached([]) == EMPTY_STORE;
    assert Trim("j") == "j" && Trim("") == "";
    hide Reached, Admit, Trim;
  }

  lemma WrongAnswer(a: string, j: string, b: string, k: string)
    requires Trim(a) == a != b && LaneOk(b) && j != "" && k != "" && Scope(a, j) == Scope(b, k)
    ensures !AnswersRight(Reached([Enqueue(Keyed(b, k))]), Keyed(a, j))
  {
    NestedLaneGetsAnothersJob(a, j, b, k);
    hide Reached, Jobs.Enqueue, Trim;
  }

  /** Every accepted enqueue, in all runs over a set of lanes, answers with a job of that
      lane and that key exactly if no two lanes of the set are nested around NUL. */
  lemma KeysNeedLanesApart(lanes: iset<string>)
    ensures (forall ops, input: EnqueueInput | EnqueuesOn(ops, lanes) && Trim(input.lane) in lanes ::
               AnswersRight(Reached(ops), input))
            <==> LanesApart(lanes)
  {
    hide Reached, AnswersRight, Trim, Nested;
    if LanesApart(lanes) {
      forall ops, input: EnqueueInput | EnqueuesOn(ops, lanes) && Trim(input.lane) in lanes
        ensures AnswersRight(Reached(ops), input)
      {
        ApartLanesAnswerRight(ops, input, lanes);
      }
    } else {
      var a, b :| a in lanes && b in lanes && Trim(a) == a && LaneOk(b) && Nested(a, b);
      var j, k := CollidingKeys(a, b);
      WrongAnswer(a, j, b, k);
      assert EnqueuesOn([Enqueue(Keyed(b, k))], lanes) && Trim(Keyed(a, j).lane) in lanes;
    }
  }

  lemma CollidingKeys(a: string, b: string) returns (j: string, k: string)
    requires Nested(a, b)
    ensures a != b && j != "" && k != "" && Scope(a, j) == Scope(b, k)
  {
    ScopesCollide(a, b);
    j, k :| j != "" && k != "" && Scope(a, j) == Scope(b, k);
  }
}
