// Results and stored statuses over whole runs in which no submission reuses an ID.
module Results {
  import opened Types
  import opened Protocol
  import opened Ownership
  import Server
  import Store

  type Job = Store.Job

  // The invariant

  predicate JobOK(job: Job) {
    match job.result
    case None => job.status in {Pending, Failed, Cancelled}
    case Some(r) => job.status == Store.StatusOf(r) || job.status == Cancelled
  }

  predicate Saved(stage: Stage) {
    stage.Completing? || stage.Releasing? || stage.Finished?
  }

  /** Before the result is saved there is none, and the scheduler does not call the task completed. */
  predicate Unsaved(job: Job, record: TaskRecord) {
    job.result == None && record.status != Completed
  }

  /** What job and task object look like while a handler or goroutine at `stage` holds the task. */
  predicate StageOK(stage: Stage, job: Job, record: TaskRecord) {
    && job.id == record.id
    && (!Saved(stage) ==> Unsaved(job, record))
    && (stage.OfSubmit() ==> job.status in {Pending, Cancelled})
    && (stage.Deciding? || stage.Exhausted? ==> job.status in {Failed, Cancelled})
    && (stage.Counting? || stage.Executing? ==> record.workerID == stage.node)
    && (stage.Saving? ==> stage.result.taskID == record.id && stage.result.workerID == record.workerID == stage.node)
    && (stage.Completing? ==> job.result == Some(stage.result))
    && (Saved(stage) ==> job.result.Some? && job.result.value.workerID == record.workerID)
    && (stage.Releasing? || stage.Finished? ==> record.status == Completed)
  }

  ghost predicate Known(s: State)
    requires s.WellFormed()
  {
    && (forall r :: r in s.schedule.objects ==> s.ID(r) in s.store.jobs)
    && (forall q, r :: q in s.schedule.objects && r in s.schedule.objects && s.ID(q) == s.ID(r) ==> q == r)
  }

  function JobOf(s: State, ref: Ref): Job
    requires ref in s.schedule.objects && s.ID(ref) in s.store.jobs
  {
    s.store.jobs[s.ID(ref)]
  }

  ghost predicate Recorded(s: State)
    requires s.WellFormed()
  {
    && Known(s)
    && Store.Agree(s.store)
    && (forall id :: id in s.store.jobs ==> JobOK(s.store.jobs[id]))
    && (forall k :: 0 <= k < |s.schedule.pending| ==>
          Unsaved(JobOf(s, s.schedule.pending[k]), s.schedule.objects[s.schedule.pending[k]]))
    && (forall t: nat, ref :: Holder(s, t, ref) ==>
          StageOK(s.threads[t].stage, JobOf(s, ref), s.schedule.objects[ref]))
  }

  // One step of a handler or goroutine

  function JobAfter(stage: Stage, job: Job): Job {
    match stage
    case Saving(_, result) => job.(result := Some(result), status := Store.StatusOf(result))
    case StoringFailure => job.(status := Failed)
    case _ => job
  }

  /** The stages from the reply of the worker on. */
  predicate Ending(stage: Stage) {
    stage.Executing? || stage.Saving? || Saved(stage)
  }

  ghost predicate StepOK(stage: Stage, job: Job, record: TaskRecord, input: Input, known: bool, room: bool) {
    var stage' := StageAfter(stage, record, input, known, room);
    var record' := RecordAfter(stage, record, input.now, known);
    var job' := JobAfter(stage, job);
    JobOK(job') && StageOK(stage', job', record') && (!stage'.Holds() ==> Unsaved(job', record'))
  }

  lemma SubmitStep(stage: Stage, job: Job, record: TaskRecord, input: Input, known: bool, room: bool)
    requires !stage.Rest() && StageOK(stage, job, record) && JobOK(job) && stage.OfSubmit()
    ensures StepOK(stage, job, record, input, known, room)
  {
  }

  lemma EndingStep(stage: Stage, job: Job, record: TaskRecord, input: Input, known: bool, room: bool)
    requires !stage.Rest() && StageOK(stage, job, record) && JobOK(job) && Ending(stage)
    ensures StepOK(stage, job, record, input, known, room)
  {
  }

  lemma DispatchStep(stage: Stage, job: Job, record: TaskRecord, input: Input, known: bool, room: bool)
    requires !stage.Rest() && StageOK(stage, job, record) && JobOK(job) && !stage.OfSubmit() && !Ending(stage)
    ensures StepOK(stage, job, record, input, known, room)
  {
  }

  /** One step of the holder, on its stage, its job and its task object alone. */
  lemma StageStep(stage: Stage, job: Job, record: TaskRecord, input: Input, known: bool, room: bool)
    requires !stage.Rest() && StageOK(stage, job, record) && JobOK(job)
    ensures StepOK(stage, job, record, input, known, room)
  {
    if stage.OfSubmit() {
      SubmitStep(stage, job, record, input, known, room);
    } else if Ending(stage) {
      EndingStep(stage, job, record, input, known, room);
    } else {
      DispatchStep(stage, job, record, input, known, room);
    }
  }

  /** A step writes to its own job only, and writes a result to both indexes. */
  lemma StoreWrite(store: Store.Records, id: string, stage: Stage)
    requires Store.Agree(store) && id in store.jobs && (stage.Saving? ==> stage.result.taskID == id)
    ensures StoreAfter(store, id, stage).jobs == store.jobs[id := JobAfter(stage, store.jobs[id])]
    ensures Store.Agree(StoreAfter(store, id, stage))
  {
  }

  lemma RecordedAdvance(s: State, t: nat, input: Input)
    requires s.WellFormed() && Owned(s) && Enabled(s, Advance(t, input)) && Recorded(s)
    ensures Recorded(AdvanceThread(s, t, input))
  {
    var own := s.threads[t].ref;
    var record := s.schedule.objects[own];
    assert Holder(s, t, own);
    StoreWrite(s.store, record.id, s.threads[t].stage);
    AdvanceRecord(s, t, input);
    AdvanceTouches(s, t, input);
    StillSole(s, t, input);
    StageStep(s.threads[t].stage, JobOf(s, own), record, input,
              record.id in s.schedule.tasks, s.schedule.HasRoom());
    RecordedMove(s, AdvanceThread(s, t, input), t);
  }

  /** A step of one thread, known only by its effect on that thread, its task object and its job. */
  ghost predicate Rewrites(s: State, s': State, t: nat)
    requires s.WellFormed() && s'.WellFormed() && t < |s.threads|
  {
    var own := s.threads[t].ref;
    && |s'.threads| == |s.threads|
    && s'.threads == s.threads[t := s'.threads[t]]
    && s'.threads[t].ref == own
    && SameIDs(s.schedule.objects, s'.schedule.objects)
    && s'.schedule.objects == s.schedule.objects[own := s'.schedule.objects[own]]
    && s.ID(own) in s'.store.jobs
    && s'.store.jobs == s.store.jobs[s.ID(own) := JobOf(s', own)]
    && (s'.schedule.pending == s.schedule.pending || s'.schedule.pending == s.schedule.pending + [own])
    && (forall u: nat :: Holder(s', u, own) ==> u == t)
  }

  lemma KnownMove(s: State, s': State, t: nat)
    requires s.WellFormed() && s'.WellFormed() && Known(s) && t < |s.threads| && Rewrites(s, s', t)
    ensures Known(s')
    ensures forall ref :: ref in s.schedule.objects && ref != s.threads[t].ref ==>
              s'.schedule.objects[ref] == s.schedule.objects[ref] && JobOf(s', ref) == JobOf(s, ref)
  {
  }

  lemma JobsMove(s: State, s': State, t: nat)
    requires s.WellFormed() && s'.WellFormed() && Recorded(s) && t < |s.threads| && Rewrites(s, s', t) && Known(s')
    requires s.ID(s.threads[t].ref) in s.store.jobs
    requires var own := s.threads[t].ref;
             && JobOK(JobOf(s', own))
             && (own in s'.schedule.pending ==> Unsaved(JobOf(s', own), s'.schedule.objects[own]))
    ensures forall id :: id in s'.store.jobs ==> JobOK(s'.store.jobs[id])
    ensures forall k :: 0 <= k < |s'.schedule.pending| ==>
              Unsaved(JobOf(s', s'.schedule.pending[k]), s'.schedule.objects[s'.schedule.pending[k]])
  {
    KnownMove(s, s', t);
    forall k | 0 <= k < |s'.schedule.pending| ensures s'.schedule.pending[k] in s.schedule.pending
                                                      || s'.schedule.pending[k] == s.threads[t].ref
    {
    }
  }

  lemma RecordedMove(s: State, s': State, t: nat)
    requires s.WellFormed() && s'.WellFormed() && Recorded(s) && t < |s.threads| && Rewrites(s, s', t)
    requires s.ID(s.threads[t].ref) in s.store.jobs && Store.Agree(s'.store)
    requires var own := s.threads[t].ref;
             && JobOK(JobOf(s', own))
             && (s'.threads[t].stage.Holds() ==>
                   StageOK(s'.threads[t].stage, JobOf(s', own), s'.schedule.objects[own]))
             && (own in s'.schedule.pending ==> Unsaved(JobOf(s', own), s'.schedule.objects[own]))
    ensures Recorded(s')
  {
    KnownMove(s, s', t);
    JobsMove(s, s', t);
    forall u: nat, ref | Holder(s', u, ref)
      ensures StageOK(s'.threads[u].stage, JobOf(s', ref), s'.schedule.objects[ref])
    {
      if u != t {
        assert Holder(s, u, ref);
      }
    }
  }

  /** The new task's job, object and thread are added; all else stays. */
  ghost predicate Adds(s: State, s': State, ref: Ref, job: Job) {
    && s.WellFormed() && s'.WellFormed()
    && ref !in s.schedule.objects && job.id !in s.store.jobs
    && job.status == Pending && job.result == None
    && s'.schedule == s.schedule.Set(ref, NewTask(job.id))
    && s'.store == s.store.SaveJob(job)
    && s'.threads == s.threads + [Thread(ref, Inserting)]
  }

  lemma KnownAdd(s: State, s': State, ref: Ref, job: Job)
    requires Adds(s, s', ref, job) && Recorded(s)
    ensures Known(s') && Store.Agree(s'.store)
  {
  }

  lemma RecordedAdd(s: State, s': State, ref: Ref, job: Job)
    requires Adds(s, s', ref, job) && Recorded(s)
    ensures Recorded(s')
  {
    KnownAdd(s, s', ref, job);
    forall u: nat, r | Holder(s', u, r)
      ensures StageOK(s'.threads[u].stage, JobOf(s', r), s'.schedule.objects[r])
    {
      assert Holder(s, u, r) || (u == |s.threads| && r == ref);
    }
  }

  lemma PendingDequeue(s: State)
    requires s.WellFormed() && Enabled(s, Dequeue) && Recorded(s)
    ensures var s' := Apply(s, Dequeue);
            && Known(s')
            && forall k :: 0 <= k < |s'.schedule.pending| ==>
                 Unsaved(JobOf(s', s'.schedule.pending[k]), s'.schedule.objects[s'.schedule.pending[k]])
  {
  }

  lemma RecordedDequeue(s: State)
    requires s.WellFormed() && Enabled(s, Dequeue) && Recorded(s)
    requires forall k :: 0 <= k < |s.schedule.pending| ==> Tracked(s, s.schedule.pending[k])
    ensures Recorded(Apply(s, Dequeue))
  {
    var s' := Apply(s, Dequeue);
    var head := s.schedule.pending[0];
    PendingDequeue(s);
    forall u: nat, ref | Holder(s', u, ref)
      ensures Holder(s, u, ref) || (ref == head && s'.threads[u].stage.Picking?)
    {
    }
    assert s.store.jobs[s.ID(head)].id == s.ID(head);
  }

  lemma RecordedCancel(s: State, id: string)
    requires s.WellFormed() && Enabled(s, CancelWrite(id)) && Recorded(s)
    ensures Recorded(Apply(s, CancelWrite(id)))
  {
    var s' := Apply(s, CancelWrite(id));
    forall u: nat, ref | Holder(s', u, ref) ensures Holder(s, u, ref) {}
  }

  lemma RecordedSame(s: State, s': State)
    requires s.WellFormed() && s'.WellFormed() && Recorded(s)
    requires s'.store == s.store && s'.schedule == s.schedule && s'.threads == s.threads
    ensures Recorded(s')
  {
    forall u: nat, ref | Holder(s', u, ref) ensures Holder(s, u, ref) {}
  }

  lemma RecordedElsewhere(s: State, a: Action)
    requires s.WellFormed() && Owned(s) && Enabled(s, a) && !a.Advance? && Recorded(s)
    requires a.Submit? ==> a.id !in s.store.jobs
    ensures Recorded(Apply(s, a))
  {
    if a.Submit? {
      RecordedAdd(s, Apply(s, a), a.ref, Store.Job(a.id, a.now, Pending, None));
    } else if a.Dequeue? {
      RecordedDequeue(s);
    } else if a.CancelWrite? {
      RecordedCancel(s, a.id);
    } else {
      RecordedSame(s, Apply(s, a));
    }
  }

  lemma {:induction false} RecordedAlways(tr: Trace)
    requires Valid(tr) && FreshIDs(tr)
    ensures Recorded(End(tr))
  {
    if tr.Then? {
      RecordedAlways(tr.past);
      OwnedAlways(tr.past);
      if tr.last.Advance? {
        RecordedAdvance(End(tr.past), tr.last.t, tr.last.input);
      } else {
        RecordedElsewhere(End(tr.past), tr.last);
      }
    }
  }

  // At most one result

  ghost predicate IsSave(s: State, a: Action, id: string) {
    a.Advance? && a.t < |s.threads| && s.threads[a.t].stage.Saving? && s.threads[a.t].stage.result.taskID == id
  }

  /** How many results the run has saved under this ID. */
  ghost function Saves(tr: Trace, id: string): nat
    requires Valid(tr)
  {
    if tr.Start? then 0 else Saves(tr.past, id) + if IsSave(End(tr.past), tr.last, id) then 1 else 0
  }

  /** A goroutine that saves has the right ID, and finds no result under it yet. */
  lemma SaverIsFirst(s: State, t: nat)
    requires s.WellFormed() && Recorded(s) && t < |s.threads| && !s.threads[t].stage.Rest()
    ensures var stage := s.threads[t].stage;
            && (stage.Saving? ==> stage.result.taskID == s.ID(s.threads[t].ref))
            && (!Saved(stage) ==> s.ID(s.threads[t].ref) !in s.store.results)
  {
    assert Holder(s, t, s.threads[t].ref);
  }

  lemma ResultsAfter(store: Store.Records, own: string, stage: Stage, id: string)
    ensures var results, results' := store.results, StoreAfter(store, own, stage).results;
            var saves := stage.Saving? && stage.result.taskID == id;
            && (id in results' <==> id in results || saves)
            && (id in results && !saves ==> results'[id] == results[id])
  {
  }

  lemma ResultsElsewhere(s: State, a: Action)
    requires s.WellFormed() && Enabled(s, a) && !a.Advance?
    ensures Apply(s, a).store.results == s.store.results
  {
  }

  /** Results are only added, each at most once, and by the one goroutine that holds the task. */
  lemma ResultStep(s: State, a: Action, id: string)
    requires s.WellFormed() && Owned(s) && Recorded(s) && Enabled(s, a)
    ensures var results' := Apply(s, a).store.results;
            && (id in results' <==> id in s.store.results || IsSave(s, a, id))
            && (id in s.store.results ==> !IsSave(s, a, id) && results'[id] == s.store.results[id])
  {
    if a.Advance? {
      SaverIsFirst(s, a.t);
      ResultsAfter(s.store, s.ID(s.threads[a.t].ref), s.threads[a.t].stage, id);
    } else {
      ResultsElsewhere(s, a);
    }
  }

  /** At most one result per job in any run. */
  lemma {:induction false} AtMostOneResult(tr: Trace, id: string)
    requires Valid(tr) && FreshIDs(tr)
    ensures Saves(tr, id) == if id in End(tr).store.results then 1 else 0
  {
    if tr.Then? {
      AtMostOneResult(tr.past, id);
      OwnedAlways(tr.past);
      RecordedAlways(tr.past);
      ResultStep(End(tr.past), tr.last, id);
    }
  }

  /** Both indexes always agree, and only four statuses ever occur in the store. */
  lemma StoreAgrees(tr: Trace)
    requires Valid(tr) && FreshIDs(tr)
    ensures Store.Agree(End(tr).store)
    ensures forall id :: id in End(tr).store.jobs ==>
              End(tr).store.jobs[id].status in {Pending, Completed, Failed, Cancelled}
  {
    RecordedAlways(tr);
    forall id | id in End(tr).store.jobs
      ensures End(tr).store.jobs[id].status in {Pending, Completed, Failed, Cancelled}
    {
      assert JobOK(End(tr).store.jobs[id]);
    }
  }

  /** Once set, a result is never replaced or lost, in either index. */
  lemma {:induction false} ResultIsFinal(early: Trace, late: Trace, id: string)
    requires Valid(late) && FreshIDs(late) && Prefix(early, late) && Valid(early)
    requires id in End(early).store.results
    ensures id in End(late).store.results && End(late).store.results[id] == End(early).store.results[id]
    ensures id in End(late).store.jobs && End(late).store.jobs[id].result == Some(End(early).store.results[id])
  {
    StoreAgrees(late);
    if early != late {
      ResultIsFinal(early, late.past, id);
      OwnedAlways(late.past);
      RecordedAlways(late.past);
      ResultStep(End(late.past), late.last, id);
    }
  }

  /** A stored status of completed means a recorded success. */
  lemma CompletedMeansSuccess(tr: Trace, id: string)
    requires Valid(tr) && FreshIDs(tr)
    requires id in End(tr).store.jobs && End(tr).store.jobs[id].status == Completed
    ensures id in End(tr).store.results && End(tr).store.results[id].IsSuccess()
  {
    RecordedAlways(tr);
    assert JobOK(End(tr).store.jobs[id]);
  }

  lemma TaskAndResult(s: State, ref: Ref)
    requires s.WellFormed() && Owned(s) && Recorded(s) && ref in s.schedule.objects
    ensures s.schedule.objects[ref].status == Completed ==> s.ID(ref) in s.store.results
    ensures s.ID(ref) in s.store.results ==>
              s.store.results[s.ID(ref)].workerID == s.schedule.objects[ref].workerID
  {
    if ref !in s.schedule.pending {
      var t: nat :| Holder(s, t, ref);
    }
  }

  /** The scheduler's completed means a recorded result, success or not; and a recorded result names the
      worker the task ended on. */
  lemma SchedulerAndStore(tr: Trace, ref: Ref)
    requires Valid(tr) && FreshIDs(tr) && ref in End(tr).schedule.objects
    ensures End(tr).schedule.objects[ref].status == Completed ==> End(tr).ID(ref) in End(tr).store.results
    ensures End(tr).ID(ref) in End(tr).store.results ==>
              End(tr).store.results[End(tr).ID(ref)].workerID == End(tr).schedule.objects[ref].workerID
  {
    OwnedAlways(tr);
    RecordedAlways(tr);
    TaskAndResult(End(tr), ref);
  }

  /** Tasks that come to rest without a result: a rejected submission leaves its job behind, pending for
      ever unless it is cancelled; a task out of retries is failed or cancelled. */
  lemma JobsWithoutResult(tr: Trace, t: nat)
    requires Valid(tr) && FreshIDs(tr) && t < |End(tr).threads|
    requires var stage := End(tr).threads[t].stage; stage.Rejected? || stage.Exhausted? || stage.Dropped?
    ensures var s := End(tr);
            var id := s.ID(s.threads[t].ref);
            && id in s.store.jobs && id !in s.store.results
            && (s.threads[t].stage.Rejected? ==> s.store.jobs[id].status in {Pending, Cancelled})
            && (s.threads[t].stage.Exhausted? ==> s.store.jobs[id].status in {Failed, Cancelled})
  {
    RecordedAlways(tr);
    HeldJob(End(tr), t);
  }

  lemma HeldJob(s: State, t: nat)
    requires s.WellFormed() && Recorded(s) && t < |s.threads| && s.threads[t].stage.Holds()
    ensures var ref := s.threads[t].ref;
            && s.ID(ref) in s.store.jobs
            && StageOK(s.threads[t].stage, JobOf(s, ref), s.schedule.objects[ref])
            && (s.ID(ref) in s.store.results <==> JobOf(s, ref).result.Some?)
  {
    assert Holder(s, t, s.threads[t].ref);
  }

  /** Fresh IDs are needed: a submission keeps the indexes in agreement exactly when its ID has no result yet;
      otherwise the new job hides the recorded result. */
  lemma ReusedIDHidesResult(s: State, a: Action)
    requires s.WellFormed() && Enabled(s, a) && a.Submit? && Store.Agree(s.store)
    ensures Store.Agree(Apply(s, a).store) <==> a.id !in s.store.results
  {
    var store' := Apply(s, a).store;
    assert store'.jobs[a.id].result == None && store'.results == s.store.results;
    if a.id !in s.store.results {
      assert forall id :: id in store'.jobs ==>
          id == a.id || (id in s.store.jobs && store'.jobs[id] == s.store.jobs[id]);
    }
  }

  // Where a result comes from

  /** The result status that each reply stands for; an unknown reply counts as a failure. */
  predicate Means(reply: ExecutionStatus, status: ResultStatus) {
    match status
    case ResultSuccess => reply == ExecSuccess
    case ResultTimeout => reply == ExecTimeout
    case ResultCancelled => reply == ExecCancelled
    case ResultFailure => reply == ExecFailure || reply == ExecUnspecified
  }

  predicate Carries(r: Result, node: string, reply: Response) {
    && r.workerID == node && Means(reply.status, r.status)
    && r.output == reply.output && r.exitCode == reply.exitCode && r.error == reply.error
  }

  /** The worker that executes the task with this ID answers, at this moment, what the result says. */
  ghost predicate Answers(s: State, a: Action, id: string, r: Result) {
    && a.Advance? && a.t < |s.threads| && s.threads[a.t].stage.Executing?
    && s.threads[a.t].ref in s.schedule.objects && s.ID(s.threads[a.t].ref) == id
    && a.input.reply.Some? && Carries(r, s.threads[a.t].stage.node, a.input.reply.value)
    && r.completedAt == a.input.now
  }

  ghost predicate Answered(tr: Trace, id: string, r: Result)
    requires Valid(tr)
  {
    tr.Then? && (Answered(tr.past, id, r) || Answers(End(tr.past), tr.last, id, r))
  }

  ghost predicate CarriedBy(s: State, t: nat, r: Result) {
    t < |s.threads| && s.threads[t].stage.Saving? && s.threads[t].stage.result == r
  }

  lemma AnswerStep(s: State, a: Action, id: string, r: Result)
    requires s.WellFormed() && Enabled(s, a) && r.taskID == id
    ensures forall t: nat :: CarriedBy(Apply(s, a), t, r) ==> CarriedBy(s, t, r) || Answers(s, a, id, r)
    ensures id in Apply(s, a).store.results && Apply(s, a).store.results[id] == r ==>
              || (id in s.store.results && s.store.results[id] == r)
              || (a.Advance? && CarriedBy(s, a.t, r))
  {
    if a.Advance? {
      ResultWritten(s.store, s.ID(s.threads[a.t].ref), s.threads[a.t].stage, id);
      AnswerAdvance(s, a.t, a.input, id, r);
    } else {
      ResultsElsewhere(s, a);
    }
  }

  lemma AnswerAdvance(s: State, t: nat, input: Input, id: string, r: Result)
    requires s.WellFormed() && Enabled(s, Advance(t, input)) && r.taskID == id
    ensures NextStage(s, t, input).Saving? && NextStage(s, t, input).result == r ==>
              Answers(s, Advance(t, input), id, r)
  {
  }

  lemma ResultWritten(store: Store.Records, own: string, stage: Stage, id: string)
    ensures var results' := StoreAfter(store, own, stage).results;
            id in results' ==>
              || (id in store.results && results'[id] == store.results[id])
              || (stage.Saving? && stage.result == results'[id])
  {
  }

  lemma {:induction false} AnsweredAlways(tr: Trace, id: string, r: Result)
    requires Valid(tr) && r.taskID == id
    ensures id in End(tr).store.results && End(tr).store.results[id] == r ==> Answered(tr, id, r)
    ensures forall t: nat :: CarriedBy(End(tr), t, r) ==> Answered(tr, id, r)
  {
    if tr.Then? {
      AnsweredAlways(tr.past, id, r);
      if !Answers(End(tr.past), tr.last, id, r) {
        AnswerStep(End(tr.past), tr.last, id, r);
      }
    }
  }

  /** Every recorded result is the answer that a worker gave to the call for this very task: its status, output,
      exit code and error text, under the worker's ID and the time of the answer. */
  lemma ResultWasReported(tr: Trace, id: string)
    requires Valid(tr) && id in End(tr).store.results
    ensures Answered(tr, id, End(tr).store.results[id])
  {
    FiledUnderID(tr, id);
    AnsweredAlways(tr, id, End(tr).store.results[id]);
  }

  /** What a client reads from GetStatus about a job with a result is the worker's answer. */
  lemma ClientReadsTheAnswer(tr: Trace, id: string)
    requires Valid(tr) && FreshIDs(tr) && id in End(tr).store.results && id in End(tr).store.jobs
    ensures var reply := Server.ReportOf(End(tr).store.jobs[id]);
            && reply.Report? && reply.jobID == id && reply.completedAt.Some?
            && Answered(tr, id, Result(id, End(tr).store.results[id].status, reply.output, reply.exitCode, reply.error,
                                       reply.workerID, reply.completedAt.value))
  {
    StoreAgrees(tr);
    FiledUnderID(tr, id);
    ResultWasReported(tr, id);
  }

  lemma {:induction false} FiledUnderID(tr: Trace, id: string)
    requires Valid(tr) && id in End(tr).store.results
    ensures End(tr).store.results[id].taskID == id
  {
    var s, a := End(tr.past), tr.last;
    if id in s.store.results {
      FiledUnderID(tr.past, id);
    }
    if a.Advance? {
      ResultFiled(s.store, s.ID(s.threads[a.t].ref), s.threads[a.t].stage, id);
    } else {
      ResultsElsewhere(s, a);
    }
  }

  lemma ResultFiled(store: Store.Records, own: string, stage: Stage, id: string)
    requires id in StoreAfter(store, own, stage).results
    requires id in store.results ==> store.results[id].taskID == id
    ensures StoreAfter(store, own, stage).results[id].taskID == id
  {
  }

  /** A worker answers the call for this task with success. */
  ghost predicate ReportsSuccess(s: State, a: Action, id: string) {
    && a.Advance? && a.t < |s.threads| && s.threads[a.t].stage.Executing?
    && s.threads[a.t].ref in s.schedule.objects && s.ID(s.threads[a.t].ref) == id
    && a.input.reply.Some? && a.input.reply.value.status == ExecSuccess
  }

  ghost predicate Reported(tr: Trace, id: string)
    requires Valid(tr)
  {
    tr.Then? && (Reported(tr.past, id) || ReportsSuccess(End(tr.past), tr.last, id))
  }

  lemma {:induction false} SuccessAnswered(tr: Trace, id: string, r: Result)
    requires Valid(tr) && Answered(tr, id, r) && r.IsSuccess()
    ensures Reported(tr, id)
  {
    if Answered(tr.past, id, r) {
      SuccessAnswered(tr.past, id, r);
    }
  }

  ghost predicate HasSuccess(s: State, id: string) {
    id in s.store.results && s.store.results[id].IsSuccess()
  }

  /** A recorded success goes back to a worker that answered the call for this very task with success. */
  lemma SuccessWasReported(tr: Trace, id: string)
    requires Valid(tr)
    ensures HasSuccess(End(tr), id) ==> Reported(tr, id)
  {
    if HasSuccess(End(tr), id) {
      FiledUnderID(tr, id);
      AnsweredAlways(tr, id, End(tr).store.results[id]);
      SuccessAnswered(tr, id, End(tr).store.results[id]);
    }
  }

  // When a job was created

  /** The time of the last submission under this ID. */
  ghost function SubmittedAt(tr: Trace, id: string): Option<int> {
    if tr.Start? then None
    else if tr.last.Submit? && tr.last.id == id then Some(tr.last.now)
    else SubmittedAt(tr.past, id)
  }

  lemma CreationStep(s: State, a: Action, id: string)
    requires s.WellFormed() && Enabled(s, a) && id in Apply(s, a).store.jobs
    ensures a.Submit? && a.id == id ==> Apply(s, a).store.jobs[id].createdAt == a.now
    ensures !(a.Submit? && a.id == id) ==>
              id in s.store.jobs && Apply(s, a).store.jobs[id].createdAt == s.store.jobs[id].createdAt
  {
  }

  /** No write to a job touches its creation time. */
  lemma {:induction false} CreationTimeIsKept(tr: Trace, id: string)
    requires Valid(tr) && id in End(tr).store.jobs
    ensures SubmittedAt(tr, id) == Some(End(tr).store.jobs[id].createdAt)
  {
    CreationStep(End(tr.past), tr.last, id);
    if !(tr.last.Submit? && tr.last.id == id) {
      CreationTimeIsKept(tr.past, id);
    }
  }

  // Cancellation against results

  /** Some Cancel call wrote its status after the job's result was there. */
  ghost predicate LateCancel(tr: Trace, id: string)
    requires Valid(tr)
  {
    tr.Then? && (LateCancel(tr.past, id) || (tr.last == CancelWrite(id) && id in End(tr.past).store.results))
  }

  lemma StatusElsewhere(s: State, a: Action, id: string)
    requires s.WellFormed() && Recorded(s) && Enabled(s, a) && !a.Advance?
    requires a.Submit? ==> a.id !in s.store.jobs
    requires id in s.store.results
    ensures id in Apply(s, a).store.jobs
    ensures Apply(s, a).store.jobs[id].status == if a == CancelWrite(id) then Cancelled else s.store.jobs[id].status
  {
  }

  /** What a step writes over the status of a known job. */
  lemma StatusAfter(store: Store.Records, own: string, stage: Stage, id: string)
    ensures var jobs, jobs' := store.jobs, StoreAfter(store, own, stage).jobs;
            && (id in jobs' <==> id in jobs)
            && (id in jobs ==>
                  jobs'[id].status == if stage.Saving? && stage.result.taskID == id then Store.StatusOf(stage.result)
                                      else if stage.StoringFailure? && own == id then Failed
                                      else jobs[id].status)
  {
  }

  lemma StatusAdvance(s: State, t: nat, input: Input, id: string)
    requires s.WellFormed() && Recorded(s) && t < |s.threads| && !s.threads[t].stage.Rest()
    ensures var jobs, jobs' := s.store.jobs, AdvanceThread(s, t, input).store.jobs;
            && (id in s.store.results ==> id in jobs' && jobs'[id].status == jobs[id].status)
            && (IsSave(s, Advance(t, input), id) ==>
                  id in jobs' && jobs'[id].status == Store.StatusOf(s.threads[t].stage.result))
            && (IsSave(s, Advance(t, input), id) ==>
                  id in AdvanceThread(s, t, input).store.results
                  && AdvanceThread(s, t, input).store.results[id] == s.threads[t].stage.result)
  {
    SaverIsFirst(s, t);
    StatusAfter(s.store, s.ID(s.threads[t].ref), s.threads[t].stage, id);
    ResultsAfter(s.store, s.ID(s.threads[t].ref), s.threads[t].stage, id);
  }

  /** Once a result is recorded the job's status matches it for ever, unless a Cancel that read the status
      before the result came writes afterwards; then, and only then, the status is cancelled. */
  lemma {:induction false} StatusMatchesUnlessLateCancel(tr: Trace, id: string)
    requires Valid(tr) && FreshIDs(tr)
    ensures id !in End(tr).store.results ==> !LateCancel(tr, id)
    ensures id in End(tr).store.results ==>
              && id in End(tr).store.jobs
              && (End(tr).store.jobs[id].status == Store.StatusOf(End(tr).store.results[id]) <==> !LateCancel(tr, id))
              && (End(tr).store.jobs[id].status == Cancelled <==> LateCancel(tr, id))
  {
    if tr.Then? {
      StatusMatchesUnlessLateCancel(tr.past, id);
      OwnedAlways(tr.past);
      RecordedAlways(tr.past);
      ResultStep(End(tr.past), tr.last, id);
      if tr.last.Advance? {
        StatusAdvance(End(tr.past), tr.last.t, tr.last.input, id);
      } else if id in End(tr.past).store.results {
        StatusElsewhere(End(tr.past), tr.last, id);
      }
    }
  }

  /** Every Cancel call that is going to write does so in the very next step. */
  ghost predicate AtomicCancels(tr: Trace)
    requires Valid(tr)
  {
    tr.Then? ==> AtomicCancels(tr.past) && (End(tr.past).cancels != multiset{} ==> tr.last.CancelWrite?)
  }

  lemma CancelsElsewhere(s: State, a: Action)
    requires s.WellFormed() && Enabled(s, a) && !a.CancelRead? && !a.CancelWrite?
    ensures Apply(s, a).cancels == s.cancels
  {
  }

  lemma CancelStep(s: State, a: Action)
    requires s.WellFormed() && Recorded(s) && Enabled(s, a)
    requires forall id :: id in s.cancels ==> id !in s.store.results
    requires s.cancels != multiset{} ==> a.CancelWrite?
    ensures forall id :: id in Apply(s, a).cancels ==> id !in Apply(s, a).store.results
  {
    if a.CancelRead? {
      assert JobOK(s.store.jobs[a.id]);
    } else if !a.CancelWrite? {
      CancelsElsewhere(s, a);
    }
  }

  lemma {:induction false} NoLateCancelWhenAtomic(tr: Trace, id: string)
    requires Valid(tr) && FreshIDs(tr) && AtomicCancels(tr)
    ensures !LateCancel(tr, id)
    ensures forall x :: x in End(tr).cancels ==> x !in End(tr).store.results
  {
    if tr.Then? {
      NoLateCancelWhenAtomic(tr.past, id);
      OwnedAlways(tr.past);
      RecordedAlways(tr.past);
      CancelStep(End(tr.past), tr.last);
    }
  }

  /** If Cancel were one step, a recorded result would fix the status for good. */
  lemma AtomicCancelKeepsStatus(tr: Trace, id: string)
    requires Valid(tr) && FreshIDs(tr) && AtomicCancels(tr) && id in End(tr).store.results
    ensures id in End(tr).store.jobs
    ensures End(tr).store.jobs[id].status == Store.StatusOf(End(tr).store.results[id])
  {
    StatusMatchesUnlessLateCancel(tr, id);
    NoLateCancelWhenAtomic(tr, id);
  }
}
