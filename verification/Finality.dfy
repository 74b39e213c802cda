// When a polled status is final: for each decided status, exactly the states from which no run changes it.
module Finality {
  import opened Types
  import opened Protocol
  import opened Ownership
  import opened Retries
  import opened Results
  import opened Cancellation
  import opened Outcomes
  import opened Scenarios
  import Registry
  import Store

  ghost predicate Shows(s: State, id: string, status: TaskStatus) {
    id in s.store.jobs && s.store.jobs[id].status == status
  }

  /** No longer run shows any other status. */
  ghost predicate Final(tr: Trace, id: string, status: TaskStatus)
    requires Valid(tr)
  {
    forall late | Prefix(tr, late) && Valid(late) && FreshIDs(late) :: Shows(End(late), id, status)
  }

  // A failure that stays

  /** The present attempt is the last one, and can only end in failure. */
  predicate ConcludedAt(stage: Stage, record: TaskRecord) {
    match stage
    case Uncounting(_) => record.retries >= record.maxRetries
    case Failing => record.retries >= record.maxRetries
    case StoringFailure => record.retries >= record.maxRetries
    case Deciding => record.retries >= record.maxRetries
    case Saving(_, result) => !result.IsSuccess()
    case Completing(_, _) => true
    case Releasing(_) => true
    case _ => stage.Rest()
  }

  ghost predicate Concluded(s: State, t: nat, id: string) {
    && t < |s.threads| && s.threads[t].ref in s.schedule.objects && s.ID(s.threads[t].ref) == id
    && s.threads[t].stage.Holds() && ConcludedAt(s.threads[t].stage, s.schedule.objects[s.threads[t].ref])
  }

  lemma ConcludedStage(stage: Stage, record: TaskRecord, input: Input, known: bool, room: bool)
    requires !stage.Rest() && ConcludedAt(stage, record)
    ensures var stage' := StageAfter(stage, record, input, known, room);
            stage'.Holds() && ConcludedAt(stage', RecordAfter(stage, record, input.now, known))
  {
  }

  lemma ConcludedOwn(s: State, t: nat, input: Input, id: string)
    requires s.WellFormed() && Owned(s) && Enabled(s, Advance(t, input)) && Concluded(s, t, id)
    ensures Concluded(AdvanceThread(s, t, input), t, id)
  {
    var record := s.schedule.objects[s.threads[t].ref];
    AdvanceRecord(s, t, input);
    ConcludedStage(s.threads[t].stage, record, input, record.id in s.schedule.tasks, s.schedule.HasRoom());
  }

  lemma ConcludedOthers(s: State, a: Action, t: nat, id: string)
    requires s.WellFormed() && Owned(s) && Enabled(s, a) && Concluded(s, t, id)
    requires a.Advance? ==> a.t != t
    ensures Concluded(Apply(s, a), t, id)
  {
    assert Holder(s, t, s.threads[t].ref);
    if a.Advance? {
      assert Holder(s, a.t, s.threads[a.t].ref);
      AdvanceRecord(s, a.t, a.input);
    }
  }

  /** Nobody stores anything but a failure for a concluded task. */
  lemma FailureStays(s: State, a: Action, t: nat, id: string)
    requires s.WellFormed() && Owned(s) && Recorded(s) && Enabled(s, a) && (a.Submit? ==> a.id !in s.store.jobs)
    requires Concluded(s, t, id) && Shows(s, id, Failed) && id !in s.cancels
    ensures Shows(Apply(s, a), id, Failed) && id !in Apply(s, a).cancels
  {
    assert Holder(s, t, s.threads[t].ref);
    if a.Advance? {
      HeldJob(s, a.t);
      assert Holder(s, a.t, s.threads[a.t].ref);
      StatusAfter(s.store, s.ID(s.threads[a.t].ref), s.threads[a.t].stage, id);
    }
  }

  lemma ConcludedStep(s: State, a: Action, t: nat, id: string)
    requires s.WellFormed() && Owned(s) && Recorded(s) && Enabled(s, a) && (a.Submit? ==> a.id !in s.store.jobs)
    requires Concluded(s, t, id) && Shows(s, id, Failed) && id !in s.cancels
    ensures Concluded(Apply(s, a), t, id) && Shows(Apply(s, a), id, Failed) && id !in Apply(s, a).cancels
  {
    FailureStays(s, a, t, id);
    if a.Advance? && a.t == t {
      ConcludedOwn(s, t, a.input, id);
    } else {
      ConcludedOthers(s, a, t, id);
    }
  }

  lemma {:induction false} ConcludedStays(early: Trace, late: Trace, t: nat, id: string)
    requires Valid(late) && FreshIDs(late) && Prefix(early, late) && Valid(early)
    requires Concluded(End(early), t, id) && Shows(End(early), id, Failed) && id !in End(early).cancels
    ensures Concluded(End(late), t, id) && Shows(End(late), id, Failed) && id !in End(late).cancels
  {
    if early != late {
      ConcludedStays(early, late.past, t, id);
      OwnedAlways(late.past);
      RecordedAlways(late.past);
      ConcludedStep(End(late.past), late.last, t, id);
    }
  }

  // A failure that need not stay

  ghost predicate At(tr: Trace, t: nat, id: string) {
    && Valid(tr) && FreshIDs(tr) && t < |End(tr).threads|
    && End(tr).threads[t].ref in End(tr).schedule.objects && End(tr).ID(End(tr).threads[t].ref) == id
  }

  ghost predicate Reaches(past: Trace, tr: Trace, id: string) {
    Valid(tr) && FreshIDs(tr) && Prefix(past, tr) && Shows(End(tr), id, Completed)
  }

  const GOOD := Input(None, true, Some(Response(ExecSuccess, "", 0, "")), 0)

  /** One step of thread t, which keeps its task. */
  lemma Step(past: Trace, t: nat, id: string, input: Input) returns (tr: Trace)
    requires At(past, t, id) && Enabled(End(past), Advance(t, input))
    ensures At(tr, t, id) && Prefix(past, tr)
    ensures End(tr).threads[t] == Thread(End(past).threads[t].ref, NextStage(End(past), t, input))
    ensures End(tr).schedule.objects[End(past).threads[t].ref] == NextRecord(End(past), t, input)
    ensures End(tr).schedule.pending == End(past).schedule.pending
              + (if EffectOf(End(past), t).Pushes? then [End(past).threads[t].ref] else [])
    ensures End(tr).schedule.maxQueue == End(past).schedule.maxQueue
    ensures End(tr).store == StoreAfter(End(past).store, id, End(past).threads[t].stage)
  {
    tr := Drive(past, t, input);
  }

  predicate OnNode(stage: Stage) {
    match stage
    case Connecting(_) => true
    case Starting(_) => true
    case Counting(_) => true
    case Executing(_) => true
    case Saving(_, result) => result.IsSuccess()
    case _ => false
  }

  /** From a worker on: it accepts the connection and answers with success. */
  lemma {:induction false} FromNode(past: Trace, t: nat, id: string) returns (tr: Trace)
    requires At(past, t, id) && OnNode(End(past).threads[t].stage)
    ensures Reaches(past, tr, id)
    decreases StepsLeft(End(past).threads[t].stage)
  {
    var mid := Step(past, t, id, GOOD);
    if End(past).threads[t].stage.Saving? {
      RecordedAlways(past);
      HeldJob(End(past), t);
      tr := mid;
    } else {
      tr := FromNode(mid, t, id);
      PrefixJoins(past, mid, tr);
    }
  }

  /** From the choice of a node: one registers just before. */
  lemma FromPicking(past: Trace, t: nat, id: string) returns (tr: Trace)
    requires At(past, t, id) && End(past).threads[t].stage.Picking?
    ensures Reaches(past, tr, id)
  {
    var with := Extend(past, Register(id, "", 1, 0));
    assert id in End(with).roster.HealthyIDs();
    var mid := Step(with, t, id, Input(Some(id), true, None, 0));
    tr := FromNode(mid, t, id);
    PrefixJoins(past, with, mid);
    PrefixJoins(past, mid, tr);
  }

  /** From the queue: the tasks before it are taken first. */
  lemma {:induction false} FromQueue(past: Trace, k: nat, id: string) returns (tr: Trace)
    requires Valid(past) && FreshIDs(past) && k < |End(past).schedule.pending|
    requires End(past).ID(End(past).schedule.pending[k]) == id
    ensures Reaches(past, tr, id)
    decreases k
  {
    var mid := Take(past);
    if k == 0 {
      tr := FromPicking(mid, |End(past).threads|, id);
    } else {
      tr := FromQueue(mid, k - 1, id);
    }
    PrefixJoins(past, mid, tr);
  }

  /** Whoever dispatches has been taken from a queue that can hold something. */
  lemma {:induction false} QueueHolds(tr: Trace, t: nat)
    requires Valid(tr) && t < |End(tr).threads| && !End(tr).threads[t].stage.OfSubmit()
    ensures End(tr).schedule.maxQueue > 0
  {
    if tr.Then? {
      if t < |End(tr.past).threads| && !End(tr.past).threads[t].stage.OfSubmit() {
        QueueHolds(tr.past, t);
      } else {
        TakenFromQueue(End(tr.past), tr.last, t);
      }
    }
  }

  lemma TakenFromQueue(s: State, a: Action, t: nat)
    requires s.WellFormed() && Enabled(s, a)
    requires t < |Apply(s, a).threads| && !Apply(s, a).threads[t].stage.OfSubmit()
    requires t < |s.threads| ==> s.threads[t].stage.OfSubmit()
    ensures s.schedule.pending != [] && Apply(s, a).schedule.maxQueue > 0
  {
  }

  /** From the requeueing send: another task is taken first if the queue is full. */
  lemma FromRequeueing(past: Trace, t: nat, id: string) returns (tr: Trace)
    requires At(past, t, id) && End(past).threads[t].stage.Requeueing?
    ensures Reaches(past, tr, id)
  {
    QueueHolds(past, t);
    var with := past;
    if !End(past).schedule.HasRoom() {
      with := Take(past);
    }
    var mid := Step(with, t, id, GOOD);
    tr := FromQueue(mid, |End(mid).schedule.pending| - 1, id);
    PrefixJoins(past, with, mid);
    PrefixJoins(past, mid, tr);
  }

  lemma FromReset(past: Trace, t: nat, id: string) returns (tr: Trace)
    requires At(past, t, id) && (End(past).threads[t].stage.NoNode? || End(past).threads[t].stage.Retrying?)
    ensures Reaches(past, tr, id)
  {
    var mid := Step(past, t, id, GOOD);
    tr := FromRequeueing(mid, t, id);
    PrefixJoins(past, mid, tr);
  }

  predicate OnFailure(stage: Stage) {
    stage.Uncounting? || stage.Failing? || stage.StoringFailure? || stage.Deciding?
  }

  lemma FailureMoves(s: State, t: nat, y: Tally)
    requires s.WellFormed() && t < |s.threads| && OnFailure(s.threads[t].stage)
    requires Balanced(s, s.threads[t].ref, y)
    requires var record := s.schedule.objects[s.threads[t].ref]; record.retries < record.maxRetries
    ensures var stage, stage' := s.threads[t].stage, NextStage(s, t, GOOD);
            var record, record' := s.schedule.objects[s.threads[t].ref], NextRecord(s, t, GOOD);
            && record'.retries == record.retries && record'.maxRetries == record.maxRetries
            && (if stage.Deciding? then stage'.Retrying? else OnFailure(stage') && StepsLeft(stage') < StepsLeft(stage))
  {
    assert Holder(s, t, s.threads[t].ref);
  }

  /** From a failure that leaves a retry. */
  lemma {:induction false} FromFailure(past: Trace, t: nat, id: string) returns (tr: Trace)
    requires At(past, t, id) && OnFailure(End(past).threads[t].stage)
    requires var record := End(past).schedule.objects[End(past).threads[t].ref]; record.retries < record.maxRetries
    ensures Reaches(past, tr, id)
    decreases StepsLeft(End(past).threads[t].stage)
  {
    BalancedAlways(past, End(past).threads[t].ref);
    FailureMoves(End(past), t, TallyOf(past, End(past).threads[t].ref));
    var mid := Step(past, t, id, GOOD);
    if End(past).threads[t].stage.Deciding? {
      tr := FromReset(mid, t, id);
    } else {
      tr := FromFailure(mid, t, id);
    }
    PrefixJoins(past, mid, tr);
  }

  /** Whatever dispatch has not concluded can still bring its task to success, in some longer run. */
  lemma CanStillSucceed(past: Trace, t: nat, id: string) returns (tr: Trace)
    requires At(past, t, id) && !Concluded(End(past), t, id)
    requires !End(past).threads[t].stage.OfSubmit() && End(past).threads[t].stage.Holds()
    ensures Reaches(past, tr, id)
  {
    var stage := End(past).threads[t].stage;
    if OnNode(stage) {
      tr := FromNode(past, t, id);
    } else if OnFailure(stage) {
      tr := FromFailure(past, t, id);
    } else if stage.Picking? {
      tr := FromPicking(past, t, id);
    } else if stage.Requeueing? {
      tr := FromRequeueing(past, t, id);
    } else {
      tr := FromReset(past, t, id);
    }
  }

  // Exactly when

  /** The one handler or goroutine that has the task, if it does not wait in the queue. */
  lemma WhoHas(s: State, ref: Ref) returns (t: nat)
    requires s.WellFormed() && Owned(s) && ref in s.schedule.objects && ref !in s.schedule.pending
    ensures Holder(s, t, ref)
  {
    t :| Holder(s, t, ref);
  }

  /** The dispatch of this task is over, or can only end in failure. */
  ghost predicate FailsForGood(s: State, ref: Ref) {
    && ref !in s.schedule.pending && ref in s.schedule.objects
    && exists t: nat :: Holder(s, t, ref) && ConcludedAt(s.threads[t].stage, s.schedule.objects[ref])
  }

  lemma MayTurnCompleted(tr: Trace, ref: Ref) returns (late: Trace)
    requires Valid(tr) && FreshIDs(tr) && ref in End(tr).schedule.objects && !FailsForGood(End(tr), ref)
    requires Shows(End(tr), End(tr).ID(ref), Failed)
    ensures Reaches(tr, late, End(tr).ID(ref))
  {
    OwnedAlways(tr);
    RecordedAlways(tr);
    if ref in End(tr).schedule.pending {
      var k: nat :| k < |End(tr).schedule.pending| && End(tr).schedule.pending[k] == ref;
      late := FromQueue(tr, k, End(tr).ID(ref));
    } else {
      var t := WhoHas(End(tr), ref);
      HeldJob(End(tr), t);
      late := CanStillSucceed(tr, t, End(tr).ID(ref));
    }
  }

  /** A pending Cancel call can always write. */
  lemma MayTurnCancelled(tr: Trace, id: string) returns (late: Trace)
    requires Valid(tr) && FreshIDs(tr) && id in End(tr).cancels
    ensures Valid(late) && FreshIDs(late) && Prefix(tr, late) && Shows(End(late), id, Cancelled)
  {
    CancelsAreKnown(tr, id);
    late := Extend(tr, CancelWrite(id));
  }

  /** A failure seen in the store, by a client or by the operator, is final exactly when the dispatch of the
      task is over or can only end in failure, and no Cancel call is about to write. */
  lemma FailedIsFinalExactlyWhen(tr: Trace, ref: Ref)
    requires Valid(tr) && FreshIDs(tr) && ref in End(tr).schedule.objects
    requires Shows(End(tr), End(tr).ID(ref), Failed)
    ensures Final(tr, End(tr).ID(ref), Failed) <==>
              FailsForGood(End(tr), ref) && End(tr).ID(ref) !in End(tr).cancels
  {
    var id := End(tr).ID(ref);
    if id in End(tr).cancels {
      var late := MayTurnCancelled(tr, id);
    } else if !FailsForGood(End(tr), ref) {
      var late := MayTurnCompleted(tr, ref);
    } else {
      var t: nat :| Holder(End(tr), t, ref) && ConcludedAt(End(tr).threads[t].stage, End(tr).schedule.objects[ref]);
      forall late | Prefix(tr, late) && Valid(late) && FreshIDs(late) ensures Shows(End(late), id, Failed) {
        ConcludedStays(tr, late, t, id);
      }
    }
  }

  lemma CompletedStep(s: State, a: Action, id: string)
    requires s.WellFormed() && Owned(s) && Recorded(s) && Enabled(s, a) && (a.Submit? ==> a.id !in s.store.jobs)
    requires Shows(s, id, Completed) && id !in s.cancels
    ensures Shows(Apply(s, a), id, Completed) && id !in Apply(s, a).cancels
  {
    assert JobOK(s.store.jobs[id]);
    if a.Advance? {
      HeldJob(s, a.t);
      StatusAfter(s.store, s.ID(s.threads[a.t].ref), s.threads[a.t].stage, id);
    }
  }

  lemma {:induction false} CompletedStays(early: Trace, late: Trace, id: string)
    requires Valid(late) && FreshIDs(late) && Prefix(early, late) && Valid(early)
    requires Shows(End(early), id, Completed) && id !in End(early).cancels
    ensures Shows(End(late), id, Completed) && id !in End(late).cancels
  {
    if early != late {
      CompletedStays(early, late.past, id);
      OwnedAlways(late.past);
      RecordedAlways(late.past);
      CompletedStep(End(late.past), late.last, id);
    }
  }

  /** A success seen in the store is final exactly when no Cancel call is about to write. */
  lemma CompletedIsFinalExactlyWhen(tr: Trace, id: string)
    requires Valid(tr) && FreshIDs(tr) && Shows(End(tr), id, Completed)
    ensures Final(tr, id, Completed) <==> id !in End(tr).cancels
  {
    if id in End(tr).cancels {
      var late := MayTurnCancelled(tr, id);
    } else {
      forall late | Prefix(tr, late) && Valid(late) && FreshIDs(late) ensures Shows(End(late), id, Completed) {
        CompletedStays(tr, late, id);
      }
    }
  }

  /** A failure that turns into success: after a failed dial the stored status is failed, and the retry, which
      is already under way, completes the job. */
  lemma FailedThenCompleted(id: string, node: string) returns (mid: Trace, tr: Trace)
    ensures Valid(mid) && FreshIDs(mid) && Shows(End(mid), id, Failed)
    ensures Reaches(mid, tr, id)
  {
    var ready := MakeReady(id, node);
    var refused := Input(None, false, None, 0);
    var view := View(Connecting(node), End(ready).schedule.objects[0], End(ready).store);
    var sent, t := SendOff(ready, 0, node);
    var views := FailingPath(view, node, refused);
    mid := GoOn(sent, t, 0, node, views, refused);
    assert Shows(End(mid), id, Failed);
    tr := FromRequeueing(mid, t, id);
  }

  // Never decided

  /** No outcome will be stored any more. */
  predicate OverAt(stage: Stage, record: TaskRecord, maxQueue: nat) {
    match stage
    case Inserting => maxQueue == 0
    case Sending => maxQueue == 0
    case RollingBack => true
    case Deciding => record.retries >= record.maxRetries
    case Completing(_, _) => true
    case Releasing(_) => true
    case _ => stage.Rest()
  }

  ghost predicate Over(s: State, t: nat, id: string) {
    && t < |s.threads| && s.threads[t].ref in s.schedule.objects && s.ID(s.threads[t].ref) == id
    && s.threads[t].stage.Holds()
    && OverAt(s.threads[t].stage, s.schedule.objects[s.threads[t].ref], s.schedule.maxQueue)
  }

  lemma OverStep(s: State, a: Action, t: nat, id: string)
    requires s.WellFormed() && Owned(s) && Recorded(s) && Enabled(s, a) && Over(s, t, id)
    ensures Over(Apply(s, a), t, id) && !StoresOutcome(s, a, id)
  {
    if a.Advance? && a.t == t {
      OverOwn(s, t, a.input, id);
    } else {
      OverOthers(s, a, t, id);
    }
  }

  lemma OverStage(stage: Stage, record: TaskRecord, input: Input, known: bool, room: bool, maxQueue: nat)
    requires !stage.Rest() && OverAt(stage, record, maxQueue) && (room ==> maxQueue > 0)
    ensures var stage' := StageAfter(stage, record, input, known, room);
            stage'.Holds() && OverAt(stage', RecordAfter(stage, record, input.now, known), maxQueue)
  {
  }

  lemma OverOwn(s: State, t: nat, input: Input, id: string)
    requires s.WellFormed() && Owned(s) && Enabled(s, Advance(t, input)) && Over(s, t, id)
    ensures Over(AdvanceThread(s, t, input), t, id) && !StoresOutcome(s, Advance(t, input), id)
  {
    var record := s.schedule.objects[s.threads[t].ref];
    AdvanceRecord(s, t, input);
    OverStage(s.threads[t].stage, record, input, record.id in s.schedule.tasks, s.schedule.HasRoom(),
              s.schedule.maxQueue);
  }

  lemma OverOthers(s: State, a: Action, t: nat, id: string)
    requires s.WellFormed() && Owned(s) && Recorded(s) && Enabled(s, a) && Over(s, t, id)
    requires a.Advance? ==> a.t != t
    ensures Over(Apply(s, a), t, id) && !StoresOutcome(s, a, id)
  {
    assert Holder(s, t, s.threads[t].ref);
    if a.Advance? {
      assert Holder(s, a.t, s.threads[a.t].ref);
      AdvanceRecord(s, a.t, a.input);
    }
  }

  lemma {:induction false} OverStays(early: Trace, late: Trace, t: nat, id: string)
    requires Valid(late) && FreshIDs(late) && Prefix(early, late) && Valid(early) && Over(End(early), t, id)
    ensures Over(End(late), t, id) && (OutcomeStored(late, id) <==> OutcomeStored(early, id))
    ensures CancelStands(early, id) ==> CancelStands(late, id)
  {
    if early != late {
      OverStays(early, late.past, t, id);
      OwnedAlways(late.past);
      RecordedAlways(late.past);
      OverStep(End(late.past), late.last, t, id);
    }
  }

  ghost predicate ShowsDecided(s: State, id: string) {
    id in s.store.jobs && Decided(s.store.jobs[id].status)
  }

  ghost predicate NeverDecided(tr: Trace, id: string)
    requires Valid(tr)
  {
    forall late | Prefix(tr, late) && Valid(late) && FreshIDs(late) :: !ShowsDecided(End(late), id)
  }

  ghost predicate Decides(past: Trace, tr: Trace, id: string) {
    Valid(tr) && FreshIDs(tr) && Prefix(past, tr) && ShowsDecided(End(tr), id)
  }

  /** What its handler has not yet inserted is not in the task map. */
  ghost predicate InsertsOnce(s: State) {
    forall t, id :: 0 <= t < |s.threads| && s.threads[t].stage.Inserting? && id in s.schedule.tasks ==>
      s.schedule.tasks[id] != s.threads[t].ref
  }

  lemma InsertsOnceMove(s: State, s': State, t: nat, effect: Effect)
    requires Acts(s, s', t, effect) && Owned(s) && InsertsOnce(s)
    ensures InsertsOnce(s')
  {
    forall u, id | 0 <= u < |s'.threads| && s'.threads[u].stage.Inserting? && id in s'.schedule.tasks
      ensures s'.schedule.tasks[id] != s'.threads[u].ref
    {
      assert u != t && s'.threads[u] == s.threads[u];
      assert InSubmit(s, u);
    }
  }

  lemma InsertsOnceStep(s: State, a: Action)
    requires s.WellFormed() && Enabled(s, a) && Owned(s) && InsertsOnce(s)
    ensures InsertsOnce(Apply(s, a))
  {
    if a.Advance? {
      AdvanceMoves(s, a.t, a.input);
      AdvanceTouches(s, a.t, a.input);
      InsertsOnceMove(s, Apply(s, a), a.t, EffectOf(s, a.t));
    }
  }

  lemma {:induction false} InsertsOnceAlways(tr: Trace)
    requires Valid(tr)
    ensures InsertsOnce(End(tr))
  {
    if tr.Then? {
      InsertsOnceAlways(tr.past);
      OwnedAlways(tr.past);
      InsertsOnceStep(End(tr.past), tr.last);
    }
  }

  /** A fresh ID is free when its submission comes to insert it. */
  lemma IDIsFree(s: State, t: nat)
    requires s.WellFormed() && Owned(s) && Recorded(s) && InsertsOnce(s)
    requires t < |s.threads| && s.threads[t].stage.Inserting?
    ensures s.ID(s.threads[t].ref) !in s.schedule.tasks && NextStage(s, t, GOOD) == Sending
  {
  }

  /** From the send of a submission: another task is taken first if the queue is full. */
  lemma FromSending(past: Trace, t: nat, id: string) returns (tr: Trace)
    requires At(past, t, id) && End(past).threads[t].stage.Sending? && End(past).schedule.maxQueue > 0
    ensures Reaches(past, tr, id)
  {
    var with := past;
    if !End(past).schedule.HasRoom() {
      with := Take(past);
    }
    var mid := Step(with, t, id, GOOD);
    tr := FromQueue(mid, |End(mid).schedule.pending| - 1, id);
    PrefixJoins(past, with, mid);
    PrefixJoins(past, mid, tr);
  }

  lemma FromInserting(past: Trace, t: nat, id: string) returns (tr: Trace)
    requires At(past, t, id) && End(past).threads[t].stage.Inserting? && End(past).schedule.maxQueue > 0
    ensures Reaches(past, tr, id)
  {
    OwnedAlways(past);
    RecordedAlways(past);
    InsertsOnceAlways(past);
    IDIsFree(End(past), t);
    var mid := Step(past, t, id, GOOD);
    tr := FromSending(mid, t, id);
    PrefixJoins(past, mid, tr);
  }

  predicate ToFailure(stage: Stage) {
    stage.Uncounting? || stage.Failing? || stage.StoringFailure? || (stage.Saving? && !stage.result.IsSuccess())
  }

  lemma ToFailureMoves(s: State, t: nat)
    requires s.WellFormed() && Recorded(s) && t < |s.threads| && ToFailure(s.threads[t].stage)
    ensures var stage, stage' := s.threads[t].stage, NextStage(s, t, GOOD);
            var id := s.ID(s.threads[t].ref);
            if stage.StoringFailure? || stage.Saving?
            then id in StoreAfter(s.store, id, stage).jobs && Decided(StoreAfter(s.store, id, stage).jobs[id].status)
            else ToFailure(stage') && StepsLeft(stage') < StepsLeft(stage)
  {
    HeldJob(s, t);
    StatusAfter(s.store, s.ID(s.threads[t].ref), s.threads[t].stage, s.ID(s.threads[t].ref));
  }

  /** A failure that is about to be stored. */
  lemma {:induction false} StoreFailure(past: Trace, t: nat, id: string) returns (tr: Trace)
    requires At(past, t, id) && ToFailure(End(past).threads[t].stage)
    ensures Decides(past, tr, id)
    decreases StepsLeft(End(past).threads[t].stage)
  {
    RecordedAlways(past);
    ToFailureMoves(End(past), t);
    var stage := End(past).threads[t].stage;
    var mid := Step(past, t, id, GOOD);
    if stage.StoringFailure? || stage.Saving? {
      tr := mid;
    } else {
      tr := StoreFailure(mid, t, id);
      PrefixJoins(past, mid, tr);
    }
  }

  /** The dispatch of this task is over, successfully or not, or it will never begin. */
  ghost predicate NothingToCome(s: State, ref: Ref) {
    && ref !in s.schedule.pending && ref in s.schedule.objects
    && exists t: nat :: Holder(s, t, ref)
                        && OverAt(s.threads[t].stage, s.schedule.objects[ref], s.schedule.maxQueue)
  }

  lemma HolderMayDecide(past: Trace, t: nat, id: string) returns (tr: Trace)
    requires At(past, t, id) && !Over(End(past), t, id) && End(past).threads[t].stage.Holds()
    ensures Decides(past, tr, id)
  {
    var stage := End(past).threads[t].stage;
    if ToFailure(stage) {
      tr := StoreFailure(past, t, id);
    } else if stage.Inserting? {
      tr := FromInserting(past, t, id);
    } else if stage.Sending? {
      tr := FromSending(past, t, id);
    } else {
      tr := CanStillSucceed(past, t, id);
    }
  }

  lemma MayDecide(tr: Trace, ref: Ref) returns (late: Trace)
    requires Valid(tr) && FreshIDs(tr) && ref in End(tr).schedule.objects && !NothingToCome(End(tr), ref)
    ensures Decides(tr, late, End(tr).ID(ref))
  {
    OwnedAlways(tr);
    if ref in End(tr).schedule.pending {
      var k: nat :| k < |End(tr).schedule.pending| && End(tr).schedule.pending[k] == ref;
      late := FromQueue(tr, k, End(tr).ID(ref));
    } else {
      var t := WhoHas(End(tr), ref);
      late := HolderMayDecide(tr, t, End(tr).ID(ref));
    }
  }

  /** A task is never decided, so that no poll of it ever counts, exactly when its dispatch is over or will
      never begin, and it has no outcome or has been cancelled since its outcome was stored. */
  lemma NeverDecidedExactlyWhen(tr: Trace, ref: Ref)
    requires Valid(tr) && FreshIDs(tr) && ref in End(tr).schedule.objects
    ensures NeverDecided(tr, End(tr).ID(ref)) <==>
              && NothingToCome(End(tr), ref)
              && (!OutcomeStored(tr, End(tr).ID(ref)) || CancelStands(tr, End(tr).ID(ref)))
  {
    var id := End(tr).ID(ref);
    OutcomeIsResultOrFailure(tr, id);
    DecidedExactlyWhen(tr, id);
    if !NothingToCome(End(tr), ref) {
      var late := MayDecide(tr, ref);
    } else {
      var s := End(tr);
      var t: nat :| Holder(s, t, ref) && OverAt(s.threads[t].stage, s.schedule.objects[ref], s.schedule.maxQueue);
      if !OutcomeStored(tr, id) || CancelStands(tr, id) {
        forall late | Prefix(tr, late) && Valid(late) && FreshIDs(late) ensures !ShowsDecided(End(late), id) {
          OverStays(tr, late, t, id);
          OutcomeIsResultOrFailure(late, id);
          DecidedExactlyWhen(late, id);
        }
      }
    }
  }

  /** A task that has come to rest without an outcome, or cancelled since, is never decided. */
  lemma UndecidedAtRest(tr: Trace, t: nat, id: string)
    requires Valid(tr) && FreshIDs(tr) && Settled(End(tr), t, id)
    requires OutcomeStored(tr, id) ==> CancelStands(tr, id)
    ensures NeverDecided(tr, id)
  {
    var ref := End(tr).threads[t].ref;
    OwnedAlways(tr);
    assert Holder(End(tr), t, ref);
    NeverDecidedExactlyWhen(tr, ref);
  }

  /** Nobody has to cancel for that: the lost task of an accepted submission is never decided. */
  lemma LostTaskIsNeverDecided(q: nat) returns (tr: Trace)
    requires q >= 1
    ensures Valid(tr) && FreshIDs(tr) && End(tr).schedule.maxQueue == q
    ensures FirstAccepted(End(tr)) && NeverDecided(tr, Name(0))
  {
    tr := FillAndLose(q);
    OutcomeShowsAlways(tr, Name(0));
    UndecidedAtRest(tr, q, Name(0));
  }
}
