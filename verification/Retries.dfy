// The retry bound and termination: how often a task is sent to a worker, and how long it can stay alive.
module Retries {
  import opened Types
  import opened Protocol
  import opened Ownership

  // What a task goes through

  /** Calls of sendToWorker, requeues after a failed one, requeues for want of a healthy node, and those of
      the latter that used up a retry which the task still had. */
  datatype Tally = Tally(sends: nat, retried: nat, waits: nat, early: nat)

  function Count(stage: Stage, record: TaskRecord, input: Input, y: Tally): Tally {
    match stage
    case Picking => if input.choice.Some? then y.(sends := y.sends + 1) else y
    case Retrying => y.(retried := y.retried + 1)
    case NoNode => y.(waits := y.waits + 1, early := y.early + if record.retries < record.maxRetries then 1 else 0)
    case _ => y
  }

  ghost function TallyStep(s: State, a: Action, ref: Ref, y: Tally): Tally {
    if a.Advance? && a.t < |s.threads| && s.threads[a.t].ref == ref && ref in s.schedule.objects
    then Count(s.threads[a.t].stage, s.schedule.objects[ref], a.input, y)
    else y
  }

  ghost function TallyOf(tr: Trace, ref: Ref): Tally
    requires Valid(tr)
  {
    if tr.Start? then Tally(0, 0, 0, 0) else TallyStep(End(tr.past), tr.last, ref, TallyOf(tr.past, ref))
  }

  /** Retries that count towards the bound; waits for a node go beyond it. */
  function Counted(record: TaskRecord): int {
    if record.retries < record.maxRetries then record.retries else record.maxRetries
  }

  /** Sent to a worker, and not requeued since. */
  predicate InSend(stage: Stage) {
    match stage
    case Inserting | Sending | RollingBack | Accepted | Rejected => false
    case Picking | NoNode | Requeueing | Requeued | Dropped => false
    case _ => true
  }

  predicate Adds(record: TaskRecord, y: Tally) {
    && record.maxRetries == DEFAULT_MAX_RETRIES
    && record.retries == y.waits + y.retried
    && Counted(record) == y.early + y.retried
  }

  /** What the scheduler calls a task while a handler or goroutine at this stage has it. */
  function StatusesAt(stage: Stage): set<TaskStatus> {
    match stage
    case Inserting => {Created}
    case Rejected => {Created, Pending}
    case Sending | RollingBack | Accepted | Picking | NoNode | Requeueing | Requeued | Dropped => {Pending}
    case Connecting(_) => {Pending}
    case Starting(_) => {Pending}
    case Counting(_) => {Running}
    case Executing(_) => {Running}
    case Uncounting(_) => {Running}
    case Saving(_, _) => {Running}
    case Completing(_, _) => {Running}
    case Failing => {Pending, Running}
    case StoringFailure | Deciding | Retrying | Exhausted => {Failed}
    case Releasing(_) => {Completed}
    case Finished => {Completed}
  }

  predicate BalancedAt(stage: Stage, record: TaskRecord, y: Tally) {
    && y.sends == y.retried + (if InSend(stage) then 1 else 0)
    && (stage.OfSubmit() ==> y.retried == 0)
    && record.status in StatusesAt(stage)
    && (stage.Retrying? ==> record.retries < record.maxRetries)
    && (stage.Exhausted? ==> record.retries >= record.maxRetries)
  }

  ghost predicate Balanced(s: State, ref: Ref, y: Tally) {
    if ref !in s.schedule.objects then y == Tally(0, 0, 0, 0)
    else
      var record := s.schedule.objects[ref];
      && Adds(record, y)
      && (ref in s.schedule.pending ==> y.sends == y.retried && record.status == Pending)
      && forall t: nat :: Holder(s, t, ref) ==> BalancedAt(s.threads[t].stage, record, y)
  }

  /** One step of the holder, on its stage and its task object alone. */
  lemma BalancedStage(stage: Stage, record: TaskRecord, input: Input, known: bool, room: bool, y: Tally)
    requires !stage.Rest() && BalancedAt(stage, record, y) && Adds(record, y)
    ensures var stage' := StageAfter(stage, record, input, known, room);
            var record' := RecordAfter(stage, record, input.now, known);
            var y' := Count(stage, record, input, y);
            && Adds(record', y') && BalancedAt(stage', record', y')
            && (!stage'.Holds() ==> y'.sends == y'.retried && record'.status == Pending)
  {
  }

  lemma BalancedAdvance(s: State, t: nat, input: Input, y: Tally)
    requires s.WellFormed() && Owned(s) && Enabled(s, Advance(t, input)) && Balanced(s, s.threads[t].ref, y)
    ensures var ref := s.threads[t].ref;
            Balanced(AdvanceThread(s, t, input), ref, TallyStep(s, Advance(t, input), ref, y))
  {
    var ref := s.threads[t].ref;
    var record := s.schedule.objects[ref];
    StillSole(s, t, input);
    AdvanceRecord(s, t, input);
    assert Holder(s, t, ref);
    BalancedStage(s.threads[t].stage, record, input, record.id in s.schedule.tasks, s.schedule.HasRoom(), y);
  }

  lemma BalancedOthers(s: State, t: nat, input: Input, ref: Ref, y: Tally)
    requires s.WellFormed() && Owned(s) && Enabled(s, Advance(t, input)) && Balanced(s, ref, y)
    requires s.threads[t].ref != ref
    ensures Balanced(AdvanceThread(s, t, input), ref, y)
  {
    AdvanceRecord(s, t, input);
    AdvanceTouches(s, t, input);
    forall u: nat | Holder(AdvanceThread(s, t, input), u, ref) ensures Holder(s, u, ref) {}
  }

  lemma BalancedElsewhere(s: State, a: Action, ref: Ref, y: Tally)
    requires s.WellFormed() && Owned(s) && Enabled(s, a) && Balanced(s, ref, y) && !a.Advance?
    ensures Balanced(Apply(s, a), ref, y)
  {
    if a.Submit? {
      BalancedSubmit(s, a, ref, y);
    } else if a.Dequeue? {
      BalancedDequeue(s, ref, y);
    } else {
      forall u: nat | Holder(Apply(s, a), u, ref) ensures Holder(s, u, ref) {}
    }
  }

  lemma BalancedSubmit(s: State, a: Action, ref: Ref, y: Tally)
    requires s.WellFormed() && Enabled(s, a) && Balanced(s, ref, y) && a.Submit?
    ensures Balanced(Apply(s, a), ref, y)
  {
    forall u: nat | Holder(Apply(s, a), u, ref) ensures Holder(s, u, ref) || (a.ref == ref && u == |s.threads|) {}
  }

  lemma BalancedDequeue(s: State, ref: Ref, y: Tally)
    requires s.WellFormed() && Enabled(s, Dequeue) && Balanced(s, ref, y)
    ensures Balanced(Apply(s, Dequeue), ref, y)
  {
    forall u: nat | Holder(Apply(s, Dequeue), u, ref)
      ensures Holder(s, u, ref) || (ref == s.schedule.pending[0] && u == |s.threads|)
    {
    }
  }

  lemma BalancedStep(s: State, a: Action, ref: Ref, y: Tally)
    requires s.WellFormed() && Owned(s) && Enabled(s, a) && Balanced(s, ref, y)
    ensures Balanced(Apply(s, a), ref, TallyStep(s, a, ref, y))
  {
    if !a.Advance? {
      BalancedElsewhere(s, a, ref, y);
    } else if s.threads[a.t].ref == ref {
      BalancedAdvance(s, a.t, a.input, y);
    } else {
      BalancedOthers(s, a.t, a.input, ref, y);
    }
  }

  lemma {:induction false} BalancedAlways(tr: Trace, ref: Ref)
    requires Valid(tr)
    ensures Balanced(End(tr), ref, TallyOf(tr, ref))
  {
    if tr.Then? {
      BalancedAlways(tr.past, ref);
      OwnedAlways(tr.past);
      BalancedStep(End(tr.past), tr.last, ref, TallyOf(tr.past, ref));
    }
  }

  /** The exact account, at every moment of every run: the retry counter counts failed sends and waits for a
      node alike, up to the bound it counts the early waits, and each send but the present one was retried. */
  lemma RetriesAreAccounted(tr: Trace, ref: Ref)
    requires Valid(tr) && ref in End(tr).schedule.objects
    ensures var s, y, record := End(tr), TallyOf(tr, ref), End(tr).schedule.objects[ref];
            && record.retries == y.waits + y.retried
            && Counted(record) == y.early + y.retried
            && (ref in s.schedule.pending ==> y.sends == y.retried)
            && forall t: nat :: Holder(s, t, ref) ==>
                 y.sends == y.retried + if InSend(s.threads[t].stage) then 1 else 0
  {
    BalancedAlways(tr, ref);
  }

  /** What the scheduler's listing calls a task, in every run: pending in the queue, and in a goroutine's hands
      running exactly from the start on a worker to the end of that attempt. */
  lemma SchedulerStatus(tr: Trace, ref: Ref)
    requires Valid(tr) && ref in End(tr).schedule.objects
    ensures var s := End(tr);
            && (ref in s.schedule.pending ==> s.schedule.objects[ref].status == Pending)
            && forall t: nat :: Holder(s, t, ref) ==> s.schedule.objects[ref].status in StatusesAt(s.threads[t].stage)
  {
    BalancedAlways(tr, ref);
  }

  /** sendToWorker runs at most MaxRetries + 1 times for a task, however often it also waits for a node; each
      early wait costs one of them. */
  lemma SendBound(tr: Trace, ref: Ref)
    requires Valid(tr)
    ensures TallyOf(tr, ref).sends + TallyOf(tr, ref).early <= 4
  {
    BalancedAlways(tr, ref);
    OwnedAlways(tr);
  }

  /** When a goroutine gives a task up, its retries are spent, on sends and on early waits: it has had exactly
      one send per retry not lost to a wait, and one more. */
  lemma GivesUpOnlyWhenSpent(tr: Trace, t: nat)
    requires Valid(tr) && End(tr).At(t, Exhausted)
    ensures var ref := End(tr).threads[t].ref;
            var record, y := End(tr).schedule.objects[ref], TallyOf(tr, ref);
            && record.retries >= record.maxRetries
            && y.sends == record.retries + 1 - y.waits
            && y.sends == 4 - y.early
  {
    var ref := End(tr).threads[t].ref;
    BalancedAlways(tr, ref);
    assert Holder(End(tr), t, ref);
  }

  /** So a task is given up with fewer than MaxRetries + 1 sends exactly when it has found no healthy node
      while it still had retries left. */
  lemma GivenUpEarlyExactlyWhen(tr: Trace, t: nat)
    requires Valid(tr) && End(tr).At(t, Exhausted)
    ensures var y := TallyOf(tr, End(tr).threads[t].ref);
            y.sends < 4 <==> y.early > 0
  {
    GivesUpOnlyWhenSpent(tr, t);
  }

  // Termination

  /** The action moves this task on. */
  ghost predicate IsOwnStep(s: State, a: Action, ref: Ref) {
    || (a.Dequeue? && s.schedule.pending != [] && s.schedule.pending[0] == ref)
    || (a.Advance? && a.t < |s.threads| && s.threads[a.t].ref == ref)
  }

  ghost function OwnSteps(tr: Trace, ref: Ref): nat
    requires Valid(tr)
  {
    if tr.Start? then 0 else OwnSteps(tr.past, ref) + if IsOwnStep(End(tr.past), tr.last, ref) then 1 else 0
  }

  const ROUND := 12
  const QUEUED := 11

  /** Steps to the end of the current round, at most. */
  function StepsLeft(stage: Stage): nat {
    match stage
    case Inserting => 14
    case Sending => 13
    case RollingBack => 1
    case Requeueing => 12
    case Picking => 10
    case Connecting(_) => 9
    case Starting(_) => 8
    case Counting(_) => 7
    case Executing(_) => 6
    case Uncounting(_) => 5
    case Failing => 4
    case StoringFailure => 3
    case Deciding => 2
    case Retrying => 1
    case NoNode => 1
    case Saving(_, _) => 3
    case Completing(_, _) => 2
    case Releasing(_) => 1
    case _ => 0
  }

  /** The measure: a full round for every retry left, and the rest of this round; nothing once it rests. */
  function Cost(stage: Stage, record: TaskRecord): int {
    if stage.Rest() then 0 else Rounds(record) + StepsLeft(stage)
  }

  function Rounds(record: TaskRecord): int {
    if record.retries < record.maxRetries then (record.maxRetries - record.retries) * ROUND else 0
  }

  ghost predicate Within(s: State, ref: Ref, budget: int)
    requires ref in s.schedule.objects
  {
    && 0 <= budget
    && (ref in s.schedule.pending ==> Rounds(s.schedule.objects[ref]) + QUEUED <= budget)
    && forall t: nat :: Holder(s, t, ref) ==> Cost(s.threads[t].stage, s.schedule.objects[ref]) <= budget
  }

  /** One step of the holder lowers the measure; a wait for a node may raise it by one round. */
  lemma CostDecreases(stage: Stage, record: TaskRecord, input: Input, known: bool, room: bool)
    requires !stage.Rest() && (stage.Retrying? ==> record.retries < record.maxRetries)
    ensures var stage' := StageAfter(stage, record, input, known, room);
            var record' := RecordAfter(stage, record, input.now, known);
            var allowed := Cost(stage, record) - 1 + if stage.NoNode? then ROUND else 0;
            && Cost(stage', record') <= allowed
            && (!stage'.Holds() ==> Rounds(record') + QUEUED <= allowed)
  {
  }

  lemma WithinAdvance(s: State, t: nat, input: Input, budget: int, y: Tally)
    requires s.WellFormed() && Owned(s) && Enabled(s, Advance(t, input)) && Balanced(s, s.threads[t].ref, y)
    requires Within(s, s.threads[t].ref, budget)
    ensures var s', ref := AdvanceThread(s, t, input), s.threads[t].ref;
            Within(s', ref, budget - 1 + if s.threads[t].stage.NoNode? then ROUND else 0)
  {
    var ref := s.threads[t].ref;
    var record := s.schedule.objects[ref];
    StillSole(s, t, input);
    AdvanceRecord(s, t, input);
    assert Holder(s, t, ref);
    CostDecreases(s.threads[t].stage, record, input, record.id in s.schedule.tasks, s.schedule.HasRoom());
  }

  lemma WithinOthers(s: State, t: nat, input: Input, ref: Ref, budget: int)
    requires s.WellFormed() && Owned(s) && Enabled(s, Advance(t, input)) && ref in s.schedule.objects
    requires s.threads[t].ref != ref && Within(s, ref, budget)
    ensures Within(AdvanceThread(s, t, input), ref, budget)
  {
    AdvanceRecord(s, t, input);
    AdvanceTouches(s, t, input);
    forall u: nat | Holder(AdvanceThread(s, t, input), u, ref) ensures Holder(s, u, ref) {}
  }

  lemma WithinElsewhere(s: State, a: Action, ref: Ref, budget: int)
    requires s.WellFormed() && Owned(s) && Enabled(s, a) && !a.Advance?
    requires ref in s.schedule.objects && Within(s, ref, budget)
    ensures Within(Apply(s, a), ref, if IsOwnStep(s, a, ref) then budget - 1 else budget)
  {
    if a.Dequeue? {
      SingleOwnerDequeue(s, Apply(s, a));
    }
    forall u: nat | Holder(Apply(s, a), u, ref)
      ensures Holder(s, u, ref) || (a.Dequeue? && ref == s.schedule.pending[0] && u == |s.threads|)
    {
    }
  }

  /** What a new task may spend: its submission, a full round for each retry, and the last round. */
  const LIFETIME := DEFAULT_MAX_RETRIES * ROUND + 14

  ghost predicate Spent(tr: Trace, ref: Ref)
    requires Valid(tr)
  {
    if ref in End(tr).schedule.objects
    then Within(End(tr), ref, LIFETIME + ROUND * TallyOf(tr, ref).waits - OwnSteps(tr, ref))
    else OwnSteps(tr, ref) == 0 && TallyOf(tr, ref).waits == 0
  }

  lemma SpentSubmit(s: State, a: Action, ref: Ref)
    requires s.WellFormed() && Owned(s) && Enabled(s, a) && ref !in s.schedule.objects
    ensures !IsOwnStep(s, a, ref)
    ensures ref in Apply(s, a).schedule.objects ==> Within(Apply(s, a), ref, LIFETIME)
  {
    if a.Advance? {
      AdvanceTouches(s, a.t, a.input);
    }
  }

  /** Every action keeps the measure within its budget, and the task's own steps use the budget up. */
  lemma WithinStep(s: State, a: Action, ref: Ref, budget: int, y: Tally)
    requires s.WellFormed() && Owned(s) && Enabled(s, a) && Balanced(s, ref, y)
    requires ref in s.schedule.objects && Within(s, ref, budget)
    ensures ref in Apply(s, a).schedule.objects
    ensures Within(Apply(s, a), ref,
                   budget + ROUND * (TallyStep(s, a, ref, y).waits - y.waits) - (if IsOwnStep(s, a, ref) then 1 else 0))
  {
    TasksStay(s, a);
    if a.Advance? {
      if s.threads[a.t].ref == ref {
        WithinAdvance(s, a.t, a.input, budget, y);
      } else {
        WithinOthers(s, a.t, a.input, ref, budget);
      }
    } else {
      WithinElsewhere(s, a, ref, budget);
    }
  }

  lemma {:induction false} SpentAlways(tr: Trace, ref: Ref)
    requires Valid(tr)
    ensures Spent(tr, ref)
  {
    if tr.Then? {
      SpentAlways(tr.past, ref);
      OwnedAlways(tr.past);
      BalancedAlways(tr.past, ref);
      var s := End(tr.past);
      if ref in s.schedule.objects {
        var budget := LIFETIME + ROUND * TallyOf(tr.past, ref).waits - OwnSteps(tr.past, ref);
        WithinStep(s, tr.last, ref, budget, TallyOf(tr.past, ref));
      } else {
        SpentSubmit(s, tr.last, ref);
      }
    }
  }

  lemma NothingLeftMeansRest(s: State, ref: Ref)
    requires s.WellFormed() && ref in s.schedule.objects && Within(s, ref, 0)
    ensures ref !in s.schedule.pending
    ensures forall t: nat :: Holder(s, t, ref) ==> s.threads[t].stage.Rest()
  {
  }

  /** A task takes at most 50 steps of its own, plus one round for every time it found no healthy node,
      whatever the workers and the other tasks do; when it has taken them all it is at rest. */
  lemma TaskTerminates(tr: Trace, ref: Ref)
    requires Valid(tr)
    ensures OwnSteps(tr, ref) <= 50 + 12 * TallyOf(tr, ref).waits
    ensures OwnSteps(tr, ref) == 50 + 12 * TallyOf(tr, ref).waits ==>
              && ref !in End(tr).schedule.pending
              && forall t: nat :: Holder(End(tr), t, ref) ==> End(tr).threads[t].stage.Rest()
  {
    SpentAlways(tr, ref);
    if OwnSteps(tr, ref) == LIFETIME + ROUND * TallyOf(tr, ref).waits {
      NothingLeftMeansRest(End(tr), ref);
    }
  }

  /** Whenever a goroutine picks a node for this task, some node is healthy. */
  ghost predicate HealthyAtPicks(tr: Trace, ref: Ref)
    requires Valid(tr)
  {
    tr.Then? ==>
      && HealthyAtPicks(tr.past, ref)
      && var s, a := End(tr.past), tr.last;
         (a.Advance? && s.threads[a.t] == Thread(ref, Picking) ==> s.roster.HealthyIDs() != {})
  }

  ghost predicate NeverWaiting(s: State, ref: Ref) {
    forall t: nat :: !(t < |s.threads| && s.threads[t] == Thread(ref, NoNode))
  }

  lemma NeverWaitingStep(s: State, a: Action, ref: Ref)
    requires s.WellFormed() && Enabled(s, a) && NeverWaiting(s, ref)
    requires a.Advance? && s.threads[a.t] == Thread(ref, Picking) ==> s.roster.HealthyIDs() != {}
    ensures NeverWaiting(Apply(s, a), ref)
    ensures forall y :: TallyStep(s, a, ref, y).waits == y.waits && TallyStep(s, a, ref, y).early == y.early
  {
    if a.Advance? {
      assert !(s.threads[a.t] == Thread(ref, NoNode));
      forall t: nat ensures !(t < |s.threads| && AdvanceThread(s, a.t, a.input).threads[t] == Thread(ref, NoNode)) {
        assert !(t < |s.threads| && s.threads[t] == Thread(ref, NoNode));
      }
    } else {
      forall t: nat | t < |s.threads| ensures Apply(s, a).threads[t] == s.threads[t] {}
    }
  }

  lemma {:induction false} NoWaitsWhenHealthy(tr: Trace, ref: Ref)
    requires Valid(tr) && HealthyAtPicks(tr, ref)
    ensures NeverWaiting(End(tr), ref) && TallyOf(tr, ref).waits == TallyOf(tr, ref).early == 0
  {
    if tr.Then? {
      NoWaitsWhenHealthy(tr.past, ref);
      NeverWaitingStep(End(tr.past), tr.last, ref);
    }
  }

  /** With a healthy node at each of its picks a task comes to rest within 50 steps of its own, and is given
      up only after MaxRetries + 1 sends. */
  lemma HealthyTaskTerminates(tr: Trace, ref: Ref)
    requires Valid(tr) && HealthyAtPicks(tr, ref)
    ensures OwnSteps(tr, ref) <= 50
    ensures forall t: nat :: End(tr).At(t, Exhausted) && End(tr).threads[t].ref == ref ==>
              TallyOf(tr, ref).sends == 4
  {
    NoWaitsWhenHealthy(tr, ref);
    TaskTerminates(tr, ref);
    forall t: nat | End(tr).At(t, Exhausted) && End(tr).threads[t].ref == ref
      ensures TallyOf(tr, ref).sends == 4
    {
      GivesUpOnlyWhenSpent(tr, t);
    }
  }

  /** No deadlock: only when queue and goroutines are at rest has the dispatcher no step left to take. */
  lemma NeverStuck(s: State)
    requires s.WellFormed()
    requires !Enabled(s, Dequeue) && forall t: nat, input :: !Enabled(s, Advance(t, input))
    ensures s.schedule.pending == []
    ensures forall t :: 0 <= t < |s.threads| ==> s.threads[t].stage.Rest()
  {
    forall t: nat | t < |s.threads| ensures s.threads[t].stage.Rest() {
      if s.roster.HealthyIDs() == {} {
        assert !Enabled(s, Advance(t, Input(None, true, None, 0)));
      } else {
        var node :| node in s.roster.HealthyIDs();
        assert !Enabled(s, Advance(t, Input(Some(node), true, None, 0)));
      }
    }
  }
}
