// Concrete runs: the bounds and exceptions proved elsewhere are reached.
module Scenarios {
  import opened Types
  import opened Protocol
  import opened Ownership
  import opened Fates
  import opened Retries
  import opened Results
  import opened Cancellation
  import Registry
  import Store

  lemma Extend(past: Trace, a: Action) returns (tr: Trace)
    requires Valid(past) && FreshIDs(past) && Enabled(End(past), a)
    requires a.Submit? ==> a.id !in End(past).store.jobs
    ensures tr == Then(past, a) && Valid(tr) && FreshIDs(tr) && End(tr) == Apply(End(past), a)
  {
    tr := Then(past, a);
  }

  lemma RosterKeepsHealth(roster: Registry.Roster, stage: Stage)
    ensures forall n :: RosterAfter(roster, stage).IsHealthy(n) <==> roster.IsHealthy(n)
  {
  }

  /** The next task from the queue goes to a new goroutine. */
  lemma Take(past: Trace) returns (tr: Trace)
    requires Valid(past) && FreshIDs(past) && End(past).schedule.pending != []
    ensures tr == Then(past, Dequeue) && Valid(tr) && FreshIDs(tr)
    ensures End(tr).threads == End(past).threads + [Thread(End(past).schedule.pending[0], Picking)]
    ensures End(tr).schedule == End(past).schedule.Pop() && End(tr).store == End(past).store
    ensures End(tr).roster == End(past).roster && End(tr).cancels == End(past).cancels
    ensures forall ref :: TallyOf(tr, ref) == TallyOf(past, ref)
  {
    tr := Extend(past, Dequeue);
  }

  /** One step of thread `t`, described by what it does to its own thread, task and job. */
  lemma Drive(past: Trace, t: nat, input: Input) returns (tr: Trace)
    requires Valid(past) && FreshIDs(past) && Enabled(End(past), Advance(t, input))
    ensures tr == Then(past, Advance(t, input)) && Valid(tr) && FreshIDs(tr)
    ensures var ref := End(past).threads[t].ref;
            TallyOf(tr, ref) == TallyStep(End(past), Advance(t, input), ref, TallyOf(past, ref))
    ensures var s, s' := End(past), End(tr);
            var ref, stage := s.threads[t].ref, s.threads[t].stage;
            && s'.threads == s.threads[t := Thread(ref, NextStage(s, t, input))]
            && s'.schedule == ScheduleAfter(s.schedule, ref, stage, input.now)
            && s'.schedule.objects == s.schedule.objects[ref := NextRecord(s, t, input)]
            && s'.schedule.pending == s.schedule.pending + (if EffectOf(s, t).Pushes? then [ref] else [])
            && s'.store == StoreAfter(s.store, s.ID(ref), stage)
            && s'.roster == RosterAfter(s.roster, stage) && s'.cancels == s.cancels
  {
    tr := Extend(past, Advance(t, input));
    OwnedAlways(past);
    AdvanceRecord(End(past), t, input);
    AdvanceTouches(End(past), t, input);
  }

  /** A submission that runs through undisturbed. */
  lemma Accept(past: Trace, ref: Ref, id: string) returns (tr: Trace)
    requires Valid(past) && FreshIDs(past) && End(past).schedule.HasRoom()
    requires ref !in End(past).schedule.objects && id !in End(past).store.jobs && id !in End(past).schedule.tasks
    ensures Valid(tr) && FreshIDs(tr)
    ensures End(tr) == End(past).(schedule := End(past).schedule.Set(ref, NewTask(id)).Insert(ref).Push(ref),
                                  store := End(past).store.SaveJob(Store.Job(id, 0, Pending, None)),
                                  threads := End(past).threads + [Thread(ref, Accepted)])
  {
    var created := Create(past, ref, id);
    tr := EnqueueTask(created, |End(past).threads|);
  }

  /** Both halves of Enqueue. */
  lemma EnqueueTask(past: Trace, t: nat) returns (tr: Trace)
    requires Valid(past) && FreshIDs(past) && End(past).At(t, Inserting)
    requires End(past).ID(End(past).threads[t].ref) !in End(past).schedule.tasks && End(past).schedule.HasRoom()
    ensures Valid(tr) && FreshIDs(tr)
    ensures var ref := End(past).threads[t].ref;
            End(tr) == End(past).(schedule := End(past).schedule.Insert(ref).Push(ref),
                                  threads := End(past).threads[t := Thread(ref, Accepted)])
  {
    var inserted := InsertTask(past, t);
    tr := SendTask(inserted, t);
  }

  lemma InsertTask(past: Trace, t: nat) returns (tr: Trace)
    requires Valid(past) && FreshIDs(past) && End(past).At(t, Inserting)
    requires End(past).ID(End(past).threads[t].ref) !in End(past).schedule.tasks
    ensures Valid(tr) && FreshIDs(tr)
    ensures var ref := End(past).threads[t].ref;
            End(tr) == End(past).(schedule := End(past).schedule.Insert(ref),
                                  threads := End(past).threads[t := Thread(ref, Sending)])
  {
    tr := Extend(past, Advance(t, Input(None, true, None, 0)));
  }

  lemma SendTask(past: Trace, t: nat) returns (tr: Trace)
    requires Valid(past) && FreshIDs(past) && End(past).At(t, Sending) && End(past).schedule.HasRoom()
    ensures Valid(tr) && FreshIDs(tr)
    ensures var ref := End(past).threads[t].ref;
            End(tr) == End(past).(schedule := End(past).schedule.Push(ref),
                                  threads := End(past).threads[t := Thread(ref, Accepted)])
  {
    tr := Extend(past, Advance(t, Input(None, true, None, 0)));
  }

  lemma Create(past: Trace, ref: Ref, id: string) returns (tr: Trace)
    requires Valid(past) && FreshIDs(past) && ref !in End(past).schedule.objects && id !in End(past).store.jobs
    ensures Valid(tr) && FreshIDs(tr)
    ensures End(tr) == End(past).(schedule := End(past).schedule.Set(ref, NewTask(id)),
                                  store := End(past).store.SaveJob(Store.Job(id, 0, Pending, None)),
                                  threads := End(past).threads + [Thread(ref, Inserting)])
  {
    tr := Extend(past, Submit(ref, id, 0));
  }

  /** With no node registered the first task in the queue is taken, and no node is found for it. */
  lemma FindNoNode(past: Trace, ref: Ref) returns (tr: Trace)
    requires Valid(past) && FreshIDs(past) && End(past).roster.nodes == map[]
    requires End(past).schedule.pending != [] && End(past).schedule.pending[0] == ref
    ensures Valid(tr) && FreshIDs(tr) && TallyOf(tr, ref) == TallyOf(past, ref)
    ensures End(tr) == End(past).(schedule := End(past).schedule.Pop(),
                                  threads := End(past).threads + [Thread(ref, NoNode)])
  {
    var mid := Take(past);
    assert End(mid).roster.HealthyIDs() == {};
    tr := Drive(mid, |End(past).threads|, Input(None, true, None, 0));
  }

  /** ... so that it ends up at the second half of Requeue. */
  lemma WaitForNode(past: Trace, ref: Ref) returns (tr: Trace)
    requires Valid(past) && FreshIDs(past) && End(past).roster.nodes == map[]
    requires End(past).schedule.pending != [] && End(past).schedule.pending[0] == ref
    ensures Valid(tr) && FreshIDs(tr)
    ensures End(tr) == End(past).(schedule := End(past).schedule.Pop().Reset(ref),
                                  threads := End(past).threads + [Thread(ref, Requeueing)])
    ensures var record, y, y' := End(past).schedule.objects[ref], TallyOf(past, ref), TallyOf(tr, ref);
            y' == y.(waits := y.waits + 1, early := y.early + if record.retries < record.maxRetries then 1 else 0)
  {
    var mid := FindNoNode(past, ref);
    tr := Drive(mid, |End(past).threads|, Input(None, true, None, 0));
  }

  // Loss

  /** The ID of the k-th submission. */
  function Name(k: nat): (name: string)
    ensures |name| == k
  {
    seq(k, _ => 'x')
  }

  /** k tasks have been created under the first k names; no node is registered. */
  ghost predicate Numbered(s: State, q: nat, k: nat) {
    && s.schedule.maxQueue == q && s.roster.nodes == map[]
    && |s.schedule.objects.Keys| == k
    && (forall ref :: ref in s.schedule.objects ==> ref < k)
    && (forall id :: id in s.schedule.tasks ==> |id| < k)
    && (forall id :: id in s.store.jobs ==> |id| < k)
  }

  /** The first of them has been accepted, and its job is pending. */
  ghost predicate FirstAccepted(s: State) {
    && s.At(0, Accepted) && s.threads[0].ref == 0
    && 0 in s.schedule.objects && s.ID(0) == Name(0)
    && Name(0) in s.store.jobs && s.store.jobs[Name(0)].status == Pending
  }

  ghost predicate Created(tr: Trace, q: nat, k: nat) {
    Valid(tr) && FreshIDs(tr) && Numbered(End(tr), q, k) && (k > 0 ==> FirstAccepted(End(tr)))
  }

  lemma OneMore(s: State, s': State, q: nat, k: nat)
    requires Numbered(s, q, k) && (k > 0 ==> FirstAccepted(s)) && (k == 0 ==> s.threads == [])
    requires s'.schedule == s.schedule.Set(k, NewTask(Name(k))).Insert(k).Push(k)
    requires s'.store == s.store.SaveJob(Store.Job(Name(k), 0, Pending, None)) && s'.roster == s.roster
    requires s'.threads == s.threads + [Thread(k, Accepted)]
    ensures Numbered(s', q, k + 1) && FirstAccepted(s')
  {
    OneMoreTask(s.schedule, k);
  }

  lemma OneMoreTask(schedule: Schedule, k: nat)
    requires k !in schedule.objects
    ensures var schedule' := schedule.Set(k, NewTask(Name(k))).Insert(k).Push(k);
            && schedule'.objects.Keys == schedule.objects.Keys + {k}
            && schedule'.tasks == schedule.tasks[Name(k) := k] && schedule'.maxQueue == schedule.maxQueue
  {
  }

  /** One more submission that finds room. */
  lemma AcceptNext(past: Trace, q: nat, k: nat) returns (tr: Trace)
    requires Created(past, q, k) && End(past).schedule.HasRoom() && (k == 0 ==> End(past).threads == [])
    ensures Created(tr, q, k + 1)
    ensures End(tr).schedule.pending == End(past).schedule.pending + [k]
    ensures End(tr).threads == End(past).threads + [Thread(k, Accepted)]
  {
    tr := Accept(past, k, Name(k));
    OneMore(End(past), End(tr), q, k);
  }

  lemma {:induction false} FillQueue(q: nat, k: nat) returns (tr: Trace)
    requires k <= q
    ensures Created(tr, q, k) && |End(tr).schedule.pending| == |End(tr).threads| == k
    ensures k > 0 ==> End(tr).schedule.pending[0] == 0
  {
    if k == 0 {
      tr := Start(Config(q, 15, 30));
      assert FreshIDs(tr) && End(tr) == Init(tr.config);
    } else {
      tr := FillQueue(q, k - 1);
      tr := AcceptNext(tr, q, k - 1);
    }
  }

  lemma StartRequeue(past: Trace, q: nat) returns (tr: Trace)
    requires q >= 1 && Created(past, q, q) && |End(past).schedule.pending| == |End(past).threads| == q
    requires End(past).schedule.pending[0] == 0
    ensures Created(tr, q, q) && |End(tr).schedule.pending| == q - 1
    ensures End(tr).threads == End(past).threads + [Thread(0, Requeueing)]
  {
    tr := WaitForNode(past, 0);
    assert End(tr).schedule.objects.Keys == End(past).schedule.objects.Keys;
  }

  lemma DropAt(past: Trace, t: nat) returns (tr: Trace)
    requires Valid(past) && FreshIDs(past) && End(past).At(t, Requeueing) && !End(past).schedule.HasRoom()
    ensures Valid(tr) && FreshIDs(tr)
    ensures End(tr) == End(past).(threads := End(past).threads[t := Thread(End(past).threads[t].ref, Dropped)])
  {
    tr := Extend(past, Advance(t, Input(None, true, None, 0)));
  }

  lemma OneLost(s: State, q: nat)
    requires q >= 1 && Numbered(s, q, q + 1) && FirstAccepted(s) && q < |s.threads| && s.threads[q].ref == 0
    ensures var s' := s.(threads := s.threads[q := Thread(0, Dropped)]);
            Numbered(s', q, q + 1) && FirstAccepted(s')
  {
  }

  lemma FillAndLose(q: nat) returns (tr: Trace)
    requires q >= 1
    ensures Created(tr, q, q + 1) && q < |End(tr).threads| && End(tr).threads[q] == Thread(0, Dropped)
  {
    var full := FillQueue(q, q);
    var requeueing := StartRequeue(full, q);
    var refilled := AcceptNext(requeueing, q, q);
    tr := DropAt(refilled, q);
    OneLost(End(refilled), q);
  }

  /** An accepted task can be lost, whatever the queue's capacity and with just one task more than it holds: a
      submission that slips in while the first task is being requeued leaves that task behind for ever, its
      job still pending. */
  lemma AcceptedTaskCanBeLost(q: nat) returns (tr: Trace)
    requires q >= 1
    ensures Valid(tr) && FreshIDs(tr) && End(tr).schedule.maxQueue == q
    ensures |End(tr).schedule.objects.Keys| == q + 1
    ensures FirstAccepted(End(tr)) && HasFate(End(tr), 0, Lost)
  {
    tr := FillAndLose(q);
    assert Holder(End(tr), q, 0);
  }

  lemma LosingRun(q: nat) returns (tr: Trace, t: nat)
    requires q >= 1
    ensures Valid(tr) && End(tr).schedule.maxQueue == q && |End(tr).schedule.objects.Keys| == q + 1
    ensures End(tr).At(t, Dropped)
  {
    tr := FillAndLose(q);
    t := q;
  }

  /** So the bound on live tasks under which none is lost cannot be raised by one, for any capacity. */
  lemma NoLossIsTight(q: nat) returns (tr: Trace, t: nat)
    requires q >= 1
    ensures Valid(tr) && End(tr).schedule.maxQueue == q && MostLive(tr) == q + 1
    ensures End(tr).At(t, Dropped)
  {
    tr, t := LosingRun(q);
    LiveAtMostCreated(tr);
    if MostLive(tr) <= q {
      NoLoss(tr, t);
    }
  }

  // Sends and waits

  /** Nothing but the count of retried sends has changed. */
  ghost predicate SameTally(past: Trace, tr: Trace, ref: Ref)
    requires Valid(past) && Valid(tr)
  {
    TallyOf(tr, ref).(retried := 0) == TallyOf(past, ref).(retried := 0)
  }

  ghost predicate SentOnce(past: Trace, tr: Trace, ref: Ref)
    requires Valid(past) && Valid(tr)
  {
    && TallyOf(tr, ref).sends == TallyOf(past, ref).sends + 1
    && TallyOf(tr, ref).waits == TallyOf(past, ref).waits
    && TallyOf(tr, ref).early == TallyOf(past, ref).early
  }

  /** One task in the queue and one healthy node. */
  ghost predicate Ready(tr: Trace, ref: Ref, node: string) {
    && Valid(tr) && FreshIDs(tr) && End(tr).schedule.maxQueue == 1
    && End(tr).schedule.pending == [ref] && ref in End(tr).schedule.objects
    && End(tr).roster.IsHealthy(node)
  }

  /** One task in the queue and no node registered. */
  ghost predicate Waiting(tr: Trace, ref: Ref) {
    && Valid(tr) && FreshIDs(tr) && End(tr).schedule.maxQueue == 1
    && End(tr).schedule.pending == [ref] && ref in End(tr).schedule.objects
    && End(tr).roster.nodes == map[] && TallyOf(tr, ref).sends == 0
  }

  lemma Submitted(id: string) returns (tr: Trace)
    ensures Waiting(tr, 0) && End(tr).schedule.objects[0] == NewTask(id).(status := Pending)
    ensures End(tr).store.jobs == map[id := Store.Job(id, 0, Pending, None)] && End(tr).cancels == multiset{}
    ensures TallyOf(tr, 0) == Tally(0, 0, 0, 0)
  {
    var none := Start(Config(1, 15, 30));
    assert FreshIDs(none) && End(none) == Init(none.config);
    tr := Accept(none, 0, id);
    BalancedAlways(tr, 0);
  }

  lemma AddNode(past: Trace, ref: Ref, node: string) returns (tr: Trace)
    requires Waiting(past, ref)
    ensures Ready(tr, ref, node) && TallyOf(tr, ref) == TallyOf(past, ref)
    ensures End(tr).schedule == End(past).schedule && End(tr).store == End(past).store
    ensures End(tr).cancels == End(past).cancels
  {
    tr := Extend(past, Register(node, "", 1, 0));
  }

  lemma MakeReady(id: string, node: string) returns (tr: Trace)
    ensures Ready(tr, 0, node) && End(tr).schedule.objects[0] == NewTask(id).(status := Pending)
    ensures End(tr).store.jobs == map[id := Store.Job(id, 0, Pending, None)] && End(tr).cancels == multiset{}
    ensures TallyOf(tr, 0) == Tally(0, 0, 0, 0)
  {
    tr := Submitted(id);
    tr := AddNode(tr, 0, node);
  }

  /** What one goroutine sees and changes. */
  datatype View = View(stage: Stage, record: TaskRecord, store: Store.Records)
  {
    predicate Moves() {
      !stage.Rest() && !stage.Picking? && !stage.NoNode? && !stage.OfSubmit() && !stage.Requeueing?
    }

    function Next(input: Input): View {
      View(StageAfter(stage, record, input, true, true),
           RecordAfter(stage, record, input.now, true),
           StoreAfter(store, record.id, stage))
    }

  }

  predicate Follows(view: View, next: View, input: Input) {
    view.Moves() && next == view.Next(input)
  }

  /** A goroutine alone in the system, with its task and a healthy node. */
  ghost predicate Alone(tr: Trace, t: nat, ref: Ref, node: string, view: View) {
    && Valid(tr) && FreshIDs(tr) && t < |End(tr).threads| && End(tr).threads[t] == Thread(ref, view.stage)
    && ref in End(tr).schedule.objects && End(tr).schedule.objects[ref] == view.record
    && End(tr).store == view.store
    && End(tr).schedule.pending == [] && End(tr).schedule.maxQueue == 1
    && End(tr).roster.IsHealthy(node)
  }

  /** One of its steps between the choice of the node and the requeueing send. */
  lemma Go(past: Trace, t: nat, ref: Ref, node: string, view: View, next: View, input: Input) returns (tr: Trace)
    requires Alone(past, t, ref, node, view) && Follows(view, next, input)
    ensures Alone(tr, t, ref, node, next) && Prefix(past, tr)
    ensures SameTally(past, tr, ref) && End(tr).cancels == End(past).cancels
  {
    tr := Drive(past, t, input);
    RosterKeepsHealth(End(past).roster, view.stage);
  }

  /** Such steps one after the other, through the given views. */
  lemma {:induction false} GoOn(past: Trace, t: nat, ref: Ref, node: string, views: seq<View>, input: Input)
    returns (tr: Trace)
    requires views != [] && Path(views, views[0], input) && Alone(past, t, ref, node, views[0])
    ensures Alone(tr, t, ref, node, views[|views| - 1]) && Prefix(past, tr)
    ensures SameTally(past, tr, ref) && End(tr).cancels == End(past).cancels
    decreases |views|
  {
    if |views| == 1 {
      tr := past;
    } else {
      assert Follows(views[0], views[1], input);
      var mid := Go(past, t, ref, node, views[0], views[1], input);
      tr := GoOn(mid, t, ref, node, views[1..], input);
      PrefixJoins(past, mid, tr);
    }
  }

  ghost predicate Path(views: seq<View>, first: View, input: Input) {
    && views != [] && views[0] == first
    && forall k :: 0 <= k < |views| - 1 ==> Follows(views[k], views[k + 1], input)
  }

  lemma FailingPath(view: View, node: string, input: Input) returns (views: seq<View>)
    requires view.stage == Connecting(node) && !input.dialed && view.record.retries < view.record.maxRetries
    ensures Path(views, view, input)
    ensures var end := views[|views| - 1];
            && end.stage == Requeueing && end.record.id == view.record.id
            && end.store == view.store.UpdateJobStatus(view.record.id, Failed)
            && end.record.retries == view.record.retries + 1 && end.record.maxRetries == view.record.maxRetries
  {
    var v1 := view.Next(input);
    var v2 := v1.Next(input);
    var v3 := v2.Next(input);
    assert v3.stage == Deciding && v3.record.CanRetry();
    var v4 := v3.Next(input);
    views := [view, v1, v2, v3, v4, v4.Next(input)];
  }

  lemma GivingUpPath(view: View, node: string, input: Input) returns (views: seq<View>)
    requires view.stage == Connecting(node) && !input.dialed && view.record.retries >= view.record.maxRetries
    ensures Path(views, view, input) && views[|views| - 1].stage == Exhausted
  {
    var v1 := view.Next(input);
    var v2 := v1.Next(input);
    var v3 := v2.Next(input);
    assert v3.stage == Deciding && !v3.record.CanRetry();
    views := [view, v1, v2, v3, v3.Next(input)];
  }

  lemma SucceedingPath(view: View, node: string, input: Input, r: Result) returns (views: seq<View>)
    requires view.stage == Connecting(node) && input.dialed && input.reply.Some?
    requires r == ToResult(view.record.id, node, input.reply.value, input.now)
    ensures Path(views, view, input)
    ensures var end := views[|views| - 1];
            && end.store == view.store.SaveResult(r) && end.stage == Finished
            && end.record.id == view.record.id && end.record.status == Completed
  {
    var v1 := view.Next(input);
    var v2 := v1.Next(input);
    var v3 := v2.Next(input);
    var v4 := v3.Next(input);
    assert v4.stage == Saving(node, r) && v4.store == view.store;
    var v5 := v4.Next(input);
    var v6 := v5.Next(input);
    views := [view, v1, v2, v3, v4, v5, v6, v6.Next(input)];
  }

  /** Dequeue and send to the node. */
  lemma SendOff(past: Trace, ref: Ref, node: string) returns (tr: Trace, t: nat)
    requires Ready(past, ref, node)
    ensures Alone(tr, t, ref, node, View(Connecting(node), End(past).schedule.objects[ref], End(past).store))
    ensures Prefix(past, tr)
    ensures SentOnce(past, tr, ref) && End(tr).cancels == End(past).cancels
  {
    t := |End(past).threads|;
    var mid := Take(past);
    assert node in End(mid).roster.HealthyIDs();
    assert End(mid).threads[t] == Thread(ref, Picking) && SameTally(past, mid, ref);
    tr := Drive(mid, t, Input(Some(node), true, None, 0));
  }

  lemma Requeue(past: Trace, t: nat, ref: Ref, node: string, view: View) returns (tr: Trace)
    requires Alone(past, t, ref, node, view) && view.stage == Requeueing
    ensures Ready(tr, ref, node) && End(tr).schedule.objects[ref] == view.record
    ensures SameTally(past, tr, ref)
  {
    tr := Drive(past, t, Input(None, true, None, 0));
  }

  /** One round in which the dial fails and the task is retried. */
  lemma FailedRound(past: Trace, ref: Ref, node: string) returns (tr: Trace)
    requires Ready(past, ref, node)
    requires var record := End(past).schedule.objects[ref]; record.retries < record.maxRetries
    ensures Ready(tr, ref, node) && SentOnce(past, tr, ref)
    ensures var record, record' := End(past).schedule.objects[ref], End(tr).schedule.objects[ref];
            record'.retries == record.retries + 1 && record'.maxRetries == record.maxRetries
  {
    var refused := Input(None, false, None, 0);
    var view := View(Connecting(node), End(past).schedule.objects[ref], End(past).store);
    var t: nat;
    tr, t := SendOff(past, ref, node);
    var views := FailingPath(view, node, refused);
    tr := GoOn(tr, t, ref, node, views, refused);
    tr := Requeue(tr, t, ref, node, views[|views| - 1]);
  }

  /** The bound on sends is reached: MaxRetries + 1 of them. */
  lemma SendBoundReached(id: string, node: string) returns (tr: Trace)
    ensures Valid(tr) && FreshIDs(tr) && TallyOf(tr, 0).sends == 4
  {
    tr := MakeReady(id, node);
    tr := FailedRound(tr, 0, node);
    tr := FailedRound(tr, 0, node);
    tr := FailedRound(tr, 0, node);
    var t: nat;
    tr, t := SendOff(tr, 0, node);
  }

  /** One round in which no node is healthy and the task is queued again. */
  lemma WaitRound(past: Trace, ref: Ref) returns (tr: Trace)
    requires Waiting(past, ref)
    ensures Waiting(tr, ref)
    ensures var record, record' := End(past).schedule.objects[ref], End(tr).schedule.objects[ref];
            && record' == record.AsRequeued()
            && TallyOf(tr, ref).waits == TallyOf(past, ref).waits + 1
            && TallyOf(tr, ref).early == TallyOf(past, ref).early + if record.retries < record.maxRetries then 1 else 0
  {
    var mid := WaitForNode(past, ref);
    tr := Drive(mid, |End(past).threads|, Input(None, true, None, 0));
  }

  /** Waiting is not limited: a task can be requeued any number of times without one send. */
  lemma {:induction false} WaitsWithoutSend(id: string, n: nat) returns (tr: Trace)
    ensures Waiting(tr, 0) && End(tr).schedule.objects[0].maxRetries == DEFAULT_MAX_RETRIES
    ensures End(tr).schedule.objects[0].retries == n && TallyOf(tr, 0) == Tally(0, 0, n, Least(n, DEFAULT_MAX_RETRIES))
  {
    if n == 0 {
      tr := Submitted(id);
    } else {
      tr := WaitsWithoutSend(id, n - 1);
      tr := WaitRound(tr, 0);
      BalancedAlways(tr, 0);
    }
  }

  function Least(a: nat, b: nat): nat {
    if a < b then a else b
  }

  /** The last round: the dial fails and no retry is left. */
  lemma GivingUp(past: Trace, ref: Ref, node: string) returns (tr: Trace, t: nat)
    requires Ready(past, ref, node)
    requires var record := End(past).schedule.objects[ref]; record.retries >= record.maxRetries
    ensures Valid(tr) && FreshIDs(tr) && End(tr).At(t, Exhausted) && End(tr).threads[t].ref == ref
    ensures SentOnce(past, tr, ref)
  {
    var refused := Input(None, false, None, 0);
    var view := View(Connecting(node), End(past).schedule.objects[ref], End(past).store);
    var views := GivingUpPath(view, node, refused);
    tr, t := SendOff(past, ref, node);
    tr := GoOn(tr, t, ref, node, views, refused);
  }

  /** Every price is paid in some run: w waits before the first send leave a task that no worker accepts
      MaxRetries + 1 - w sends, but always one. */
  lemma GivenUpAfterWaits(id: string, node: string, w: nat) returns (tr: Trace, t: nat)
    ensures Valid(tr) && FreshIDs(tr) && End(tr).At(t, Exhausted) && End(tr).threads[t].ref == 0
    ensures TallyOf(tr, 0).waits == w
    ensures TallyOf(tr, 0).sends == if w < 3 then 4 - w else 1
  {
    tr := WaitsWithoutSend(id, w);
    tr := AddNode(tr, 0, node);
    var k := Least(w, DEFAULT_MAX_RETRIES);
    while k < DEFAULT_MAX_RETRIES
      invariant k <= DEFAULT_MAX_RETRIES && Ready(tr, 0, node)
      invariant End(tr).schedule.objects[0].maxRetries == DEFAULT_MAX_RETRIES
      invariant End(tr).schedule.objects[0].retries == if w < DEFAULT_MAX_RETRIES then k else w
      invariant TallyOf(tr, 0).waits == w && TallyOf(tr, 0).early == Least(w, DEFAULT_MAX_RETRIES)
    {
      tr := FailedRound(tr, 0, node);
      k := k + 1;
    }
    tr, t := GivingUp(tr, 0, node);
    GivesUpOnlyWhenSpent(tr, t);
  }

  /** One round in which the worker answers. */
  lemma ServedRound(past: Trace, ref: Ref, id: string, node: string, status: ExecutionStatus)
    returns (tr: Trace, t: nat, r: Result)
    requires Ready(past, ref, node) && End(past).schedule.objects[ref].id == id
    ensures Valid(tr) && FreshIDs(tr) && Prefix(past, tr) && End(tr).cancels == End(past).cancels
    ensures r.taskID == id && (r.IsSuccess() <==> status == ExecSuccess)
    ensures End(tr).store == End(past).store.SaveResult(r)
    ensures End(tr).At(t, Finished) && End(tr).threads[t].ref == ref
    ensures ref in End(tr).schedule.objects
    ensures End(tr).schedule.objects[ref].id == id && End(tr).schedule.objects[ref].status == Completed
  {
    var view := View(Connecting(node), End(past).schedule.objects[ref], End(past).store);
    var ok := Input(None, true, Some(Response(status, "", 0, "")), 0);
    r := ToResult(id, node, ok.reply.value, 0);
    tr, t := SendOff(past, ref, node);
    var views := SucceedingPath(view, node, ok, r);
    var mid := tr;
    tr := GoOn(mid, t, ref, node, views, ok);
    PrefixJoins(past, mid, tr);
  }

  /** A Cancel that reads before the result and writes after it leaves a job with a recorded success
      that calls itself cancelled. */
  lemma LateCancelReached(id: string, node: string) returns (tr: Trace, t: nat)
    ensures Valid(tr) && FreshIDs(tr) && LateCancel(tr, id)
    ensures Settled(End(tr), t, id) && CancelStands(tr, id)
    ensures id in End(tr).store.results && End(tr).store.results[id].IsSuccess()
    ensures id in End(tr).store.jobs && End(tr).store.jobs[id].status == Cancelled
  {
    tr := MakeReady(id, node);
    tr := Extend(tr, CancelRead(id));
    assert End(tr).cancels == multiset{id} && Ready(tr, 0, node);
    var r: Result;
    tr, t, r := ServedRound(tr, 0, id, node, ExecSuccess);
    tr := WriteLate(tr, t, id);
  }

  lemma WriteLate(past: Trace, t: nat, id: string) returns (tr: Trace)
    requires Valid(past) && FreshIDs(past) && id in End(past).cancels && Settled(End(past), t, id)
    requires id in End(past).store.jobs && id in End(past).store.results && End(past).store.results[id].IsSuccess()
    ensures Valid(tr) && FreshIDs(tr) && LateCancel(tr, id)
    ensures Settled(End(tr), t, id) && CancelStands(tr, id)
    ensures id in End(tr).store.results && End(tr).store.results[id].IsSuccess()
    ensures id in End(tr).store.jobs && End(tr).store.jobs[id].status == Cancelled
  {
    tr := Extend(past, CancelWrite(id));
  }

  /** A worker's answer of failure completes the task in the scheduler and fails the job in the store. */
  lemma FailedResultCompletesTask(id: string, node: string) returns (tr: Trace)
    ensures Valid(tr) && FreshIDs(tr) && 0 in End(tr).schedule.objects && End(tr).ID(0) == id
    ensures End(tr).schedule.objects[0].status == Completed
    ensures id in End(tr).store.jobs && End(tr).store.jobs[id].status == Failed
  {
    tr := MakeReady(id, node);
    var t: nat, r: Result;
    tr, t, r := ServedRound(tr, 0, id, node, ExecFailure);
  }

  /** A Cancel that reads and writes before the dispatch does not stick: the task is dispatched all the same,
      and the job ends up completed. */
  lemma CancelledThenCompleted(id: string, node: string) returns (mid: Trace, tr: Trace)
    ensures Valid(tr) && FreshIDs(tr) && Prefix(mid, tr) && Valid(mid)
    ensures id in End(mid).store.jobs && End(mid).store.jobs[id].status == Cancelled
    ensures id in End(tr).store.jobs && End(tr).store.jobs[id].status == Completed
  {
    mid := MakeReady(id, node);
    mid := Extend(mid, CancelRead(id));
    assert End(mid).cancels == multiset{id};
    mid := Extend(mid, CancelWrite(id));
    var t: nat, r: Result;
    tr, t, r := ServedRound(mid, 0, id, node, ExecSuccess);
  }
}
