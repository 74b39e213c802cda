// The master's dispatch protocol as a transition system. Every critical section of the scheduler, the
// store and the registry is one atomic action; submit handlers, dispatch goroutines, cancel handlers and
// registry calls interleave freely between them.
module Protocol {
  import opened Types
  import Scheduler
  import Store
  import Registry

  /** The identity of a task object: the pointer that queue, task map and goroutines share. */
  type Ref = nat

  type Schedule = Scheduler.Schedule<Ref>

  datatype Config = Config(maxQueue: nat, heartbeatTimeout: int, unhealthyTimeout: int)

  /** Where the code of one submit handler or one dispatch goroutine stands. */
  datatype Stage =
      // Submit, after SaveJob
    | Inserting                                  // Enqueue's locked half
    | Sending                                    // Enqueue's non-blocking send
    | RollingBack                                // the channel was full
    | Accepted
    | Rejected
      // dispatchTask
    | Picking                                    // GetHealthyNodes and Select
    | NoNode                                     // asleep before Requeue's locked half
    | Connecting(node: string)                   // getClient
    | Starting(node: string)                     // MarkRunning
    | Counting(node: string)                     // IncrementActiveTasks
    | Executing(node: string)                    // the call to the worker
    | Uncounting(node: string)                   // DecrementActiveTasks after a failed call
    | Failing                                    // MarkFailed
    | StoringFailure                             // UpdateJobStatus
    | Deciding                                   // CanRetry
    | Retrying                                   // Requeue's locked half
    | Requeueing                                 // Requeue's non-blocking send
    | Saving(node: string, result: Result)       // SaveResult
    | Completing(node: string, result: Result)   // MarkComplete
    | Releasing(node: string)                    // DecrementActiveTasks after a result
    | Requeued
    | Finished
    | Exhausted
    | Dropped
  {
    /** The handler or goroutine has returned. */
    predicate Rest() {
      Accepted? || Rejected? || Requeued? || Finished? || Exhausted? || Dropped?
    }

    /** The task is here, and has not been passed on to the queue. */
    predicate Holds() {
      !Accepted? && !Requeued?
    }

    predicate OfSubmit() {
      Inserting? || Sending? || RollingBack? || Accepted? || Rejected?
    }
  }

  datatype Thread = Thread(ref: Ref, stage: Stage)

  datatype State = State(
    schedule: Schedule,
    store: Store.Records,
    roster: Registry.Roster,
    threads: seq<Thread>,
    cancels: multiset<string>)   // Cancel calls that have read a status and are about to write
  {
    ghost predicate WellFormed() {
      && schedule.WellFormed()
      && forall t :: 0 <= t < |threads| ==> threads[t].ref in schedule.objects
    }

    predicate At(t: nat, stage: Stage) {
      t < |threads| && threads[t].stage == stage
    }

    function ID(ref: Ref): string
      requires ref in schedule.objects
    {
      schedule.objects[ref].id
    }
  }

  /** What a step takes from outside: the balancer's choice, the dial, the worker's reply, the clock. */
  datatype Input = Input(choice: Option<string>, dialed: bool, reply: Option<Response>, now: int)

  datatype Action =
    | Submit(ref: Ref, id: string, now: int)
    | Dequeue
    | Advance(t: nat, input: Input)
    | CancelRead(id: string)
    | CancelWrite(id: string)
    | Register(id: string, address: string, maxTasks: int, now: int)
    | Deregister(id: string)
    | Heartbeat(id: string, activeTasks: int, now: int)
    | CheckHealth(now: int)

  function Init(c: Config): State {
    State(
      Scheduler.Schedule(map[], map[], [], c.maxQueue),
      Store.Records(map[], map[]),
      Registry.Roster(map[], c.heartbeatTimeout, c.unhealthyTimeout),
      [],
      multiset{})
  }

  ghost predicate Enabled(s: State, a: Action) {
    match a
    case Submit(ref, _, _) => ref !in s.schedule.objects
    case Dequeue => s.schedule.pending != []
    case Advance(t, input) =>
      && t < |s.threads|
      && !s.threads[t].stage.Rest()
      && (s.threads[t].stage.Picking? ==>
            if s.roster.HealthyIDs() == {} then input.choice == None
            else input.choice.Some? && s.roster.IsHealthy(input.choice.value))
    case CancelRead(id) => id in s.store.jobs
    case CancelWrite(id) => id in s.cancels
    case _ => true
  }

  // One step of a submit handler or of a dispatch goroutine: where it leads, and what its critical section does

  /** `known` is what Enqueue's test of the task map finds, `room` what a non-blocking send finds. */
  function StageAfter(stage: Stage, record: TaskRecord, input: Input, known: bool, room: bool): Stage {
    match stage
    case Inserting => if known then Rejected else Sending
    case Sending => if room then Accepted else RollingBack
    case RollingBack => Rejected
    case Picking => if input.choice.None? then NoNode else Connecting(input.choice.value)
    case NoNode => Requeueing
    case Connecting(node) => if input.dialed then Starting(node) else Failing
    case Starting(node) => Counting(node)
    case Counting(node) => Executing(node)
    case Executing(node) =>
      if input.reply.None? then Uncounting(node)
      else Saving(node, ToResult(record.id, node, input.reply.value, input.now))
    case Uncounting(_) => Failing
    case Failing => StoringFailure
    case StoringFailure => Deciding
    case Deciding => if record.CanRetry() then Retrying else Exhausted
    case Retrying => Requeueing
    case Requeueing => if room then Requeued else Dropped
    case Saving(node, result) => Completing(node, result)
    case Completing(node, _) => Releasing(node)
    case Releasing(_) => Finished
    case _ => stage
  }

  function ScheduleAfter(schedule: Schedule, ref: Ref, stage: Stage, now: int): (schedule': Schedule)
    requires ref in schedule.objects
    ensures schedule.WellFormed() ==> schedule'.WellFormed()
    ensures schedule'.objects.Keys == schedule.objects.Keys && schedule'.maxQueue == schedule.maxQueue
  {
    var id := schedule.objects[ref].id;
    match stage
    case Inserting => if id in schedule.tasks then schedule else schedule.Insert(ref)
    case RollingBack => schedule.Remove(id)
    case Sending => if schedule.HasRoom() then schedule.Push(ref) else schedule
    case Requeueing => if schedule.HasRoom() then schedule.Push(ref) else schedule
    case NoNode => schedule.Reset(ref)
    case Retrying => schedule.Reset(ref)
    case Starting(node) => schedule.MarkRunning(id, node, now)
    case Failing => schedule.MarkFailed(id, now)
    case Completing(_, _) => schedule.MarkComplete(id, now)
    case _ => schedule
  }

  function StoreAfter(store: Store.Records, id: string, stage: Stage): Store.Records {
    match stage
    case Saving(_, result) => store.SaveResult(result)
    case StoringFailure => store.UpdateJobStatus(id, Failed)
    case _ => store
  }

  function RosterAfter(roster: Registry.Roster, stage: Stage): Registry.Roster {
    match stage
    case Counting(node) => roster.Increment(node)
    case Uncounting(node) => roster.Decrement(node)
    case Releasing(node) => roster.Decrement(node)
    case _ => roster
  }

  function NextStage(s: State, t: nat, input: Input): Stage
    requires t < |s.threads| && s.threads[t].ref in s.schedule.objects
  {
    var record := s.schedule.objects[s.threads[t].ref];
    StageAfter(s.threads[t].stage, record, input, record.id in s.schedule.tasks, s.schedule.HasRoom())
  }

  ghost function AdvanceThread(s: State, t: nat, input: Input): (s': State)
    requires s.WellFormed() && t < |s.threads| && !s.threads[t].stage.Rest()
    ensures s'.WellFormed() && s'.schedule.maxQueue == s.schedule.maxQueue
  {
    var ref, stage := s.threads[t].ref, s.threads[t].stage;
    s.(schedule := ScheduleAfter(s.schedule, ref, stage, input.now),
       store := StoreAfter(s.store, s.ID(ref), stage),
       roster := RosterAfter(s.roster, stage),
       threads := s.threads[t := Thread(ref, NextStage(s, t, input))])
  }

  ghost function Apply(s: State, a: Action): (s': State)
    requires s.WellFormed() && Enabled(s, a)
    ensures s'.WellFormed() && s'.schedule.maxQueue == s.schedule.maxQueue
  {
    match a
    case Submit(ref, id, now) =>
      s.(store := s.store.SaveJob(Store.Job(id, now, Pending, None)),
         schedule := s.schedule.Set(ref, NewTask(id)),
         threads := s.threads + [Thread(ref, Inserting)])
    case Dequeue =>
      s.(schedule := s.schedule.Pop(), threads := s.threads + [Thread(s.schedule.pending[0], Picking)])
    case Advance(t, input) => AdvanceThread(s, t, input)
    case CancelRead(id) =>
      if Store.Cancellable(s.store.jobs[id].status) then s.(cancels := s.cancels + multiset{id}) else s
    case CancelWrite(id) =>
      s.(store := s.store.UpdateJobStatus(id, Cancelled), cancels := s.cancels - multiset{id})
    case Register(id, address, maxTasks, now) =>
      s.(roster := s.roster.Register(Registry.NodeInfo(id, address, maxTasks, 0, now, Registry.Healthy), now))
    case Deregister(id) => s.(roster := s.roster.Deregister(id))
    case Heartbeat(id, activeTasks, now) => s.(roster := s.roster.Heartbeat(id, activeTasks, now))
    case CheckHealth(now) => s.(roster := s.roster.CheckHealth(now))
  }

  lemma TasksStay(s: State, a: Action)
    requires s.WellFormed() && Enabled(s, a)
    ensures s.schedule.objects.Keys <= Apply(s, a).schedule.objects.Keys
  {
  }

  // Runs

  datatype Trace = Start(config: Config) | Then(past: Trace, last: Action)

  ghost predicate Valid(tr: Trace)
    decreases tr, 0
  {
    tr.Then? ==> Valid(tr.past) && Enabled(End(tr.past), tr.last)
  }

  ghost function End(tr: Trace): (s: State)
    requires Valid(tr)
    ensures s.WellFormed()
    decreases tr, 1
  {
    match tr
    case Start(c) => Init(c)
    case Then(past, last) => Apply(End(past), last)
  }

  /** `early` is the same run, stopped sooner. */
  ghost predicate Prefix(early: Trace, late: Trace) {
    early == late || (late.Then? && Prefix(early, late.past))
  }

  lemma {:induction false} PrefixJoins(early: Trace, mid: Trace, late: Trace)
    requires Prefix(early, mid) && Prefix(mid, late)
    ensures Prefix(early, late)
  {
    if mid != late {
      PrefixJoins(early, mid, late.past);
    }
  }

  /** No submission reuses an ID: what a random UUID gives the submit handler. */
  ghost predicate FreshIDs(tr: Trace)
    requires Valid(tr)
  {
    tr.Then? ==>
      && FreshIDs(tr.past)
      && (tr.last.Submit? ==> tr.last.id !in End(tr.past).store.jobs)
  }
}
