// The master's scheduler: a bounded queue of task objects and a map from IDs to the same objects.
module Scheduler {
  import opened Types
  import Listing

  /** The scheduler's state over task identities of any type, with its critical sections as functions. */
  datatype Schedule<Ref(==)> = Schedule(
    objects: map<Ref, TaskRecord>,
    tasks: map<string, Ref>,
    pending: seq<Ref>,
    maxQueue: nat)
  {
    ghost predicate WellFormed() {
      && (forall id :: id in tasks ==> tasks[id] in objects)
      && (forall k :: 0 <= k < |pending| ==> pending[k] in objects)
      && |pending| <= maxQueue
    }

    predicate HasRoom() {
      |pending| < maxQueue
    }

    /** First half of Enqueue; it is taken only when the ID is free. */
    function Insert(ref: Ref): Schedule<Ref>
      requires ref in objects
    {
      var record := objects[ref];
      this.(objects := objects[ref := record.(status := Pending)], tasks := tasks[record.id := ref])
    }

    /** Second half of Enqueue and of Requeue, when the channel has room. */
    function Push(ref: Ref): Schedule<Ref> {
      this.(pending := pending + [ref])
    }

    /** Enqueue's rollback, when the channel is full. */
    function Remove(id: string): Schedule<Ref> {
      this.(tasks := tasks - {id})
    }

    function Pop(): Schedule<Ref>
      requires pending != []
    {
      this.(pending := pending[1..])
    }

    /** Is `id` known? If not, the Mark operations return an error and change nothing. */
    predicate Has(id: string) {
      id in tasks && tasks[id] in objects
    }

    function Set(ref: Ref, record: TaskRecord): Schedule<Ref> {
      this.(objects := objects[ref := record])
    }

    function MarkRunning(id: string, worker: string, now: int): Schedule<Ref> {
      if !Has(id) then this
      else Set(tasks[id], objects[tasks[id]].AsRunning(worker, now))
    }

    function MarkComplete(id: string, now: int): Schedule<Ref> {
      if !Has(id) then this
      else Set(tasks[id], objects[tasks[id]].AsCompleted(now))
    }

    function MarkFailed(id: string, now: int): Schedule<Ref> {
      if !Has(id) then this
      else Set(tasks[id], objects[tasks[id]].AsFailed(now))
    }

    /** The locked half of Requeue: the retry is counted and the assignment is forgotten. */
    function Reset(ref: Ref): Schedule<Ref>
      requires ref in objects
    {
      Set(ref, objects[ref].AsRequeued())
    }
  }

  /** The rollback of a refused Enqueue takes out the entry that Enqueue put in, and no other. */
  lemma RollbackUndoesInsert<Ref>(s: Schedule<Ref>, ref: Ref)
    requires ref in s.objects && s.objects[ref].id !in s.tasks
    ensures s.Insert(ref).Remove(s.objects[ref].id) == s.Insert(ref).(tasks := s.tasks)
  {
    assert s.tasks[s.objects[ref].id := ref] - {s.objects[ref].id} == s.tasks;
  }

  class Task {
    const id: string
    const maxRetries: int
    var status: TaskStatus
    var retries: nat
    var workerID: string
    var startedAt: Option<int>
    var completedAt: Option<int>

    function Record(): TaskRecord
      reads this
    {
      TaskRecord(id, status, retries, maxRetries, workerID, startedAt, completedAt)
    }

    constructor (id: string)
      ensures Record() == NewTask(id)
      ensures this.id == id && status == Created && retries == 0 && maxRetries == 3
      ensures workerID == "" && startedAt == None && completedAt == None
    {
      this.id, maxRetries := id, DEFAULT_MAX_RETRIES;
      status, retries, workerID := Created, 0, "";
      startedAt, completedAt := None, None;
    }

    method CanRetry() returns (b: bool)
      ensures b == Record().CanRetry()
      ensures b <==> retries < maxRetries && status == Failed
    {
      b := retries < maxRetries && status == Failed;
    }
  }

  datatype Outcome = Done | QueueFull | TaskExists | TaskNotFound

  class Scheduler {
    var pending: seq<Task>
    var tasks: map<string, Task>
    const maxQueue: nat
    /** Every task object the scheduler may meet: those it stores and those its callers hold. */
    ghost var known: set<Task>

    ghost predicate Valid()
      reads this
    {
      && maxQueue > 0
      && |pending| <= maxQueue
      && (forall t :: t in pending ==> t in known)
      && (forall id :: id in tasks ==> tasks[id] in known)
    }

    ghost function View(): Schedule<Task>
      reads this, known
    {
      Schedule(map t | t in known :: t.Record(), tasks, pending, maxQueue)
    }

    constructor (maxQueueSize: int, ghost known: set<Task>)
      ensures Valid() && this.known == known
      ensures maxQueue == if maxQueueSize <= 0 then 10000 else maxQueueSize
      ensures View().tasks == map[] && View().pending == []
    {
      maxQueue := if maxQueueSize <= 0 then 10000 else maxQueueSize;
      pending, tasks := [], map[];
      this.known := known;
    }

    /** A new task object comes into the scheduler's world, before anything is done with it. */
    ghost method Meet(task: Task)
      requires Valid()
      modifies this`known
      ensures Valid() && known == old(known) + {task}
      ensures View() == old(View()).(objects := old(View()).objects[task := task.Record()])
    {
      known := known + {task};
    }

    method EnqueueInsert(task: Task) returns (outcome: Outcome)
      requires Valid() && task in known
      modifies this`tasks, task`status
      ensures Valid()
      ensures outcome == if task.id in old(tasks) then TaskExists else Done
      ensures View() == if outcome == Done then old(View()).Insert(task) else old(View())
      ensures outcome == Done ==> tasks == old(tasks)[task.id := task] && task.status == Pending
      ensures outcome != Done ==> tasks == old(tasks) && task.status == old(task.status)
    {
      if task.id in tasks {
        return TaskExists;
      }
      task.status := Pending;
      tasks := tasks[task.id := task];
      return Done;
    }

    /** The non-blocking send on the bounded channel. */
    method TrySend(task: Task) returns (sent: bool)
      requires Valid() && task in known
      modifies this`pending
      ensures Valid()
      ensures sent == old(View()).HasRoom()
      ensures View() == if sent then old(View()).Push(task) else old(View())
    {
      if |pending| < maxQueue {
        pending := pending + [task];
        return true;
      }
      return false;
    }

    /** Both halves with nobody in between. */
    method Enqueue(task: Task) returns (outcome: Outcome)
      requires Valid() && task in known
      modifies this`tasks, this`pending, task`status
      ensures Valid()
      ensures outcome == if task.id in old(tasks) then TaskExists
                         else if old(View()).HasRoom() then Done else QueueFull
      ensures outcome == Done ==>
                && pending == old(pending) + [task] && tasks == old(tasks)[task.id := task] && task.status == Pending
      ensures outcome != Done ==> pending == old(pending) && tasks == old(tasks)
      ensures View() == match outcome
                        case Done => old(View()).Insert(task).Push(task)
                        case QueueFull => old(View()).Insert(task).Remove(task.id)
                        case _ => old(View())
    {
      outcome := EnqueueInsert(task);
      if outcome == TaskExists {
        return;
      }
      var sent := TrySend(task);
      if !sent {
        tasks := tasks - {task.id};
        outcome := QueueFull;
      }
    }

    /** Blocks while the queue is empty, so it is only taken on a non-empty one. */
    method Dequeue() returns (task: Task)
      requires Valid() && pending != []
      modifies this`pending
      ensures Valid()
      ensures task == old(pending)[0] && View() == old(View()).Pop()
    {
      task, pending := pending[0], pending[1..];
    }

    method MarkRunning(taskID: string, worker: string, now: int) returns (outcome: Outcome)
      requires Valid()
      modifies if taskID in tasks then {tasks[taskID]} else {}
      ensures Valid()
      ensures outcome == if taskID in tasks then Done else TaskNotFound
      ensures View() == old(View()).MarkRunning(taskID, worker, now)
      ensures taskID in tasks ==>
                var task := tasks[taskID];
                && task.Record() == old(task.Record()).AsRunning(worker, now)
                && task.status == Running && task.startedAt == Some(now) && task.workerID == worker
                && task.retries == old(task.retries) && task.completedAt == old(task.completedAt)
    {
      if taskID !in tasks {
        return TaskNotFound;
      }
      var task := tasks[taskID];
      task.status, task.startedAt, task.workerID := Running, Some(now), worker;
      return Done;
    }

    method MarkComplete(taskID: string, now: int) returns (outcome: Outcome)
      requires Valid()
      modifies if taskID in tasks then {tasks[taskID]} else {}
      ensures Valid()
      ensures outcome == if taskID in tasks then Done else TaskNotFound
      ensures View() == old(View()).MarkComplete(taskID, now)
      ensures taskID in tasks ==>
                var task := tasks[taskID];
                && task.Record() == old(task.Record()).AsCompleted(now)
                && task.status == Completed && task.completedAt == Some(now)
                && task.retries == old(task.retries) && task.workerID == old(task.workerID)
                && task.startedAt == old(task.startedAt)
    {
      if taskID !in tasks {
        return TaskNotFound;
      }
      var task := tasks[taskID];
      task.status, task.completedAt := Completed, Some(now);
      return Done;
    }

    method MarkFailed(taskID: string, now: int) returns (outcome: Outcome)
      requires Valid()
      modifies if taskID in tasks then {tasks[taskID]} else {}
      ensures Valid()
      ensures outcome == if taskID in tasks then Done else TaskNotFound
      ensures View() == old(View()).MarkFailed(taskID, now)
      ensures taskID in tasks ==>
                var task := tasks[taskID];
                && task.Record() == old(task.Record()).AsFailed(now)
                && task.status == Failed && task.completedAt == Some(now)
                && task.retries == old(task.retries) && task.workerID == old(task.workerID)
                && task.startedAt == old(task.startedAt)
    {
      if taskID !in tasks {
        return TaskNotFound;
      }
      var task := tasks[taskID];
      task.status, task.completedAt := Failed, Some(now);
      return Done;
    }

    method RequeueReset(task: Task)
      requires Valid() && task in known
      modifies task
      ensures Valid()
      ensures View() == old(View()).Reset(task) && task.Record() == old(task.Record()).AsRequeued()
    {
      task.retries := task.retries + 1;
      task.status := Pending;
      task.workerID := "";
      task.startedAt := None;
    }

    /** A refused Requeue has already counted the retry and reset the task: nothing is rolled back. */
    method Requeue(task: Task) returns (outcome: Outcome)
      requires Valid() && task in known
      modifies this`pending, task
      ensures Valid()
      ensures outcome == if old(View()).HasRoom() then Done else QueueFull
      ensures task.Record() == old(task.Record()).AsRequeued()
      ensures task.retries == old(task.retries) + 1 && task.status == Pending
      ensures task.workerID == "" && task.startedAt == None && task.completedAt == old(task.completedAt)
      ensures pending == old(pending) + if outcome == Done then [task] else []
      ensures View() == if outcome == Done then old(View()).Reset(task).Push(task) else old(View()).Reset(task)
    {
      RequeueReset(task);
      var sent := TrySend(task);
      outcome := if sent then Done else QueueFull;
    }

    /** Filter value 0 (`Created`) lists every task. */
    ghost function Wanted(filter: TaskStatus): set<Task>
      requires Valid()
      reads this, known
    {
      set task | task in tasks.Values && (filter == Created || task.status == filter)
    }

    /** The listing shows tasks with the wanted status only, and all of them when it is not cut. */
    lemma ListedExactly(filter: TaskStatus, limit: int, offset: int, order: seq<Task>)
      requires Valid() && Listing.Enumerates(order, tasks.Values)
      ensures var page := Listing.Page(Listing.Matching(order, Wanted(filter)), limit, offset);
              && (forall task :: task in page ==> task in tasks.Values && (filter == Created || task.status == filter))
              && (offset <= 0 && |order| <= limit ==>
                    forall task :: task in tasks.Values && (filter == Created || task.status == filter) ==>
                      task in page)
    {
      Listing.WholePage(order, Wanted(filter), limit, offset);
    }

    /** The same pass as the store's, over task objects. */
    method ListTasks(filter: TaskStatus, limit: int, offset: int, order: seq<Task>) returns (result: seq<Task>)
      requires Valid() && Listing.Enumerates(order, tasks.Values)
      ensures result == Listing.Page(Listing.Matching(order, Wanted(filter)), limit, offset)
    {
      ghost var wanted := Wanted(filter);
      result := [];
      var i, k := 0, 0;
      while k < |order|
        invariant 0 <= k <= |order|
        invariant i == |Listing.Matching(order[..k], wanted)|
        invariant result == [] || |result| < limit
        invariant result == Listing.Page(Listing.Matching(order[..k], wanted), limit, offset)
      {
        var task := order[k];
        assert task in tasks.Values;
        Listing.PageStep(order, k, wanted, limit, offset);
        k := k + 1;
        if filter != Created && task.status != filter {
          continue;
        }
        if i < offset {
          i := i + 1;
          continue;
        }
        result := result + [task];
        if |result| >= limit {
          return;
        }
        i := i + 1;
      }
      assert order[..|order|] == order;
    }
  }
}
