// The master's request handlers, each run without interference.
module Server {
  import opened Types
  import Listing
  import Scheduler
  import Store

  datatype SubmitReply = Submitted(jobID: string) | ResourceExhausted | InvalidSubmission

  datatype CancelReply = JobCancelled | NotCancellable | NoSuchJob | InvalidCancel

  /** What GetStatus reports: the stored job, or nothing for an unknown ID. */
  function Status(store: Store.Records, id: string): Option<TaskStatus> {
    if id in store.jobs then Some(store.jobs[id].status) else None
  }

  /** What a client reads: the job and, once there is a result, the result's own figures. */
  datatype StatusReply =
    | InvalidQuery
    | UnknownJob
    | Report(jobID: string, status: TaskStatus, createdAt: int, output: string, error: string, exitCode: int,
             workerID: string, completedAt: Option<int>)

  function ReportOf(job: Store.Job): StatusReply {
    match job.result
    case None => Report(job.id, job.status, job.createdAt, "", "", 0, "", None)
    case Some(r) =>
      Report(job.id, job.status, job.createdAt, r.output, r.error, r.exitCode, r.workerID, Some(r.completedAt))
  }

  class Server {
    const store: Store.Store
    const scheduler: Scheduler.Scheduler

    constructor (store: Store.Store, scheduler: Scheduler.Scheduler)
      ensures this.store == store && this.scheduler == scheduler
    {
      this.store, this.scheduler := store, scheduler;
    }

    /** The job is saved before the task is enqueued, and stays saved when the queue refuses the task. */
    method Submit(taskType: string, payload: string, jobID: string, now: int)
      returns (reply: SubmitReply, ghost task: Scheduler.Task?)
      requires scheduler.Valid()
      modifies store, scheduler
      ensures scheduler.Valid()
      ensures reply == InvalidSubmission <==> taskType == "" || payload == ""
      ensures reply == InvalidSubmission ==>
                store.View() == old(store.View()) && scheduler.View() == old(scheduler.View())
      ensures reply != InvalidSubmission ==>
                store.View() == old(store.View()).SaveJob(Store.Job(jobID, now, Pending, None))
      ensures reply.Submitted? <==>
                taskType != "" && payload != "" && jobID !in old(scheduler.tasks) && old(scheduler.View()).HasRoom()
      ensures reply.Submitted? ==>
                && reply.jobID == jobID && task != null && fresh(task)
                && task.Record() == NewTask(jobID).(status := Pending)
                && scheduler.pending == old(scheduler.pending) + [task]
                && scheduler.tasks == old(scheduler.tasks)[jobID := task]
      ensures !reply.Submitted? ==>
                scheduler.pending == old(scheduler.pending) && scheduler.tasks == old(scheduler.tasks)
    {
      task := null;
      if taskType == "" || payload == "" {
        return InvalidSubmission, null;
      }
      store.SaveJob(Store.Job(jobID, now, Pending, None));
      var created := new Scheduler.Task(jobID);
      task := created;
      scheduler.Meet(created);
      ghost var before := scheduler.View();
      var outcome := scheduler.Enqueue(created);
      if outcome != Scheduler.Done {
        if outcome == Scheduler.QueueFull {
          Scheduler.RollbackUndoesInsert(before, created);
        }
        return ResourceExhausted, task;
      }
      assert scheduler.View().objects[created] == created.Record();
      return Submitted(jobID), task;
    }

    method GetStatus(jobID: string) returns (reply: StatusReply)
      ensures reply == InvalidQuery <==> jobID == ""
      ensures reply == UnknownJob <==> jobID != "" && jobID !in store.jobs
      ensures reply.Report? ==>
                && reply == ReportOf(store.jobs[jobID])
                && reply.status == store.jobs[jobID].status && reply.jobID == store.jobs[jobID].id
                && reply.createdAt == store.jobs[jobID].createdAt
      ensures reply.Report? && store.jobs[jobID].result.Some? ==>
                var r := store.jobs[jobID].result.value;
                && reply.output == r.output && reply.error == r.error && reply.exitCode == r.exitCode
                && reply.workerID == r.workerID && reply.completedAt == Some(r.completedAt)
    {
      if jobID == "" {
        return InvalidQuery;
      }
      var job := store.GetJob(jobID);
      if job == None {
        return UnknownJob;
      }
      reply := Report(job.value.id, job.value.status, job.value.createdAt, "", "", 0, "", None);
      if job.value.result.Some? {
        var result := job.value.result.value;
        reply := reply.(output := result.output);
        reply := reply.(error := result.error);
        reply := reply.(exitCode := result.exitCode);
        reply := reply.(workerID := result.workerID);
        reply := reply.(completedAt := Some(result.completedAt));
      }
    }

    /** Read and write with nobody in between: only a pending or running job is cancelled. */
    method Cancel(jobID: string) returns (reply: CancelReply)
      modifies store
      ensures reply == InvalidCancel <==> jobID == ""
      ensures reply == NoSuchJob <==> jobID != "" && jobID !in old(store.jobs)
      ensures reply == JobCancelled <==>
                jobID != "" && jobID in old(store.jobs) && old(store.jobs)[jobID].status in {Pending, Running}
      ensures store.View() ==
              if reply == JobCancelled then old(store.View()).UpdateJobStatus(jobID, Cancelled) else old(store.View())
    {
      if jobID == "" {
        return InvalidCancel;
      }
      var job := store.GetJob(jobID);
      if job == None {
        return NoSuchJob;
      }
      if job.value.status == Pending || job.value.status == Running {
        store.UpdateJobStatus(jobID, Cancelled);
        return JobCancelled;
      }
      return NotCancellable;
    }

    /** A page of at most 100 jobs, 10 by default, and the number of all jobs. */
    method ListJobs(filter: TaskStatus, limit: int, offset: int, order: seq<Store.Job>)
      returns (jobs: seq<Store.Job>, total: nat)
      requires Listing.Enumerates(order, store.jobs.Values)
      ensures total == |store.jobs|
      ensures jobs == Listing.Page(Listing.Matching(order, Store.Wanted(store.jobs, filter)),
                                   if limit <= 0 then 10 else if limit > 100 then 100 else limit,
                                   if offset < 0 then 0 else offset)
      ensures |jobs| <= if limit <= 0 then 10 else 100
      ensures forall job :: job in jobs ==> job in store.jobs.Values && (filter == Created || job.status == filter)
    {
      var clamped := limit;
      if clamped <= 0 {
        clamped := 10;
      }
      if clamped > 100 {
        clamped := 100;
      }
      var from := offset;
      if from < 0 {
        from := 0;
      }
      jobs := store.ListJobs(filter, clamped, from, order);
      Store.ListedExactly(store.jobs, filter, clamped, from, order);
      total := |store.jobs|;
    }
  }
}
