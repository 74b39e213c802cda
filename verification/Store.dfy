// The master's job store: two indexes, one of jobs and one of results, behind one mutex.
module Store {
  import opened Types
  import Listing

  datatype Job = Job(id: string, createdAt: int, status: TaskStatus, result: Option<Result>)

  function StatusOf(r: Result): TaskStatus {
    if r.IsSuccess() then Completed else Failed
  }

  /** The two indexes, with the critical sections as functions on them. */
  datatype Records = Records(jobs: map<string, Job>, results: map<string, Result>)
  {
    function SaveJob(job: Job): Records {
      this.(jobs := jobs[job.id := job])
    }

    function UpdateJobStatus(id: string, status: TaskStatus): Records {
      if id in jobs then this.(jobs := jobs[id := jobs[id].(status := status)]) else this
    }

    function SaveResult(r: Result): Records {
      var updated :=
        if r.taskID in jobs
        then jobs[r.taskID := jobs[r.taskID].(result := Some(r), status := StatusOf(r))]
        else jobs;
      Records(updated, results[r.taskID := r])
    }
  }

  /** What `Cancel` checks before it writes. */
  predicate Cancellable(status: TaskStatus) {
    status == Pending || status == Running
  }

  /** The two indexes agree: a job shows a result exactly when the result index holds that result. */
  ghost predicate Agree(s: Records) {
    && s.results.Keys <= s.jobs.Keys
    && forall id :: id in s.jobs ==>
      && s.jobs[id].id == id
      && s.jobs[id].result == if id in s.results then Some(s.results[id]) else None
  }

  /** Filter value 0 (`Created`) lists every job. */
  ghost function Wanted(jobs: map<string, Job>, filter: TaskStatus): set<Job> {
    set job | job in jobs.Values && (filter == Created || job.status == filter)
  }

  /** The listing shows jobs with the wanted status only, and all of them when it is not cut. */
  lemma ListedExactly(jobs: map<string, Job>, filter: TaskStatus, limit: int, offset: int, order: seq<Job>)
    requires Listing.Enumerates(order, jobs.Values)
    ensures var page := Listing.Page(Listing.Matching(order, Wanted(jobs, filter)), limit, offset);
            && (forall job :: job in page ==> job in jobs.Values && (filter == Created || job.status == filter))
            && (offset <= 0 && |order| <= limit ==>
                  forall job :: job in jobs.Values && (filter == Created || job.status == filter) ==> job in page)
  {
    Listing.WholePage(order, Wanted(jobs, filter), limit, offset);
  }

  class Store {
    var jobs: map<string, Job>
    var results: map<string, Result>

    ghost function View(): Records
      reads this
    {
      Records(jobs, results)
    }

    constructor ()
      ensures View() == Records(map[], map[]) && Agree(View())
    {
      jobs, results := map[], map[];
    }

    method SaveJob(job: Job)
      modifies this
      ensures View() == old(View()).SaveJob(job)
      ensures jobs == old(jobs)[job.id := job] && results == old(results)
    {
      jobs := jobs[job.id := job];
    }

    method GetJob(id: string) returns (job: Option<Job>)
      ensures job == if id in jobs then Some(jobs[id]) else None
    {
      if id in jobs {
        job := Some(jobs[id]);
      } else {
        job := None;
      }
    }

    method UpdateJobStatus(id: string, status: TaskStatus)
      modifies this
      ensures View() == old(View()).UpdateJobStatus(id, status)
      ensures results == old(results) && jobs.Keys == old(jobs).Keys && jobs - {id} == old(jobs) - {id}
      ensures id in jobs ==>
                && jobs[id].status == status && jobs[id].result == old(jobs)[id].result
                && jobs[id].id == old(jobs)[id].id && jobs[id].createdAt == old(jobs)[id].createdAt
    {
      if id in jobs {
        var job := jobs[id];
        jobs := jobs[id := job.(status := status)];
      }
    }

    method SaveResult(result: Result)
      modifies this
      ensures View() == old(View()).SaveResult(result)
      ensures results == old(results)[result.taskID := result]
      ensures jobs.Keys == old(jobs).Keys && jobs - {result.taskID} == old(jobs) - {result.taskID}
      ensures result.taskID in jobs ==>
                var before, after := old(jobs)[result.taskID], jobs[result.taskID];
                && after.result == Some(result)
                && after.status == (if result.status == ResultSuccess then Completed else Failed)
                && after.id == before.id && after.createdAt == before.createdAt
    {
      results := results[result.taskID := result];
      if result.taskID in jobs {
        var job := jobs[result.taskID].(result := Some(result));
        if result.IsSuccess() {
          job := job.(status := Completed);
        } else {
          job := job.(status := Failed);
        }
        jobs := jobs[result.taskID := job];
      }
    }

    /** The pass over `jobs`; `order` is the order in which the map happens to be visited. */
    method ListJobs(filter: TaskStatus, limit: int, offset: int, order: seq<Job>) returns (result: seq<Job>)
      requires Listing.Enumerates(order, jobs.Values)
      ensures result == Listing.Page(Listing.Matching(order, Wanted(jobs, filter)), limit, offset)
    {
      ghost var wanted := Wanted(jobs, filter);
      result := [];
      var i, k := 0, 0;
      while k < |order|
        invariant 0 <= k <= |order|
        invariant i == |Listing.Matching(order[..k], wanted)|
        invariant result == [] || |result| < limit
        invariant result == Listing.Page(Listing.Matching(order[..k], wanted), limit, offset)
      {
        var job := order[k];
        assert job in jobs.Values;
        Listing.PageStep(order, k, wanted, limit, offset);
        k := k + 1;
        if filter != Created && job.status != filter {
          continue;
        }
        if i < offset {
          i := i + 1;
          continue;
        }
        result := result + [job];
        if |result| >= limit {
          return;
        }
        i := i + 1;
      }
      assert order[..|order|] == order;
    }
  }
}
