// The values that the master, the workers and the operator exchange.
module Types {

  datatype Option<+T> = None | Some(value: T)

  datatype TaskStatus =
    | Created
    | Pending
    | Running
    | Completed
    | Failed
    | Cancelled
    | Timeout

  datatype ResultStatus = ResultSuccess | ResultFailure | ResultTimeout | ResultCancelled

  /** What a worker answers on the wire. */
  datatype ExecutionStatus = ExecUnspecified | ExecSuccess | ExecFailure | ExecTimeout | ExecCancelled

  datatype Response = Response(status: ExecutionStatus, output: string, exitCode: int, error: string)

  datatype Result = Result(
    taskID: string,
    status: ResultStatus,
    output: string,
    exitCode: int,
    error: string,
    workerID: string,
    completedAt: int)
  {
    predicate IsSuccess() {
      status == ResultSuccess
    }
  }

  /** The mutable part of a task; type, payload, priority and the like are set once and never read here. */
  datatype TaskRecord = TaskRecord(
    id: string,
    status: TaskStatus,
    retries: nat,
    maxRetries: int,
    workerID: string,
    startedAt: Option<int>,
    completedAt: Option<int>)
  {
    predicate CanRetry() {
      retries < maxRetries && status == Failed
    }

    function AsRunning(worker: string, now: int): TaskRecord {
      this.(status := Running, startedAt := Some(now), workerID := worker)
    }

    function AsCompleted(now: int): TaskRecord {
      this.(status := Completed, completedAt := Some(now))
    }

    function AsFailed(now: int): TaskRecord {
      this.(status := Failed, completedAt := Some(now))
    }

    /** Requeue counts a retry and forgets the assignment; the completion time of the failure stays. */
    function AsRequeued(): TaskRecord {
      this.(retries := retries + 1, status := Pending, workerID := "", startedAt := None)
    }
  }

  const DEFAULT_MAX_RETRIES := 3

  function NewTask(id: string): TaskRecord {
    TaskRecord(id, Created, 0, DEFAULT_MAX_RETRIES, "", None, None)
  }

  /** The dispatcher's translation of a worker's answer; an unknown status counts as a failure. */
  function ToResult(id: string, node: string, r: Response, now: int): (result: Result)
    ensures result.IsSuccess() <==> r.status == ExecSuccess
    ensures result.status == ResultTimeout <==> r.status == ExecTimeout
    ensures result.status == ResultCancelled <==> r.status == ExecCancelled
    ensures result.status == ResultFailure <==> r.status in {ExecFailure, ExecUnspecified}
    ensures result.taskID == id && result.workerID == node && result.completedAt == now
    ensures result.output == r.output && result.exitCode == r.exitCode && result.error == r.error
  {
    var status :=
      match r.status
      case ExecSuccess => ResultSuccess
      case ExecTimeout => ResultTimeout
      case ExecCancelled => ResultCancelled
      case _ => ResultFailure;
    Result(id, status, r.output, r.exitCode, r.error, node, now)
  }
}
