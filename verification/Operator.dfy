// The operator's controller: starting a DistributedJob, folding its tasks' statuses, and what its verdict
// means for the master's store.
module Operator {
  import opened Types
  import Cancellation
  import Finality
  import Outcomes
  import Protocol
  import Results
  import Retries
  import Server
  import Sets

  datatype Phase = Unset | Waiting | Ongoing | Succeeded | FailedPhase | Unknown(name: string)
  {
    predicate Terminal() {
      Succeeded? || FailedPhase?
    }
  }

  datatype ResourceStatus = ResourceStatus(
    phase: Phase,
    completions: int,
    failed: int,
    taskIDs: seq<string>,
    startTime: Option<int>,
    completionTime: Option<int>)

  /** What startJobs and checkJobStatus hand to updateStatus. */
  datatype Update = Update(phase: Phase, completions: int, failed: int, taskIDs: seq<string>)

  /** updateStatus builds a new status record; of the old one only the start time is looked at. */
  function Write(was: ResourceStatus, u: Update, now: int): ResourceStatus {
    ResourceStatus(u.phase, u.completions, u.failed, u.taskIDs,
                   if u.phase == Ongoing && was.startTime == None then Some(now) else None,
                   if u.phase.Terminal() then Some(now) else None)
  }

  /** The IDs the master returned for the submissions it accepted. */
  function Accepted(replies: seq<Option<string>>): seq<string> {
    if replies == [] then []
    else
      var n := |replies| - 1;
      Accepted(replies[..n]) + if replies[n].Some? then [replies[n].value] else []
  }

  ghost function Started(parallelism: int, replies: seq<Option<string>>): Update {
    if Accepted(replies) == [] then Update(FailedPhase, 0, parallelism, [])
    else Update(Ongoing, 0, 0, Accepted(replies))
  }

  /** How many of the first n submissions the master accepted. */
  ghost function AcceptedUpTo(replies: seq<Option<string>>, n: nat): nat
    requires n <= |replies|
  {
    if n == 0 then 0 else AcceptedUpTo(replies, n - 1) + if replies[n - 1].Some? then 1 else 0
  }

  /** No accepted ID is lost, none added, and they keep their order: the ID that comes after m others stands at
      place m. */
  ghost predicate Collects(taskIDs: seq<string>, replies: seq<Option<string>>) {
    && |taskIDs| == AcceptedUpTo(replies, |replies|)
    && forall k :: 0 <= k < |replies| && replies[k].Some? ==>
         AcceptedUpTo(replies, k) < |taskIDs| && taskIDs[AcceptedUpTo(replies, k)] == replies[k].value
  }

  lemma {:induction false} AcceptedUpToTake(replies: seq<Option<string>>, n: nat, k: nat)
    requires k <= n <= |replies|
    ensures AcceptedUpTo(replies[..n], k) == AcceptedUpTo(replies, k) <= AcceptedUpTo(replies, n)
  {
    if k > 0 {
      AcceptedUpToTake(replies, n, k - 1);
    }
    AcceptedUpToGrows(replies, k, n);
  }

  lemma {:induction false} AcceptedUpToGrows(replies: seq<Option<string>>, k: nat, n: nat)
    requires k <= n <= |replies|
    ensures AcceptedUpTo(replies, k) <= AcceptedUpTo(replies, n)
    ensures k < n && replies[k].Some? ==> AcceptedUpTo(replies, k) < AcceptedUpTo(replies, n)
    decreases n - k
  {
    if k < n {
      AcceptedUpToGrows(replies, k + 1, n);
    }
  }

  lemma CollectsNext(taskIDs: seq<string>, replies: seq<Option<string>>)
    requires replies != [] && Collects(taskIDs, replies[..|replies| - 1])
    ensures Collects(taskIDs + (if replies[|replies| - 1].Some? then [replies[|replies| - 1].value] else []), replies)
  {
    var n := |replies| - 1;
    AcceptedUpToTake(replies, n, n);
    forall k | 0 <= k < n
      ensures AcceptedUpTo(replies[..n], k) == AcceptedUpTo(replies, k) && replies[..n][k] == replies[k]
    {
      AcceptedUpToTake(replies, n, k);
    }
  }

  lemma {:induction false} AcceptedCollects(replies: seq<Option<string>>)
    ensures Collects(Accepted(replies), replies)
    ensures Accepted(replies) == [] <==> forall k :: 0 <= k < |replies| ==> replies[k].None?
  {
    if replies != [] {
      var n := |replies| - 1;
      AcceptedCollects(replies[..n]);
      CollectsNext(Accepted(replies[..n]), replies);
      assert forall k :: 0 <= k < n ==> replies[..n][k] == replies[k];
    }
  }

  /** One submission per unit of parallelism; refused ones are skipped. */
  method StartJobs(parallelism: int, replies: seq<Option<string>>) returns (update: Update)
    requires |replies| == if parallelism < 0 then 0 else parallelism
    ensures update == Started(parallelism, replies)
    ensures Collects(update.taskIDs, replies) && |update.taskIDs| <= |replies|
    ensures update.phase == FailedPhase <==> forall k :: 0 <= k < |replies| ==> replies[k].None?
    ensures update.phase == FailedPhase ==> update.completions == 0 && update.failed == parallelism
    ensures update.phase != FailedPhase ==> update.phase == Ongoing && update.completions == update.failed == 0
  {
    AcceptedCollects(replies);
    var taskIDs: seq<string> := [];
    var i := 0;
    while i < parallelism
      invariant 0 <= i <= |replies|
      invariant taskIDs == Accepted(replies[..i]) && |taskIDs| <= i
    {
      assert replies[..i + 1][..i] == replies[..i];
      if replies[i].Some? {
        taskIDs := taskIDs + [replies[i].value];
      }
      i := i + 1;
    }
    assert replies[..i] == replies;
    if |taskIDs| == 0 {
      return Update(FailedPhase, 0, parallelism, []);
    }
    return Update(Ongoing, 0, 0, taskIDs);
  }

  /** How many polls came back with this status; a poll that failed is None. */
  ghost function Count(polls: seq<Option<TaskStatus>>, status: TaskStatus): nat {
    if polls == [] then 0
    else Count(polls[..|polls| - 1], status) + if polls[|polls| - 1] == Some(status) then 1 else 0
  }

  ghost function Polled(polls: seq<Option<TaskStatus>>, status: TaskStatus): set<nat> {
    set k: nat | k < |polls| && polls[k] == Some(status)
  }

  lemma {:induction false} CountIsNumber(polls: seq<Option<TaskStatus>>, status: TaskStatus)
    ensures Count(polls, status) == |Polled(polls, status)|
  {
    if polls == [] {
      assert Polled(polls, status) == {};
    } else {
      var n := |polls| - 1;
      CountIsNumber(polls[..n], status);
      Sets.CountWithout(Polled(polls, status), n);
      assert Polled(polls, status) - {n} == Polled(polls[..n], status);
    }
  }

  lemma {:induction false} CountBounds(polls: seq<Option<TaskStatus>>)
    ensures Count(polls, Completed) + Count(polls, Failed) <= |polls|
    ensures Count(polls, Completed) + Count(polls, Failed) == |polls| <==>
              forall k :: 0 <= k < |polls| ==> Decides(polls[k])
    ensures Count(polls, Failed) > 0 <==> exists k :: 0 <= k < |polls| && polls[k] == Some(Failed)
  {
    if polls != [] {
      var n := |polls| - 1;
      CountBounds(polls[..n]);
      assert polls == polls[..n] + [polls[n]];
    }
  }

  /** A poll that settles its task for the fold; a failed poll and every other status do not. */
  predicate Decides(poll: Option<TaskStatus>) {
    poll == Some(Completed) || poll == Some(Failed)
  }

  ghost function Folded(taskIDs: seq<string>, polls: seq<Option<TaskStatus>>): Option<Update> {
    if taskIDs == [] then None
    else
      var completed, failed := Count(polls, Completed), Count(polls, Failed);
      var phase :=
        if completed + failed < |taskIDs| then Ongoing else if failed > 0 then FailedPhase else Succeeded;
      Some(Update(phase, completed, failed, taskIDs))
  }

  /** The fold over the polls. The verdict is success exactly when every task polled completed, failure
      exactly when every task is completed or failed and one has failed; otherwise the job goes on, for
      instance for as long as one task is cancelled. */
  method CheckJobStatus(taskIDs: seq<string>, polls: seq<Option<TaskStatus>>) returns (update: Option<Update>)
    requires |polls| == |taskIDs|
    ensures update == Folded(taskIDs, polls)
    ensures update == None <==> taskIDs == []
    ensures update.Some? ==>
              && update.value.taskIDs == taskIDs
              && update.value.completions == |Polled(polls, Completed)|
              && update.value.failed == |Polled(polls, Failed)|
              && update.value.completions + update.value.failed <= |taskIDs|
    ensures update.Some? ==>
              && (update.value.phase == Succeeded <==>
                    forall k :: 0 <= k < |polls| ==> polls[k] == Some(Completed))
              && (update.value.phase == FailedPhase <==>
                    && (forall k :: 0 <= k < |polls| ==> Decides(polls[k]))
                    && (exists k :: 0 <= k < |polls| && polls[k] == Some(Failed)))
              && (!update.value.phase.Terminal() ==> update.value.phase == Ongoing)
  {
    if |taskIDs| == 0 {
      return None;
    }
    var completed, failed := 0, 0;
    for k := 0 to |taskIDs|
      invariant completed == Count(polls[..k], Completed) && failed == Count(polls[..k], Failed)
    {
      assert polls[..k + 1][..k] == polls[..k];
      if polls[k].Some? {
        match polls[k].value
        case Completed => completed := completed + 1;
        case Failed => failed := failed + 1;
        case _ =>
      }
    }
    assert polls[..|taskIDs|] == polls;
    CountBounds(polls);
    CountIsNumber(polls, Completed);
    CountIsNumber(polls, Failed);
    var total := |taskIDs|;
    if completed + failed >= total {
      if failed > 0 {
        return Some(Update(FailedPhase, completed, failed, taskIDs));
      } else {
        return Some(Update(Succeeded, completed, failed, taskIDs));
      }
    }
    return Some(Update(Ongoing, completed, failed, taskIDs));
  }

  // The phase machine

  /** What one reconciliation meets: the spec, the master's answers, and whether the status write succeeds. */
  datatype Event = Event(
    hasSpec: bool,
    parallelism: int,
    replies: seq<Option<string>>,
    polls: seq<Option<TaskStatus>>,
    written: bool,
    now: int)

  ghost predicate Fits(seen: ResourceStatus, e: Event) {
    |e.replies| == (if e.parallelism < 0 then 0 else e.parallelism) && |e.polls| == |seen.taskIDs|
  }

  predicate NotStarted(phase: Phase) {
    phase.Unset? || phase.Waiting?
  }

  /** What a reconciliation of the copy `seen` wants to write. */
  ghost function Planned(seen: ResourceStatus, e: Event): Option<Update> {
    if seen.phase.Terminal() || !e.hasSpec then None
    else if NotStarted(seen.phase) then Some(Started(e.parallelism, e.replies))
    else if seen.phase.Ongoing? then Folded(seen.taskIDs, e.polls)
    else None
  }

  ghost function Reconciled(current: ResourceStatus, seen: ResourceStatus, e: Event): ResourceStatus {
    if e.written && Planned(seen, e).Some? then Write(current, Planned(seen, e).value, e.now) else current
  }

  const NEW_STATUS := ResourceStatus(Unset, 0, 0, [], None, None)

  /** The resource in the cluster. */
  class Resource {
    var status: ResourceStatus

    constructor ()
      ensures status == NEW_STATUS
    {
      status := NEW_STATUS;
    }

    method UpdateStatus(u: Update, written: bool, now: int)
      modifies this
      ensures status == if written then Write(old(status), u, now) else old(status)
      ensures written ==>
                && status.phase == u.phase && status.completions == u.completions && status.failed == u.failed
                && status.taskIDs == u.taskIDs
                && (status.completionTime == Some(now) <==> u.phase in {Succeeded, FailedPhase})
                && (status.startTime == Some(now) <==> u.phase == Ongoing && old(status).startTime == None)
                && status.startTime in {None, Some(now)} && status.completionTime in {None, Some(now)}
    {
      if written {
        var startTime: Option<int> := None;
        if u.phase == Ongoing {
          if status.startTime == None {
            startTime := Some(now);
          }
        }
        var completionTime: Option<int> := None;
        if u.phase == Succeeded || u.phase == FailedPhase {
          completionTime := Some(now);
        }
        status := ResourceStatus(u.phase, u.completions, u.failed, u.taskIDs, startTime, completionTime);
      }
    }

    /** `seen` is the informer's copy, which may be older than the resource. The copy decides what is done;
        of the resource itself only the start time is looked at. */
    method Reconcile(seen: ResourceStatus, e: Event)
      requires Fits(seen, e)
      modifies this
      ensures status == Reconciled(old(status), seen, e)
      ensures seen.phase.Succeeded? || seen.phase.FailedPhase? || seen.phase.Unknown? || !e.hasSpec || !e.written ==>
                status == old(status)
      ensures (seen.phase.Unset? || seen.phase.Waiting?) && e.hasSpec && e.written ==>
                && Collects(status.taskIDs, e.replies)
                && (status.phase == FailedPhase <==> forall k :: 0 <= k < |e.replies| ==> e.replies[k].None?)
                && (status.phase != FailedPhase ==> status.phase == Ongoing)
      ensures seen.phase.Ongoing? && e.hasSpec && e.written && seen.taskIDs != [] ==>
                && status.taskIDs == seen.taskIDs
                && status.completions == |Polled(e.polls, Completed)| && status.failed == |Polled(e.polls, Failed)|
    {
      if seen.phase == Succeeded || seen.phase == FailedPhase {
        return;
      }
      if !e.hasSpec {
        return;
      }
      if seen.phase == Unset || seen.phase == Waiting {
        var update := StartJobs(e.parallelism, e.replies);
        UpdateStatus(update, e.written, e.now);
        return;
      }
      if seen.phase == Ongoing {
        var update := CheckJobStatus(seen.taskIDs, e.polls);
        if update.Some? {
          UpdateStatus(update.value, e.written, e.now);
        }
      }
    }
  }

  /** With an up-to-date copy a verdict is final, a started job keeps its tasks, and phases only move on. */
  lemma PhasesMoveForward(s: ResourceStatus, e: Event)
    requires Fits(s, e)
    ensures var s' := Reconciled(s, s, e);
            && (s.phase.Terminal() ==> s' == s)
            && (s.phase.Ongoing? ==> s'.taskIDs == s.taskIDs && (s'.phase.Ongoing? || s'.phase.Terminal()))
            && (NotStarted(s.phase) && s' != s ==>
                  && s'.taskIDs == Accepted(e.replies)
                  && s'.phase == if s'.taskIDs == [] then FailedPhase else Ongoing)
  {
  }

  /** An old copy can take a verdict back: exactly when it is of a job not yet started and some submission is
      accepted anew, or of a running one and some poll does not decide its task. */
  lemma VerdictOverturnedExactlyWhen(current: ResourceStatus, seen: ResourceStatus, e: Event)
    requires Fits(seen, e) && current.phase.Terminal()
    ensures !Reconciled(current, seen, e).phase.Terminal() <==>
              && e.written && e.hasSpec
              && (NotStarted(seen.phase) ==> Accepted(e.replies) != [])
              && (seen.phase.Ongoing? ==> exists k :: 0 <= k < |e.polls| && !Decides(e.polls[k]))
              && (NotStarted(seen.phase) || seen.phase.Ongoing?)
  {
    CountBounds(e.polls);
  }

  // The start time

  datatype Report = Report(update: Update, now: int)

  /** The status after a sequence of written reports. */
  function AfterReports(s: ResourceStatus, reports: seq<Report>): ResourceStatus {
    if reports == [] then s
    else
      var n := |reports| - 1;
      Write(AfterReports(s, reports[..n]), reports[n].update, reports[n].now)
  }

  /** How many progress reports in a row end the sequence. */
  function Trailing(reports: seq<Report>): (n: nat)
    ensures n <= |reports|
  {
    if reports == [] || !reports[|reports| - 1].update.phase.Ongoing? then 0
    else Trailing(reports[..|reports| - 1]) + 1
  }

  /** Progress reports set and drop the start time in turn: it is there exactly after an odd number of them in
      a row, or an even number if they began on a start time; and what it then holds is the time of the last
      report. A verdict, like every other report that is not of progress, leaves none. */
  lemma {:induction false} StartTimeExactlyWhen(s: ResourceStatus, reports: seq<Report>)
    ensures var had := Trailing(reports) == |reports| && s.startTime.Some?;
            AfterReports(s, reports).startTime.Some? <==> (Trailing(reports) % 2 == 1) != had
    ensures reports != [] && AfterReports(s, reports).startTime.Some? ==>
              AfterReports(s, reports).startTime.value == reports[|reports| - 1].now
    ensures reports != [] && reports[|reports| - 1].update.phase.Terminal() ==>
              && AfterReports(s, reports).startTime == None
              && AfterReports(s, reports).completionTime == Some(reports[|reports| - 1].now)
  {
    if reports != [] {
      StartTimeExactlyWhen(s, reports[..|reports| - 1]);
    }
  }

  // Runs of the controller

  /** One reconciliation: the copy it acts on, what it meets, and when the master was asked about each task. */
  datatype Turn = Turn(seen: ResourceStatus, e: Event, moments: seq<Protocol.Trace>)

  ghost function StatusAfter(turns: seq<Turn>): ResourceStatus {
    if turns == [] then NEW_STATUS
    else
      var n := |turns| - 1;
      Reconciled(StatusAfter(turns[..n]), turns[n].seen, turns[n].e)
  }

  /** The reports that the turns have written. */
  ghost function Reports(turns: seq<Turn>): seq<Report> {
    if turns == [] then []
    else
      var n := |turns| - 1;
      var planned := Planned(turns[n].seen, turns[n].e);
      Reports(turns[..n])
      + if turns[n].e.written && planned.Some? then [Report(planned.value, turns[n].e.now)] else []
  }

  lemma {:induction false} RunIsItsReports(turns: seq<Turn>)
    ensures StatusAfter(turns) == AfterReports(NEW_STATUS, Reports(turns))
  {
    if turns != [] {
      var n := |turns| - 1;
      RunIsItsReports(turns[..n]);
      if Reports(turns) != Reports(turns[..n]) {
        assert Reports(turns)[..|Reports(turns)| - 1] == Reports(turns[..n]);
      }
    }
  }

  /** In every run, whatever copies it acts on: a running job shows a start time exactly after an odd number of
      progress reports in a row, and a finished one shows none. */
  lemma StartTimeInRuns(turns: seq<Turn>)
    ensures StatusAfter(turns).startTime.Some? <==> Trailing(Reports(turns)) % 2 == 1
    ensures StatusAfter(turns).phase.Terminal() ==> StatusAfter(turns).startTime == None
  {
    RunIsItsReports(turns);
    StartTimeExactlyWhen(NEW_STATUS, Reports(turns));
  }

  /** `version` is a status the resource had when the first n turns were over, or earlier. */
  ghost predicate IsVersion(turns: seq<Turn>, n: nat, version: ResourceStatus)
    requires n <= |turns|
  {
    exists j :: 0 <= j <= n && StatusAfter(turns[..j]) == version
  }

  /** Every turn acts on some version of the resource, however old. */
  ghost predicate Delivered(turns: seq<Turn>) {
    forall i :: 0 <= i < |turns| ==> Fits(turns[i].seen, turns[i].e) && IsVersion(turns, i, turns[i].seen)
  }

  /** Every turn acts on the present version. */
  ghost predicate UpToDate(turns: seq<Turn>) {
    forall i :: 0 <= i < |turns| ==>
      Fits(turns[i].seen, turns[i].e) && turns[i].seen == StatusAfter(turns[..i])
  }

  /** The turn submits the job's tasks to the master. */
  ghost predicate Submits(turn: Turn) {
    turn.e.hasSpec && NotStarted(turn.seen.phase)
  }

  /** ... and the resource learns of it. */
  ghost predicate Starts(turn: Turn) {
    Submits(turn) && turn.e.written
  }

  /** These are the IDs that some start of the job got back. */
  ghost predicate FromStart(turns: seq<Turn>, taskIDs: seq<string>) {
    exists i :: 0 <= i < |turns| && Starts(turns[i]) && Accepted(turns[i].e.replies) == taskIDs
  }

  lemma DeliveredBefore(turns: seq<Turn>, n: nat)
    requires Delivered(turns) && n <= |turns|
    ensures Delivered(turns[..n])
  {
    var past := turns[..n];
    forall i | 0 <= i < n ensures Fits(past[i].seen, past[i].e) && IsVersion(past, i, past[i].seen) {
      var j :| 0 <= j <= i && StatusAfter(turns[..j]) == turns[i].seen;
      assert past[..j] == turns[..j];
    }
  }

  lemma FromStartLater(turns: seq<Turn>, n: nat, taskIDs: seq<string>)
    requires n <= |turns| && FromStart(turns[..n], taskIDs)
    ensures FromStart(turns, taskIDs)
  {
    var i :| 0 <= i < n && Starts(turns[..n][i]) && Accepted(turns[..n][i].e.replies) == taskIDs;
    assert turns[..n][i] == turns[i];
  }

  /** What is planned for a job: its accepted tasks at a start, the tasks it has afterwards. */
  lemma PlannedTasks(seen: ResourceStatus, e: Event)
    requires Fits(seen, e) && Planned(seen, e).Some?
    ensures var u := Planned(seen, e).value;
            && (NotStarted(seen.phase) ==>
                  u.taskIDs == Accepted(e.replies) && u.phase == if u.taskIDs == [] then FailedPhase else Ongoing)
            && (!NotStarted(seen.phase) ==> seen.phase.Ongoing? && u.taskIDs == seen.taskIDs != [])
  {
  }

  /** A running or successful job has tasks, and they are those of one of its starts. */
  lemma {:induction false} TasksComeFromStart(turns: seq<Turn>)
    requires Delivered(turns)
    ensures var s := StatusAfter(turns);
            s.phase.Ongoing? || s.phase.Succeeded? ==> s.taskIDs != [] && FromStart(turns, s.taskIDs)
    decreases |turns|
  {
    if turns != [] {
      var n := |turns| - 1;
      var turn, s := turns[n], StatusAfter(turns);
      if turn.e.written && Planned(turn.seen, turn.e).Some? {
        PlannedTasks(turn.seen, turn.e);
        var j :| 0 <= j <= n && StatusAfter(turns[..j]) == turn.seen;
        DeliveredBefore(turns, j);
        TasksComeFromStart(turns[..j]);
        if turn.seen.phase.Ongoing? {
          FromStartLater(turns, j, s.taskIDs);
        }
      } else {
        DeliveredBefore(turns, n);
        TasksComeFromStart(turns[..n]);
        if s.phase.Ongoing? || s.phase.Succeeded? {
          FromStartLater(turns, n, s.taskIDs);
        }
      }
    }
  }

  ghost predicate StartedBy(turns: seq<Turn>, n: nat)
    requires n <= |turns|
  {
    exists i: nat :: i < n && Starts(turns[i])
  }

  lemma StartedByTake(turns: seq<Turn>, n: nat)
    requires n <= |turns|
    ensures StartedBy(turns[..n], n) <==> StartedBy(turns, n)
  {
    assert forall i: nat :: i < n ==> turns[..n][i] == turns[i];
  }

  /** What a turn writes is of a started job; only a start writes it from a copy of a job not yet started. */
  lemma PlanStarts(s: ResourceStatus, turn: Turn)
    requires Fits(turn.seen, turn.e)
    ensures var writes := turn.e.written && Planned(turn.seen, turn.e).Some?;
            && (writes ==> !NotStarted(Reconciled(s, turn.seen, turn.e).phase))
            && (!writes ==> Reconciled(s, turn.seen, turn.e) == s && !Starts(turn))
            && (writes && !Starts(turn) ==> !NotStarted(turn.seen.phase))
  {
  }

  lemma StartedByNext(turns: seq<Turn>, n: nat)
    requires n < |turns|
    ensures StartedBy(turns, n + 1) <==> StartedBy(turns, n) || Starts(turns[n])
  {
    if StartedBy(turns, n + 1) && !Starts(turns[n]) {
      var i: nat :| i < n + 1 && Starts(turns[i]);
      assert i < n;
    }
  }

  /** One more turn, when the copy it acts on counts as started only after a written start. */
  lemma StartedNext(turns: seq<Turn>, n: nat)
    requires n == |turns| - 1 && Fits(turns[n].seen, turns[n].e)
    requires !NotStarted(StatusAfter(turns[..n]).phase) <==> StartedBy(turns, n)
    requires !NotStarted(turns[n].seen.phase) ==> StartedBy(turns, n)
    ensures !NotStarted(StatusAfter(turns).phase) <==> StartedBy(turns, n + 1)
  {
    StartedByNext(turns, n);
    PlanStarts(StatusAfter(turns[..n]), turns[n]);
  }

  /** A job counts as started exactly when some start has been written. */
  lemma {:induction false} StartedExactlyWhen(turns: seq<Turn>)
    requires Delivered(turns)
    ensures !NotStarted(StatusAfter(turns).phase) <==> StartedBy(turns, |turns|)
    decreases |turns|
  {
    if turns != [] {
      var n := |turns| - 1;
      DeliveredBefore(turns, n);
      StartedExactlyWhen(turns[..n]);
      StartedByTake(turns, n);
      var j: nat :| j <= n && StatusAfter(turns[..j]) == turns[n].seen;
      DeliveredBefore(turns, j);
      StartedExactlyWhen(turns[..j]);
      StartedByTake(turns, j);
      StartedNext(turns, n);
    }
  }

  /** When a job is submitted again: a turn that submits is not the first to do so exactly when its copy is
      older than a written start, or the status write of an earlier submitting turn has failed. */
  lemma SubmitsAgainExactlyWhen(turns: seq<Turn>, j: nat)
    requires Delivered(turns) && j < |turns| && Submits(turns[j])
    ensures (exists i: nat :: i < j && Submits(turns[i])) <==>
              || !NotStarted(StatusAfter(turns[..j]).phase)
              || exists i: nat :: i < j && Submits(turns[i]) && !turns[i].e.written
  {
    DeliveredBefore(turns, j);
    StartedExactlyWhen(turns[..j]);
    StartedByTake(turns, j);
    if i: nat :| i < j && Submits(turns[i]) && turns[i].e.written {
      assert Starts(turns[i]);
    }
  }

  lemma {:induction false} UpToDateBefore(turns: seq<Turn>, n: nat)
    requires UpToDate(turns) && n <= |turns|
    ensures UpToDate(turns[..n])
  {
    assert forall i :: 0 <= i < n ==> turns[..n][..i] == turns[..i];
  }

  lemma StartedStays(s: ResourceStatus, e: Event)
    requires Fits(s, e)
    ensures var s' := Reconciled(s, s, e);
            && (!NotStarted(s.phase) ==> !NotStarted(s'.phase) && s'.taskIDs == s.taskIDs)
            && (NotStarted(s.phase) && e.hasSpec && e.written ==>
                  !NotStarted(s'.phase) && s'.taskIDs == Accepted(e.replies))
  {
    if Planned(s, e).Some? {
      PlannedTasks(s, e);
    }
  }

  /** With up-to-date copies a job starts once: whatever its phase later, its tasks are all those that the
      master accepted for it. */
  lemma {:induction false} StartsOnce(turns: seq<Turn>, i: nat)
    requires UpToDate(turns) && i < |turns| && Starts(turns[i])
    ensures !NotStarted(StatusAfter(turns).phase)
    ensures StatusAfter(turns).taskIDs == Accepted(turns[i].e.replies)
    decreases |turns|
  {
    var n := |turns| - 1;
    if i < n {
      UpToDateBefore(turns, n);
      assert turns[..n][i] == turns[i];
      StartsOnce(turns[..n], i);
    }
    StartedStays(StatusAfter(turns[..n]), turns[n].e);
  }

  /** An old copy can start a job twice: the second start takes the place of the first, whose tasks the job no
      longer knows. So can a start whose status write fails. */
  lemma StartedTwice(a: string, b: string, written: bool) returns (turns: seq<Turn>)
    ensures |turns| == 2 && Delivered(turns) && turns[0].e.written == written
    ensures Accepted(turns[0].e.replies) == [a] && Accepted(turns[1].e.replies) == [b]
    ensures StatusAfter(turns).phase == Ongoing && StatusAfter(turns).taskIDs == [b]
  {
    var first := Turn(NEW_STATUS, Event(true, 1, [Some(a)], [], written, 0), []);
    var second := Turn(NEW_STATUS, Event(true, 1, [Some(b)], [], true, 0), []);
    turns := [first, second];
    assert StatusAfter(turns[..0]) == NEW_STATUS;
    assert Accepted([Some(a)][..0]) == [] && Accepted([Some(b)][..0]) == [];
    assert turns[..1] == [first];
  }

  /** A verdict can be taken back: a progress report for an old copy, whose poll failed, follows it. */
  lemma VerdictTakenBack(id: string) returns (turns: seq<Turn>)
    ensures |turns| == 3 && Delivered(turns)
    ensures StatusAfter(turns[..2]).phase == Succeeded && StatusAfter(turns).phase == Ongoing
  {
    var running := ResourceStatus(Ongoing, 0, 0, [id], Some(0), None);
    var start := Turn(NEW_STATUS, Event(true, 1, [Some(id)], [], true, 0), []);
    var verdict := Turn(running, Event(true, 0, [], [Some(Completed)], true, 1), []);
    var late := Turn(running, Event(true, 0, [], [None], true, 2), []);
    turns := [start, verdict, late];
    assert Accepted([Some(id)][..0]) == [];
    assert StatusAfter(turns[..0]) == NEW_STATUS;
    assert turns[..1][..0] == [] && turns[..1][0] == start;
    assert StatusAfter(turns[..1]) == running;
    assert turns[..2][..1] == turns[..1] && turns[..2][1] == verdict;
    var one: Option<TaskStatus> := Some(Completed);
    assert [one][..0] == [];
    assert Count([one], Completed) == 1 && Count([one], Failed) == 0;
    var failed: Option<TaskStatus> := None;
    assert [failed][..0] == [];
    assert Count([failed], Completed) == 0 && Count([failed], Failed) == 0;
  }

  // End to end

  /** Each poll failed, or asked the master for its task at some moment of the run. */
  ghost predicate PolledDuring(run: Protocol.Trace, turn: Turn) {
    && |turn.moments| == |turn.e.polls| == |turn.seen.taskIDs|
    && forall k :: 0 <= k < |turn.e.polls| ==> turn.e.polls[k] == None || PolledAt(run, turn, k)
  }

  ghost predicate PolledAt(run: Protocol.Trace, turn: Turn, k: nat)
    requires k < |turn.moments| == |turn.e.polls| == |turn.seen.taskIDs|
  {
    && Protocol.Prefix(turn.moments[k], run) && Protocol.Valid(turn.moments[k])
    && turn.e.polls[k] == Server.Status(Protocol.End(turn.moments[k]).store, turn.seen.taskIDs[k])
  }

  /** The task has a recorded success in both of the master's indexes, and a worker did report it. */
  ghost predicate SuccessRecorded(run: Protocol.Trace, id: string)
    requires Protocol.Valid(run)
  {
    var store := Protocol.End(run).store;
    && id in store.results && store.results[id].IsSuccess()
    && id in store.jobs && store.jobs[id].result == Some(store.results[id])
    && Results.Reported(run, id)
  }

  /** A poll of completed at some moment of the run means a recorded success at its end. */
  lemma CompletedPollIsRecorded(run: Protocol.Trace, moment: Protocol.Trace, id: string)
    requires Protocol.Valid(run) && Protocol.FreshIDs(run) && Protocol.Prefix(moment, run) && Protocol.Valid(moment)
    requires Server.Status(Protocol.End(moment).store, id) == Some(Completed)
    ensures SuccessRecorded(run, id)
  {
    FreshPrefix(moment, run);
    Results.CompletedMeansSuccess(moment, id);
    Results.ResultIsFinal(moment, run, id);
    Results.SuccessWasReported(run, id);
  }

  lemma {:induction false} FreshPrefix(early: Protocol.Trace, late: Protocol.Trace)
    requires Protocol.Prefix(early, late) && Protocol.Valid(late) && Protocol.FreshIDs(late)
    ensures Protocol.Valid(early) && Protocol.FreshIDs(early)
  {
    if early != late {
      FreshPrefix(early, late.past);
    }
  }

  lemma SuccessfulTurn(run: Protocol.Trace, turn: Turn, k: nat)
    requires Protocol.Valid(run) && Protocol.FreshIDs(run) && PolledDuring(run, turn)
    requires Folded(turn.seen.taskIDs, turn.e.polls).Some?
    requires Folded(turn.seen.taskIDs, turn.e.polls).value.phase.Succeeded? && k < |turn.seen.taskIDs|
    ensures SuccessRecorded(run, turn.seen.taskIDs[k])
  {
    CountBounds(turn.e.polls);
    assert Decides(turn.e.polls[k]);
    CompletedPollIsRecorded(run, turn.moments[k], turn.seen.taskIDs[k]);
  }

  /** Whenever a run of the controller beside a run of the master has brought a job to success, every task of
      the job has a recorded success, at the end of the master's run and so of every longer one: even when
      reconciliations act on old copies, polls fail and status writes are lost. */
  lemma {:induction false} SucceededMeansRecorded(run: Protocol.Trace, turns: seq<Turn>, k: nat)
    requires Protocol.Valid(run) && Protocol.FreshIDs(run)
    requires forall i :: 0 <= i < |turns| ==> PolledDuring(run, turns[i])
    requires StatusAfter(turns).phase.Succeeded? && k < |StatusAfter(turns).taskIDs|
    ensures SuccessRecorded(run, StatusAfter(turns).taskIDs[k])
    decreases |turns|
  {
    var n := |turns| - 1;
    if turns[n].e.written && Planned(turns[n].seen, turns[n].e).Some? {
      SuccessfulTurn(run, turns[n], k);
    } else {
      SucceededMeansRecorded(run, turns[..n], k);
    }
  }

  /** ... and with up-to-date copies that is every task which the master accepted when the job was started. */
  lemma EveryAcceptedTaskSucceeded(run: Protocol.Trace, turns: seq<Turn>, i: nat, j: nat, id: string)
    requires Protocol.Valid(run) && Protocol.FreshIDs(run) && UpToDate(turns)
    requires forall i :: 0 <= i < |turns| ==> PolledDuring(run, turns[i])
    requires StatusAfter(turns).phase.Succeeded?
    requires i < |turns| && Starts(turns[i])
    requires j < |turns[i].e.replies| && turns[i].e.replies[j] == Some(id)
    ensures SuccessRecorded(run, id)
  {
    StartsOnce(turns, i);
    AcceptedCollects(turns[i].e.replies);
    var k :| 0 <= k < |StatusAfter(turns).taskIDs| && StatusAfter(turns).taskIDs[k] == id;
    SucceededMeansRecorded(run, turns, k);
  }

  // Which jobs get a verdict

  /** A poll that came through decides its task exactly when the task's outcome had been stored at that moment,
      and no cancellation written since. */
  lemma PollDecidesExactlyWhen(run: Protocol.Trace, moment: Protocol.Trace, id: string, poll: Option<TaskStatus>)
    requires Protocol.Valid(run) && Protocol.FreshIDs(run) && Protocol.Prefix(moment, run) && Protocol.Valid(moment)
    requires poll == Server.Status(Protocol.End(moment).store, id)
    ensures Protocol.FreshIDs(moment)
    ensures Decides(poll) <==> Outcomes.OutcomeStored(moment, id) && !Cancellation.CancelStands(moment, id)
  {
    FreshPrefix(moment, run);
    Outcomes.OutcomeIsResultOrFailure(moment, id);
    Outcomes.DecidedExactlyWhen(moment, id);
  }

  /** A reconciliation of a running job whose polls all came through gives a verdict exactly when, at the moment
      of its poll, each task had a stored outcome that no cancellation had overwritten. */
  lemma VerdictExactlyWhen(run: Protocol.Trace, turn: Turn)
    requires Protocol.Valid(run) && Protocol.FreshIDs(run) && PolledDuring(run, turn) && turn.seen.taskIDs != []
    requires forall k :: 0 <= k < |turn.e.polls| ==> turn.e.polls[k].Some?
    ensures Folded(turn.seen.taskIDs, turn.e.polls).value.phase.Terminal() <==>
              forall k :: 0 <= k < |turn.moments| ==> Standing(turn.moments[k], turn.seen.taskIDs[k])
  {
    forall k | 0 <= k < |turn.moments|
      ensures Decides(turn.e.polls[k]) <==> Standing(turn.moments[k], turn.seen.taskIDs[k])
    {
      assert PolledAt(run, turn, k);
      PollDecidesExactlyWhen(run, turn.moments[k], turn.seen.taskIDs[k], turn.e.polls[k]);
    }
    FoldDecides(turn.seen.taskIDs, turn.e.polls);
  }

  ghost predicate Standing(moment: Protocol.Trace, id: string) {
    && Protocol.Valid(moment)
    && Outcomes.OutcomeStored(moment, id) && !Cancellation.CancelStands(moment, id)
  }

  lemma FoldDecides(taskIDs: seq<string>, polls: seq<Option<TaskStatus>>)
    requires taskIDs != [] && |polls| == |taskIDs|
    ensures Folded(taskIDs, polls).value.phase.Terminal() <==> forall k :: 0 <= k < |polls| ==> Decides(polls[k])
    ensures !Folded(taskIDs, polls).value.phase.Terminal() ==> Folded(taskIDs, polls).value.phase.Ongoing?
  {
    CountBounds(polls);
  }

  /** At the poll of task k its thread `t` is at rest. */
  ghost predicate AtRest(turn: Turn, k: nat, t: nat)
    requires k < |turn.moments| == |turn.seen.taskIDs|
  {
    && Protocol.Valid(turn.moments[k])
    && Cancellation.Settled(Protocol.End(turn.moments[k]), t, turn.seen.taskIDs[k])
  }

  /** The task of thread t has been sent to a worker. */
  ghost predicate WasSent(moment: Protocol.Trace, t: nat) {
    && Protocol.Valid(moment) && t < |Protocol.End(moment).threads|
    && Retries.TallyOf(moment, Protocol.End(moment).threads[t].ref).sends > 0
  }

  lemma StandsAtRest(run: Protocol.Trace, moment: Protocol.Trace, t: nat, id: string)
    requires Protocol.Valid(run) && Protocol.FreshIDs(run) && Protocol.Prefix(moment, run) && Protocol.Valid(moment)
    requires Cancellation.Settled(Protocol.End(moment), t, id)
    ensures Standing(moment, id) <==> WasSent(moment, t) && !Cancellation.CancelStands(moment, id)
  {
    FreshPrefix(moment, run);
    Outcomes.OutcomeAtRestExactlyWhen(moment, t);
  }

  /** When all tasks are at rest as they are polled, the job gets its verdict exactly when each of them has ever
      been sent to a worker and none stands cancelled. */
  lemma VerdictAtRestExactlyWhen(run: Protocol.Trace, turn: Turn, ts: seq<nat>)
    requires Protocol.Valid(run) && Protocol.FreshIDs(run) && PolledDuring(run, turn) && turn.seen.taskIDs != []
    requires forall k :: 0 <= k < |turn.e.polls| ==> turn.e.polls[k].Some?
    requires |ts| == |turn.moments| && forall k :: 0 <= k < |ts| ==> AtRest(turn, k, ts[k])
    ensures Folded(turn.seen.taskIDs, turn.e.polls).value.phase.Terminal() <==>
              forall k :: 0 <= k < |ts| ==>
                WasSent(turn.moments[k], ts[k]) && !Cancellation.CancelStands(turn.moments[k], turn.seen.taskIDs[k])
  {
    forall k | 0 <= k < |ts|
      ensures Standing(turn.moments[k], turn.seen.taskIDs[k]) <==>
                WasSent(turn.moments[k], ts[k]) && !Cancellation.CancelStands(turn.moments[k], turn.seen.taskIDs[k])
    {
      assert PolledAt(run, turn, k);
      StandsAtRest(run, turn.moments[k], ts[k], turn.seen.taskIDs[k]);
    }
    VerdictExactlyWhen(run, turn);
  }

  /** A task that is never decided keeps its job from a verdict in every reconciliation that polls it, be the
      task lost, rejected or cancelled (Finality.NeverDecidedExactlyWhen says when it is never decided). */
  lemma UndecidedTaskBlocksVerdict(run: Protocol.Trace, early: Protocol.Trace, turn: Turn, k: nat)
    requires Protocol.Valid(run) && Protocol.FreshIDs(run) && PolledDuring(run, turn) && k < |turn.seen.taskIDs|
    requires Protocol.Prefix(early, turn.moments[k]) && Protocol.Valid(early)
    requires Finality.NeverDecided(early, turn.seen.taskIDs[k])
    ensures Folded(turn.seen.taskIDs, turn.e.polls).value.phase == Ongoing
  {
    if turn.e.polls[k].Some? {
      assert PolledAt(run, turn, k);
      FreshPrefix(turn.moments[k], run);
      assert !Finality.ShowsDecided(Protocol.End(turn.moments[k]), turn.seen.taskIDs[k]);
    }
    assert !Decides(turn.e.polls[k]);
    FoldDecides(turn.seen.taskIDs, turn.e.polls);
  }

  /** A failed verdict can be premature: it is given while the retry that will succeed is under way. */
  lemma FailedVerdictPremature(id: string, node: string) returns (mid: Protocol.Trace, run: Protocol.Trace, turn: Turn)
    ensures Protocol.Valid(run) && Protocol.FreshIDs(run) && Protocol.Prefix(mid, run) && PolledDuring(mid, turn)
    ensures turn.seen.taskIDs == [id] && Folded([id], turn.e.polls).value.phase == FailedPhase
    ensures SuccessRecorded(run, id)
  {
    mid, run := Finality.FailedThenCompleted(id, node);
    var running := ResourceStatus(Ongoing, 0, 0, [id], Some(0), None);
    turn := Turn(running, Event(true, 0, [], [Some(Failed)], true, 1), [mid]);
    assert PolledAt(mid, turn, 0);
    CountBounds([Some(Failed)]);
    assert [Some(Failed)][0] == Some(Failed);
    CompletedPollIsRecorded(run, run, id);
  }
}
