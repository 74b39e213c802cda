// What a cancellation is worth: it writes a status and stops nothing, so what counts is who writes last.
module Cancellation {
  import opened Types
  import opened Protocol
  import opened Ownership
  import opened Results
  import Store

  /** The status that an action writes under this ID, if it writes one. */
  ghost function Written(s: State, a: Action, id: string): Option<TaskStatus>
    requires s.WellFormed() && Enabled(s, a)
  {
    match a
    case Submit(_, submitted, _) => if submitted == id then Some(Pending) else None
    case CancelWrite(cancelled) => if cancelled == id then Some(Cancelled) else None
    case Advance(t, _) =>
      var stage := s.threads[t].stage;
      if stage.Saving? && stage.result.taskID == id then Some(Store.StatusOf(stage.result))
      else if stage.StoringFailure? && s.ID(s.threads[t].ref) == id then Some(Failed)
      else None
    case _ => None
  }

  ghost function LastWritten(tr: Trace, id: string): Option<TaskStatus>
    requires Valid(tr)
  {
    if tr.Start? then None
    else
      var written := Written(End(tr.past), tr.last, id);
      if written.Some? then written else LastWritten(tr.past, id)
  }

  lemma WrittenStep(s: State, a: Action, id: string)
    requires s.WellFormed() && Enabled(s, a) && id in Apply(s, a).store.jobs
    ensures id !in s.store.jobs ==> Written(s, a, id) == Some(Apply(s, a).store.jobs[id].status)
    ensures id in s.store.jobs ==>
              Apply(s, a).store.jobs[id].status
              == if Written(s, a, id).Some? then Written(s, a, id).value else s.store.jobs[id].status
  {
    if a.Advance? {
      StatusAfter(s.store, s.ID(s.threads[a.t].ref), s.threads[a.t].stage, id);
    }
  }

  /** In every run, even with IDs used twice, the stored status is the one last written. */
  lemma {:induction false} StatusIsLastWritten(tr: Trace, id: string)
    requires Valid(tr) && id in End(tr).store.jobs
    ensures LastWritten(tr, id) == Some(End(tr).store.jobs[id].status)
  {
    if tr.Then? {
      WrittenStep(End(tr.past), tr.last, id);
      if id in End(tr.past).store.jobs {
        StatusIsLastWritten(tr.past, id);
      }
    }
  }

  /** A goroutine stores the failure or the result of the task with this ID. */
  ghost predicate StoresOutcome(s: State, a: Action, id: string) {
    && a.Advance? && a.t < |s.threads| && s.threads[a.t].ref in s.schedule.objects
    && s.ID(s.threads[a.t].ref) == id
    && (s.threads[a.t].stage.StoringFailure? || s.threads[a.t].stage.Saving?)
  }

  /** A Cancel call has written, and no goroutine has stored an outcome of the task since. */
  ghost predicate CancelStands(tr: Trace, id: string)
    requires Valid(tr)
  {
    tr.Then? && (tr.last == CancelWrite(id) || (CancelStands(tr.past, id) && !StoresOutcome(End(tr.past), tr.last, id)))
  }

  lemma KnownStep(s: State, a: Action, id: string)
    requires s.WellFormed() && Enabled(s, a)
    ensures id in s.store.jobs ==> id in Apply(s, a).store.jobs
    ensures id in Apply(s, a).cancels ==> id in s.cancels || id in s.store.jobs
  {
  }

  /** Who is about to cancel has found the job. */
  lemma {:induction false} CancelsAreKnown(tr: Trace, id: string)
    requires Valid(tr)
    ensures id in End(tr).cancels ==> id in End(tr).store.jobs
  {
    if tr.Then? {
      CancelsAreKnown(tr.past, id);
      KnownStep(End(tr.past), tr.last, id);
    }
  }

  lemma StandsStep(s: State, a: Action, id: string)
    requires s.WellFormed() && Enabled(s, a) && Recorded(s) && (a.Submit? ==> a.id !in s.store.jobs)
    requires id in s.cancels ==> id in s.store.jobs
    ensures var jobs, jobs' := s.store.jobs, Apply(s, a).store.jobs;
            id in jobs' && jobs'[id].status == Cancelled <==>
              a == CancelWrite(id) || (id in jobs && jobs[id].status == Cancelled && !StoresOutcome(s, a, id))
  {
    if a.Advance? {
      StandsAdvance(s, a.t, a.input, id);
    }
  }

  lemma StandsAdvance(s: State, t: nat, input: Input, id: string)
    requires s.WellFormed() && Enabled(s, Advance(t, input)) && Recorded(s)
    ensures var jobs, jobs' := s.store.jobs, AdvanceThread(s, t, input).store.jobs;
            id in jobs' && jobs'[id].status == Cancelled <==>
              id in jobs && jobs[id].status == Cancelled && !StoresOutcome(s, Advance(t, input), id)
  {
    SaverIsFirst(s, t);
    StatusAfter(s.store, s.ID(s.threads[t].ref), s.threads[t].stage, id);
  }

  /** When a cancellation sticks: a job is cancelled exactly when some Cancel call has written and neither a
      failure nor a result of its task has been stored since. */
  lemma {:induction false} CancelledExactlyWhen(tr: Trace, id: string)
    requires Valid(tr) && FreshIDs(tr)
    ensures id in End(tr).store.jobs && End(tr).store.jobs[id].status == Cancelled <==> CancelStands(tr, id)
  {
    if tr.Then? {
      CancelledExactlyWhen(tr.past, id);
      RecordedAlways(tr.past);
      CancelsAreKnown(tr.past, id);
      StandsStep(End(tr.past), tr.last, id);
    }
  }

  // Cancelled for ever

  /** The task with this ID has come to rest: nobody will store an outcome for it any more. */
  ghost predicate Settled(s: State, t: nat, id: string) {
    && t < |s.threads| && s.threads[t].ref in s.schedule.objects && s.ID(s.threads[t].ref) == id
    && s.threads[t].stage.Rest() && s.threads[t].stage.Holds()
  }

  lemma SettledStep(s: State, a: Action, t: nat, id: string)
    requires s.WellFormed() && Enabled(s, a) && Owned(s) && Recorded(s) && Settled(s, t, id)
    ensures Settled(Apply(s, a), t, id) && !StoresOutcome(s, a, id)
  {
    assert Holder(s, t, s.threads[t].ref);
    if a.Advance? {
      assert Holder(s, a.t, s.threads[a.t].ref);
      AdvanceKeepsIDs(s, a.t, a.input);
    }
  }

  /** Once the task is rejected, done, out of retries or lost, a standing cancellation stands in every longer
      run. Before that it stands only until the dispatch, which it does not stop, stores its outcome. */
  lemma {:induction false} SettledCancellationIsFinal(early: Trace, late: Trace, t: nat, id: string)
    requires Valid(late) && FreshIDs(late) && Prefix(early, late) && Valid(early)
    requires Settled(End(early), t, id) && CancelStands(early, id)
    ensures Settled(End(late), t, id) && CancelStands(late, id)
  {
    if early != late {
      SettledCancellationIsFinal(early, late.past, t, id);
      OwnedAlways(late.past);
      RecordedAlways(late.past);
      SettledStep(End(late.past), late.last, t, id);
    }
  }

  /** A cancelled task is dispatched like any other. When it has been served, the scheduler calls it completed,
      and the store gives its result's status, unless a Cancel call wrote after the result; so the two agree
      exactly on a success that was not cancelled late. */
  lemma ServedAfterCancel(tr: Trace, t: nat)
    requires Valid(tr) && FreshIDs(tr) && End(tr).At(t, Finished)
    ensures var s := End(tr);
            var id := s.ID(s.threads[t].ref);
            && id in s.store.jobs && id in s.store.results
            && s.store.jobs[id].status
               == (if LateCancel(tr, id) then Cancelled else Store.StatusOf(s.store.results[id]))
            && s.schedule.objects[s.threads[t].ref].status == Completed
            && (s.store.jobs[id].status == Completed <==> s.store.results[id].IsSuccess() && !LateCancel(tr, id))
  {
    var id := End(tr).ID(End(tr).threads[t].ref);
    RecordedAlways(tr);
    assert Holder(End(tr), t, End(tr).threads[t].ref);
    StatusMatchesUnlessLateCancel(tr, id);
  }
}
