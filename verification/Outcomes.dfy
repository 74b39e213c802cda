// What the stored status of a job says about its task: when a poll decides, and what it decides for good.
module Outcomes {
  import opened Types
  import opened Protocol
  import opened Ownership
  import opened Retries
  import opened Results
  import opened Cancellation
  import Store

  /** Some failure or result of the task with this ID has been stored. */
  ghost predicate OutcomeStored(tr: Trace, id: string)
    requires Valid(tr)
  {
    tr.Then? && (OutcomeStored(tr.past, id) || StoresOutcome(End(tr.past), tr.last, id))
  }

  ghost predicate FailureStored(tr: Trace, id: string)
    requires Valid(tr)
  {
    && tr.Then?
    && var s, a := End(tr.past), tr.last;
    || FailureStored(tr.past, id)
    || (StoresOutcome(s, a, id) && s.threads[a.t].stage.StoringFailure?)
  }

  /** A stored outcome is a recorded result or a stored failure. */
  lemma {:induction false} OutcomeIsResultOrFailure(tr: Trace, id: string)
    requires Valid(tr) && FreshIDs(tr)
    ensures OutcomeStored(tr, id) <==> id in End(tr).store.results || FailureStored(tr, id)
  {
    if tr.Then? {
      OutcomeIsResultOrFailure(tr.past, id);
      OwnedAlways(tr.past);
      RecordedAlways(tr.past);
      ResultStep(End(tr.past), tr.last, id);
      if tr.last.Advance? {
        SaverIsFirst(End(tr.past), tr.last.t);
      }
    }
  }

  /** A status that the operator's fold counts. */
  predicate Decided(status: TaskStatus) {
    status == Completed || status == Failed
  }

  ghost predicate OutcomeShows(s: State, id: string, stored: bool) {
    && (stored ==> id in s.store.jobs && s.store.jobs[id].status != Pending)
    && (id in s.store.jobs && Decided(s.store.jobs[id].status) ==> stored)
  }

  lemma OutcomeStep(s: State, a: Action, id: string, stored: bool)
    requires s.WellFormed() && Enabled(s, a) && Recorded(s) && (a.Submit? ==> a.id !in s.store.jobs)
    requires OutcomeShows(s, id, stored)
    ensures OutcomeShows(Apply(s, a), id, stored || StoresOutcome(s, a, id))
  {
    if a.Advance? {
      HeldJob(s, a.t);
      StatusAfter(s.store, s.ID(s.threads[a.t].ref), s.threads[a.t].stage, id);
    }
  }

  lemma {:induction false} OutcomeShowsAlways(tr: Trace, id: string)
    requires Valid(tr) && FreshIDs(tr)
    ensures OutcomeShows(End(tr), id, OutcomeStored(tr, id))
  {
    if tr.Then? {
      OutcomeShowsAlways(tr.past, id);
      RecordedAlways(tr.past);
      OutcomeStep(End(tr.past), tr.last, id, OutcomeStored(tr.past, id));
    }
  }

  /** At every moment of every run: a job shows completed or failed exactly when an outcome of its task has been
      stored, that is a result or a failure, and no cancellation has been written since. */
  lemma DecidedExactlyWhen(tr: Trace, id: string)
    requires Valid(tr) && FreshIDs(tr)
    ensures id in End(tr).store.jobs && Decided(End(tr).store.jobs[id].status)
       <==> (id in End(tr).store.results || FailureStored(tr, id)) && !CancelStands(tr, id)
  {
    OutcomeShowsAlways(tr, id);
    OutcomeIsResultOrFailure(tr, id);
    CancelledExactlyWhen(tr, id);
    if id in End(tr).store.jobs {
      StoreAgrees(tr);
    }
  }

  // Tasks at rest

  lemma {:induction false} SettledOutcomeIsFinal(early: Trace, late: Trace, t: nat, id: string)
    requires Valid(late) && FreshIDs(late) && Prefix(early, late) && Valid(early)
    requires Settled(End(early), t, id)
    ensures Settled(End(late), t, id) && (OutcomeStored(late, id) <==> OutcomeStored(early, id))
    ensures CancelStands(early, id) ==> CancelStands(late, id)
  {
    if early != late {
      SettledOutcomeIsFinal(early, late.past, t, id);
      OwnedAlways(late.past);
      RecordedAlways(late.past);
      SettledStep(End(late.past), late.last, t, id);
    }
  }

  /** Once the task rests, only a cancellation can still change whether its job shows completed or failed. */
  lemma DecidedAtRestExactlyWhen(early: Trace, late: Trace, t: nat, id: string)
    requires Valid(late) && FreshIDs(late) && Prefix(early, late) && Valid(early) && FreshIDs(early)
    requires Settled(End(early), t, id)
    ensures id in End(late).store.jobs && Decided(End(late).store.jobs[id].status)
       <==> (id in End(early).store.results || FailureStored(early, id)) && !CancelStands(late, id)
  {
    SettledOutcomeIsFinal(early, late, t, id);
    OutcomeIsResultOrFailure(early, id);
    OutcomeIsResultOrFailure(late, id);
    DecidedExactlyWhen(late, id);
  }

  // Which tasks have an outcome

  /** The present attempt has stored its outcome. */
  predicate OutcomeKnown(stage: Stage) {
    match stage
    case Deciding | Retrying | Exhausted | Finished => true
    case Completing(_, _) => true
    case Releasing(_) => true
    case _ => false
  }

  ghost predicate Tried(s: State, ref: Ref, y: Tally, stored: bool) {
    && (ref in s.schedule.pending ==> (stored <==> y.retried > 0))
    && forall t: nat :: Holder(s, t, ref) ==> (stored <==> y.retried > 0 || OutcomeKnown(s.threads[t].stage))
  }

  /** One step of the holder. */
  lemma TriedStage(stage: Stage, record: TaskRecord, input: Input, known: bool, room: bool, y: Tally)
    requires !stage.Rest()
    ensures var stage' := StageAfter(stage, record, input, known, room);
            var y' := Count(stage, record, input, y);
            var stored := y.retried > 0 || OutcomeKnown(stage) || stage.StoringFailure? || stage.Saving?;
            && (stage'.Holds() ==> (stored <==> y'.retried > 0 || OutcomeKnown(stage')))
            && (!stage'.Holds() ==> (stored <==> y'.retried > 0))
  {
  }

  lemma TriedAdvance(s: State, t: nat, input: Input, y: Tally, stored: bool)
    requires s.WellFormed() && Owned(s) && Enabled(s, Advance(t, input)) && Tried(s, s.threads[t].ref, y, stored)
    ensures var ref, a := s.threads[t].ref, Advance(t, input);
            var now := s.threads[t].stage.StoringFailure? || s.threads[t].stage.Saving?;
            Tried(AdvanceThread(s, t, input), ref, TallyStep(s, a, ref, y), stored || now)
  {
    var ref := s.threads[t].ref;
    var record := s.schedule.objects[ref];
    StillSole(s, t, input);
    assert Holder(s, t, ref);
    TriedStage(s.threads[t].stage, record, input, record.id in s.schedule.tasks, s.schedule.HasRoom(), y);
  }

  lemma TriedOthers(s: State, t: nat, input: Input, ref: Ref, y: Tally, stored: bool)
    requires s.WellFormed() && Owned(s) && Enabled(s, Advance(t, input)) && Tried(s, ref, y, stored)
    requires s.threads[t].ref != ref
    ensures Tried(AdvanceThread(s, t, input), ref, y, stored)
  {
    AdvanceTouches(s, t, input);
    forall u: nat | Holder(AdvanceThread(s, t, input), u, ref) ensures Holder(s, u, ref) {}
  }

  lemma TriedElsewhere(s: State, a: Action, ref: Ref, y: Tally, stored: bool)
    requires s.WellFormed() && Enabled(s, a) && Tried(s, ref, y, stored) && !a.Advance? && ref in s.schedule.objects
    ensures Tried(Apply(s, a), ref, y, stored)
  {
    forall u: nat | Holder(Apply(s, a), u, ref)
      ensures Holder(s, u, ref) || (a.Dequeue? && ref in s.schedule.pending && u == |s.threads|)
    {
    }
  }

  lemma TriedStep(s: State, a: Action, ref: Ref, y: Tally, stored: bool)
    requires s.WellFormed() && Owned(s) && Recorded(s) && Enabled(s, a) && ref in s.schedule.objects
    requires Tried(s, ref, y, stored)
    ensures Tried(Apply(s, a), ref, TallyStep(s, a, ref, y), stored || StoresOutcome(s, a, s.ID(ref)))
  {
    if !a.Advance? {
      TriedElsewhere(s, a, ref, y, stored);
    } else if s.threads[a.t].ref == ref {
      TriedAdvance(s, a.t, a.input, y, stored);
    } else {
      TriedOthers(s, a.t, a.input, ref, y, stored);
    }
  }

  lemma TriedSubmit(s: State, a: Action)
    requires s.WellFormed() && Enabled(s, a) && a.Submit?
    ensures Tried(Apply(s, a), a.ref, Tally(0, 0, 0, 0), false)
  {
  }

  lemma KeepsID(s: State, a: Action, ref: Ref)
    requires s.WellFormed() && Enabled(s, a) && ref in Apply(s, a).schedule.objects
    ensures ref in s.schedule.objects ==> Apply(s, a).ID(ref) == s.ID(ref)
    ensures ref !in s.schedule.objects ==> a.Submit? && a.ref == ref && Apply(s, a).ID(ref) == a.id
  {
    if a.Advance? {
      AdvanceKeepsIDs(s, a.t, a.input);
    }
  }

  lemma {:induction false} TriedAlways(tr: Trace, ref: Ref)
    requires Valid(tr) && FreshIDs(tr) && ref in End(tr).schedule.objects
    ensures Tried(End(tr), ref, TallyOf(tr, ref), OutcomeStored(tr, End(tr).ID(ref)))
  {
    var s, a := End(tr.past), tr.last;
    KeepsID(s, a, ref);
    if ref in s.schedule.objects {
      TriedAlways(tr.past, ref);
      OwnedAlways(tr.past);
      RecordedAlways(tr.past);
      TriedStep(s, a, ref, TallyOf(tr.past, ref), OutcomeStored(tr.past, s.ID(ref)));
    } else {
      BalancedAlways(tr.past, ref);
      OutcomeShowsAlways(tr.past, a.id);
      TriedSubmit(s, a);
    }
  }

  /** A task at rest has a stored outcome exactly when it was ever sent to a worker: a rejected one never, a
      served or given-up one always, a lost one if it was not lost while it waited for its first node. */
  lemma OutcomeAtRestExactlyWhen(tr: Trace, t: nat)
    requires Valid(tr) && FreshIDs(tr) && t < |End(tr).threads|
    requires End(tr).threads[t].stage.Rest() && End(tr).threads[t].stage.Holds()
    ensures var ref, stage := End(tr).threads[t].ref, End(tr).threads[t].stage;
            var stored := OutcomeStored(tr, End(tr).ID(ref));
            && (stored <==> TallyOf(tr, ref).sends > 0)
            && (stage.Rejected? ==> !stored) && (stage.Finished? || stage.Exhausted? ==> stored)
  {
    var ref := End(tr).threads[t].ref;
    TriedAlways(tr, ref);
    BalancedAlways(tr, ref);
    assert Holder(End(tr), t, ref);
  }
}
