// The ownership argument behind the dispatcher: in every interleaving a task is in the queue or with one
// handler or goroutine, never with two, and it stays in the task map under its own ID. IDs may repeat here.
module Ownership {
  import opened Types
  import opened Protocol

  ghost predicate Holder(s: State, t: nat, ref: Ref) {
    t < |s.threads| && s.threads[t].ref == ref && s.threads[t].stage.Holds()
  }

  /** A task occurs at most once across the queue and all handlers and goroutines. */
  ghost predicate SingleOwner(s: State) {
    && (forall i, j :: 0 <= i < j < |s.schedule.pending| ==> s.schedule.pending[i] != s.schedule.pending[j])
    && (forall t, u, ref :: Holder(s, t, ref) && Holder(s, u, ref) ==> t == u)
    && (forall t, ref :: Holder(s, t, ref) ==> ref !in s.schedule.pending)
  }

  /** ... and at least once. */
  ghost predicate NoneVanished(s: State) {
    forall ref :: ref in s.schedule.objects ==> ref in s.schedule.pending || exists t :: Holder(s, t, ref)
  }

  ghost predicate InSubmit(s: State, t: nat) {
    t < |s.threads| && s.threads[t].stage.OfSubmit() && s.threads[t].stage.Holds()
  }

  /** Until its submit handler has accepted or rejected a task, nobody else has come across it. */
  ghost predicate SubmittedFirst(s: State) {
    forall t, u :: 0 <= t < |s.threads| && 0 <= u < |s.threads| && t != u && InSubmit(s, t) ==>
      s.threads[u].ref != s.threads[t].ref
  }

  /** The task map finds this very object under its ID. */
  ghost predicate Tracked(s: State, ref: Ref) {
    && ref in s.schedule.objects
    && s.schedule.Has(s.ID(ref))
    && s.schedule.tasks[s.ID(ref)] == ref
  }

  ghost predicate Indexed(s: State)
    requires s.WellFormed()
  {
    && (forall id :: id in s.schedule.tasks ==> s.ID(s.schedule.tasks[id]) == id)
    && (forall k :: 0 <= k < |s.schedule.pending| ==> Tracked(s, s.schedule.pending[k]))
    && (forall t :: 0 <= t < |s.threads| && !s.threads[t].stage.Inserting? && !s.threads[t].stage.Rejected? ==>
          Tracked(s, s.threads[t].ref))
  }

  ghost predicate Owned(s: State)
    requires s.WellFormed()
  {
    SingleOwner(s) && NoneVanished(s) && SubmittedFirst(s) && Indexed(s)
  }

  /** The ways in which one step of a handler or goroutine can touch queue and task map. */
  datatype Effect = Stays | Inserts | Removes | Pushes

  ghost predicate Moves(s: State, s': State, t: nat, effect: Effect)
    requires t < |s.threads|
  {
    && |s'.threads| == |s.threads|
    && s'.threads == s.threads[t := s'.threads[t]]
    && s'.threads[t].ref == s.threads[t].ref
    && var was, now := s.threads[t].stage, s'.threads[t].stage;
    && was.Holds() && !was.Rejected? && !now.Inserting?
    && (now.OfSubmit() <==> was.OfSubmit())
    && (effect.Pushes? <==> !now.Holds())
    && (effect.Inserts? || now.Rejected? || !was.Inserting?)
    && (effect.Removes? ==> was.RollingBack? && now.Rejected?)
  }

  ghost predicate Touches(s: State, s': State, ref: Ref, effect: Effect)
    requires ref in s.schedule.objects
  {
    && SameIDs(s.schedule.objects, s'.schedule.objects)
    && s'.schedule.pending == s.schedule.pending + (if effect.Pushes? then [ref] else [])
    && match effect
       case Inserts => s.ID(ref) !in s.schedule.tasks && s'.schedule.tasks == s.schedule.tasks[s.ID(ref) := ref]
       case Removes => s'.schedule.tasks == s.schedule.tasks - {s.ID(ref)}
       case _ => s'.schedule.tasks == s.schedule.tasks
  }

  ghost predicate SameIDs(before: map<Ref, TaskRecord>, after: map<Ref, TaskRecord>) {
    && after.Keys == before.Keys
    && forall r :: r in before ==> after[r].id == before[r].id && after[r].maxRetries == before[r].maxRetries
  }

  function EffectOf(s: State, t: nat): Effect
    requires t < |s.threads| && s.threads[t].ref in s.schedule.objects
  {
    var stage := s.threads[t].stage;
    if stage.Inserting? && s.ID(s.threads[t].ref) !in s.schedule.tasks then Inserts
    else if stage.RollingBack? then Removes
    else if (stage.Sending? || stage.Requeueing?) && s.schedule.HasRoom() then Pushes
    else Stays
  }

  lemma AdvanceMoves(s: State, t: nat, input: Input)
    requires s.WellFormed() && t < |s.threads| && !s.threads[t].stage.Rest()
    ensures Moves(s, AdvanceThread(s, t, input), t, EffectOf(s, t))
  {
  }

  lemma AdvanceKeepsIDs(s: State, t: nat, input: Input)
    requires s.WellFormed() && t < |s.threads| && !s.threads[t].stage.Rest()
    ensures SameIDs(s.schedule.objects, AdvanceThread(s, t, input).schedule.objects)
  {
  }

  lemma AdvanceTouches(s: State, t: nat, input: Input)
    requires s.WellFormed() && t < |s.threads| && !s.threads[t].stage.Rest()
    ensures Touches(s, AdvanceThread(s, t, input), s.threads[t].ref, EffectOf(s, t))
  {
    AdvanceKeepsIDs(s, t, input);
  }

  /** A step of one handler or goroutine, known only by its effect. */
  ghost predicate Acts(s: State, s': State, t: nat, effect: Effect) {
    && s.WellFormed() && s'.WellFormed()
    && t < |s.threads| && Moves(s, s', t, effect) && Touches(s, s', s.threads[t].ref, effect)
  }

  lemma SingleOwnerMove(s: State, s': State, t: nat, effect: Effect)
    requires Acts(s, s', t, effect) && Owned(s)
    ensures SingleOwner(s')
  {
    assert Holder(s, t, s.threads[t].ref);
    forall u: nat, ref | Holder(s', u, ref) ensures Holder(s, u, ref) {}
  }

  lemma NoneVanishedMove(s: State, s': State, t: nat, effect: Effect)
    requires Acts(s, s', t, effect) && Owned(s)
    ensures NoneVanished(s')
  {
    forall ref | ref in s'.schedule.objects && ref !in s'.schedule.pending
      ensures exists u :: Holder(s', u, ref)
    {
      var u :| Holder(s, u, ref);
      assert Holder(s', u, ref);
    }
  }

  lemma SubmittedFirstMove(s: State, s': State, t: nat, effect: Effect)
    requires Acts(s, s', t, effect) && Owned(s)
    ensures SubmittedFirst(s')
  {
    forall u: nat | InSubmit(s', u) ensures InSubmit(s, u) {}
  }

  lemma IndexedMove(s: State, s': State, t: nat, effect: Effect)
    requires Acts(s, s', t, effect) && Owned(s)
    ensures Indexed(s')
  {
    var own := s.threads[t].ref;
    assert Holder(s, t, own);
    forall r | r != own && Tracked(s, r) ensures Tracked(s', r) {}
  }

  /** After its step the task is with the same goroutine or, if it was sent, only in the queue. */
  lemma StillSole(s: State, t: nat, input: Input)
    requires s.WellFormed() && Owned(s) && t < |s.threads| && !s.threads[t].stage.Rest()
    ensures var s', ref := AdvanceThread(s, t, input), s.threads[t].ref;
            && (forall u: nat :: Holder(s', u, ref) ==> u == t)
            && (ref in s'.schedule.pending ==> !s'.threads[t].stage.Holds())
  {
    AdvanceMoves(s, t, input);
    AdvanceTouches(s, t, input);
    SoleMove(s, AdvanceThread(s, t, input), t, EffectOf(s, t));
  }

  lemma SoleMove(s: State, s': State, t: nat, effect: Effect)
    requires Acts(s, s', t, effect) && Owned(s)
    ensures forall u: nat :: Holder(s', u, s.threads[t].ref) ==> u == t
    ensures s.threads[t].ref in s'.schedule.pending ==> !s'.threads[t].stage.Holds()
  {
    assert Holder(s, t, s.threads[t].ref);
    forall u: nat | u != t && Holder(s', u, s.threads[t].ref) ensures Holder(s, u, s.threads[t].ref) {}
  }

  lemma OwnedSubmit(s: State, a: Action)
    requires s.WellFormed() && Enabled(s, a) && Owned(s) && a.Submit?
    ensures Owned(Apply(s, a))
  {
    var s' := Apply(s, a);
    forall u: nat, r | Holder(s', u, r) ensures Holder(s, u, r) || (u == |s.threads| && r == a.ref) {}
    forall u: nat, r | Holder(s, u, r) ensures Holder(s', u, r) {}
    forall u: nat | InSubmit(s', u) ensures InSubmit(s, u) || u == |s.threads| {}
    assert Holder(s', |s.threads|, a.ref);
    forall r | Tracked(s, r) ensures Tracked(s', r) {}
  }

  /** The head of the queue goes to a new goroutine. */
  ghost predicate Takes(s: State, s': State) {
    && s.WellFormed() && s'.WellFormed() && s.schedule.pending != []
    && s'.schedule == s.schedule.Pop()
    && s'.threads == s.threads + [Thread(s.schedule.pending[0], Picking)]
  }

  lemma SingleOwnerDequeue(s: State, s': State)
    requires Takes(s, s') && Owned(s)
    ensures SingleOwner(s')
  {
    var ref := s.schedule.pending[0];
    assert s.schedule.pending == [ref] + s'.schedule.pending;
    assert ref !in s'.schedule.pending;
    forall u: nat, r | Holder(s', u, r) ensures Holder(s, u, r) || (u == |s.threads| && r == ref) {}
  }

  lemma NoneVanishedDequeue(s: State, s': State)
    requires Takes(s, s') && Owned(s)
    ensures NoneVanished(s')
  {
    var ref := s.schedule.pending[0];
    assert s.schedule.pending == [ref] + s'.schedule.pending;
    forall u: nat, r | Holder(s, u, r) ensures Holder(s', u, r) {}
    assert Holder(s', |s.threads|, ref);
  }

  lemma IndexedDequeue(s: State, s': State)
    requires Takes(s, s') && Owned(s)
    ensures SubmittedFirst(s') && Indexed(s')
  {
    var ref := s.schedule.pending[0];
    forall u: nat | InSubmit(s', u) ensures InSubmit(s, u) && s.threads[u].ref != ref {
      assert Holder(s, u, s.threads[u].ref);
    }
    forall r ensures Tracked(s', r) == Tracked(s, r) {}
  }

  lemma OwnedElsewhere(s: State, s': State)
    requires s.WellFormed() && s'.WellFormed() && Owned(s)
    requires s'.threads == s.threads && s'.schedule == s.schedule
    ensures Owned(s')
  {
    forall u: nat, r ensures Holder(s', u, r) <==> Holder(s, u, r) {}
    forall r ensures Tracked(s', r) <==> Tracked(s, r) {}
    forall u: nat ensures InSubmit(s', u) <==> InSubmit(s, u) {}
  }

  /** How a step changes the task object of its own goroutine. */
  function RecordAfter(stage: Stage, record: TaskRecord, now: int, known: bool): TaskRecord {
    match stage
    case Inserting => if known then record else record.(status := Pending)
    case NoNode => record.AsRequeued()
    case Retrying => record.AsRequeued()
    case Starting(node) => record.AsRunning(node, now)
    case Failing => record.AsFailed(now)
    case Completing(_, _) => record.AsCompleted(now)
    case _ => record
  }

  function NextRecord(s: State, t: nat, input: Input): TaskRecord
    requires t < |s.threads| && s.threads[t].ref in s.schedule.objects
  {
    var record := s.schedule.objects[s.threads[t].ref];
    RecordAfter(s.threads[t].stage, record, input.now, record.id in s.schedule.tasks)
  }

  /** Because the task map finds the goroutine's own object, a step changes that object and no other. */
  lemma AdvanceRecord(s: State, t: nat, input: Input)
    requires s.WellFormed() && Owned(s) && t < |s.threads| && !s.threads[t].stage.Rest()
    ensures AdvanceThread(s, t, input).schedule.objects
         == s.schedule.objects[s.threads[t].ref := NextRecord(s, t, input)]
  {
    assert s.threads[t].stage.Inserting? || Tracked(s, s.threads[t].ref);
  }

  /** Every action keeps the ownership invariant. */
  lemma OwnedStep(s: State, a: Action)
    requires s.WellFormed() && Enabled(s, a) && Owned(s)
    ensures Owned(Apply(s, a))
  {
    match a
    case Submit(_, _, _) => OwnedSubmit(s, a);
    case Dequeue =>
      SingleOwnerDequeue(s, Apply(s, a));
      NoneVanishedDequeue(s, Apply(s, a));
      IndexedDequeue(s, Apply(s, a));
    case Advance(t, input) =>
      AdvanceMoves(s, t, input);
      AdvanceTouches(s, t, input);
      SingleOwnerMove(s, Apply(s, a), t, EffectOf(s, t));
      NoneVanishedMove(s, Apply(s, a), t, EffectOf(s, t));
      SubmittedFirstMove(s, Apply(s, a), t, EffectOf(s, t));
      IndexedMove(s, Apply(s, a), t, EffectOf(s, t));
    case _ => OwnedElsewhere(s, Apply(s, a));
  }

  lemma {:induction false} OwnedAlways(tr: Trace)
    requires Valid(tr)
    ensures Owned(End(tr))
  {
    if tr.Then? {
      OwnedAlways(tr.past);
      OwnedStep(End(tr.past), tr.last);
    }
  }
}
