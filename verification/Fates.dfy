// What becomes of a task: conservation over every run, and exactly when a task is lost.
module Fates {
  import opened Protocol
  import opened Ownership
  import Sets

  datatype Fate = Submitting | TurnedAway | Queued | Held | Served | RetriesExhausted | Lost

  function FateAt(stage: Stage): Fate {
    if stage.Rejected? then TurnedAway
    else if stage.OfSubmit() then Submitting
    else if stage.Finished? then Served
    else if stage.Exhausted? then RetriesExhausted
    else if stage.Dropped? then Lost
    else Held
  }

  ghost predicate HasFate(s: State, ref: Ref, fate: Fate) {
    || (fate == Queued && ref in s.schedule.pending)
    || (exists t: nat :: Holder(s, t, ref) && FateAt(s.threads[t].stage) == fate)
  }

  lemma OwnedFate(s: State, ref: Ref) returns (fate: Fate)
    requires s.WellFormed() && Owned(s) && ref in s.schedule.objects
    ensures HasFate(s, ref, fate)
    ensures forall other :: HasFate(s, ref, other) ==> other == fate
    ensures forall t: nat :: s.At(t, Accepted) && s.threads[t].ref == ref ==>
              fate in {Queued, Held, Served, RetriesExhausted, Lost}
  {
    if ref in s.schedule.pending {
      fate := Queued;
    } else {
      var u: nat :| Holder(s, u, ref);
      fate := FateAt(s.threads[u].stage);
      if s.threads[u].stage.OfSubmit() {
        assert InSubmit(s, u);
      }
    }
  }

  /** Conservation: in every reachable state every task ever created has exactly one fate; if its submission
      was accepted, it is queued, held by one goroutine, served, out of retries or lost. */
  lemma ExactlyOneFate(tr: Trace, ref: Ref) returns (fate: Fate)
    requires Valid(tr) && ref in End(tr).schedule.objects
    ensures HasFate(End(tr), ref, fate)
    ensures forall other :: HasFate(End(tr), ref, other) ==> other == fate
    ensures forall t: nat :: End(tr).At(t, Accepted) && End(tr).threads[t].ref == ref ==>
              fate in {Queued, Held, Served, RetriesExhausted, Lost}
  {
    OwnedAlways(tr);
    fate := OwnedFate(End(tr), ref);
  }

  /** No task is ever dispatched by two goroutines at once, nor while it still waits in the queue. */
  lemma NeverDispatchedTwice(tr: Trace, t: nat, u: nat)
    requires Valid(tr) && t < |End(tr).threads| && u < |End(tr).threads| && t != u
    requires !End(tr).threads[t].stage.Rest() && !End(tr).threads[u].stage.Rest()
    ensures End(tr).threads[t].ref != End(tr).threads[u].ref
    ensures End(tr).threads[t].ref !in End(tr).schedule.pending
  {
    OwnedAlways(tr);
    assert Holder(End(tr), t, End(tr).threads[t].ref) && Holder(End(tr), u, End(tr).threads[u].ref);
  }

  /** The errors the dispatcher ignores never occur: each Mark call finds the goroutine's own task object,
      and the rollback of a refused Enqueue removes the handler's own entry. */
  lemma IgnoredErrorsNeverOccur(tr: Trace, t: nat)
    requires Valid(tr) && t < |End(tr).threads|
    requires var stage := End(tr).threads[t].stage;
             stage.Starting? || stage.Failing? || stage.Completing? || stage.RollingBack?
    ensures var s := End(tr);
            && s.schedule.Has(s.ID(s.threads[t].ref))
            && s.schedule.tasks[s.ID(s.threads[t].ref)] == s.threads[t].ref
  {
    OwnedAlways(tr);
    assert Tracked(End(tr), End(tr).threads[t].ref);
  }

  // Loss

  /** A goroutine drops its task in exactly one situation: the requeueing send meets a full queue. */
  lemma DropsExactlyWhenFull(s: State, a: Action, t: nat)
    requires s.WellFormed() && Enabled(s, a) && !s.At(t, Dropped)
    ensures Apply(s, a).At(t, Dropped)
      <==> a.Advance? && a.t == t && s.At(t, Requeueing) && |s.schedule.pending| == s.schedule.maxQueue
  {
  }

  /** The tasks that are queued or in the hands of a handler or goroutine that is still running. */
  ghost predicate IsLive(s: State, ref: Ref) {
    || ref in s.schedule.pending
    || exists t: nat :: Holder(s, t, ref) && !s.threads[t].stage.Rest()
  }

  ghost function Live(s: State): set<Ref> {
    set ref | ref in s.schedule.objects && IsLive(s, ref)
  }

  function ToSet(refs: seq<Ref>): set<Ref> {
    set ref | ref in refs
  }

  lemma {:induction false} DistinctCount(refs: seq<Ref>)
    requires forall i, j :: 0 <= i < j < |refs| ==> refs[i] != refs[j]
    ensures |ToSet(refs)| == |refs|
  {
    if refs != [] {
      var n := |refs| - 1;
      DistinctCount(refs[..n]);
      assert ToSet(refs) == ToSet(refs[..n]) + {refs[n]};
    }
  }

  /** Pigeonhole: whoever finds the queue full holds one live task more than the queue can take. */
  lemma FullMeansOverload(s: State, t: nat)
    requires s.WellFormed() && Owned(s) && t < |s.threads| && !s.threads[t].stage.Rest()
    requires !s.schedule.HasRoom()
    ensures |Live(s)| > s.schedule.maxQueue
  {
    var ref := s.threads[t].ref;
    assert Holder(s, t, ref);
    var waiting := ToSet(s.schedule.pending);
    DistinctCount(s.schedule.pending);
    assert waiting + {ref} <= Live(s);
    Sets.SubsetCount(waiting + {ref}, Live(s));
  }

  /** The number of live tasks at the busiest moment of the run. */
  ghost function MostLive(tr: Trace): nat
    requires Valid(tr)
  {
    var now := |Live(End(tr))|;
    if tr.Then? && MostLive(tr.past) > now then MostLive(tr.past) else now
  }

  lemma DropNeedsOverload(s: State, a: Action, t: nat)
    requires s.WellFormed() && Owned(s) && Enabled(s, a)
    requires !s.At(t, Dropped) && Apply(s, a).At(t, Dropped)
    ensures |Live(s)| > s.schedule.maxQueue
  {
    DropsExactlyWhenFull(s, a, t);
    FullMeansOverload(s, t);
  }

  /** No loss: while no more tasks are live than the queue can hold, none is dropped. */
  lemma {:induction false} NoLoss(tr: Trace, t: nat)
    requires Valid(tr) && MostLive(tr) <= End(tr).schedule.maxQueue
    ensures !End(tr).At(t, Dropped)
  {
    if tr.Then? {
      NoLoss(tr.past, t);
      OwnedAlways(tr.past);
      if End(tr).At(t, Dropped) {
        DropNeedsOverload(End(tr.past), tr.last, t);
      }
    }
  }

  lemma {:induction false} LiveAtMostCreated(tr: Trace)
    requires Valid(tr)
    ensures MostLive(tr) <= |End(tr).schedule.objects.Keys|
  {
    Sets.SubsetCount(Live(End(tr)), End(tr).schedule.objects.Keys);
    if tr.Then? {
      TasksStay(End(tr.past), tr.last);
      Sets.SubsetCount(End(tr.past).schedule.objects.Keys, End(tr).schedule.objects.Keys);
      LiveAtMostCreated(tr.past);
    }
  }

  // Order

  /** What an action sends to the queue, and what it takes from it. */
  ghost function Sending(s: State, a: Action): seq<Ref>
    requires s.WellFormed() && Enabled(s, a)
  {
    if a.Advance? && EffectOf(s, a.t).Pushes? then [s.threads[a.t].ref] else []
  }

  ghost function Taking(s: State, a: Action): seq<Ref>
    requires s.WellFormed() && Enabled(s, a)
  {
    if a.Dequeue? then [s.schedule.pending[0]] else []
  }

  lemma QueueStep(s: State, a: Action)
    requires s.WellFormed() && Enabled(s, a)
    ensures Taking(s, a) + Apply(s, a).schedule.pending == s.schedule.pending + Sending(s, a)
  {
    if a.Advance? {
      AdvanceTouches(s, a.t, a.input);
    }
  }

  ghost function Sent(tr: Trace): seq<Ref>
    requires Valid(tr)
  {
    if tr.Start? then [] else Sent(tr.past) + Sending(End(tr.past), tr.last)
  }

  ghost function Taken(tr: Trace): seq<Ref>
    requires Valid(tr)
  {
    if tr.Start? then [] else Taken(tr.past) + Taking(End(tr.past), tr.last)
  }

  /** First come, first served, for first attempts and retries alike: nothing else orders the tasks. */
  lemma {:induction false} DispatchedInOrder(tr: Trace)
    requires Valid(tr)
    ensures Taken(tr) + End(tr).schedule.pending == Sent(tr)
  {
    if tr.Then? {
      DispatchedInOrder(tr.past);
      QueueStep(End(tr.past), tr.last);
      Regroup(Taken(tr.past), Taking(End(tr.past), tr.last), End(tr).schedule.pending);
      Regroup(Taken(tr.past), End(tr.past).schedule.pending, Sending(End(tr.past), tr.last));
    }
  }

  lemma Regroup(a: seq<Ref>, b: seq<Ref>, c: seq<Ref>)
    ensures (a + b) + c == a + (b + c)
  {
  }
}
