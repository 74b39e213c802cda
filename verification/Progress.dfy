// Termination of whole runs: a bound on all dispatch steps together.
module Progress {
  import opened Types
  import opened Protocol
  import opened Retries
  import Sets

  /** The step of a dequeue, a submit handler or a dispatch goroutine, and the task it moves. */
  predicate IsDispatch(a: Action) {
    a.Advance? || a.Dequeue?
  }

  ghost function Moved(s: State, a: Action): Ref
    requires s.WellFormed() && Enabled(s, a) && IsDispatch(a)
  {
    if a.Dequeue? then s.schedule.pending[0] else s.threads[a.t].ref
  }

  ghost predicate IsWait(s: State, a: Action) {
    a.Advance? && a.t < |s.threads| && s.threads[a.t].stage.NoNode?
  }

  ghost function DispatchSteps(tr: Trace): nat
    requires Valid(tr)
  {
    if tr.Start? then 0 else DispatchSteps(tr.past) + if IsDispatch(tr.last) then 1 else 0
  }

  ghost function AllWaits(tr: Trace): nat
    requires Valid(tr)
  {
    if tr.Start? then 0 else AllWaits(tr.past) + if IsWait(End(tr.past), tr.last) then 1 else 0
  }

  ghost function StepsOf(tr: Trace, refs: seq<Ref>): nat
    requires Valid(tr)
  {
    if refs == [] then 0 else StepsOf(tr, refs[1..]) + OwnSteps(tr, refs[0])
  }

  ghost function WaitsOf(tr: Trace, refs: seq<Ref>): nat
    requires Valid(tr)
  {
    if refs == [] then 0 else WaitsOf(tr, refs[1..]) + TallyOf(tr, refs[0]).waits
  }

  ghost predicate Distinct(refs: seq<Ref>) {
    forall i, j :: 0 <= i < j < |refs| ==> refs[i] != refs[j]
  }

  /** One more step counts for one task. */
  lemma {:induction false} OneMoves(tr: Trace, refs: seq<Ref>)
    requires Valid(tr) && tr.Then? && Distinct(refs)
    ensures var s, a := End(tr.past), tr.last;
            var mine := IsDispatch(a) && Moved(s, a) in refs;
            && StepsOf(tr, refs) == StepsOf(tr.past, refs) + (if mine then 1 else 0)
            && WaitsOf(tr, refs) == WaitsOf(tr.past, refs) + (if mine && IsWait(s, a) then 1 else 0)
  {
    if refs != [] {
      OneMoves(tr, refs[1..]);
      assert refs == [refs[0]] + refs[1..];
    }
  }

  lemma {:induction false} AddsUp(tr: Trace, refs: seq<Ref>)
    requires Valid(tr) && Distinct(refs)
    requires forall ref :: ref in End(tr).schedule.objects ==> ref in refs
    ensures DispatchSteps(tr) == StepsOf(tr, refs) && AllWaits(tr) == WaitsOf(tr, refs)
  {
    if tr.Then? {
      TasksStay(End(tr.past), tr.last);
      AddsUp(tr.past, refs);
      OneMoves(tr, refs);
    } else {
      NothingYet(tr, refs);
    }
  }

  lemma {:induction false} NothingYet(tr: Trace, refs: seq<Ref>)
    requires tr.Start?
    ensures StepsOf(tr, refs) == WaitsOf(tr, refs) == 0
  {
    if refs != [] {
      NothingYet(tr, refs[1..]);
    }
  }

  lemma {:induction false} EachTerminates(tr: Trace, refs: seq<Ref>)
    requires Valid(tr)
    ensures StepsOf(tr, refs) <= 50 * |refs| + 12 * WaitsOf(tr, refs)
  {
    if refs != [] {
      EachTerminates(tr, refs[1..]);
      TaskTerminates(tr, refs[0]);
      assert |refs| == |refs[1..]| + 1;
    }
  }

  lemma {:induction false} Enumerate(s: set<Ref>) returns (refs: seq<Ref>)
    ensures Distinct(refs) && |refs| == |s| && forall ref :: ref in refs <==> ref in s
    decreases |s|
  {
    refs := [];
    if s != {} {
      var ref :| ref in s;
      refs := Enumerate(s - {ref});
      refs := [ref] + refs;
    }
  }

  /** In every run, dispatching takes at most 50 steps per task and 12 per wait for a node, all tasks, handlers
      and goroutines together. */
  lemma RunTerminates(tr: Trace)
    requires Valid(tr)
    ensures DispatchSteps(tr) <= 50 * |End(tr).schedule.objects.Keys| + 12 * AllWaits(tr)
  {
    var refs := Enumerate(End(tr).schedule.objects.Keys);
    AddsUp(tr, refs);
    EachTerminates(tr, refs);
  }

  // Coming to rest

  ghost predicate AllRest(s: State) {
    s.schedule.pending == [] && forall t :: 0 <= t < |s.threads| ==> s.threads[t].stage.Rest()
  }

  ghost function Waiters(s: State): set<nat> {
    set t: nat | t < |s.threads| && s.threads[t].stage.NoNode?
  }

  /** What is left of the bound, counting the waits that are already decided. */
  ghost function Budget(tr: Trace): int
    requires Valid(tr)
  {
    50 * |End(tr).schedule.objects.Keys| + 12 * (AllWaits(tr) + |Waiters(End(tr))|) - DispatchSteps(tr)
  }

  lemma WaitersStep(s: State, a: Action)
    requires s.WellFormed() && Enabled(s, a) && IsDispatch(a)
    requires a.Advance? && s.threads[a.t].stage.Picking? ==> a.input.choice.Some?
    ensures |Waiters(Apply(s, a))| + (if IsWait(s, a) then 1 else 0) == |Waiters(s)|
    ensures Apply(s, a).schedule.objects.Keys == s.schedule.objects.Keys
  {
    var before, after := Waiters(s), Waiters(Apply(s, a));
    if a.Advance? {
      Sets.CountWithout(before, a.t);
      assert after == before - {a.t};
    } else {
      assert after == before;
    }
  }

  lemma BudgetStep(tr: Trace, a: Action)
    requires Valid(tr) && Enabled(End(tr), a) && IsDispatch(a)
    requires a.Advance? && End(tr).threads[a.t].stage.Picking? ==> a.input.choice.Some?
    ensures Valid(Then(tr, a)) && Budget(Then(tr, a)) == Budget(tr) - 1
  {
    WaitersStep(End(tr), a);
  }

  /** A node registers: dispatching is where it was. */
  lemma WithNode(tr: Trace, node: string) returns (with: Trace)
    requires Valid(tr)
    ensures with == Then(tr, Register(node, "", 1, 0)) && Valid(with) && Budget(with) == Budget(tr)
    ensures End(with).threads == End(tr).threads && End(with).schedule == End(tr).schedule
    ensures End(with).roster.IsHealthy(node)
  {
    with := Then(tr, Register(node, "", 1, 0));
    assert Waiters(End(with)) == Waiters(End(tr));
  }

  /** The next dispatch step, when a node is healthy. */
  lemma NextStep(tr: Trace, node: string) returns (a: Action)
    requires Valid(tr) && End(tr).roster.IsHealthy(node) && !AllRest(End(tr))
    ensures Enabled(End(tr), a) && IsDispatch(a)
    ensures a.Advance? && End(tr).threads[a.t].stage.Picking? ==> a.input.choice.Some?
  {
    if End(tr).schedule.pending != [] {
      a := Dequeue;
    } else {
      var t :| 0 <= t < |End(tr).threads| && !End(tr).threads[t].stage.Rest();
      assert node in End(tr).roster.HealthyIDs();
      a := Advance(t, Input(Some(node), true, None, 0));
    }
  }

  /** No deadlock and no trap: from every reachable state, whatever has been submitted, lost, cancelled or
      evicted, some longer run brings queue, handlers and goroutines to rest. */
  lemma {:induction false} EveryRunCanFinish(tr: Trace, node: string) returns (late: Trace)
    requires Valid(tr)
    ensures Valid(late) && Prefix(tr, late) && AllRest(End(late))
    decreases Budget(tr)
  {
    RunTerminates(tr);
    if AllRest(End(tr)) {
      late := tr;
    } else {
      var with := WithNode(tr, node);
      var a := NextStep(with, node);
      BudgetStep(with, a);
      RunTerminates(Then(with, a));
      late := EveryRunCanFinish(Then(with, a), node);
      PrefixJoins(tr, with, Then(with, a));
      PrefixJoins(tr, Then(with, a), late);
    }
  }
}
