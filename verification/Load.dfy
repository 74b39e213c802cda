// Load accounting: the registry's ActiveTasks counters against the dispatches that are really in flight.
module Load {
  import opened Protocol
  import Sets

  /** Between IncrementActiveTasks and its DecrementActiveTasks on this node. */
  predicate OnNode(stage: Stage, node: string) {
    match stage
    case Executing(n) => n == node
    case Uncounting(n) => n == node
    case Saving(n, _) => n == node
    case Completing(n, _) => n == node
    case Releasing(n) => n == node
    case _ => false
  }

  ghost function On(threads: seq<Thread>, node: string): set<nat> {
    set t: nat | t < |threads| && OnNode(threads[t].stage, node)
  }

  ghost function InFlight(s: State, node: string): set<nat> {
    On(s.threads, node)
  }

  lemma OneMoves(threads: seq<Thread>, t: nat, thread: Thread, node: string)
    requires t < |threads|
    ensures |On(threads[t := thread], node)| == |On(threads, node)|
              + (if OnNode(thread.stage, node) then 1 else 0) - (if OnNode(threads[t].stage, node) then 1 else 0)
  {
    var before, after := On(threads, node), On(threads[t := thread], node);
    assert after - {t} == before - {t};
    Sets.CountWithout(before, t);
    Sets.CountWithout(after, t);
  }

  /** The action is an IncrementActiveTasks for this node. */
  ghost predicate Increments(s: State, a: Action, node: string) {
    a.Advance? && a.t < |s.threads| && s.threads[a.t].stage == Counting(node)
  }

  ghost predicate Decrements(s: State, a: Action, node: string) {
    && a.Advance? && a.t < |s.threads|
    && (s.threads[a.t].stage == Uncounting(node) || s.threads[a.t].stage == Releasing(node))
  }

  lemma StageOnNode(s: State, t: nat, input: Input, node: string)
    requires s.WellFormed() && t < |s.threads| && !s.threads[t].stage.Rest()
    ensures var stage, a := NextStage(s, t, input), Advance(t, input);
            && OnNode(stage, node)
               == (if Increments(s, a, node) then true else if Decrements(s, a, node) then false
                   else OnNode(s.threads[t].stage, node))
            && (Increments(s, a, node) ==> !OnNode(s.threads[t].stage, node))
            && (Decrements(s, a, node) ==> OnNode(s.threads[t].stage, node))
  {
  }

  /** A dispatch is in flight on a node from its increment to its decrement, on every path. */
  lemma InFlightStep(s: State, a: Action, node: string)
    requires s.WellFormed() && Enabled(s, a)
    ensures |InFlight(Apply(s, a), node)| == |InFlight(s, node)|
              + (if Increments(s, a, node) then 1 else 0) - (if Decrements(s, a, node) then 1 else 0)
  {
    if a.Advance? {
      StageOnNode(s, a.t, a.input, node);
      OneMoves(s.threads, a.t, Thread(s.threads[a.t].ref, NextStage(s, a.t, a.input)), node);
    } else {
      assert InFlight(Apply(s, a), node) == InFlight(s, node);
    }
  }

  ghost function IncrementCount(tr: Trace, node: string): nat
    requires Valid(tr)
  {
    if tr.Start? then 0
    else IncrementCount(tr.past, node) + if Increments(End(tr.past), tr.last, node) then 1 else 0
  }

  ghost function DecrementCount(tr: Trace, node: string): nat
    requires Valid(tr)
  {
    if tr.Start? then 0
    else DecrementCount(tr.past, node) + if Decrements(End(tr.past), tr.last, node) then 1 else 0
  }

  /** Every increment is matched by exactly one decrement, but for the dispatches still in flight. */
  lemma {:induction false} IncrementsAreMatched(tr: Trace, node: string)
    requires Valid(tr)
    ensures IncrementCount(tr, node) == DecrementCount(tr, node) + |InFlight(End(tr), node)|
  {
    if tr.Start? {
      assert InFlight(End(tr), node) == {};
    } else {
      IncrementsAreMatched(tr.past, node);
      InFlightStep(End(tr.past), tr.last, node);
    }
  }

  /** What one action does to the counter of a node that is registered before and after it. */
  lemma CounterStep(s: State, a: Action, node: string)
    requires s.WellFormed() && Enabled(s, a) && node in Apply(s, a).roster.nodes
    ensures var nodes, nodes' := s.roster.nodes, Apply(s, a).roster.nodes;
            if a.Register? && a.id == node then nodes'[node].activeTasks == 0
            else
              && node in nodes
              && nodes'[node].activeTasks ==
                 (if a.Heartbeat? && a.id == node then a.activeTasks
                  else if Increments(s, a, node) then nodes[node].activeTasks + 1
                  else if Decrements(s, a, node) && nodes[node].activeTasks > 0 then nodes[node].activeTasks - 1
                  else nodes[node].activeTasks)
  {
  }

  ghost predicate NoHeartbeats(tr: Trace, node: string) {
    tr.Then? ==> NoHeartbeats(tr.past, node) && !(tr.last.Heartbeat? && tr.last.id == node)
  }

  /** Left to itself the counter never exceeds the dispatches in flight, through any registrations,
      deregistrations and evictions. */
  lemma {:induction false} CounterWithinInFlight(tr: Trace, node: string)
    requires Valid(tr) && NoHeartbeats(tr, node) && node in End(tr).roster.nodes
    ensures 0 <= End(tr).roster.nodes[node].activeTasks <= |InFlight(End(tr), node)|
  {
    if tr.Then? {
      var s, a := End(tr.past), tr.last;
      CounterStep(s, a, node);
      InFlightStep(s, a, node);
      if !(a.Register? && a.id == node) {
        CounterWithinInFlight(tr.past, node);
        if Decrements(s, a, node) {
          assert a.t in InFlight(s, node);
        }
      }
    }
  }

  /** ... so it is back at zero when nothing is in flight. */
  lemma ZeroAtQuiescence(tr: Trace, node: string)
    requires Valid(tr) && NoHeartbeats(tr, node) && node in End(tr).roster.nodes
    requires forall t :: 0 <= t < |End(tr).threads| ==> End(tr).threads[t].stage.Rest()
    ensures End(tr).roster.nodes[node].activeTasks == 0
  {
    CounterWithinInFlight(tr, node);
    assert InFlight(End(tr), node) == {};
  }

  /** What has happened to a node since its last heartbeat or registration. */
  datatype Epoch = Epoch(reported: int, increments: nat, decrements: nat)

  ghost function EpochOf(tr: Trace, node: string): Epoch
    requires Valid(tr)
  {
    match tr
    case Start(_) => Epoch(0, 0, 0)
    case Then(past, last) =>
      var e := EpochOf(past, node);
      if last.Register? && last.id == node then Epoch(0, 0, 0)
      else if last.Heartbeat? && last.id == node then Epoch(last.activeTasks, 0, 0)
      else if Increments(End(past), last, node) then e.(increments := e.increments + 1)
      else if Decrements(End(past), last, node) then e.(decrements := e.decrements + 1)
      else e
  }

  /** The counter after a report of h: between h + increments - decrements and h + increments, and never
      below zero unless the report itself was. */
  lemma {:induction false} CounterWithinEpoch(tr: Trace, node: string)
    requires Valid(tr) && node in End(tr).roster.nodes
    ensures var e, active := EpochOf(tr, node), End(tr).roster.nodes[node].activeTasks;
            && e.reported + e.increments - e.decrements <= active <= e.reported + e.increments
            && (e.reported >= 0 ==> active >= 0)
  {
    if tr.Then? {
      var s, a := End(tr.past), tr.last;
      CounterStep(s, a, node);
      if !(a.Register? && a.id == node) {
        CounterWithinEpoch(tr.past, node);
      }
    }
  }
}
