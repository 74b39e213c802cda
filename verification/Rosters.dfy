// The registry inside the dispatch protocol is the registry of the timed runs, so that what is proved about health
// checks holds for the nodes that dispatches are sent to.
module Rosters {
  import opened Types
  import opened Protocol
  import Health
  import Registry

  /** What an action of the protocol does to the registry. */
  ghost function EventOf(s: State, a: Action): Health.Event
    requires s.WellFormed() && Enabled(s, a)
  {
    match a
    case Register(id, address, maxTasks, now) =>
      Health.Register(Registry.NodeInfo(id, address, maxTasks, 0, now, Registry.Healthy))
    case Deregister(id) => Health.Deregister(id)
    case Heartbeat(id, activeTasks, _) => Health.Heartbeat(id, activeTasks)
    case CheckHealth(_) => Health.Check
    case Advance(t, _) =>
      (match s.threads[t].stage
       case Counting(node) => Health.Increment(node)
       case Uncounting(node) => Health.Decrement(node)
       case Releasing(node) => Health.Decrement(node)
       case _ => Health.Nothing)
    case _ => Health.Nothing
  }

  /** The time of an action that has one; the others are placed at the time before. */
  function TimeOf(a: Action, before: int): int {
    match a
    case Register(_, _, _, now) => now
    case Heartbeat(_, _, now) => now
    case CheckHealth(now) => now
    case _ => before
  }

  function ConfigOf(tr: Trace): Config {
    match tr
    case Start(config) => config
    case Then(past, _) => ConfigOf(past)
  }

  function Now(tr: Trace, start: int): int {
    match tr
    case Start(_) => start
    case Then(past, last) => TimeOf(last, Now(past, start))
  }

  ghost function EventsOf(tr: Trace, start: int): Health.Run
    requires Valid(tr)
  {
    match tr
    case Start(_) => []
    case Then(past, last) =>
      EventsOf(past, start) + [Health.Timed(EventOf(End(past), last), TimeOf(last, Now(past, start)))]
  }

  lemma RosterStep(s: State, a: Action, at: int)
    requires s.WellFormed() && Enabled(s, a)
    ensures Apply(s, a).roster == Health.Step(s.roster, Health.Timed(EventOf(s, a), TimeOf(a, at)))
  {
  }

  /** In every run of the protocol the registry is what its own events make of it. */
  lemma {:induction false} RosterIsItsRun(tr: Trace, start: int)
    requires Valid(tr)
    ensures End(tr).roster
         == Health.After(EventsOf(tr, start), ConfigOf(tr).heartbeatTimeout, ConfigOf(tr).unhealthyTimeout)
  {
    if tr.Then? {
      RosterIsItsRun(tr.past, start);
      RosterStep(End(tr.past), tr.last, Now(tr.past, start));
      assert EventsOf(tr, start)[..|EventsOf(tr, start)| - 1] == EventsOf(tr.past, start);
    }
  }

  /** A dispatch goes to a node that has been in contact not longer ago than the heartbeat timeout and the time
      since the last check. */
  lemma ChosenNodeIsFresh(tr: Trace, a: Action, start: int, period: int, now: int)
    requires Valid(tr) && Enabled(End(tr), a) && a.Advance? && End(tr).threads[a.t].stage.Picking?
    requires a.input.choice.Some?
    requires ConfigOf(tr).heartbeatTimeout > 0 && ConfigOf(tr).unhealthyTimeout > 0
    requires var run := EventsOf(tr, start);
             && Health.Monotone(run) && run != [] && start <= run[0].at && run[|run| - 1].at <= now
             && now - Health.LastCheck(run, start) <= period
    ensures var node := a.input.choice.value;
            && End(tr).roster.IsHealthy(node)
            && now - End(tr).roster.nodes[node].lastSeen <= ConfigOf(tr).heartbeatTimeout + period
            && Health.LastContact(EventsOf(tr, start), node) == Some(End(tr).roster.nodes[node].lastSeen)
  {
    var node, run, c := a.input.choice.value, EventsOf(tr, start), ConfigOf(tr);
    RosterIsItsRun(tr, start);
    Health.BoundedStaleness(run, c.heartbeatTimeout, c.unhealthyTimeout, start, period, now, node);
    Health.LastSeenIsLastContact(run, c.heartbeatTimeout, c.unhealthyTimeout, node);
  }
}
