// The worker's task runner: admission is a check and a later increment, so overlapping calls can exceed the
// limit, by exactly as much as they overlap.
module Runner {
  import Listing
  import Sets

  /** Where one call of Run stands; each step is one lock section or one atomic operation. */
  datatype Stage =
    | Arrived      // about to compare activeTasks with maxTasks
    | Refused
    | Admitted     // about to put its cancel function into the map
    | Tracked      // about to increment activeTasks
    | Begun        // about to join the wait group
    | Executing
    | Untracked    // has left the map; about to decrement
    | Leaving      // about to leave the wait group
    | Returned

  datatype Call = Call(id: string, stage: Stage)

  datatype State = State(
    maxTasks: nat,
    activeTasks: int,
    running: map<string, nat>,   // task ID to the call whose cancel function is stored
    waiting: int,                // the wait group's counter
    cancelled: set<nat>,         // calls whose context has been cancelled
    calls: seq<Call>)

  /** `CancelAll` is the locked loop of WaitForDrain at its deadline. */
  datatype Action = Arrive(id: string) | Advance(c: nat) | Cancel(id: string) | CancelAll

  predicate Enabled(s: State, a: Action) {
    match a
    case Advance(c) => c < |s.calls| && !s.calls[c].stage.Refused? && !s.calls[c].stage.Returned?
    case _ => true
  }

  function Goto(s: State, c: nat, stage: Stage): State
    requires c < |s.calls|
  {
    s.(calls := s.calls[c := s.calls[c].(stage := stage)])
  }

  function Apply(s: State, a: Action): State
    requires Enabled(s, a)
  {
    match a
    case Arrive(id) => s.(calls := s.calls + [Call(id, Arrived)])
    case Cancel(id) => if id in s.running then s.(cancelled := s.cancelled + {s.running[id]}) else s
    case CancelAll => s.(cancelled := s.cancelled + s.running.Values)
    case Advance(c) =>
      var id := s.calls[c].id;
      match s.calls[c].stage
      case Arrived => Goto(s, c, if s.activeTasks >= s.maxTasks then Refused else Admitted)
      case Admitted => Goto(s.(running := s.running[id := c]), c, Tracked)
      case Tracked => Goto(s.(activeTasks := s.activeTasks + 1), c, Begun)
      case Begun => Goto(s.(waiting := s.waiting + 1), c, Executing)
      case Executing => Goto(s.(running := s.running - {id}), c, Untracked)
      case Untracked => Goto(s.(activeTasks := s.activeTasks - 1), c, Leaving)
      case Leaving => Goto(s.(waiting := s.waiting - 1), c, Returned)
      case _ => s
  }

  datatype Trace = Start(maxTasks: nat) | Then(past: Trace, last: Action)

  ghost predicate Valid(tr: Trace)
    decreases tr, 0
  {
    tr.Then? ==> Valid(tr.past) && Enabled(End(tr.past), tr.last)
  }

  ghost function End(tr: Trace): State
    requires Valid(tr)
    decreases tr, 1
  {
    match tr
    case Start(maxTasks) => State(maxTasks, 0, map[], 0, {}, [])
    case Then(past, last) => Apply(End(past), last)
  }

  // Capacity

  ghost function At(calls: seq<Call>, stages: set<Stage>): set<nat> {
    set c: nat | c < |calls| && calls[c].stage in stages
  }

  ghost function Calls(s: State, stages: set<Stage>): set<nat> {
    At(s.calls, stages)
  }

  /** Past the check and not yet counted. */
  ghost function Window(s: State): set<nat> {
    Calls(s, {Admitted, Tracked})
  }

  ghost function Counted(s: State): set<nat> {
    Calls(s, {Begun, Executing, Untracked})
  }

  ghost function Joined(s: State): set<nat> {
    Calls(s, {Executing, Untracked, Leaving})
  }

  lemma StageChange(calls: seq<Call>, c: nat, stage: Stage, stages: set<Stage>)
    requires c < |calls|
    ensures |At(calls[c := calls[c].(stage := stage)], stages)| == |At(calls, stages)|
              + (if stage in stages then 1 else 0) - (if calls[c].stage in stages then 1 else 0)
  {
    var before, after := At(calls, stages), At(calls[c := calls[c].(stage := stage)], stages);
    assert after - {c} == before - {c};
    Sets.CountWithout(before, c);
    Sets.CountWithout(after, c);
  }

  lemma CallsAfter(s: State, c: nat)
    requires Enabled(s, Advance(c))
    ensures |Apply(s, Advance(c)).calls| == |s.calls|
    ensures Apply(s, Advance(c)).calls == s.calls[c := s.calls[c].(stage := Apply(s, Advance(c)).calls[c].stage)]
  {
  }

  /** How one action changes the number of calls at some stages. */
  lemma CallsStep(s: State, a: Action, stages: set<Stage>)
    requires Enabled(s, a) && Arrived !in stages
    ensures |Calls(Apply(s, a), stages)| == |Calls(s, stages)|
              + (if a.Advance? && Apply(s, a).calls[a.c].stage in stages then 1 else 0)
              - (if a.Advance? && s.calls[a.c].stage in stages then 1 else 0)
  {
    if a.Advance? {
      CallsAfter(s, a.c);
      StageChange(s.calls, a.c, Apply(s, a).calls[a.c].stage, stages);
    } else {
      assert Calls(Apply(s, a), stages) == Calls(s, stages);
    }
  }

  ghost predicate OverlapAtMost(tr: Trace, p: nat)
    requires Valid(tr)
  {
    |Window(End(tr))| <= p && (tr.Then? ==> OverlapAtMost(tr.past, p))
  }

  /** Both counters count exactly the calls between their increment and their decrement. */
  lemma {:induction false} CountersAreExact(tr: Trace)
    requires Valid(tr)
    ensures End(tr).activeTasks == |Counted(End(tr))|
    ensures End(tr).waiting == |Joined(End(tr))|
  {
    if tr.Start? {
      assert Counted(End(tr)) == {} && Joined(End(tr)) == {};
    } else {
      CountersAreExact(tr.past);
      CallsStep(End(tr.past), tr.last, {Begun, Executing, Untracked});
      CallsStep(End(tr.past), tr.last, {Executing, Untracked, Leaving});
    }
  }

  /** If at most p calls ever overlap between check and increment, the limit is exceeded by at most p - 1. */
  lemma {:induction false} CapacityUnderRaces(tr: Trace, p: nat)
    requires Valid(tr) && p >= 1 && OverlapAtMost(tr, p)
    requires End(tr).maxTasks >= 1
    ensures End(tr).activeTasks + |Window(End(tr))| <= End(tr).maxTasks - 1 + p
  {
    if tr.Start? {
      assert Window(End(tr)) == {};
    } else {
      CapacityUnderRaces(tr.past, p);
      CallsStep(End(tr.past), tr.last, {Admitted, Tracked});
    }
  }

  /** Without overlap the limit holds. */
  lemma CapacityWithoutRaces(tr: Trace)
    requires Valid(tr) && OverlapAtMost(tr, 1) && End(tr).maxTasks >= 1
    ensures End(tr).activeTasks <= End(tr).maxTasks
  {
    CapacityUnderRaces(tr, 1);
  }

  // The bound is tight

  /** e calls executing, then a calls admitted; never more than p overlapped on the way. */
  ghost predicate Shape(tr: Trace, e: nat, a: nat, p: nat) {
    && Valid(tr) && OverlapAtMost(tr, p)
    && |End(tr).calls| == e + a && End(tr).activeTasks == e
    && (forall c :: 0 <= c < e ==> End(tr).calls[c].stage == Executing)
    && (forall c :: e <= c < e + a ==> End(tr).calls[c].stage == Admitted)
  }

  ghost function IDs(s: State): seq<string> {
    seq(|s.calls|, k requires 0 <= k < |s.calls| => s.calls[k].id)
  }

  lemma Extend(past: Trace, a: Action, p: nat) returns (tr: Trace)
    requires Valid(past) && OverlapAtMost(past, p) && Enabled(End(past), a)
    requires |Window(Apply(End(past), a))| <= p
    ensures tr == Then(past, a) && Valid(tr) && OverlapAtMost(tr, p) && End(tr) == Apply(End(past), a)
  {
    tr := Then(past, a);
  }

  ghost function Range(low: nat, n: nat): (r: set<nat>)
    ensures |r| == n
    ensures forall c :: c in r <==> low <= c < low + n
  {
    if n == 0 then {} else Range(low, n - 1) + {low + n - 1}
  }

  lemma WindowOfShape(tr: Trace, e: nat, a: nat, p: nat)
    requires Shape(tr, e, a, p)
    ensures |Window(End(tr))| == a
  {
    assert Window(End(tr)) == Range(e, a);
  }

  lemma AdmitOne(past: Trace, e: nat, a: nat, p: nat, id: string) returns (tr: Trace)
    requires Shape(past, e, a, p) && a < p && e < End(past).maxTasks
    ensures Shape(tr, e, a + 1, p) && End(tr).maxTasks == End(past).maxTasks
    ensures IDs(End(tr)) == IDs(End(past)) + [id]
  {
    WindowOfShape(past, e, a, p);
    CallsStep(End(past), Arrive(id), {Admitted, Tracked});
    tr := Extend(past, Arrive(id), p);
    assert |Window(End(tr))| == a;
    CallsStep(End(tr), Advance(e + a), {Admitted, Tracked});
    tr := Extend(tr, Advance(e + a), p);
  }

  lemma BeginOne(past: Trace, e: nat, a: nat, p: nat) returns (tr: Trace)
    requires Shape(past, e, a, p) && a > 0
    ensures Shape(tr, e + 1, a - 1, p) && End(tr).maxTasks == End(past).maxTasks
    ensures IDs(End(tr)) == IDs(End(past))
  {
    tr := past;
    CallsStep(End(tr), Advance(e), {Admitted, Tracked});
    tr := Extend(tr, Advance(e), p);
    CallsStep(End(tr), Advance(e), {Admitted, Tracked});
    tr := Extend(tr, Advance(e), p);
    CallsStep(End(tr), Advance(e), {Admitted, Tracked});
    tr := Extend(tr, Advance(e), p);
  }

  /** For every limit and every degree of overlap some run reaches the bound. */
  lemma CapacityBoundIsTight(maxTasks: nat, p: nat, id: string) returns (tr: Trace)
    requires maxTasks >= 1 && p >= 1
    ensures Valid(tr) && OverlapAtMost(tr, p) && End(tr).maxTasks == maxTasks
    ensures End(tr).activeTasks == maxTasks - 1 + p
  {
    tr := Start(maxTasks);
    assert Window(End(tr)) == {};
    var e: nat := 0;
    while e < maxTasks - 1
      invariant e <= maxTasks - 1 && Shape(tr, e, 0, p) && End(tr).maxTasks == maxTasks
    {
      tr := AdmitOne(tr, e, 0, p, id);
      tr := BeginOne(tr, e, 1, p);
      e := e + 1;
    }
    var a: nat := 0;
    while a < p
      invariant a <= p && Shape(tr, e, a, p) && End(tr).maxTasks == maxTasks
    {
      tr := AdmitOne(tr, e, a, p, id);
      a := a + 1;
    }
    while a > 0
      invariant a <= p && e + a == maxTasks - 1 + p && Shape(tr, e, a, p) && End(tr).maxTasks == maxTasks
    {
      tr := BeginOne(tr, e, a, p);
      e, a := e + 1, a - 1;
    }
  }

  // The map of running calls

  /** The call is past its map insert and before its map delete. */
  predicate InMap(stage: Stage) {
    stage.Tracked? || stage.Begun? || stage.Executing?
  }

  /** Every key belongs to a call in flight that has this ID. */
  ghost predicate KeysInFlight(s: State) {
    forall id :: id in s.running ==>
      var c := s.running[id]; c < |s.calls| && s.calls[c].id == id && InMap(s.calls[c].stage)
  }

  lemma KeysAdvance(s: State, c: nat)
    requires Enabled(s, Advance(c)) && KeysInFlight(s)
    ensures KeysInFlight(Apply(s, Advance(c)))
  {
    var s' := Apply(s, Advance(c));
    if s.calls[c].stage.Admitted? {
      assert s'.running == s.running[s.calls[c].id := c];
    } else if s.calls[c].stage.Executing? {
      assert s'.running == s.running - {s.calls[c].id};
    } else {
      assert s'.running == s.running && (InMap(s.calls[c].stage) ==> InMap(s'.calls[c].stage));
    }
  }

  lemma {:induction false} KeysAreInFlight(tr: Trace)
    requires Valid(tr)
    ensures KeysInFlight(End(tr))
  {
    if tr.Then? {
      KeysAreInFlight(tr.past);
      if tr.last.Advance? {
        KeysAdvance(End(tr.past), tr.last.c);
      }
    }
  }

  ghost predicate DistinctIDs(s: State) {
    forall c, d | 0 <= c < |s.calls| && 0 <= d < |s.calls| && c != d
      && InMap(s.calls[c].stage) && InMap(s.calls[d].stage) :: s.calls[c].id != s.calls[d].id
  }

  ghost predicate AlwaysDistinct(tr: Trace)
    requires Valid(tr)
  {
    DistinctIDs(End(tr)) && (tr.Then? ==> AlwaysDistinct(tr.past))
  }

  ghost predicate HasKeys(s: State) {
    forall c :: 0 <= c < |s.calls| && InMap(s.calls[c].stage) ==>
      s.calls[c].id in s.running && s.running[s.calls[c].id] == c
  }

  lemma HasKeysStep(s: State, a: Action)
    requires Enabled(s, a) && HasKeys(s) && DistinctIDs(s) && DistinctIDs(Apply(s, a))
    ensures HasKeys(Apply(s, a))
  {
    var s' := Apply(s, a);
    forall c | 0 <= c < |s'.calls| && InMap(s'.calls[c].stage)
      ensures s'.calls[c].id in s'.running && s'.running[s'.calls[c].id] == c
    {
      if a.Advance? && c != a.c {
        assert s'.calls[c] == s.calls[c];
        assert InMap(s'.calls[a.c].stage) || InMap(s.calls[a.c].stage) ==> s.calls[a.c].id != s.calls[c].id;
      }
    }
  }

  /** While in-flight IDs are distinct every call past its insert is found under its ID, so CancelTask and the
      drain reach it. */
  lemma {:induction false} CallsHaveTheirKeys(tr: Trace)
    requires Valid(tr) && AlwaysDistinct(tr)
    ensures HasKeys(End(tr))
  {
    if tr.Then? {
      CallsHaveTheirKeys(tr.past);
      HasKeysStep(End(tr.past), tr.last);
    }
  }

  /** The key of call c, under its ID, leads to c. */
  ghost predicate HasKey(s: State, c: nat) {
    c < |s.calls| && s.calls[c].id in s.running && s.running[s.calls[c].id] == c
  }

  /** Another call with the ID of call c does its map insert or its map delete. */
  ghost predicate Interferes(s: State, a: Action, c: nat) {
    && a.Advance? && a.c != c && a.c < |s.calls| && c < |s.calls|
    && s.calls[a.c].id == s.calls[c].id && (s.calls[a.c].stage.Admitted? || s.calls[a.c].stage.Executing?)
  }

  /** Since the insert of call c no other call has interfered. */
  ghost predicate AloneSinceInsert(tr: Trace, c: nat)
    requires Valid(tr)
  {
    && tr.Then?
    && var s, a := End(tr.past), tr.last;
    || (a == Advance(c) && s.calls[c].stage.Admitted?)
    || (AloneSinceInsert(tr.past, c) && !Interferes(s, a, c))
  }

  lemma FoundStep(s: State, a: Action, c: nat)
    requires Enabled(s, a) && c < |Apply(s, a).calls| && InMap(Apply(s, a).calls[c].stage)
    ensures c < |s.calls|
    ensures a == Advance(c) && s.calls[c].stage.Admitted? ==> HasKey(Apply(s, a), c)
    ensures !(a == Advance(c) && s.calls[c].stage.Admitted?) ==>
              && InMap(s.calls[c].stage)
              && (HasKey(Apply(s, a), c) <==> HasKey(s, c) && !Interferes(s, a, c))
  {
  }

  /** In every run a call between its insert and its delete is found under its ID exactly when no other call
      with that ID has done an insert or a delete since; so this is exactly when CancelTask can reach it. */
  lemma {:induction false} FoundExactlyWhen(tr: Trace, c: nat)
    requires Valid(tr) && c < |End(tr).calls| && InMap(End(tr).calls[c].stage)
    ensures HasKey(End(tr), c) <==> AloneSinceInsert(tr, c)
    ensures c !in End(tr).cancelled ==>
              (c in Apply(End(tr), Cancel(End(tr).calls[c].id)).cancelled <==> AloneSinceInsert(tr, c))
  {
    var s, a := End(tr.past), tr.last;
    FoundStep(s, a, c);
    if a != Advance(c) || !s.calls[c].stage.Admitted? {
      FoundExactlyWhen(tr.past, c);
    }
    KeysAreInFlight(tr);
    CancelReaches(End(tr), End(tr).calls[c].id, c);
  }

  /** CancelTask cancels the call found under its ID, no other call, and changes nothing else. */
  lemma CancelReaches(s: State, id: string, c: nat)
    requires KeysInFlight(s)
    ensures c in Apply(s, Cancel(id)).cancelled <==> c in s.cancelled || (HasKey(s, c) && s.calls[c].id == id)
    ensures Apply(s, Cancel(id)).(cancelled := s.cancelled) == s
  {
  }

  /** With one ID given to two calls, as by a retry of a task whose first call still runs, the first call to
      end takes the other's key away: that one goes on executing, and CancelTask no longer reaches it. */
  lemma SharedIDLosesKey(id: string) returns (tr: Trace)
    ensures Valid(tr) && |End(tr).calls| == 2
    ensures End(tr).calls[1] == Call(id, Executing) && !HasKey(End(tr), 1)
    ensures Apply(End(tr), Cancel(id)) == End(tr)
  {
    tr := Start(2);
    assert Window(End(tr)) == {};
    tr := AdmitOne(tr, 0, 0, 1, id);
    tr := BeginOne(tr, 0, 1, 1);
    tr := AdmitOne(tr, 1, 0, 1, id);
    tr := BeginOne(tr, 1, 1, 1);
    assert IDs(End(tr)) == [id, id];
    assert IDs(End(tr))[0] == End(tr).calls[0].id && IDs(End(tr))[1] == End(tr).calls[1].id;
    tr := Then(tr, Advance(0));
  }

  // Draining

  /** The loop over the map of running calls; `order` is the order in which the map happens to be visited. */
  method CancelRunning(running: map<string, nat>, order: seq<string>, before: set<nat>)
    returns (cancelled: set<nat>)
    requires Listing.Enumerates(order, running.Keys)
    ensures cancelled == before + running.Values
  {
    cancelled := before;
    for k := 0 to |order|
      invariant cancelled == before + set m | 0 <= m < k :: running[order[m]]
    {
      cancelled := cancelled + {running[order[k]]};
    }
  }

  /** At its deadline WaitForDrain cancels exactly the calls between insert and delete that no other call with
      their ID has interfered with: a call not yet in the map is missed, and so is one whose key was taken. */
  lemma DeadlineCancelsExactly(tr: Trace, c: nat)
    requires Valid(tr) && c < |End(tr).calls| && c !in End(tr).cancelled
    ensures c in Apply(End(tr), CancelAll).cancelled
       <==> InMap(End(tr).calls[c].stage) && AloneSinceInsert(tr, c)
  {
    KeysAreInFlight(tr);
    KeysLeadHome(End(tr), c);
    if InMap(End(tr).calls[c].stage) {
      FoundExactlyWhen(tr, c);
    }
  }

  lemma KeysLeadHome(s: State, c: nat)
    requires KeysInFlight(s)
    ensures c in s.running.Values <==> HasKey(s, c)
    ensures HasKey(s, c) ==> InMap(s.calls[c].stage)
  {
    if c in s.running.Values {
      var id :| id in s.running && s.running[id] == c;
    }
  }

  /** A CancelTask with the call's own ID, or the loop at the deadline, has met the call in the map and undisturbed. */
  ghost predicate WasCancelled(tr: Trace, c: nat)
    requires Valid(tr)
  {
    && tr.Then?
    && var s := End(tr.past);
    || WasCancelled(tr.past, c)
    || (c < |s.calls| && (tr.last == Cancel(s.calls[c].id) || tr.last == CancelAll)
        && InMap(s.calls[c].stage) && AloneSinceInsert(tr.past, c))
  }

  lemma CancelStep(s: State, a: Action, c: nat)
    requires Enabled(s, a) && KeysInFlight(s)
    ensures c in Apply(s, a).cancelled <==>
              || c in s.cancelled
              || (HasKey(s, c) && (a == Cancel(s.calls[c].id) || a == CancelAll))
  {
    KeysLeadHome(s, c);
    if a.Cancel? {
      CancelReaches(s, a.id, c);
    }
  }

  /** In every run a call is cancelled exactly when that has happened: no call is cancelled for another. */
  lemma {:induction false} CancelledExactlyWhen(tr: Trace, c: nat)
    requires Valid(tr)
    ensures c in End(tr).cancelled <==> WasCancelled(tr, c)
  {
    if tr.Then? {
      CancelledExactlyWhen(tr.past, c);
      KeysAreInFlight(tr.past);
      CancelStep(End(tr.past), tr.last, c);
      KeysLeadHome(End(tr.past), c);
      if c < |End(tr.past).calls| && InMap(End(tr.past).calls[c].stage) {
        FoundExactlyWhen(tr.past, c);
      }
    }
  }

  /** The call has been admitted and has not returned. */
  predicate UnderWay(stage: Stage) {
    !stage.Arrived? && !stage.Refused? && !stage.Returned?
  }

  /** When the wait group is at zero, exactly the calls before their join are left, counted or not yet. */
  lemma DrainedLeavesExactly(tr: Trace)
    requires Valid(tr) && End(tr).waiting == 0
    ensures forall c :: 0 <= c < |End(tr).calls| ==>
              (UnderWay(End(tr).calls[c].stage) <==> End(tr).calls[c].stage in {Admitted, Tracked, Begun})
    ensures End(tr).activeTasks == |Calls(End(tr), {Begun})|
  {
    CountersAreExact(tr);
    forall c: nat | c < |End(tr).calls| ensures End(tr).calls[c].stage !in {Executing, Untracked, Leaving} {
      assert c !in Joined(End(tr));
    }
    assert Counted(End(tr)) == Calls(End(tr), {Begun});
  }

  /** Such a call can be left: a drain that looks just before the join returns with one task counted, in the map
      and about to execute. */
  lemma DrainMissesCall(id: string) returns (tr: Trace)
    ensures Valid(tr) && End(tr).waiting == 0 && End(tr).activeTasks == 1
    ensures End(tr).calls == [Call(id, Begun)] && HasKey(End(tr), 0)
  {
    tr := Then(Start(1), Arrive(id));
    assert End(tr) == State(1, 0, map[], 0, {}, [Call(id, Arrived)]);
    tr := Then(tr, Advance(0));
    assert End(tr) == State(1, 0, map[], 0, {}, [Call(id, Admitted)]);
    tr := Then(tr, Advance(0));
    assert End(tr) == State(1, 0, map[id := 0], 0, {}, [Call(id, Tracked)]);
    tr := Then(tr, Advance(0));
  }
}
