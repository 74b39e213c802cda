// The registry's health checks over timed runs: who is in the table, who counts as healthy, and how stale.
module Health {
  import opened Types
  import opened Registry

  datatype Event =
    | Register(node: NodeInfo)
    | Deregister(id: string)
    | Heartbeat(id: string, activeTasks: int)
    | Increment(id: string)
    | Decrement(id: string)
    | Check
    | Nothing   // time passes

  datatype Timed = Timed(event: Event, at: int)

  type Run = seq<Timed>

  function Step(r: Roster, e: Timed): Roster {
    match e.event
    case Register(node) => r.Register(node, e.at)
    case Deregister(id) => r.Deregister(id)
    case Heartbeat(id, activeTasks) => r.Heartbeat(id, activeTasks, e.at)
    case Increment(id) => r.Increment(id)
    case Decrement(id) => r.Decrement(id)
    case Check => r.CheckHealth(e.at)
    case Nothing => r
  }

  /** The registry after a run that began with an empty table. */
  function After(run: Run, heartbeatTimeout: int, unhealthyTimeout: int): (r: Roster)
    ensures r.heartbeatTimeout == heartbeatTimeout && r.unhealthyTimeout == unhealthyTimeout
  {
    if run == [] then Roster(map[], heartbeatTimeout, unhealthyTimeout)
    else Step(After(run[..|run| - 1], heartbeatTimeout, unhealthyTimeout), run[|run| - 1])
  }

  ghost predicate Monotone(run: Run) {
    forall i, j :: 0 <= i < j < |run| ==> run[i].at <= run[j].at
  }

  /** The worker makes itself known: it registers or sends a heartbeat. */
  predicate Contact(e: Timed, id: string) {
    (e.event.Register? && e.event.node.id == id) || (e.event.Heartbeat? && e.event.id == id)
  }

  /** When it last did so, if ever. */
  function LastContact(run: Run, id: string): Option<int> {
    if run == [] then None
    else if Contact(run[|run| - 1], id) then Some(run[|run| - 1].at)
    else LastContact(run[..|run| - 1], id)
  }

  /** The last contact is a contact, no earlier than any other. */
  lemma {:induction false} LastContactIsLatest(run: Run, id: string, i: nat) returns (m: nat)
    requires Monotone(run) && i < |run| && Contact(run[i], id)
    ensures i <= m < |run| && Contact(run[m], id) && LastContact(run, id) == Some(run[m].at)
    ensures run[i].at <= run[m].at
    ensures forall j :: m < j < |run| ==> !Contact(run[j], id)
  {
    var n := |run| - 1;
    if Contact(run[n], id) {
      m := n;
    } else {
      m := LastContactIsLatest(run[..n], id, i);
    }
  }

  /** The table remembers the time of the last contact. */
  lemma {:induction false} LastSeenIsLastContact(run: Run, ht: int, ut: int, id: string)
    requires id in After(run, ht, ut).nodes
    ensures LastContact(run, id) == Some(After(run, ht, ut).nodes[id].lastSeen)
  {
    var n := |run| - 1;
    var r := After(run[..n], ht, ut);
    if id in r.nodes {
      LastSeenIsLastContact(run[..n], ht, ut, id);
    }
  }

  // Who is in the table

  /** Event i registers the node, and no later event deregisters it. */
  ghost predicate RegisteredSince(run: Run, i: nat, id: string) {
    && i < |run| && run[i].event.Register? && run[i].event.node.id == id
    && forall j :: i < j < |run| ==> run[j].event != Deregister(id)
  }

  /** Every check after event i finds a contact no older than `timeout`. */
  ghost predicate InTime(run: Run, i: nat, id: string, timeout: int) {
    forall j :: i < j < |run| && run[j].event == Check ==> FreshAt(run, i, j, id, timeout)
  }

  ghost predicate FreshAt(run: Run, i: nat, j: nat, id: string, timeout: int)
    requires j < |run|
  {
    exists m :: i <= m < j && Contact(run[m], id) && run[j].at - run[m].at <= timeout
  }

  lemma InTimePast(run: Run, i: nat, id: string, timeout: int)
    requires i < |run| - 1
    ensures InTime(run, i, id, timeout) <==>
              && InTime(run[..|run| - 1], i, id, timeout)
              && (run[|run| - 1].event == Check ==> FreshAt(run, i, |run| - 1, id, timeout))
  {
  }

  ghost predicate Stays(run: Run, i: nat, id: string, timeout: int) {
    RegisteredSince(run, i, id) && InTime(run, i, id, timeout)
  }

  /** A node is in the table exactly when it has registered, has not deregistered since, and every check
      since then has found a contact within the unhealthy timeout. */
  lemma {:induction false} RegisteredExactlyWhen(run: Run, ht: int, ut: int, id: string)
    requires Monotone(run)
    ensures id in After(run, ht, ut).nodes <==> exists i: nat :: Stays(run, i, id, ut)
  {
    if run != [] {
      var n := |run| - 1;
      var past := run[..n];
      RegisteredExactlyWhen(past, ht, ut, id);
      if id in After(run, ht, ut).nodes {
        StaysAfter(run, ht, ut, id);
      } else {
        forall i: nat ensures !Stays(run, i, id, ut) {
          if Stays(run, i, id, ut) {
            InTableAfter(run, ht, ut, id, i);
          }
        }
      }
    }
  }

  lemma StaysAfter(run: Run, ht: int, ut: int, id: string)
    requires Monotone(run) && run != [] && id in After(run, ht, ut).nodes
    requires var past := run[..|run| - 1];
             id in After(past, ht, ut).nodes <==> exists i: nat :: Stays(past, i, id, ut)
    ensures exists i: nat :: Stays(run, i, id, ut)
  {
    var n := |run| - 1;
    var past := run[..n];
    if run[n].event.Register? && run[n].event.node.id == id {
      assert Stays(run, n, id, ut);
    } else {
      var i: nat :| Stays(past, i, id, ut);
      LastSeenIsLastContact(past, ht, ut, id);
      var m := LastContactIsLatest(past, id, i);
      if run[n].event == Check {
        assert Contact(run[m], id);
        assert FreshAt(run, i, n, id, ut);
      }
      InTimePast(run, i, id, ut);
      assert Stays(run, i, id, ut);
    }
  }

  lemma InTableAfter(run: Run, ht: int, ut: int, id: string, i: nat)
    requires Monotone(run) && run != [] && Stays(run, i, id, ut)
    requires var past := run[..|run| - 1];
             id in After(past, ht, ut).nodes <==> exists i: nat :: Stays(past, i, id, ut)
    ensures id in After(run, ht, ut).nodes
  {
    var n := |run| - 1;
    var past := run[..n];
    if i < n {
      InTimePast(run, i, id, ut);
      assert RegisteredSince(past, i, id);
      assert Stays(past, i, id, ut);
      if run[n].event == Check {
        var k :| i <= k < n && Contact(run[k], id) && run[n].at - run[k].at <= ut;
        LastSeenIsLastContact(past, ht, ut, id);
        var m := LastContactIsLatest(past, id, k);
      }
    }
  }

  // Who counts as healthy

  /** Check j has seen the present contact age: none has come after it. */
  ghost predicate SinceContact(run: Run, j: nat, id: string) {
    && j < |run| && run[j].event == Check
    && forall m :: j < m < |run| ==> !Contact(run[m], id)
  }

  lemma SinceContactPast(run: Run, j: nat, id: string)
    requires j < |run| - 1 && !Contact(run[|run| - 1], id)
    ensures SinceContact(run, j, id) <==> SinceContact(run[..|run| - 1], j, id)
  {
    var past := run[..|run| - 1];
    assert past[j] == run[j];
    assert forall m :: j < m < |past| ==> past[m] == run[m];
  }

  /** A registered node is healthy exactly when no check since its last contact has found that contact older
      than the heartbeat timeout; it is never draining. */
  lemma {:induction false} HealthyExactlyWhen(run: Run, ht: int, ut: int, id: string)
    requires Monotone(run) && id in After(run, ht, ut).nodes
    ensures var node := After(run, ht, ut).nodes[id];
            && node.status != Draining
            && (node.status == Healthy <==>
                  forall j: nat :: SinceContact(run, j, id) ==> run[j].at - node.lastSeen <= ht)
  {
    var n := |run| - 1;
    var past := run[..n];
    var r, node := After(past, ht, ut), After(run, ht, ut).nodes[id];
    if Contact(run[n], id) {
      assert forall j: nat :: !SinceContact(run, j, id);
      if run[n].event.Heartbeat? {
        HealthyExactlyWhen(past, ht, ut, id);
      }
    } else {
      HealthyExactlyWhen(past, ht, ut, id);
      assert node.lastSeen == r.nodes[id].lastSeen;
      forall j: nat | j < n ensures SinceContact(run, j, id) <==> SinceContact(past, j, id) {
        SinceContactPast(run, j, id);
      }
      assert SinceContact(run, n, id) <==> run[n].event == Check;
      assert forall j: nat :: j < n && SinceContact(past, j, id) ==> past[j].at == run[j].at;
    }
  }

  lemma StaysLonger(run: Run, i: nat, id: string, short: int, long: int)
    requires Stays(run, i, id, short) && short <= long
    ensures Stays(run, i, id, long)
  {
  }

  /** With checks in time, a check that saw the last contact saw it in time. */
  lemma LastContactInTime(run: Run, i: nat, id: string, timeout: int, j: nat)
    requires Monotone(run) && Stays(run, i, id, timeout) && SinceContact(run, j, id)
    ensures LastContact(run, id).Some? && run[j].at - LastContact(run, id).value <= timeout
  {
    assert Contact(run[i], id) && i < j;
    assert FreshAt(run, i, j, id, timeout);
    var k :| i <= k < j && Contact(run[k], id) && run[j].at - run[k].at <= timeout;
    var m := LastContactIsLatest(run, id, k);
  }

  /** A node whose every check finds a contact within both timeouts is never evicted nor marked unhealthy. */
  lemma InTimeStaysHealthy(run: Run, ht: int, ut: int, id: string, i: nat)
    requires Monotone(run) && Stays(run, i, id, if ht < ut then ht else ut)
    ensures After(run, ht, ut).IsHealthy(id)
  {
    var limit := if ht < ut then ht else ut;
    StaysLonger(run, i, id, limit, ut);
    RegisteredExactlyWhen(run, ht, ut, id);
    HealthyExactlyWhen(run, ht, ut, id);
    LastSeenIsLastContact(run, ht, ut, id);
    forall j: nat | SinceContact(run, j, id)
      ensures run[j].at - After(run, ht, ut).nodes[id].lastSeen <= ht
    {
      LastContactInTime(run, i, id, limit, j);
    }
  }

  /** What a worker can see to: each of its contacts from event i on is followed by another one within
      `limit`, or the run ends within `limit` of it. */
  ghost predicate Punctual(run: Run, i: nat, id: string, limit: int) {
    forall m :: i <= m < |run| && Contact(run[m], id) ==>
      FollowedWithin(run, m, id, limit) || run[|run| - 1].at - run[m].at <= limit
  }

  ghost predicate FollowedWithin(run: Run, m: nat, id: string, limit: int)
    requires m < |run|
  {
    exists n :: m < n < |run| && Contact(run[n], id) && run[n].at - run[m].at <= limit
  }

  /** Between two contacts, and after the last one, a check finds the one before it in time. */
  lemma PunctualIsInTime(run: Run, i: nat, id: string, limit: int)
    requires Monotone(run) && RegisteredSince(run, i, id) && Punctual(run, i, id, limit)
    ensures InTime(run, i, id, limit)
  {
    forall j: nat | i < j < |run| && run[j].event == Check ensures FreshAt(run, i, j, id, limit) {
      var m := ContactBefore(run, id, i, j);
      SilenceIsShort(run, i, m, j, id, limit);
    }
  }

  lemma SilenceIsShort(run: Run, i: nat, m: nat, j: nat, id: string, limit: int)
    requires Monotone(run) && Punctual(run, i, id, limit) && i <= m < j < |run| && run[j].event == Check
    requires Contact(run[m], id) && forall k :: m < k < j ==> !Contact(run[k], id)
    ensures run[j].at - run[m].at <= limit
  {
    if FollowedWithin(run, m, id, limit) {
      var n :| m < n < |run| && Contact(run[n], id) && run[n].at - run[m].at <= limit;
      assert run[j].at <= run[n].at;
    } else {
      assert run[j].at <= run[|run| - 1].at;
    }
  }

  /** The last contact before event j. */
  lemma ContactBefore(run: Run, id: string, i: nat, j: nat) returns (m: nat)
    requires Monotone(run) && i < j < |run| && Contact(run[i], id)
    ensures i <= m < j && Contact(run[m], id)
    ensures forall k :: m < k < j ==> !Contact(run[k], id)
  {
    assert Contact(run[..j][i], id);
    m := LastContactIsLatest(run[..j], id, i);
    forall k | m < k < j ensures !Contact(run[k], id) {
      assert !Contact(run[..j][k], id);
    }
  }

  /** A registered node whose contacts never lie further apart than either timeout, and whose last contact is
      no older, is in the table and healthy, whenever the checks run. */
  lemma PunctualNodeStaysHealthy(run: Run, ht: int, ut: int, id: string, i: nat)
    requires Monotone(run) && RegisteredSince(run, i, id) && Punctual(run, i, id, if ht < ut then ht else ut)
    ensures After(run, ht, ut).IsHealthy(id)
  {
    PunctualIsInTime(run, i, id, if ht < ut then ht else ut);
    InTimeStaysHealthy(run, ht, ut, id, i);
  }

  // Staleness

  /** The time of the last check; the monitor's first tick is counted from `start`. */
  function LastCheck(run: Run, start: int): int {
    if run == [] then start
    else if run[|run| - 1].event == Check then run[|run| - 1].at
    else LastCheck(run[..|run| - 1], start)
  }

  lemma {:induction false} SeenAtCheck(run: Run, ht: int, ut: int, start: int, id: string)
    requires Monotone(run) && ht > 0 && ut > 0 && (run != [] ==> start <= run[0].at)
    requires id in After(run, ht, ut).nodes
    ensures LastCheck(run, start) - After(run, ht, ut).nodes[id].lastSeen <= ut
    ensures After(run, ht, ut).nodes[id].status == Healthy ==>
              LastCheck(run, start) - After(run, ht, ut).nodes[id].lastSeen <= ht
    ensures LastCheck(run, start) <= run[|run| - 1].at
  {
    var n := |run| - 1;
    var past := run[..n];
    LastCheckNotLater(past, start, run[n].at);
    if !Contact(run[n], id) {
      SeenAtCheck(past, ht, ut, start, id);
    }
  }

  lemma {:induction false} LastCheckNotLater(run: Run, start: int, now: int)
    requires start <= now && forall i :: 0 <= i < |run| ==> run[i].at <= now
    ensures LastCheck(run, start) <= now
  {
    if run != [] {
      LastCheckNotLater(run[..|run| - 1], start, now);
    }
  }

  /** Bounded staleness: while the last check is at most `period` ago, every registered node was seen within
      the unhealthy timeout plus that period, and every healthy one within the heartbeat timeout plus it. */
  lemma BoundedStaleness(run: Run, ht: int, ut: int, start: int, period: int, now: int, id: string)
    requires Monotone(run) && ht > 0 && ut > 0 && run != [] && start <= run[0].at && run[|run| - 1].at <= now
    requires now - LastCheck(run, start) <= period
    requires id in After(run, ht, ut).nodes
    ensures now - After(run, ht, ut).nodes[id].lastSeen <= ut + period
    ensures After(run, ht, ut).IsHealthy(id) ==> now - After(run, ht, ut).nodes[id].lastSeen <= ht + period
  {
    SeenAtCheck(run, ht, ut, start, id);
  }
}
