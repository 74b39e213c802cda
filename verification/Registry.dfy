// The master's node registry: load counters and health of the registered workers.
module Registry {
  import Listing

  datatype NodeStatus = Healthy | Unhealthy | Draining

  datatype NodeInfo = NodeInfo(
    id: string,
    address: string,
    maxTasks: int,
    activeTasks: int,
    lastSeen: int,
    status: NodeStatus)
  {
    function AvailableCapacity(): int {
      maxTasks - activeTasks
    }
  }

  /** The registry's table, with its critical sections as functions. */
  datatype Roster = Roster(nodes: map<string, NodeInfo>, heartbeatTimeout: int, unhealthyTimeout: int)
  {
    function Register(node: NodeInfo, now: int): Roster {
      this.(nodes := nodes[node.id := node.(lastSeen := now, status := Healthy)])
    }

    function Deregister(id: string): Roster {
      this.(nodes := nodes - {id})
    }

    /** A heartbeat overwrites the load counter with the worker's own figure. */
    function Heartbeat(id: string, activeTasks: int, now: int): Roster {
      if id !in nodes then this
      else
        var node := nodes[id];
        var status := if node.status == Unhealthy then Healthy else node.status;
        this.(nodes := nodes[id := node.(lastSeen := now, activeTasks := activeTasks, status := status)])
    }

    function Increment(id: string): Roster {
      if id !in nodes then this
      else this.(nodes := nodes[id := nodes[id].(activeTasks := nodes[id].activeTasks + 1)])
    }

    function Decrement(id: string): Roster {
      if id !in nodes || nodes[id].activeTasks <= 0 then this
      else this.(nodes := nodes[id := nodes[id].(activeTasks := nodes[id].activeTasks - 1)])
    }

    predicate Expired(id: string, now: int)
      requires id in nodes
    {
      now - nodes[id].lastSeen > unhealthyTimeout
    }

    predicate Late(id: string, now: int)
      requires id in nodes
    {
      now - nodes[id].lastSeen > heartbeatTimeout && nodes[id].status == Healthy
    }

    /** A node that stays in the table, after the check has looked at it. */
    function Examined(id: string, now: int): NodeInfo
      requires id in nodes
    {
      if !Expired(id, now) && Late(id, now) then nodes[id].(status := Unhealthy) else nodes[id]
    }

    ghost function ExaminedSoFar(seen: set<string>, now: int): map<string, NodeInfo> {
      map id | id in nodes :: if id in seen then Examined(id, now) else nodes[id]
    }

    function CheckHealth(now: int): Roster {
      this.(nodes := map id | id in nodes && !Expired(id, now) :: Examined(id, now))
    }

    lemma ExaminedStep(seen: set<string>, id: string, now: int)
      requires id in nodes && id !in seen
      ensures ExaminedSoFar(seen + {id}, now) == ExaminedSoFar(seen, now)[id := Examined(id, now)]
      ensures ExaminedSoFar(seen, now)[id] == nodes[id]
    {
    }

    /** Examining every node and deleting the expired ones is one health check. */
    lemma ExaminedAll(seen: set<string>, expired: seq<string>, now: int)
      requires nodes.Keys <= seen
      requires forall id :: id in expired <==> id in nodes && Expired(id, now)
      ensures (map id | id in nodes && id !in expired :: ExaminedSoFar(seen, now)[id]) == CheckHealth(now).nodes
    {
    }

    /** Every entry is filed under its own ID; Register files it so, and nothing else changes an ID. */
    ghost predicate Keyed() {
      forall id :: id in nodes ==> nodes[id].id == id
    }

    predicate IsHealthy(id: string) {
      id in nodes && nodes[id].status == Healthy
    }

    ghost function HealthyIDs(): set<string> {
      set id | id in nodes && nodes[id].status == Healthy
    }
  }

  /** An increment and a decrement cancel out exactly when no negative report stands in between. */
  lemma CountedAndUncounted(r: Roster, id: string)
    ensures r.Increment(id).Decrement(id) == r <==> (id in r.nodes ==> r.nodes[id].activeTasks >= 0)
  {
    if id in r.nodes && r.nodes[id].activeTasks < 0 {
      assert r.Increment(id).Decrement(id).nodes[id].activeTasks == r.nodes[id].activeTasks + 1;
    }
  }

  class NodeRegistry {
    var nodes: map<string, NodeInfo>
    const heartbeatTimeout: int
    const unhealthyTimeout: int
    /** The removal callback's calls, in order. */
    ghost var removed: seq<string>

    ghost function View(): Roster
      reads this
    {
      Roster(nodes, heartbeatTimeout, unhealthyTimeout)
    }

    constructor (heartbeatTimeout: int, unhealthyTimeout: int)
      ensures View() == Roster(map[],
                               if heartbeatTimeout <= 0 then 15 else heartbeatTimeout,
                               if unhealthyTimeout <= 0 then 30 else unhealthyTimeout)
      ensures removed == []
    {
      nodes, removed := map[], [];
      this.heartbeatTimeout := if heartbeatTimeout <= 0 then 15 else heartbeatTimeout;
      this.unhealthyTimeout := if unhealthyTimeout <= 0 then 30 else unhealthyTimeout;
    }

    method Register(node: NodeInfo, now: int)
      modifies this`nodes
      ensures View() == old(View()).Register(node, now)
      ensures node.id in nodes
      ensures nodes[node.id].address == node.address && nodes[node.id].maxTasks == node.maxTasks
      ensures nodes[node.id].activeTasks == node.activeTasks && nodes[node.id].lastSeen == now
      ensures nodes[node.id].id == node.id && nodes[node.id].status == Healthy
      ensures nodes - {node.id} == old(nodes) - {node.id}
    {
      nodes := nodes[node.id := node.(lastSeen := now, status := Healthy)];
    }

    method Deregister(nodeID: string)
      modifies this`nodes
      ensures View() == old(View()).Deregister(nodeID)
      ensures nodes == old(nodes) - {nodeID}
    {
      nodes := nodes - {nodeID};
    }

    method Heartbeat(nodeID: string, activeTasks: int, now: int) returns (known: bool)
      modifies this`nodes
      ensures known <==> nodeID in old(nodes)
      ensures View() == old(View()).Heartbeat(nodeID, activeTasks, now)
      ensures nodes.Keys == old(nodes).Keys && nodes - {nodeID} == old(nodes) - {nodeID}
      ensures known ==>
                var before, after := old(nodes)[nodeID], nodes[nodeID];
                && after.lastSeen == now && after.activeTasks == activeTasks
                && after.status == (if before.status == Unhealthy then Healthy else before.status)
                && after.id == before.id && after.address == before.address && after.maxTasks == before.maxTasks
    {
      if nodeID !in nodes {
        return false;
      }
      var node := nodes[nodeID].(lastSeen := now, activeTasks := activeTasks);
      if node.status == Unhealthy {
        node := node.(status := Healthy);
      }
      nodes := nodes[nodeID := node];
      return true;
    }

    /** The pass over the table, in whatever order the map is visited. */
    method GetHealthyNodes(order: seq<string>) returns (healthy: seq<NodeInfo>)
      requires Listing.Enumerates(order, nodes.Keys)
      ensures |healthy| == |Listing.Matching(order, View().HealthyIDs())|
      ensures forall k :: 0 <= k < |healthy| ==>
                var id := Listing.Matching(order, View().HealthyIDs())[k];
                View().IsHealthy(id) && healthy[k] == nodes[id]
      ensures healthy == [] <==> forall id :: id in nodes ==> nodes[id].status != Healthy
    {
      ghost var ids: seq<string> := [];
      healthy := [];
      var k := 0;
      while k < |order|
        invariant 0 <= k <= |order|
        invariant ids == Listing.Matching(order[..k], View().HealthyIDs())
        invariant |healthy| == |ids|
        invariant forall m :: 0 <= m < |ids| ==> View().IsHealthy(ids[m]) && healthy[m] == nodes[ids[m]]
        invariant healthy == [] ==> forall m :: 0 <= m < k ==> nodes[order[m]].status != Healthy
      {
        Listing.MatchingStep(order, k, View().HealthyIDs());
        var node := nodes[order[k]];
        if node.status == Healthy {
          healthy := healthy + [node];
          ids := ids + [order[k]];
        }
        k := k + 1;
      }
      assert order[..k] == order;
      if healthy != [] {
        assert View().IsHealthy(ids[0]);
      }
    }

    method IncrementActiveTasks(nodeID: string)
      modifies this`nodes
      ensures View() == old(View()).Increment(nodeID)
      ensures nodes.Keys == old(nodes).Keys && nodes - {nodeID} == old(nodes) - {nodeID}
      ensures nodeID in nodes ==> nodes[nodeID].AvailableCapacity() == old(nodes)[nodeID].AvailableCapacity() - 1
    {
      if nodeID in nodes {
        var node := nodes[nodeID];
        nodes := nodes[nodeID := node.(activeTasks := node.activeTasks + 1)];
      }
    }

    method DecrementActiveTasks(nodeID: string)
      modifies this`nodes
      ensures View() == old(View()).Decrement(nodeID)
      ensures nodes.Keys == old(nodes).Keys && nodes - {nodeID} == old(nodes) - {nodeID}
      ensures nodeID in nodes ==>
                nodes[nodeID].AvailableCapacity()
                == old(nodes)[nodeID].AvailableCapacity() + if old(nodes)[nodeID].activeTasks > 0 then 1 else 0
    {
      if nodeID in nodes && nodes[nodeID].activeTasks > 0 {
        var node := nodes[nodeID];
        nodes := nodes[nodeID := node.(activeTasks := node.activeTasks - 1)];
      }
    }

    ghost function ExpiredIDs(now: int): set<string>
      reads this
    {
      set id | id in nodes && View().Expired(id, now)
    }

    /** Two loops: collect the expired nodes and mark the late ones, then delete and report the expired. */
    method CheckHealth(now: int, order: seq<string>)
      requires Listing.Enumerates(order, nodes.Keys)
      modifies this
      ensures View() == old(View()).CheckHealth(now)
      ensures removed == old(removed) + Listing.Matching(order, old(ExpiredIDs(now)))
    {
      ghost var before := View();
      ghost var expired := ExpiredIDs(now);
      ghost var seen: set<string> := {};
      var toRemove: seq<string> := [];
      var k := 0;
      while k < |order|
        invariant 0 <= k <= |order|
        invariant removed == old(removed)
        invariant toRemove == Listing.Matching(order[..k], expired)
        invariant forall m :: 0 <= m < |order| ==> (order[m] in seen <==> m < k)
        invariant nodes == before.ExaminedSoFar(seen, now)
      {
        var id := order[k];
        Listing.MatchingStep(order, k, expired);
        before.ExaminedStep(seen, id, now);
        seen := seen + {id};
        var node := nodes[id];
        if now - node.lastSeen > unhealthyTimeout {
          toRemove := toRemove + [id];
        } else if now - node.lastSeen > heartbeatTimeout && node.status == Healthy {
          nodes := nodes[id := node.(status := Unhealthy)];
        }
        k := k + 1;
      }
      assert order[..k] == order;
      Listing.MatchingIsFilter(order, expired);
      before.ExaminedAll(seen, toRemove, now);
      DeleteAll(toRemove);
    }

    /** The second loop of the check, which runs under the same lock. */
    method DeleteAll(ids: seq<string>)
      modifies this
      ensures nodes == map id | id in old(nodes) && id !in ids :: old(nodes)[id]
      ensures removed == old(removed) + ids
    {
      var j := 0;
      while j < |ids|
        invariant 0 <= j <= |ids|
        invariant removed == old(removed) + ids[..j]
        invariant nodes == map id | id in old(nodes) && id !in ids[..j] :: old(nodes)[id]
      {
        nodes := nodes - {ids[j]};
        removed := removed + [ids[j]];
        j := j + 1;
      }
      assert ids[..j] == ids;
    }
  }
}
