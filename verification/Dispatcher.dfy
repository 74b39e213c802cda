// One dispatch, run on the real objects without interference: the body that the protocol cuts into steps.
module Dispatcher {
  import opened Types
  import Balancer
  import Listing
  import Registry
  import Scheduler
  import Store

  /** What one dispatch takes from outside: the map order, whether getClient finds or makes a connection,
      the worker's reply, the clock. */
  datatype Input = Input(order: seq<string>, connected: bool, reply: Option<Response>, now: int)

  datatype Outcome = Requeued | Dropped | Exhausted | Finished(result: Result)

  class Dispatcher {
    const registry: Registry.NodeRegistry
    const scheduler: Scheduler.Scheduler
    const balancer: Balancer.RoundRobinBalancer
    const store: Store.Store

    ghost predicate Valid()
      reads scheduler, registry
    {
      scheduler.Valid() && registry.View().Keyed()
    }

    constructor (registry: Registry.NodeRegistry, scheduler: Scheduler.Scheduler,
                 balancer: Balancer.RoundRobinBalancer, store: Store.Store)
      requires scheduler.Valid() && registry.View().Keyed()
      ensures Valid()
      ensures this.registry == registry && this.scheduler == scheduler && this.balancer == balancer
      ensures this.store == store
    {
      this.registry, this.scheduler, this.balancer, this.store := registry, scheduler, balancer, store;
    }

    /** The choice of a node: none if none is healthy, otherwise the one whose turn it is among the healthy ones,
        in the order of this visit of the table. The branch for a balancer error is dead, because the balancer
        fails on an empty list only. */
    method PickNode(order: seq<string>) returns (node: Option<string>)
      requires registry.View().Keyed() && Listing.Enumerates(order, registry.nodes.Keys)
      modifies balancer
      ensures node == None <==> registry.View().HealthyIDs() == {}
      ensures node.Some? ==> registry.View().IsHealthy(node.value)
      ensures node.None? ==> balancer.counter == old(balancer.counter)
      ensures node.Some? ==>
                var healthy := Listing.Matching(order, registry.View().HealthyIDs());
                && balancer.counter == Balancer.Tick(old(balancer.counter))
                && healthy != [] && node.value == healthy[balancer.counter % |healthy|]
    {
      var nodes := registry.GetHealthyNodes(order);
      if |nodes| == 0 {
        assert registry.View().HealthyIDs() == {};
        return None;
      }
      var selection := balancer.Select(nodes);
      assert selection.Chosen?;
      assert selection.node.id in registry.View().HealthyIDs();
      return Some(selection.node.id);
    }

    /** sendToWorker up to the reply: connect, mark running, count, call; a failed call is uncounted here. */
    method SendToWorker(node: string, task: Scheduler.Task, input: Input) returns (result: Option<Result>)
      requires scheduler.Valid() && Knows(task)
      modifies task, registry`nodes
      ensures scheduler.Valid()
      ensures result == if input.connected && input.reply.Some?
                        then Some(ToResult(task.id, node, input.reply.value, input.now)) else None
      ensures task.Record() == if input.connected then old(task.Record()).AsRunning(node, input.now)
                               else old(task.Record())
      ensures registry.View() ==
              if result.Some? then old(registry.View()).Increment(node)
              else if input.connected then old(registry.View()).Increment(node).Decrement(node)
              else old(registry.View())
    {
      if !input.connected {
        return None;
      }
      var _ := scheduler.MarkRunning(task.id, node, input.now);
      registry.IncrementActiveTasks(node);
      if input.reply == None {
        registry.DecrementActiveTasks(node);
        return None;
      }
      return Some(ToResult(task.id, node, input.reply.value, input.now));
    }

    ghost predicate Knows(task: Scheduler.Task)
      reads scheduler
    {
      task in scheduler.known && task.id in scheduler.tasks && scheduler.tasks[task.id] == task
    }

    /** Requeue, with the error logged and forgotten. */
    method GiveBack(task: Scheduler.Task) returns (outcome: Outcome)
      requires scheduler.Valid() && Knows(task)
      modifies scheduler`pending, task
      ensures scheduler.Valid()
      ensures outcome == if |old(scheduler.pending)| < scheduler.maxQueue then Requeued else Dropped
      ensures task.Record() == old(task.Record()).AsRequeued()
      ensures scheduler.pending == old(scheduler.pending) + if outcome.Requeued? then [task] else []
    {
      var requeued := scheduler.Requeue(task);
      outcome := if requeued == Scheduler.Done then Requeued else Dropped;
    }

    /** After a failed send: mark it in both places, then retry or give up. */
    method HandleFailure(task: Scheduler.Task, now: int) returns (outcome: Outcome)
      requires scheduler.Valid() && Knows(task)
      modifies scheduler`pending, task, store
      ensures scheduler.Valid()
      ensures store.View() == old(store.View()).UpdateJobStatus(task.id, Failed)
      ensures outcome == if old(task.retries) >= task.maxRetries then Exhausted
                         else if |old(scheduler.pending)| < scheduler.maxQueue then Requeued else Dropped
      ensures var failed := old(task.Record()).AsFailed(now);
              task.Record() == if outcome.Exhausted? then failed else failed.AsRequeued()
      ensures scheduler.pending == old(scheduler.pending) + if outcome.Requeued? then [task] else []
    {
      var _ := scheduler.MarkFailed(task.id, now);
      store.UpdateJobStatus(task.id, Failed);
      var again := task.CanRetry();
      if !again {
        return Exhausted;
      }
      outcome := GiveBack(task);
    }

    /** After a reply: save the result, complete the task, uncount the dispatch. */
    method HandleResult(task: Scheduler.Task, node: string, result: Result, now: int)
      requires scheduler.Valid() && Knows(task)
      modifies task, store, registry`nodes
      ensures scheduler.Valid()
      ensures store.View() == old(store.View()).SaveResult(result)
      ensures task.Record() == old(task.Record()).AsCompleted(now)
      ensures registry.View() == old(registry.View()).Decrement(node)
    {
      store.SaveResult(result);
      var _ := scheduler.MarkComplete(task.id, now);
      registry.DecrementActiveTasks(node);
    }

    /** One call of dispatchTask for a task that the task map knows. Every path that counts the dispatch also
        uncounts it, which leaves the load counters as they were unless a heartbeat had reported a negative
        load (Registry.CountedAndUncounted); a result is stored and ends the task; without a result the task is
        queued again, or dropped when the queue is full, or given up when its retries are spent. */
    method DispatchTask(task: Scheduler.Task, input: Input) returns (outcome: Outcome, ghost node: Option<string>)
      requires Valid() && Knows(task) && Listing.Enumerates(input.order, registry.nodes.Keys)
      modifies scheduler`pending, task, store, registry`nodes, balancer
      ensures Valid() && Knows(task)
      ensures registry.View() == if node.Some? && input.connected
                                 then old(registry.View()).Increment(node.value).Decrement(node.value)
                                 else old(registry.View())
      ensures (forall id :: id in old(registry.nodes) ==> old(registry.nodes)[id].activeTasks >= 0) ==>
                registry.View() == old(registry.View())
      ensures node == None <==> old(registry.View()).HealthyIDs() == {}
      ensures node.Some? ==> old(registry.View()).IsHealthy(node.value)
      ensures node.Some? ==>
                var healthy := Listing.Matching(input.order, old(registry.View()).HealthyIDs());
                healthy != [] && node.value == healthy[Balancer.Tick(old(balancer.counter)) % |healthy|]
      ensures outcome.Finished? <==>
                node.Some? && input.connected && input.reply.Some?
      ensures outcome.Finished? ==>
                && outcome.result == ToResult(task.id, node.value, input.reply.value, input.now)
                && store.View() == old(store.View()).SaveResult(outcome.result)
                && task.status == Completed && task.workerID == outcome.result.workerID
                && task.startedAt == task.completedAt == Some(input.now)
                && scheduler.pending == old(scheduler.pending)
      ensures outcome.Requeued? || outcome.Dropped? ==>
                && task.retries == old(task.retries) + 1 && task.status == Pending && task.workerID == ""
                && task.startedAt == None
                && (outcome.Requeued? <==> |old(scheduler.pending)| < scheduler.maxQueue)
                && scheduler.pending == old(scheduler.pending) + if outcome.Requeued? then [task] else []
      ensures outcome.Exhausted? <==>
                node.Some? && !outcome.Finished? && old(task.retries) >= task.maxRetries
      ensures outcome.Exhausted? ==> task.status == Failed && scheduler.pending == old(scheduler.pending)
      ensures !outcome.Finished? ==>
                store.View() == if node == None then old(store.View())
                                else old(store.View()).UpdateJobStatus(task.id, Failed)
    {
      var choice := PickNode(input.order);
      node := choice;
      if choice == None {
        outcome := GiveBack(task);
        return;
      }
      var result := SendToWorker(choice.value, task, input);
      Registry.CountedAndUncounted(old(registry.View()), choice.value);
      if result == None {
        outcome := HandleFailure(task, input.now);
        return;
      }
      HandleResult(task, choice.value, result.value, input.now);
      return Finished(result.value), node;
    }
  }
}
