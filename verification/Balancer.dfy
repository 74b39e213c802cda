// The master's load balancers, with the fixed-width arithmetic of the Go code.
module Balancer {
  import opened Types
  import opened Registry

  const TWO_TO_THE_64: int := 0x1_0000_0000_0000_0000
  const TWO_TO_THE_63: int := 0x8000_0000_0000_0000
  const TWO_TO_THE_62: int := 0x4000_0000_0000_0000
  const MAX_INT: int := 0x7fff_ffff_ffff_ffff

  datatype Selection = Chosen(node: NodeInfo) | NoHealthyNodes

  /** The next value of an atomic uint64 counter. */
  function Tick(counter: nat): nat {
    (counter + 1) % TWO_TO_THE_64
  }

  /** Two's complement: what an int64 addition leaves of a sum, and a conversion of a uint64. */
  function Int64(x: int): (r: int)
    ensures -TWO_TO_THE_63 <= r < TWO_TO_THE_63
    ensures -TWO_TO_THE_63 <= x < TWO_TO_THE_63 ==> r == x
  {
    (x + TWO_TO_THE_63) % TWO_TO_THE_64 - TWO_TO_THE_63
  }

  function Uint64(x: int): nat {
    x % TWO_TO_THE_64
  }

  class RoundRobinBalancer {
    var counter: nat

    constructor ()
      ensures counter == 0
    {
      counter := 0;
    }

    method Select(nodes: seq<NodeInfo>) returns (selection: Selection)
      modifies this
      ensures nodes == [] ==> selection == NoHealthyNodes && counter == old(counter)
      ensures nodes != [] ==> counter == Tick(old(counter)) && selection == Chosen(nodes[counter % |nodes|])
    {
      if |nodes| == 0 {
        return NoHealthyNodes;
      }
      counter := Tick(counter);
      return Chosen(nodes[counter % |nodes|]);
    }
  }

  /** The first node of least load among those with some load below the largest int. */
  ghost predicate FirstLeast(nodes: seq<NodeInfo>, i: nat) {
    && i < |nodes| && nodes[i].activeTasks < MAX_INT
    && (forall j :: 0 <= j < |nodes| ==> nodes[i].activeTasks <= nodes[j].activeTasks)
    && (forall j :: 0 <= j < i ==> nodes[i].activeTasks < nodes[j].activeTasks)
  }

  const ZERO_NODE := NodeInfo("", "", 0, 0, 0, Healthy)

  /** Picks the first minimum; if every load is the largest int it hands out the zero value and no error. */
  method SelectLeastConnections(nodes: seq<NodeInfo>) returns (selection: Selection)
    ensures nodes == [] <==> selection == NoHealthyNodes
    ensures (exists j :: 0 <= j < |nodes| && nodes[j].activeTasks < MAX_INT) ==>
              exists i: nat :: FirstLeast(nodes, i) && selection == Chosen(nodes[i])
    ensures nodes != [] && (forall j :: 0 <= j < |nodes| ==> nodes[j].activeTasks >= MAX_INT) ==>
              selection == Chosen(ZERO_NODE)
  {
    if |nodes| == 0 {
      return NoHealthyNodes;
    }
    var best := ZERO_NODE;
    var minLoad := MAX_INT;
    ghost var at := 0;
    for k := 0 to |nodes|
      invariant forall j :: 0 <= j < k ==> minLoad <= nodes[j].activeTasks
      invariant minLoad == MAX_INT ==> best == ZERO_NODE
      invariant minLoad <= MAX_INT
      invariant minLoad < MAX_INT ==> 0 <= at < k && best == nodes[at] && minLoad == best.activeTasks
      invariant minLoad < MAX_INT ==> forall j :: 0 <= j < at ==> minLoad < nodes[j].activeTasks
    {
      if nodes[k].activeTasks < minLoad {
        minLoad := nodes[k].activeTasks;
        best := nodes[k];
        at := k;
      }
    }
    if minLoad < MAX_INT {
      assert FirstLeast(nodes, at);
    }
    return Chosen(best);
  }

  /** The total capacity of the first k nodes, exactly. */
  ghost function Prefix(nodes: seq<NodeInfo>, k: nat): int
    requires k <= |nodes|
  {
    if k == 0 then 0 else Prefix(nodes, k - 1) + nodes[k - 1].AvailableCapacity()
  }

  ghost function Total(nodes: seq<NodeInfo>): int {
    Prefix(nodes, |nodes|)
  }

  /** The partial sums stay clear of the ends of the int64 range. */
  ghost predicate Representable(nodes: seq<NodeInfo>) {
    forall k :: 0 <= k <= |nodes| ==> -TWO_TO_THE_62 <= Prefix(nodes, k) < TWO_TO_THE_62
  }

  /** Node i is the first at which the running total passes the target. */
  ghost predicate Passes(nodes: seq<NodeInfo>, target: int, i: nat) {
    && i < |nodes|
    && Prefix(nodes, i + 1) > target
    && NoneAbove(nodes, i, target)
  }

  ghost predicate NoneAbove(nodes: seq<NodeInfo>, k: nat, target: int)
    requires k <= |nodes|
  {
    forall j :: 0 <= j <= k ==> Prefix(nodes, j) <= target
  }

  /** What the selection counts down from, with both conversions. */
  ghost function Target(nodes: seq<NodeInfo>, counter: nat): int
    requires Int64(Total(nodes)) != 0
  {
    Int64(counter % Uint64(Int64(Total(nodes))))
  }

  /** Node i is the first at which the countdown, in int64 arithmetic, falls below zero. */
  ghost predicate Stops(nodes: seq<NodeInfo>, target: int, i: nat) {
    && i < |nodes|
    && Int64(target - Prefix(nodes, i + 1)) < 0
    && forall j :: 1 <= j <= i ==> Int64(target - Prefix(nodes, j)) >= 0
  }

  /** The selection at this counter value, for every list of nodes, however loaded. */
  ghost predicate Selects(nodes: seq<NodeInfo>, counter: nat, node: NodeInfo)
    requires nodes != []
  {
    if Int64(Total(nodes)) == 0 then node == nodes[counter % |nodes|]
    else
      var target := Target(nodes, counter);
      || (exists i: nat :: Stops(nodes, target, i) && node == nodes[i])
      || ((forall i: nat :: !Stops(nodes, target, i)) && node == nodes[0])
  }

  /** Wrapping each partial result is wrapping the last one. */
  lemma WrapOnce(x: int, y: int)
    ensures Int64(Int64(x) + y) == Int64(x + y) && Int64(Int64(x) - y) == Int64(x - y)
  {
    var q := (x + TWO_TO_THE_63) / TWO_TO_THE_64;
    assert Int64(x) == x - q * TWO_TO_THE_64;
  }

  class WeightedRoundRobinBalancer {
    var counter: nat

    constructor ()
      ensures counter == 0
    {
      counter := 0;
    }

    method Select(nodes: seq<NodeInfo>) returns (selection: Selection)
      modifies this
      ensures nodes == [] ==> selection == NoHealthyNodes && counter == old(counter)
      ensures nodes != [] ==>
                && counter == Tick(old(counter))
                && selection.Chosen? && selection.node in nodes && Selects(nodes, counter, selection.node)
    {
      if |nodes| == 0 {
        return NoHealthyNodes;
      }
      var totalWeight := TotalWeight(nodes);
      counter := Tick(counter);
      if totalWeight == 0 {
        return Chosen(nodes[counter % |nodes|]);
      }
      var target := Int64(counter % Uint64(totalWeight));
      var index := CountDown(nodes, target);
      if index.Some? {
        return Chosen(nodes[index.value]);
      }
      return Chosen(nodes[0]);
    }

    /** The first loop. */
    static method TotalWeight(nodes: seq<NodeInfo>) returns (totalWeight: int)
      ensures totalWeight == Int64(Total(nodes))
    {
      totalWeight := 0;
      for k := 0 to |nodes|
        invariant totalWeight == Int64(Prefix(nodes, k))
      {
        WrapOnce(Prefix(nodes, k), nodes[k].AvailableCapacity());
        totalWeight := Int64(totalWeight + nodes[k].AvailableCapacity());
      }
    }

    /** The second loop: where the countdown falls below zero, if it does. */
    static method CountDown(nodes: seq<NodeInfo>, start: int) returns (index: Option<nat>)
      requires -TWO_TO_THE_63 <= start < TWO_TO_THE_63
      ensures index.Some? ==> Stops(nodes, start, index.value)
      ensures index.None? ==> forall i: nat :: !Stops(nodes, start, i)
    {
      var target := start;
      for k := 0 to |nodes|
        invariant target == Int64(start - Prefix(nodes, k))
        invariant forall j :: 1 <= j <= k ==> Int64(start - Prefix(nodes, j)) >= 0
      {
        WrapOnce(start - Prefix(nodes, k), nodes[k].AvailableCapacity());
        target := Int64(target - nodes[k].AvailableCapacity());
        if target < 0 {
          return Some(k);
        }
      }
      return None;
    }
  }

  /** With a positive total the conversions change nothing: the target is the counter modulo the total. */
  lemma TargetInRange(nodes: seq<NodeInfo>, counter: nat)
    requires Representable(nodes) && Total(nodes) > 0
    ensures Int64(Total(nodes)) != 0 && Target(nodes, counter) == counter % Total(nodes)
  {
  }

  /** With a negative total they turn the modulus into a number near the end of the uint64 range, so that the
      target is the counter itself, for the first 2^62 calls. */
  lemma TargetIsCounter(nodes: seq<NodeInfo>, counter: nat)
    requires Representable(nodes) && Total(nodes) < 0 && counter < TWO_TO_THE_62
    ensures Int64(Total(nodes)) != 0 && Target(nodes, counter) == counter
  {
    NegativeUint64(Total(nodes));
    SmallModulo(counter, Uint64(Total(nodes)));
  }

  lemma NegativeUint64(x: int)
    requires -TWO_TO_THE_62 <= x < 0
    ensures Uint64(x) == x + TWO_TO_THE_64
  {
  }

  lemma SmallModulo(x: nat, n: nat)
    requires x < n
    ensures x % n == x
  {
  }

  lemma StopsWherePassed(nodes: seq<NodeInfo>, target: int, i: nat)
    requires Representable(nodes) && 0 <= target < TWO_TO_THE_62
    ensures Stops(nodes, target, i) <==> Passes(nodes, target, i)
  {
    forall j | 0 <= j <= |nodes| ensures Int64(target - Prefix(nodes, j)) == target - Prefix(nodes, j) {
      assert -TWO_TO_THE_62 <= Prefix(nodes, j) < TWO_TO_THE_62;
    }
  }

  /** The largest total of the first so many nodes, up to k. */
  ghost function Peak(nodes: seq<NodeInfo>, k: nat): int
    requires k <= |nodes|
  {
    if k == 0 then 0
    else if Prefix(nodes, k) > Peak(nodes, k - 1) then Prefix(nodes, k) else Peak(nodes, k - 1)
  }

  lemma NoneAboveStep(nodes: seq<NodeInfo>, k: nat, target: int)
    requires 0 < k <= |nodes|
    ensures NoneAbove(nodes, k, target) <==> NoneAbove(nodes, k - 1, target) && Prefix(nodes, k) <= target
  {
  }

  lemma {:induction false} PeakIsLargest(nodes: seq<NodeInfo>, k: nat, target: int)
    requires k <= |nodes|
    ensures Peak(nodes, k) <= target <==> NoneAbove(nodes, k, target)
    ensures 0 <= Peak(nodes, k) && Prefix(nodes, k) <= Peak(nodes, k)
  {
    if k == 0 {
      assert Prefix(nodes, 0) == 0;
    } else {
      PeakIsLargest(nodes, k - 1, target);
      NoneAboveStep(nodes, k, target);
    }
  }

  /** Node i owns the targets between the peaks before and after it, whatever the loads. */
  lemma PassesIsRange(nodes: seq<NodeInfo>, target: int, i: nat)
    requires i < |nodes|
    ensures Passes(nodes, target, i) <==> Peak(nodes, i) <= target < Peak(nodes, i + 1)
  {
    PeakIsLargest(nodes, i, target);
  }

  /** A target at or above zero is passed somewhere exactly when it lies below the peak of the whole list. */
  lemma {:induction false} PassedExactlyWhen(nodes: seq<NodeInfo>, k: nat, target: int)
    requires k <= |nodes| && 0 <= target
    ensures (exists i: nat :: i < k && Passes(nodes, target, i)) <==> target < Peak(nodes, k)
  {
    if k > 0 {
      PassedExactlyWhen(nodes, k - 1, target);
      PassesIsRange(nodes, target, k - 1);
      if target < Peak(nodes, k) && Peak(nodes, k - 1) <= target {
        assert Passes(nodes, target, k - 1);
      }
    }
  }

  /** With a positive total the trailing fallback is never reached: the first node passed is selected. */
  lemma FallbackUnreachable(nodes: seq<NodeInfo>, counter: nat, node: NodeInfo) returns (i: nat)
    requires nodes != [] && Representable(nodes) && Total(nodes) > 0 && Selects(nodes, counter, node)
    ensures Passes(nodes, counter % Total(nodes), i) && node == nodes[i]
  {
    var target := counter % Total(nodes);
    TargetInRange(nodes, counter);
    PeakIsLargest(nodes, |nodes|, target);
    PassedExactlyWhen(nodes, |nodes|, target);
    i :| i < |nodes| && Passes(nodes, target, i);
    StopsWherePassed(nodes, target, i);
    i :| Stops(nodes, target, i) && node == nodes[i];
    StopsWherePassed(nodes, target, i);
  }

  /** With a negative total, which loads beyond the limit make an ordinary case, the counter itself is the
      target: the first node passed is selected, and the fallback is reached exactly from the counter value
      on that no total of the first so many nodes exceeds. */
  lemma FallbackReachedExactlyWhen(nodes: seq<NodeInfo>, counter: nat, node: NodeInfo)
    requires nodes != [] && Representable(nodes) && Total(nodes) < 0 && counter < TWO_TO_THE_62
    requires Selects(nodes, counter, node)
    ensures (forall i: nat :: !Stops(nodes, Target(nodes, counter), i)) <==> counter >= Peak(nodes, |nodes|)
    ensures counter >= Peak(nodes, |nodes|) ==> node == nodes[0]
    ensures counter < Peak(nodes, |nodes|) ==> exists i: nat :: Passes(nodes, counter, i) && node == nodes[i]
  {
    TargetIsCounter(nodes, counter);
    PassedExactlyWhen(nodes, |nodes|, counter);
    forall i: nat ensures Stops(nodes, counter, i) <==> Passes(nodes, counter, i) {
      StopsWherePassed(nodes, counter, i);
    }
  }

  predicate HasRoom(node: NodeInfo) {
    node.AvailableCapacity() > 0
  }

  /** A node that is passed has room, even when other nodes are over their limit. */
  lemma PassedHasRoom(nodes: seq<NodeInfo>, target: int, i: nat)
    requires Passes(nodes, target, i)
    ensures HasRoom(nodes[i])
  {
    assert Prefix(nodes, i) <= target;
  }

  /** The node chosen has room exactly when the total is positive, or it is zero and round robin falls on a node
      with room, or it is negative and either some total of the first so many nodes exceeds the counter or the
      first node has room. */
  lemma ChoiceHasRoomExactlyWhen(nodes: seq<NodeInfo>, counter: nat, node: NodeInfo)
    requires nodes != [] && Representable(nodes) && (Total(nodes) < 0 ==> counter < TWO_TO_THE_62)
    requires Selects(nodes, counter, node)
    ensures HasRoom(node) <==>
              || Total(nodes) > 0
              || (Total(nodes) == 0 && HasRoom(nodes[counter % |nodes|]))
              || (Total(nodes) < 0 && (counter < Peak(nodes, |nodes|) || HasRoom(nodes[0])))
  {
    if Total(nodes) > 0 {
      var i := FallbackUnreachable(nodes, counter, node);
      PassedHasRoom(nodes, counter % Total(nodes), i);
    } else if Total(nodes) < 0 {
      FallbackReachedExactlyWhen(nodes, counter, node);
      if counter < Peak(nodes, |nodes|) {
        var i: nat :| Passes(nodes, counter, i) && node == nodes[i];
        PassedHasRoom(nodes, counter, i);
      }
    }
  }

  /** So an overloaded first node can get every task although another node has room: it does whenever its
      overload is greater than the other's free capacity. */
  lemma OverloadedNodeGetsAll(over: NodeInfo, free: NodeInfo, counter: nat, node: NodeInfo)
    requires -TWO_TO_THE_62 <= over.AvailableCapacity() < -free.AvailableCapacity() < 0
    requires counter < TWO_TO_THE_62 && Selects([over, free], counter, node)
    ensures node == over
  {
    var nodes := [over, free];
    assert Prefix(nodes, 0) == 0 == Peak(nodes, 0);
    assert Prefix(nodes, 1) == Prefix(nodes, 0) + over.AvailableCapacity() < 0;
    assert Peak(nodes, 1) == Peak(nodes, 0);
    assert Prefix(nodes, 2) == Prefix(nodes, 1) + free.AvailableCapacity() < 0;
    assert Peak(nodes, 2) == Peak(nodes, 1);
    FallbackReachedExactlyWhen(nodes, counter, node);
  }

  /** With a total of zero a node over its limit gets every other task although another node has room. */
  lemma OverloadedNodeGetsTurns(over: NodeInfo, free: NodeInfo, counter: nat)
    requires over.AvailableCapacity() == -free.AvailableCapacity() < 0
    ensures Selects([over, free], counter, if counter % 2 == 0 then over else free)
  {
    var nodes := [over, free];
    assert Prefix(nodes, 1) == Prefix(nodes, 0) + over.AvailableCapacity();
    assert Prefix(nodes, 2) == Prefix(nodes, 1) + free.AvailableCapacity() == 0;
  }
}
