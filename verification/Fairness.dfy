// What the balancers' selections add up to over many calls, including across the counter's wrap.
module Fairness {
  import opened Registry
  import opened Balancer
  import opened Counting

  /** The counter after k calls. */
  function After(counter: nat, k: nat): nat {
    if k == 0 then counter else Tick(After(counter, k - 1))
  }

  lemma {:induction false} AfterIs(counter: nat, k: nat)
    requires counter < TWO_TO_THE_64 && counter + k < 2 * TWO_TO_THE_64
    ensures After(counter, k) == if counter + k < TWO_TO_THE_64 then counter + k else counter + k - TWO_TO_THE_64
  {
    if k > 0 {
      AfterIs(counter, k - 1);
      TickIs(After(counter, k - 1));
    }
  }

  lemma TickIs(counter: nat)
    requires counter < TWO_TO_THE_64
    ensures Tick(counter) == if counter + 1 < TWO_TO_THE_64 then counter + 1 else 0
  {
  }

  /** In how many of the next k calls the counter, modulo n, lies in [low, high). */
  ghost function TimesIn(counter: nat, k: nat, n: nat, low: nat, high: nat): nat
    requires n > 0
  {
    if k == 0 then 0
    else TimesIn(counter, k - 1, n, low, high) + if low <= After(counter, k) % n < high then 1 else 0
  }

  lemma {:induction false} TimesWithoutWrap(counter: nat, k: nat, n: nat, low: nat, high: nat)
    requires n > 0 && counter + k < TWO_TO_THE_64
    ensures TimesIn(counter, k, n, low, high) == Hits(counter + 1, k, n, low, high)
  {
    if k > 0 {
      TimesWithoutWrap(counter, k - 1, n, low, high);
      AfterIs(counter, k);
      assert counter + 1 + k - 1 == counter + k;
    }
  }

  /** Across one wrap the calls fall into two runs of consecutive numbers. */
  lemma {:induction false} TimesAcrossWrap(counter: nat, k: nat, n: nat, low: nat, high: nat)
    requires n > 0 && counter < TWO_TO_THE_64
    requires TWO_TO_THE_64 <= counter + k + 1 && counter + k < 2 * TWO_TO_THE_64
    ensures var before := TWO_TO_THE_64 - 1 - counter;
            TimesIn(counter, k, n, low, high)
              == Hits(counter + 1, before, n, low, high) + Hits(0, k - before, n, low, high)
  {
    var before := TWO_TO_THE_64 - 1 - counter;
    if k == before {
      TimesWithoutWrap(counter, k, n, low, high);
    } else {
      TimesAcrossWrap(counter, k - 1, n, low, high);
      AfterIs(counter, k);
      assert 0 + (k - before) - 1 == counter + k - TWO_TO_THE_64;
    }
  }

  // Round robin

  /** How often round robin chooses position i of a list of n nodes in the next k calls. */
  ghost function Turns(counter: nat, k: nat, n: nat, i: nat): nat
    requires i < n
  {
    TimesIn(counter, k, n, i, i + 1)
  }

  /** Over k calls every position is chosen floor(k/n) or ceil(k/n) times. */
  lemma RoundRobinIsFair(counter: nat, q: nat, r: nat, n: nat, i: nat)
    requires i < n && r < n && counter + (q * n + r) < TWO_TO_THE_64
    ensures q <= Turns(counter, q * n + r, n, i) <= q + if r == 0 then 0 else 1
  {
    TimesWithoutWrap(counter, q * n + r, n, i, i + 1);
    HitsInWindow(counter + 1, q, r, n, i, i + 1);
  }

  /** Any run of consecutive numbers favours no remainder over another by more than one. */
  lemma HitsDifferByOne(start: nat, k: nat, n: nat, i: nat, j: nat)
    requires i < n && j < n
    ensures Hits(start, k, n, i, i + 1) <= Hits(start, k, n, j, j + 1) + 1
  {
    assert k == k / n * n + k % n;
    HitsInWindow(start, k / n, k % n, n, i, i + 1);
    HitsInWindow(start, k / n, k % n, n, j, j + 1);
  }

  /** When the uint64 counter wraps in between, two positions differ by at most two. */
  lemma RoundRobinAcrossWrap(counter: nat, k: nat, n: nat, i: nat, j: nat)
    requires i < n && j < n && counter < TWO_TO_THE_64
    requires TWO_TO_THE_64 <= counter + k < 2 * TWO_TO_THE_64
    ensures Turns(counter, k, n, i) <= Turns(counter, k, n, j) + 2
  {
    var before := TWO_TO_THE_64 - 1 - counter;
    TimesAcrossWrap(counter, k, n, i, i + 1);
    TimesAcrossWrap(counter, k, n, j, j + 1);
    HitsDifferByOne(counter + 1, before, n, i, j);
    HitsDifferByOne(0, k - before, n, i, j);
  }

  // Weighted round robin

  ghost predicate NoneOvercommitted(nodes: seq<NodeInfo>) {
    forall j :: 0 <= j < |nodes| ==> nodes[j].AvailableCapacity() >= 0
  }

  /** How often node i is chosen in the next k calls while the nodes stay as they are. */
  ghost function TimesChosen(nodes: seq<NodeInfo>, counter: nat, k: nat, i: nat): nat
    requires Total(nodes) > 0
  {
    if k == 0 then 0
    else
      TimesChosen(nodes, counter, k - 1, i)
      + if Passes(nodes, After(counter, k) % Total(nodes), i) then 1 else 0
  }

  /** The peak of the first k nodes, as far as targets go. */
  ghost function Reach(nodes: seq<NodeInfo>, k: nat): nat
    requires k <= |nodes| && Total(nodes) > 0
  {
    PeakIsLargest(nodes, k, 0);
    if Peak(nodes, k) < Total(nodes) then Peak(nodes, k) else Total(nodes)
  }

  /** In how many calls of a full cycle node i is chosen. */
  ghost function Share(nodes: seq<NodeInfo>, i: nat): (share: nat)
    requires i < |nodes| && Total(nodes) > 0
  {
    Reach(nodes, i + 1) - Reach(nodes, i)
  }

  lemma {:induction false} ChosenIsTimesIn(nodes: seq<NodeInfo>, counter: nat, k: nat, i: nat)
    requires Total(nodes) > 0 && i < |nodes|
    ensures TimesChosen(nodes, counter, k, i)
         == TimesIn(counter, k, Total(nodes), Reach(nodes, i), Reach(nodes, i + 1))
  {
    if k > 0 {
      ChosenIsTimesIn(nodes, counter, k - 1, i);
      PassesIsRange(nodes, After(counter, k) % Total(nodes), i);
    }
  }

  /** Exact shares, for any loads: q full cycles of W calls choose a node q times its share, and r more calls
      at most once more its share. */
  lemma WeightedShareIsExact(nodes: seq<NodeInfo>, counter: nat, q: nat, r: nat, i: nat)
    requires Total(nodes) > 0 && i < |nodes| && r < Total(nodes)
    requires counter + (q * Total(nodes) + r) < TWO_TO_THE_64
    ensures var share, times := Share(nodes, i), TimesChosen(nodes, counter, q * Total(nodes) + r, i);
            q * share <= times <= (q + 1) * share && (r == 0 ==> times == q * share)
  {
    var k, share := q * Total(nodes) + r, Share(nodes, i);
    ChosenIsTimesIn(nodes, counter, k, i);
    TimesWithoutWrap(counter, k, Total(nodes), Reach(nodes, i), Reach(nodes, i + 1));
    HitsInWindow(counter + 1, q, r, Total(nodes), Reach(nodes, i), Reach(nodes, i + 1));
    assert (q + 1) * share == q * share + share;
  }

  /** A node's share is at most its free capacity; a node at or over its limit has none. */
  lemma ShareWithinCapacity(nodes: seq<NodeInfo>, i: nat)
    requires i < |nodes| && Total(nodes) > 0
    ensures Share(nodes, i) <= if nodes[i].AvailableCapacity() > 0 then nodes[i].AvailableCapacity() else 0
  {
    PeakIsLargest(nodes, i, 0);
  }

  /** The shares of all nodes make up the cycle. */
  ghost function SharesBefore(nodes: seq<NodeInfo>, k: nat): nat
    requires k <= |nodes| && Total(nodes) > 0
  {
    if k == 0 then 0 else SharesBefore(nodes, k - 1) + Share(nodes, k - 1)
  }

  lemma {:induction false} SharesAddUp(nodes: seq<NodeInfo>, k: nat)
    requires k <= |nodes| && Total(nodes) > 0
    ensures SharesBefore(nodes, k) == Reach(nodes, k) && Reach(nodes, |nodes|) == Total(nodes)
  {
    PeakIsLargest(nodes, |nodes|, 0);
    if k > 0 {
      SharesAddUp(nodes, k - 1);
    }
  }

  lemma {:induction false} PeakIsPrefix(nodes: seq<NodeInfo>, k: nat)
    requires NoneOvercommitted(nodes) && k <= |nodes|
    ensures Peak(nodes, k) == Prefix(nodes, k)
  {
    if k > 0 {
      PeakIsPrefix(nodes, k - 1);
    }
  }

  /** While no node is over its limit, its share is exactly its free capacity. */
  lemma ShareIsCapacity(nodes: seq<NodeInfo>, i: nat)
    requires NoneOvercommitted(nodes) && i < |nodes| && Total(nodes) > 0
    ensures Share(nodes, i) == nodes[i].AvailableCapacity()
  {
    PeakIsPrefix(nodes, i);
    PeakIsPrefix(nodes, i + 1);
    PrefixMonotone(nodes, i + 1, |nodes|);
  }

  lemma {:induction false} PrefixMonotone(nodes: seq<NodeInfo>, j: nat, k: nat)
    requires NoneOvercommitted(nodes) && j <= k <= |nodes|
    ensures Prefix(nodes, j) <= Prefix(nodes, k)
  {
    if j < k {
      PrefixMonotone(nodes, j, k - 1);
    }
  }

  // The balancers themselves

  ghost predicate Distinct(nodes: seq<NodeInfo>) {
    forall j, k :: 0 <= j < k < |nodes| ==> nodes[j] != nodes[k]
  }

  /** Calls Select k times over one list and counts how often node i comes out. */
  method CountRoundRobin(b: RoundRobinBalancer, nodes: seq<NodeInfo>, k: nat, i: nat) returns (times: nat)
    requires i < |nodes| && Distinct(nodes)
    modifies b
    ensures b.counter == After(old(b.counter), k)
    ensures times == Turns(old(b.counter), k, |nodes|, i)
  {
    times := 0;
    for c := 0 to k
      invariant b.counter == After(old(b.counter), c) && times == Turns(old(b.counter), c, |nodes|, i)
    {
      var selection := b.Select(nodes);
      if selection.node == nodes[i] {
        times := times + 1;
      }
    }
  }

  method CountWeighted(b: WeightedRoundRobinBalancer, nodes: seq<NodeInfo>, k: nat, i: nat) returns (times: nat)
    requires i < |nodes| && Distinct(nodes) && Representable(nodes) && Total(nodes) > 0
    modifies b
    ensures b.counter == After(old(b.counter), k)
    ensures times == TimesChosen(nodes, old(b.counter), k, i)
  {
    times := 0;
    for c := 0 to k
      invariant b.counter == After(old(b.counter), c) && times == TimesChosen(nodes, old(b.counter), c, i)
    {
      var selection := b.Select(nodes);
      ghost var at := FallbackUnreachable(nodes, b.counter, selection.node);
      PassesOnce(nodes, b.counter % Total(nodes), at, i);
      if selection.node == nodes[i] {
        times := times + 1;
      }
    }
  }

  /** A target is passed at one node only. */
  lemma PassesOnce(nodes: seq<NodeInfo>, target: int, i: nat, j: nat)
    requires Passes(nodes, target, i)
    ensures Passes(nodes, target, j) <==> i == j
  {
  }
}
