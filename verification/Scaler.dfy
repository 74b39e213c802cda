// The auto-scaler: replica arithmetic, cooldown, and bounds over whole runs.
module Scaler {
  import opened Types
  import opened Registry
  import Balancer
  import Sets

  datatype ScalerConfig = ScalerConfig(
    minReplicas: int,
    maxReplicas: int,
    tasksPerWorker: int,
    scaleUpThreshold: int,
    cooldownPeriod: int)

  const TWO_TO_THE_31: int := 0x8000_0000
  const TWO_TO_THE_32: int := 0x1_0000_0000

  /** A conversion to int32, and what an int32 addition leaves of a sum. */
  function Int32(x: int): int {
    (x + TWO_TO_THE_31) % TWO_TO_THE_32 - TWO_TO_THE_31
  }

  /** What the clock and the cluster answer during one call. */
  datatype Env = Env(getOK: bool, updateOK: bool, checkedAt: int, doneAt: int)

  /** The scaler's own state and the replica count of the deployment it manages (None: not set). */
  datatype Scale = Scale(enabled: bool, lastScaleUp: Option<int>, replicas: Option<int>)

  ghost function TotalCapacity(nodes: seq<NodeInfo>): int {
    if nodes == [] then 0 else TotalCapacity(nodes[..|nodes| - 1]) + nodes[|nodes| - 1].AvailableCapacity()
  }

  ghost function Idle(nodes: seq<NodeInfo>): nat {
    if nodes == [] then 0
    else Idle(nodes[..|nodes| - 1]) + if nodes[|nodes| - 1].activeTasks == 0 then 1 else 0
  }

  function Min(a: int, b: int): int {
    if a < b then a else b
  }

  ghost predicate CoolingDown(cfg: ScalerConfig, s: Scale, now: int) {
    s.lastScaleUp.Some? && now - s.lastScaleUp.value < cfg.cooldownPeriod
  }

  /** How many workers EnsureCapacity asks for; 0 when it leaves the deployment alone. */
  ghost function Wanted(cfg: ScalerConfig, nodes: seq<NodeInfo>, pending: int): int
    requires cfg.tasksPerWorker > 0
  {
    var needed := Min(pending / cfg.tasksPerWorker + 1, cfg.maxReplicas - |nodes|);
    if TotalCapacity(nodes) == 0 && pending > 0 && needed > 0 then needed
    else if pending > |nodes| * cfg.scaleUpThreshold && |nodes| < cfg.maxReplicas then 1
    else 0
  }

  /** scaleUp: read the deployment, add, cap, write. */
  function Grown(cfg: ScalerConfig, k8s: bool, s: Scale, count: int, env: Env): Scale {
    if !k8s then s.(lastScaleUp := Some(env.doneAt))
    else if !env.getOK || !env.updateOK then s
    else
      var current := if s.replicas.Some? then s.replicas.value else 0;
      var grown := Int32(current + Int32(count));
      s.(lastScaleUp := Some(env.doneAt), replicas := Some(Min(grown, Int32(cfg.maxReplicas))))
  }

  ghost function Ensured(cfg: ScalerConfig, k8s: bool, s: Scale,
                         nodes: seq<NodeInfo>, pending: int, env: Env): Scale
    requires cfg.tasksPerWorker > 0
  {
    if !s.enabled || CoolingDown(cfg, s, env.checkedAt) || Wanted(cfg, nodes, pending) == 0 then s
    else Grown(cfg, k8s, s, Wanted(cfg, nodes, pending), env)
  }

  /** More healthy workers than the minimum, more than half of them idle. */
  ghost predicate Shrinks(cfg: ScalerConfig, s: Scale, nodes: seq<NodeInfo>) {
    s.enabled && |nodes| > cfg.minReplicas && 2 * Idle(nodes) > |nodes|
  }

  ghost function Shrunk(cfg: ScalerConfig, k8s: bool, s: Scale, nodes: seq<NodeInfo>, env: Env): Scale {
    if Shrinks(cfg, s, nodes) && k8s && env.getOK && env.updateOK
    then s.(replicas := Some(Int32(|nodes| - 1)))
    else s
  }

  /** Two counts whose sum fits an int32. */
  predicate Addable(a: int, b: int) {
    0 <= a && 0 <= b && a + b < TWO_TO_THE_31
  }

  ghost function IdleNodes(nodes: seq<NodeInfo>): set<nat> {
    set k: nat | k < |nodes| && nodes[k].activeTasks == 0
  }

  lemma {:induction false} IdleCounts(nodes: seq<NodeInfo>)
    ensures Idle(nodes) == |IdleNodes(nodes)|
  {
    if nodes == [] {
      assert IdleNodes(nodes) == {};
    } else {
      var n := |nodes| - 1;
      IdleCounts(nodes[..n]);
      Sets.CountWithout(IdleNodes(nodes), n);
      assert IdleNodes(nodes) - {n} == IdleNodes(nodes[..n]);
    }
  }

  /** The scaler sums up what the balancer weighs. */
  lemma {:induction false} TotalIsTheBalancers(nodes: seq<NodeInfo>, k: nat)
    requires k <= |nodes|
    ensures TotalCapacity(nodes[..k]) == Balancer.Prefix(nodes, k)
  {
    if k > 0 {
      TotalIsTheBalancers(nodes, k - 1);
      assert nodes[..k][..k - 1] == nodes[..k - 1];
    }
  }

  class AutoScaler {
    const cfg: ScalerConfig
    const k8s: bool
    var enabled: bool
    var lastScaleUp: Option<int>
    var replicas: Option<int>

    ghost function View(): Scale
      reads this
    {
      Scale(enabled, lastScaleUp, replicas)
    }

    /** For local development, without a cluster. */
    constructor (cfg: ScalerConfig, enabled: bool)
      ensures this.cfg == cfg && !k8s && View() == Scale(enabled, None, None)
    {
      this.cfg, k8s := cfg, false;
      this.enabled, replicas := enabled, None;
      lastScaleUp := None;
    }

    constructor WithK8s(cfg: ScalerConfig, enabled: bool, k8s: bool, replicas: Option<int>)
      ensures this.cfg == cfg && this.k8s == k8s && View() == Scale(enabled && k8s, None, replicas)
    {
      this.cfg, this.k8s := cfg, k8s;
      this.enabled, this.replicas := enabled && k8s, replicas;
      lastScaleUp := None;
    }

    /** Without a cluster every call switches the scaler off, the one that asks for on as well. */
    method SetEnabled(on: bool)
      modifies this`enabled
      ensures enabled <==> on && k8s
    {
      enabled := on && (k8s || !on);
    }

    /** `nodes` are the healthy nodes at the time of the call. */
    method EnsureCapacity(nodes: seq<NodeInfo>, pending: int, env: Env) returns (ok: bool)
      requires cfg.tasksPerWorker > 0
      modifies this
      ensures View() == Ensured(cfg, k8s, old(View()), nodes, pending, env)
      ensures !ok ==> View() == old(View())
    {
      if !enabled {
        return true;
      }
      if lastScaleUp.Some? && env.checkedAt - lastScaleUp.value < cfg.cooldownPeriod {
        return true;
      }
      var currentReplicas := |nodes|;
      var totalCapacity := 0;
      for k := 0 to |nodes|
        invariant totalCapacity == TotalCapacity(nodes[..k])
      {
        assert nodes[..k + 1][..k] == nodes[..k];
        totalCapacity := totalCapacity + nodes[k].AvailableCapacity();
      }
      assert nodes[..|nodes|] == nodes;
      if totalCapacity == 0 && pending > 0 {
        var needed := Min(pending / cfg.tasksPerWorker + 1, cfg.maxReplicas - currentReplicas);
        if needed > 0 {
          ok := ScaleUp(needed, env);
          return;
        }
      }
      if pending > currentReplicas * cfg.scaleUpThreshold {
        if currentReplicas < cfg.maxReplicas {
          ok := ScaleUp(1, env);
          return;
        }
      }
      return true;
    }

    /** The new count is the old one, with an unset one read as 0, plus `count`, but the maximum at most. */
    method ScaleUp(count: int, env: Env) returns (ok: bool)
      modifies this
      ensures View() == Grown(cfg, k8s, old(View()), count, env)
      ensures ok <==> !k8s || (env.getOK && env.updateOK)
      ensures !ok ==> View() == old(View())
      ensures ok ==> lastScaleUp == Some(env.doneAt)
      ensures !k8s ==> replicas == old(replicas)
      ensures var before := if old(replicas).Some? then old(replicas).value else 0;
              ok && k8s && Addable(before, count) && 0 <= cfg.maxReplicas < TWO_TO_THE_31 ==>
                replicas == Some(if before + count < cfg.maxReplicas then before + count else cfg.maxReplicas)
    {
      if !k8s {
        lastScaleUp := Some(env.doneAt);
        return true;
      }
      if !env.getOK {
        return false;
      }
      var currentReplicas := 0;
      if replicas.Some? {
        currentReplicas := replicas.value;
      }
      ghost var before := currentReplicas;
      if Addable(before, count) && 0 <= cfg.maxReplicas < TWO_TO_THE_31 {
        Int32Fits(count);
        Int32Fits(before + count);
        Int32Fits(cfg.maxReplicas);
      }
      var newReplicas := Int32(currentReplicas + Int32(count));
      if newReplicas > Int32(cfg.maxReplicas) {
        newReplicas := Int32(cfg.maxReplicas);
      }
      if !env.updateOK {
        return false;
      }
      replicas := Some(newReplicas);
      lastScaleUp := Some(env.doneAt);
      return true;
    }

    method ScaleDown(nodes: seq<NodeInfo>, env: Env) returns (ok: bool)
      modifies this`replicas
      ensures View() == Shrunk(cfg, k8s, old(View()), nodes, env)
      ensures !ok ==> View() == old(View())
      ensures var fires := old(enabled) && |nodes| > cfg.minReplicas && 2 * |IdleNodes(nodes)| > |nodes|;
              && (ok <==> !fires || !k8s || (env.getOK && env.updateOK))
              && (fires && k8s && ok && |nodes| < TWO_TO_THE_31 && cfg.minReplicas >= 0 ==>
                    replicas == Some(|nodes| - 1))
              && (!fires || !k8s ==> replicas == old(replicas))
    {
      IdleCounts(nodes);
      if !enabled {
        return true;
      }
      var currentReplicas := |nodes|;
      if currentReplicas <= cfg.minReplicas {
        return true;
      }
      var idleCount := 0;
      for k := 0 to |nodes|
        invariant idleCount == Idle(nodes[..k])
      {
        assert nodes[..k + 1][..k] == nodes[..k];
        if nodes[k].activeTasks == 0 {
          idleCount := idleCount + 1;
        }
      }
      assert nodes[..|nodes|] == nodes;
      if idleCount > currentReplicas / 2 {
        var targetReplicas := currentReplicas - 1;
        if targetReplicas < cfg.minReplicas {
          targetReplicas := cfg.minReplicas;
        }
        if !k8s {
          return true;
        }
        if !env.getOK || !env.updateOK {
          return false;
        }
        replicas := Some(Int32(targetReplicas));
        if |nodes| < TWO_TO_THE_31 && cfg.minReplicas >= 0 {
          Int32Fits(targetReplicas);
        }
      }
      return true;
    }
  }

  // Bounds

  /** When and how much is asked for: with no capacity left and tasks pending, enough workers for them, up to
      the maximum; otherwise, and also when that comes to nothing, one more worker if the queue is longer than the
      threshold times the healthy workers and there is room for one. */
  lemma WantedExactly(cfg: ScalerConfig, nodes: seq<NodeInfo>, pending: int)
    requires cfg.tasksPerWorker > 0
    ensures var room := cfg.maxReplicas - |nodes|;
            var wanted := Wanted(cfg, nodes, pending);
            && (Balancer.Total(nodes) == 0 && pending > 0 && room > 0 ==>
                  wanted == if pending / cfg.tasksPerWorker + 1 < room then pending / cfg.tasksPerWorker + 1 else room)
            && (!(Balancer.Total(nodes) == 0 && pending > 0 && room > 0) ==>
                  && (wanted == 1 <==> pending > |nodes| * cfg.scaleUpThreshold && room > 0)
                  && (wanted != 1 ==> wanted == 0))
  {
    TotalIsTheBalancers(nodes, |nodes|);
    assert nodes[..|nodes|] == nodes;
    if pending > 0 {
      assert pending / cfg.tasksPerWorker >= 0;
    }
  }

  /** The request never lifts the healthy workers over the maximum; with no capacity left it is, unless
      capped by the maximum, the least number of workers that holds more than the pending tasks. */
  lemma WantedBounds(cfg: ScalerConfig, nodes: seq<NodeInfo>, pending: int)
    requires cfg.tasksPerWorker > 0
    ensures var wanted := Wanted(cfg, nodes, pending);
            && 0 <= wanted
            && (wanted > 0 ==> |nodes| + wanted <= cfg.maxReplicas)
            && (TotalCapacity(nodes) == 0 && pending > 0 && |nodes| < cfg.maxReplicas ==>
                  && (wanted - 1) * cfg.tasksPerWorker <= pending
                  && (|nodes| + wanted == cfg.maxReplicas || pending < wanted * cfg.tasksPerWorker))
  {
    if TotalCapacity(nodes) == 0 && pending > 0 && |nodes| < cfg.maxReplicas {
      LeastQuotient(pending, cfg.tasksPerWorker, cfg.maxReplicas - |nodes|);
    }
  }

  lemma LeastQuotient(pending: int, each: int, room: int)
    requires pending > 0 && each > 0 && room > 0
    ensures var needed := Min(pending / each + 1, room);
            needed > 0 && (needed - 1) * each <= pending && (needed == room || pending < needed * each)
  {
    var quotient := pending / each;
    assert pending == quotient * each + pending % each;
    assert quotient >= 0;
    MulMonotone(Min(quotient + 1, room) - 1, quotient, each);
    assert (quotient + 1) * each == quotient * each + each;
  }

  lemma MulMonotone(a: int, b: int, c: int)
    requires a <= b && 0 <= c
    ensures a * c <= b * c
  {
  }

  lemma Int32Fits(x: int)
    requires 0 <= x < TWO_TO_THE_31
    ensures Int32(x) == x
  {
  }

  ghost predicate InRange(cfg: ScalerConfig, s: Scale) {
    s.replicas.Some? && cfg.minReplicas <= s.replicas.value <= cfg.maxReplicas
  }

  /** The sum of two replica counts fits an int32. */
  ghost predicate Sane(cfg: ScalerConfig) {
    && cfg.tasksPerWorker > 0
    && 0 <= cfg.minReplicas <= cfg.maxReplicas
    && 2 * cfg.maxReplicas < TWO_TO_THE_31
  }

  lemma ScaleUpStaysInRange(cfg: ScalerConfig, k8s: bool, s: Scale, nodes: seq<NodeInfo>, pending: int, env: Env)
    requires Sane(cfg) && InRange(cfg, s)
    ensures InRange(cfg, Ensured(cfg, k8s, s, nodes, pending, env))
    ensures Ensured(cfg, k8s, s, nodes, pending, env).replicas.value >= s.replicas.value
  {
    var wanted := Wanted(cfg, nodes, pending);
    WantedBounds(cfg, nodes, pending);
    Int32Fits(cfg.maxReplicas);
    if wanted > 0 {
      Int32Fits(wanted);
      Int32Fits(s.replicas.value + wanted);
    }
  }

  /** Scaling down sets the deployment from the number of healthy nodes, so it leaves the range exactly when
      it fires with more than one healthy node beyond the maximum. */
  lemma ScaleDownLeavesRangeExactlyWhen(cfg: ScalerConfig, s: Scale, nodes: seq<NodeInfo>, env: Env)
    requires Sane(cfg) && InRange(cfg, s) && |nodes| < TWO_TO_THE_31
    ensures !InRange(cfg, Shrunk(cfg, true, s, nodes, env)) <==>
              env.getOK && env.updateOK && Shrinks(cfg, s, nodes) && |nodes| > cfg.maxReplicas + 1
  {
  }

  lemma {:induction false} AllIdle(nodes: seq<NodeInfo>)
    requires forall k :: 0 <= k < |nodes| ==> nodes[k].activeTasks == 0
    ensures Idle(nodes) == |nodes|
  {
    if nodes != [] {
      AllIdle(nodes[..|nodes| - 1]);
    }
  }

  /** It does happen, for every configuration: Max + 2 idle nodes, all healthy and with IDs of their own, lift
      a deployment of any size within the bounds to Max + 1. */
  lemma ScaleDownCanLeaveRange(cfg: ScalerConfig, s: Scale, env: Env) returns (nodes: seq<NodeInfo>)
    requires Sane(cfg) && InRange(cfg, s) && s.enabled && env.getOK && env.updateOK
    ensures |nodes| == cfg.maxReplicas + 2
    ensures forall k :: 0 <= k < |nodes| ==> nodes[k].status == Healthy && nodes[k].activeTasks == 0
    ensures forall j, k :: 0 <= j < k < |nodes| ==> nodes[j].id != nodes[k].id
    ensures Shrunk(cfg, true, s, nodes, env).replicas == Some(cfg.maxReplicas + 1)
  {
    nodes := seq(cfg.maxReplicas + 2, k requires k >= 0 => NodeInfo(seq(k, _ => 'n'), "", 1, 0, 0, Healthy));
    forall j, k | 0 <= j < k < |nodes| ensures nodes[j].id != nodes[k].id {
      assert |nodes[j].id| == j && |nodes[k].id| == k;
    }
    AllIdle(nodes);
    Int32Fits(cfg.maxReplicas + 1);
  }

  datatype Call =
    | Ensure(nodes: seq<NodeInfo>, pending: int, env: Env)
    | Down(nodes: seq<NodeInfo>, env: Env)
    | SetEnabled(on: bool)

  ghost function Apply(cfg: ScalerConfig, k8s: bool, s: Scale, call: Call): Scale
    requires cfg.tasksPerWorker > 0
  {
    match call
    case Ensure(nodes, pending, env) => Ensured(cfg, k8s, s, nodes, pending, env)
    case Down(nodes, env) => Shrunk(cfg, k8s, s, nodes, env)
    case SetEnabled(on) => s.(enabled := on && (k8s || !on))
  }

  ghost function After(cfg: ScalerConfig, k8s: bool, s: Scale, calls: seq<Call>): Scale
    requires cfg.tasksPerWorker > 0
  {
    if calls == [] then s
    else Apply(cfg, k8s, After(cfg, k8s, s, calls[..|calls| - 1]), calls[|calls| - 1])
  }

  ghost predicate ModestlyHealthy(cfg: ScalerConfig, calls: seq<Call>) {
    forall i :: 0 <= i < |calls| && calls[i].Down? ==> |calls[i].nodes| <= cfg.maxReplicas + 1
  }

  /** From a deployment within its bounds every sequence of calls stays within them, as long as no scale-down
      sees more than one healthy node beyond the maximum. */
  lemma {:induction false} ReplicasStayInRange(cfg: ScalerConfig, k8s: bool, s: Scale, calls: seq<Call>)
    requires Sane(cfg) && InRange(cfg, s) && ModestlyHealthy(cfg, calls)
    ensures InRange(cfg, After(cfg, k8s, s, calls))
  {
    if calls != [] {
      var n := |calls| - 1;
      ReplicasStayInRange(cfg, k8s, s, calls[..n]);
      var before := After(cfg, k8s, s, calls[..n]);
      match calls[n]
      case Ensure(nodes, pending, env) => ScaleUpStaysInRange(cfg, k8s, before, nodes, pending, env);
      case Down(nodes, env) =>
        if k8s {
          ScaleDownLeavesRangeExactlyWhen(cfg, before, nodes, env);
        }
      case SetEnabled(_) =>
    }
  }

  /** The last switch of a run, if any. */
  function LastSwitch(calls: seq<Call>): Option<bool> {
    if calls == [] then None
    else if calls[|calls| - 1].SetEnabled? then Some(calls[|calls| - 1].on)
    else LastSwitch(calls[..|calls| - 1])
  }

  /** The scaler is on exactly when it was last switched on and has a cluster, or was on and never switched. */
  lemma {:induction false} EnabledExactlyWhen(cfg: ScalerConfig, k8s: bool, s: Scale, calls: seq<Call>)
    requires cfg.tasksPerWorker > 0
    ensures After(cfg, k8s, s, calls).enabled
       <==> if LastSwitch(calls).Some? then LastSwitch(calls).value && k8s else s.enabled
  {
    if calls != [] {
      EnabledExactlyWhen(cfg, k8s, s, calls[..|calls| - 1]);
    }
  }

  /** Without a cluster a scaler that is off stays off, and changes nothing, whatever is called. */
  lemma {:induction false} NeverOnWithoutCluster(cfg: ScalerConfig, s: Scale, calls: seq<Call>)
    requires cfg.tasksPerWorker > 0 && !s.enabled
    ensures After(cfg, false, s, calls) == s
  {
    if calls != [] {
      NeverOnWithoutCluster(cfg, s, calls[..|calls| - 1]);
    }
  }

  // Growth

  function Replicas(s: Scale): int {
    if s.replicas.Some? then s.replicas.value else 0
  }

  /** What the successful scale-ups of these calls have asked for, together. */
  ghost function Requested(cfg: ScalerConfig, s: Scale, calls: seq<Call>): int
    requires cfg.tasksPerWorker > 0
  {
    if calls == [] then 0
    else
      var n := |calls| - 1;
      var before := After(cfg, true, s, calls[..n]);
      Requested(cfg, s, calls[..n])
      + if IsScaleUp(cfg, true, before, calls[n]) then Wanted(cfg, calls[n].nodes, calls[n].pending) else 0
  }

  /** One successful scale-up adds what was asked for, up to the maximum; so a deployment below it grows. */
  lemma ScaleUpAdds(cfg: ScalerConfig, s: Scale, call: Call)
    requires Sane(cfg) && 0 <= Replicas(s) <= cfg.maxReplicas && IsScaleUp(cfg, true, s, call)
    ensures var wanted := Wanted(cfg, call.nodes, call.pending);
            var after := Replicas(Apply(cfg, true, s, call));
            && wanted > 0
            && after == (if Replicas(s) + wanted < cfg.maxReplicas then Replicas(s) + wanted else cfg.maxReplicas)
            && (Replicas(s) < cfg.maxReplicas ==> after > Replicas(s))
  {
    var wanted := Wanted(cfg, call.nodes, call.pending);
    WantedBounds(cfg, call.nodes, call.pending);
    Int32Fits(wanted);
    Int32Fits(Replicas(s) + wanted);
    Int32Fits(cfg.maxReplicas);
  }

  /** Over any run without scale-downs the deployment has grown by all that was asked for, up to the maximum. */
  lemma {:induction false} ReplicasAddUp(cfg: ScalerConfig, s: Scale, calls: seq<Call>)
    requires Sane(cfg) && 0 <= Replicas(s) <= cfg.maxReplicas
    requires forall i :: 0 <= i < |calls| ==> !calls[i].Down?
    ensures Requested(cfg, s, calls) >= 0
    ensures var all := Replicas(s) + Requested(cfg, s, calls);
            Replicas(After(cfg, true, s, calls)) == if all < cfg.maxReplicas then all else cfg.maxReplicas
  {
    if calls != [] {
      var n := |calls| - 1;
      ReplicasAddUp(cfg, s, calls[..n]);
      var before := After(cfg, true, s, calls[..n]);
      if IsScaleUp(cfg, true, before, calls[n]) {
        ScaleUpAdds(cfg, before, calls[n]);
      }
    }
  }

  // Cooldown

  ghost predicate IsScaleUp(cfg: ScalerConfig, k8s: bool, s: Scale, call: Call)
    requires cfg.tasksPerWorker > 0
  {
    && call.Ensure? && s.enabled && !CoolingDown(cfg, s, call.env.checkedAt)
    && Wanted(cfg, call.nodes, call.pending) != 0
    && (k8s ==> call.env.getOK && call.env.updateOK)
  }

  /** The times at which the calls scaled up. */
  ghost function ScaleUps(cfg: ScalerConfig, k8s: bool, s: Scale, calls: seq<Call>): seq<int>
    requires cfg.tasksPerWorker > 0
  {
    if calls == [] then []
    else
      var n := |calls| - 1;
      ScaleUps(cfg, k8s, s, calls[..n])
      + if IsScaleUp(cfg, k8s, After(cfg, k8s, s, calls[..n]), calls[n]) then [calls[n].env.doneAt] else []
  }

  /** A call scales up exactly when the scaler is on, a full cooldown has passed since the last scale-up, something
      is asked for, and the cluster accepts the write. */
  lemma ScalesUpExactlyWhen(cfg: ScalerConfig, k8s: bool, s: Scale, call: Call)
    requires cfg.tasksPerWorker > 0
    ensures IsScaleUp(cfg, k8s, s, call) <==>
              && call.Ensure? && s.enabled && Wanted(cfg, call.nodes, call.pending) != 0
              && (s.lastScaleUp.None? || call.env.checkedAt >= s.lastScaleUp.value + cfg.cooldownPeriod)
              && (!k8s || (call.env.getOK && call.env.updateOK))
    ensures call.Ensure? && !IsScaleUp(cfg, k8s, s, call) ==> Apply(cfg, k8s, s, call) == s
  {
  }

  lemma SpacingStep(cfg: ScalerConfig, k8s: bool, s: Scale, call: Call)
    requires cfg.tasksPerWorker > 0
    ensures Apply(cfg, k8s, s, call).lastScaleUp
         == if IsScaleUp(cfg, k8s, s, call) then Some(call.env.doneAt) else s.lastScaleUp
    ensures IsScaleUp(cfg, k8s, s, call) && s.lastScaleUp.Some? && call.env.checkedAt <= call.env.doneAt ==>
              call.env.doneAt - s.lastScaleUp.value >= cfg.cooldownPeriod
  {
  }

  ghost predicate Spaced(ups: seq<int>, last: Option<int>, period: int) {
    && last == (if ups == [] then None else Some(ups[|ups| - 1]))
    && forall i, j :: 0 <= i < j < |ups| ==> ups[j] - ups[i] >= (j - i) * period
  }

  lemma SpacedAppend(ups: seq<int>, last: Option<int>, period: int, at: int)
    requires Spaced(ups, last, period) && (last.Some? ==> at - last.value >= period)
    ensures Spaced(ups + [at], Some(at), period)
  {
    var n := |ups|;
    forall i | 0 <= i < n ensures at - ups[i] >= (n - i) * period {
      assert i < n - 1 ==> ups[n - 1] - ups[i] >= (n - 1 - i) * period;
      assert (n - i) * period == (n - 1 - i) * period + period;
    }
  }

  /** Any k successive scale-ups of a run, from the first or a later one on, span at least k - 1 cooldown
      periods. */
  lemma {:induction false} ScaleUpsAreSpaced(cfg: ScalerConfig, k8s: bool, s: Scale, calls: seq<Call>)
    requires cfg.tasksPerWorker > 0 && s.lastScaleUp == None
    requires forall i :: 0 <= i < |calls| && calls[i].Ensure? ==> calls[i].env.checkedAt <= calls[i].env.doneAt
    ensures Spaced(ScaleUps(cfg, k8s, s, calls), After(cfg, k8s, s, calls).lastScaleUp, cfg.cooldownPeriod)
  {
    if calls != [] {
      var n := |calls| - 1;
      ScaleUpsAreSpaced(cfg, k8s, s, calls[..n]);
      var before := After(cfg, k8s, s, calls[..n]);
      SpacingStep(cfg, k8s, before, calls[n]);
      if IsScaleUp(cfg, k8s, before, calls[n]) {
        SpacedAppend(ScaleUps(cfg, k8s, s, calls[..n]), before.lastScaleUp, cfg.cooldownPeriod, calls[n].env.doneAt);
      }
    }
  }
}
