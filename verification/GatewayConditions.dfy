/**
 Exactly when probes and targets are lost. A target is passed over when somebody was granted it and chooses
 something else; the conditions say when this cannot happen, with active checks and without.
 */
module GatewayConditions {
  import opened Wrappers
  import opened MachineInts
  import opened Balancer
  import opened BalancerPeriods
  import opened Resilience
  import Breaker
  import opened Gateway
  import opened GatewayInterleaving
  import opened GatewayProbes
  import GatewaySteering
  import opened GatewayShutting
  import opened GatewayLosses
  import Routing

  /** In every reachable state a half-open target has a handler that is going to record an outcome. */
  ghost predicate AlwaysAwaited(up: Upstream, hash: string -> nat) {
    forall events: seq<Event>, sys: System | Exec(up, hash, INITIAL, events) == Some(sys) && Recorded(events) ::
      forall t | t in up.targets :: HalfOpenAt(sys, KeyOf(up, t)) ==> CommittedTo(up, sys, KeyOf(up, t))
  }

  /** In no reachable state is a target lost. */
  ghost predicate NeverLost(up: Upstream, hash: string -> nat) {
    forall events: seq<Event>, sys: System | Exec(up, hash, INITIAL, events) == Some(sys) && Recorded(events) ::
      forall t | t in up.targets :: !Lost(up, sys, KeyOf(up, t))
  }

  /** The same with clients that may disconnect while they wait. */
  ghost predicate NeverLostByClients(up: Upstream, hash: string -> nat) {
    forall events: seq<Event>, sys: System | Exec(up, hash, INITIAL, events) == Some(sys) ::
      forall t | t in up.targets :: !Lost(up, sys, KeyOf(up, t))
  }

  /** All weights are zero. */
  predicate Weightless(up: Upstream) {
    forall t | t in up.targets :: t.weight == 0
  }

  /** What can get in the way of requests: active checks, or nothing because somebody is always chosen. */
  ghost predicate Directed(up: Upstream) {
    up.activeChecks || AlwaysChooses(up)
  }

  // --- Losing ---

  /** Where a weighted target can be passed over, one can be lost for good with every request answered and recorded. */
  lemma {:induction false} StarvationIsReachable(up: Upstream, hash: string -> nat)
    returns (events: seq<Event>, sys: System, t: Target)
    requires Directed(up) && !SafeToProbe(up)
    ensures Leads(up, hash, INITIAL, events, sys) && sys.handlers == map[]
    ensures t in up.targets && t.weight > 0 && HalfOpenAt(sys, KeyOf(up, t)) && Lost(up, sys, KeyOf(up, t))
  {
    if AlwaysChooses(up) {
      var lost;
      events, sys, lost := StarvationByTraffic(up, hash);
      t := up.targets[lost];
    } else {
      var keep: set<nat> :| !SumSurvives(up.targets, keep);
      var plan := GatewaySteering.PlanForWrap(up, hash, keep);
      events, sys := GatewaySteering.LoseByPlan(up, hash, plan);
      t := up.targets[plan.victim];
    }
  }

  lemma {:induction false} StarvationByTraffic(up: Upstream, hash: string -> nat)
    returns (events: seq<Event>, sys: System, lost: nat)
    requires AlwaysChooses(up) && !OneWeightedId(up.targets)
    ensures Leads(up, hash, INITIAL, events, sys) && sys.handlers == map[]
    ensures lost < |up.targets| && up.targets[lost].weight > 0
    ensures HalfOpenAt(sys, KeyOf(up, up.targets[lost])) && Lost(up, sys, KeyOf(up, up.targets[lost]))
  {
    var i, j :| 0 <= i < |up.targets| && 0 <= j < |up.targets| && up.targets[i].weight > 0
             && !(up.targets[j].weight > 0 <==> up.targets[j].id == up.targets[i].id);
    if v: nat :| v < |up.targets| && up.targets[v].weight > 0 && up.targets[v].id != up.targets[i].id {
      events, sys, lost := LoseOneOfTwo(up, hash, i, v);
    } else {
      events, sys, lost := LoseToTwin(up, hash, i, j);
    }
  }

  lemma {:induction false} EjectionIsReachable(up: Upstream, hash: string -> nat)
    returns (events: seq<Event>, sys: System, t: Target)
    requires Directed(up) && !Weightless(up) && !Breaker.BreakerCoversEjection(up.thresholds)
    ensures Leads(up, hash, INITIAL, events, sys) && sys.handlers == map[]
    ensures t in up.targets && t.weight > 0 && Lost(up, sys, KeyOf(up, t))
  {
    var w := SomeWeighted(up);
    if AlwaysChooses(up) {
      var lost;
      events, sys, lost := EjectionByTraffic(up, hash, w);
      t := up.targets[lost];
    } else {
      events, sys := GatewaySteering.EjectionIsReachable(up, hash, w);
      t := up.targets[w];
    }
  }

  lemma {:induction false} SomeWeighted(up: Upstream) returns (w: nat)
    requires !Weightless(up)
    ensures w < |up.targets| && up.targets[w].weight > 0
  {
    var t :| t in up.targets && t.weight > 0;
    w :| w < |up.targets| && up.targets[w] == t;
  }

  // --- The exact conditions ---

  /** No probe is ever lost exactly when a granted target cannot be passed over. */
  lemma {:induction false} AlwaysAwaitedIff(up: Upstream, hash: string -> nat)
    requires Directed(up)
    ensures AlwaysAwaited(up, hash) <==> SafeToProbe(up)
  {
    if SafeToProbe(up) {
      SafeIsAwaited(up, hash);
    } else {
      var events, sys, t := StarvationIsReachable(up, hash);
    }
  }

  lemma {:induction false} SafeIsAwaited(up: Upstream, hash: string -> nat)
    requires SafeToProbe(up)
    ensures AlwaysAwaited(up, hash)
  {
    forall events: seq<Event>, sys: System | Exec(up, hash, INITIAL, events) == Some(sys) && Recorded(events)
      ensures forall t | t in up.targets :: HalfOpenAt(sys, KeyOf(up, t)) ==> CommittedTo(up, sys, KeyOf(up, t))
    {
      ReachableIsAwaited(up, hash, events, sys);
      assert forall t | t in up.targets :: AwaitedAt(up, sys, t);
    }
  }

  /** A target that is awaited when half-open and never ejected when closed is not lost. */
  lemma {:induction false} NotLost(up: Upstream, hash: string -> nat, events: seq<Event>, sys: System, t: Target)
    requires SafeToProbe(up) && t in up.targets && Exec(up, hash, INITIAL, events) == Some(sys) && Recorded(events)
    requires t.weight > 0 ==> Breaker.BreakerCoversEjection(up.thresholds)
    ensures !Lost(up, sys, KeyOf(up, t))
  {
    ReachableIsAwaited(up, hash, events, sys);
    assert AwaitedAt(up, sys, t);
    if t.weight > 0 {
      var own := KeyIsABreaker(up, hash, events, sys, KeyOf(up, t));
      Breaker.NeverEjectedWhenClosedIff(up.thresholds);
      assert var s := Breaker.Run(up.thresholds, HEALTHY, own); s.circuit.Closed? ==> s.passiveHealthy;
    }
  }

  lemma {:induction false} SafeIsNeverLost(up: Upstream, hash: string -> nat)
    requires SafeToProbe(up) && (Weightless(up) || Breaker.BreakerCoversEjection(up.thresholds))
    ensures NeverLost(up, hash)
  {
    forall events: seq<Event>, sys: System, t |
      Exec(up, hash, INITIAL, events) == Some(sys) && Recorded(events) && t in up.targets
      ensures !Lost(up, sys, KeyOf(up, t))
    {
      NotLost(up, hash, events, sys, t);
    }
  }

  /**
   No target is ever lost exactly when a granted target cannot be passed over and, if there is a
   weighted target at all, the breaker covers passive ejection.
   */
  lemma {:induction false} NeverLostIff(up: Upstream, hash: string -> nat)
    requires Directed(up)
    ensures NeverLost(up, hash)
       <==> SafeToProbe(up) && (Weightless(up) || Breaker.BreakerCoversEjection(up.thresholds))
  {
    if !SafeToProbe(up) {
      var events, sys, t := StarvationIsReachable(up, hash);
    } else if !Weightless(up) && !Breaker.BreakerCoversEjection(up.thresholds) {
      var events, sys, t := EjectionIsReachable(up, hash);
    } else {
      SafeIsNeverLost(up, hash);
    }
  }

  /** If clients may disconnect while they wait, a target can be lost as soon as one has weight. */
  lemma {:induction false} NeverLostByClientsIff(up: Upstream, hash: string -> nat)
    requires Directed(up)
    ensures NeverLostByClients(up, hash) <==> Weightless(up)
  {
    if Weightless(up) {
      forall events: seq<Event>, sys: System, t | Exec(up, hash, INITIAL, events) == Some(sys) && t in up.targets
        ensures !Lost(up, sys, KeyOf(up, t))
      {
        WeightlessServes(up, hash, events, sys, KeyOf(up, t));
      }
    } else if AlwaysChooses(up) {
      var w := SomeWeighted(up);
      var events, sys, lost := DroppedIsLost(up, hash, w);
      assert up.targets[lost] in up.targets;
    } else {
      var events, sys, t := StarvationIsReachable(up, hash);
    }
  }

  /** Targets without weight are never sent to and keep serving. */
  lemma {:induction false} WeightlessServes(up: Upstream, hash: string -> nat, events: seq<Event>, sys: System, key: string)
    requires Weightless(up) && Exec(up, hash, INITIAL, events) == Some(sys)
    ensures HandlersFine(up, sys)
    ensures var s := Lookup(sys.states, key); s.circuit == Closed && s.passiveHealthy
    decreases |events|
  {
    if events != [] {
      var n := |events| - 1;
      var mid := Exec(up, hash, INITIAL, events[..n]).value;
      WeightlessServes(up, hash, events[..n], mid, key);
      HandlersFineStep(up, hash, mid, events[n]);
      StateStep(up, hash, mid, events[n], key);
    }
  }

  // --- Weights ---

  lemma {:induction false} PrefixAgrees(targets: seq<Target>, other: seq<Target>, n: nat)
    requires n <= |targets| && n <= |other| && targets[..n] == other[..n]
    ensures Prefix(targets, n) == Prefix(other, n)
  {
    if n > 0 {
      assert targets[..n][n - 1] == other[..n][n - 1];
      assert targets[..n - 1] == targets[..n][..n - 1] == other[..n - 1];
      PrefixAgrees(targets, other, n - 1);
    }
  }

  lemma {:induction false} TotalAppend(targets: seq<Target>, t: Target)
    ensures Total(targets + [t]) == Total(targets) + t.weight
  {
    PrefixAgrees(targets + [t], targets, |targets|);
  }

  lemma {:induction false} KeptWeighsLess(targets: seq<Target>, keep: set<nat>, n: nat)
    requires n <= |targets|
    ensures Total(Kept(targets, keep, n)) <= Prefix(targets, n)
  {
    if n > 0 {
      KeptWeighsLess(targets, keep, n - 1);
      var before := Kept(targets, keep, n - 1);
      TotalAppend(before, targets[n - 1]);
      assert before + [] == before;
    }
  }

  /** Where the weights add up to less than 2^32, only the ids matter. */
  lemma {:induction false} SmallTotalsAreSafeIff(up: Upstream)
    requires Total(up.targets) < TWO_32
    ensures AlwaysChooses(up)
    ensures SafeToProbe(up) <==> OneWeightedId(up.targets)
  {
    forall keep: set<nat>
      ensures SumSurvives(up.targets, keep)
    {
      KeptWeighsLess(up.targets, keep, |up.targets|);
      var total := Total(Kept(up.targets, keep, |up.targets|));
      DivModUnique(total, TWO_32, 0, total);
    }
  }

  /** Where no id repeats, at most one target may have weight. */
  lemma {:induction false} DistinctIdsAreSafeIff(up: Upstream)
    requires DistinctIds(up)
    ensures SafeToProbe(up) <==> AtMostOnePositive(up.targets)
  {
    if AtMostOnePositive(up.targets) {
      if Total(up.targets) > 0 {
        LoneTargetOwnsAll(up.targets, Owner(up.targets, 0), 0);
      }
      SmallTotalsAreSafeIff(up);
    } else {
      var i, j :| 0 <= i < j < |up.targets| && up.targets[i].weight > 0 && up.targets[j].weight > 0;
      assert up.targets[i].id != up.targets[j].id;
    }
  }

  /**
   Without active checks, weights that add up to a multiple of 2^32 keep everybody from being chosen,
   so nothing is ever sent and nothing can be lost.
   */
  lemma {:induction false} WrappedIsIdle(up: Upstream, hash: string -> nat)
    requires !up.activeChecks && up.strategy != LeastConnections && Total(up.targets) % TWO_32 == 0
    ensures AlwaysAwaited(up, hash) && NeverLost(up, hash)
  {
    forall events: seq<Event>, sys: System | Exec(up, hash, INITIAL, events) == Some(sys)
      ensures forall key: string :: Lookup(sys.states, key) == HEALTHY
    {
      NothingIsSent(up, hash, events, sys);
    }
  }

  lemma {:induction false} NothingIsSent(up: Upstream, hash: string -> nat, events: seq<Event>, sys: System)
    requires !up.activeChecks && up.strategy != LeastConnections && Total(up.targets) % TWO_32 == 0
    requires Exec(up, hash, INITIAL, events) == Some(sys)
    ensures forall key: string :: Lookup(sys.states, key) == HEALTHY
    ensures forall h | h in sys.handlers ::
              var handler := sys.handlers[h];
              handler.Scanning? && handler.next <= |up.targets| && handler.available == up.targets[..handler.next]
    decreases |events|
  {
    if events != [] {
      var n := |events| - 1;
      var mid := Exec(up, hash, INITIAL, events[..n]).value;
      NothingIsSent(up, hash, events[..n], mid);
      forall key: string
        ensures Lookup(sys.states, key) == HEALTHY
      {
        StateStep(up, hash, mid, events[n], key);
      }
      assert up.targets[..|up.targets|] == up.targets;
    }
  }

  // --- Configurations one meets ---

  /** With distinct ids: one weighted target at most, and a breaker that covers ejection. */
  lemma {:induction false} DistinctIdsNeverLostIff(up: Upstream, hash: string -> nat)
    requires DistinctIds(up) && !Weightless(up) && Directed(up)
    ensures AlwaysAwaited(up, hash) <==> AtMostOnePositive(up.targets)
    ensures NeverLost(up, hash) <==> AtMostOnePositive(up.targets) && Breaker.BreakerCoversEjection(up.thresholds)
  {
    AlwaysAwaitedIff(up, hash);
    NeverLostIff(up, hash);
    DistinctIdsAreSafeIff(up);
  }

  /** A configuration with one route to `up`. */
  function OneUpstream(up: Upstream): Routing.GatewayConfig {
    Routing.GatewayConfig([Routing.Route("r", up.name, None, 0, None, 100, None)], [up])
  }

  lemma {:induction false} OneUpstreamIsValid(up: Upstream)
    requires up.targets != []
    ensures Routing.Validate(OneUpstream(up)).None?
  {
    assert up in OneUpstream(up).upstreams;
    Routing.ValidateIff(OneUpstream(up));
  }

  /** `validate` accepts two targets of one id; if one of them has no weight, the only weighted target can be lost. */
  lemma {:induction false} RepeatedIdIsLost(up: Upstream, hash: string -> nat)
    requires |up.targets| == 2 && up.targets[0].id == up.targets[1].id
    requires up.targets[0].weight == 0 < up.targets[1].weight || up.targets[1].weight == 0 < up.targets[0].weight
    ensures Routing.Validate(OneUpstream(up)).None?
    ensures AtMostOnePositive(up.targets) && !AlwaysAwaited(up, hash) && !NeverLost(up, hash)
  {
    OneUpstreamIsValid(up);
    assert !OneWeightedId(up.targets) by {
      assert up.targets[0].weight > 0 <==> up.targets[1].weight == 0;
    }
    TwoWeights(up);
    SmallTotalsAreSafeIff(up);
    AlwaysAwaitedIff(up, hash);
    NeverLostIff(up, hash);
  }

  lemma {:induction false} TwoWeights(up: Upstream)
    requires |up.targets| == 2 && (up.targets[0].weight == 0 || up.targets[1].weight == 0)
    ensures Total(up.targets) < TWO_32
  {
    assert Prefix(up.targets, 1) == Prefix(up.targets, 0) + up.targets[0].weight;
    assert Prefix(up.targets, 2) == Prefix(up.targets, 1) + up.targets[1].weight;
  }

  /** With the default thresholds, 3 failures for ejection and 5 for the breaker, every weighted upstream can lose a target. */
  lemma {:induction false} DefaultsCanLose(up: Upstream, hash: string -> nat)
    requires Directed(up)
    requires up.thresholds.passiveFailures == 3 && up.thresholds.passiveSuccesses == 1
    requires up.thresholds.breakerFailures == 5
    ensures NeverLost(up, hash) <==> Weightless(up)
  {
    NeverLostIff(up, hash);
    if Weightless(up) {
      PrefixOfZeros(up.targets, 0, |up.targets|);
      SmallTotalsAreSafeIff(up);
    }
  }
}
