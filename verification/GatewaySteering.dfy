/** Runs directed by active checks: a check just before a question decides whether a target is granted. */
module GatewaySteering {
  import opened Wrappers
  import opened MachineInts
  import opened Clock
  import opened Balancer
  import opened Resilience
  import Breaker
  import opened Gateway
  import opened GatewayInterleaving
  import opened GatewayProbes

  /** The state of a key with its active health left aside, which a check can set at any time. */
  ghost function Core(sys: System, key: string): TargetValue {
    Lookup(sys.states, key).(activeHealthy := true)
  }

  ghost predicate SameCores(sys: System, sys': System) {
    forall key: string :: Core(sys', key) == Core(sys, key)
  }

  ghost predicate Serving(s: TargetValue) {
    s.circuit == Closed && s.passiveHealthy
  }

  /** A check just before the question decides whether the next target is granted. */
  lemma {:induction false} Steer(up: Upstream, hash: string -> nat, sys: System, h: nat, granted: bool, now: Instant)
    returns (events: seq<Event>, sys': System)
    requires up.activeChecks && h in sys.handlers && sys.handlers[h].Scanning? && sys.clock <= now
    requires sys.handlers[h].next < |up.targets|
    requires granted ==> Ask(up.thresholds, Core(sys, KeyOf(up, up.targets[sys.handlers[h].next])), now).available
    ensures Leads(up, hash, sys, events, sys')
    ensures var was := sys.handlers[h];
            var asked := up.targets[was.next];
            && sys'.handlers
               == sys.handlers[h := was.(next := was.next + 1,
                                         available := if granted then was.available + [asked] else was.available)]
            && forall key: string ::
                 Core(sys', key)
                 == if granted && key == KeyOf(up, asked) then Ask(up.thresholds, Core(sys, key), now).next
                    else Core(sys, key)
    ensures sys'.counter == sys.counter && sys'.clock == now
  {
    var next := sys.handlers[h].next;
    var check, ask := ActiveCheck(next, granted), AskNext(h, now);
    var mid := Step(up, hash, sys, check);
    LeadsOne(up, hash, sys, check);
    LeadsOne(up, hash, mid, ask);
    events, sys' := [check] + [ask], Step(up, hash, mid, ask);
    LeadsOn(up, hash, sys, [check], mid, [ask], sys');
    var key := KeyOf(up, up.targets[next]);
    assert Lookup(mid.states, key) == Lookup(sys.states, key).(activeHealthy := granted);
  }

  /** A handler goes on to target `n`, collecting what `keep` says; the keys it is granted are serving. */
  lemma {:induction false} ScanTo(up: Upstream, hash: string -> nat, sys: System, h: nat, keep: set<nat>, n: nat, now: Instant)
    returns (events: seq<Event>, sys': System)
    requires up.activeChecks && h in sys.handlers && sys.handlers[h].Scanning? && sys.clock <= now
    requires sys.handlers[h].next <= n <= |up.targets|
    requires sys.handlers[h].available == Kept(up.targets, keep, sys.handlers[h].next)
    requires forall i: nat | sys.handlers[h].next <= i < n && i in keep :: Serving(Core(sys, KeyOf(up, up.targets[i])))
    ensures Leads(up, hash, sys, events, sys')
    ensures sys'.handlers == sys.handlers[h := sys.handlers[h].(next := n, available := Kept(up.targets, keep, n))]
    ensures sys'.counter == sys.counter && sys'.clock <= now && SameCores(sys, sys')
    decreases n
  {
    if n == sys.handlers[h].next {
      events, sys' := [], sys;
      assert sys.handlers[h].(next := n, available := Kept(up.targets, keep, n)) == sys.handlers[h];
    } else {
      var before, mid := ScanTo(up, hash, sys, h, keep, n - 1, now);
      var step;
      step, sys' := Steer(up, hash, mid, h, n - 1 in keep, now);
      events := before + step;
      LeadsOn(up, hash, sys, before, mid, step, sys');
      assert sys'.handlers[h].available == Kept(up.targets, keep, n);
    }
  }

  /** A new handler begins and goes to target `n` while all keys serve. */
  lemma {:induction false} BeginScan(up: Upstream, hash: string -> nat, sys: System, h: nat, keep: set<nat>, n: nat, now: Instant)
    returns (events: seq<Event>, sys': System)
    requires up.activeChecks && h !in sys.handlers && sys.clock <= now && n <= |up.targets|
    requires forall key: string :: Serving(Core(sys, key))
    ensures Leads(up, hash, sys, events, sys')
    ensures sys'.handlers == sys.handlers[h := Scanning(sys.counter, "", n, Kept(up.targets, keep, n))]
    ensures sys'.counter == sys.counter + 1 && sys'.clock <= now && SameCores(sys, sys')
  {
    var begin := Begin(h, "");
    var begun := Step(up, hash, sys, begin);
    LeadsOne(up, hash, sys, begin);
    assert forall key: string :: Core(begun, key) == Core(sys, key);
    var scan;
    scan, sys' := ScanTo(up, hash, begun, h, keep, n, now);
    events := [begin] + scan;
    LeadsOn(up, hash, sys, [begin], begun, scan, sys');
  }

  /** A new handler begins, scans and chooses while all keys serve. */
  lemma {:induction false} Dispatch(up: Upstream, hash: string -> nat, sys: System, h: nat, keep: set<nat>, now: Instant)
    returns (events: seq<Event>, sys': System)
    requires up.activeChecks && h !in sys.handlers && sys.clock <= now
    requires forall key: string :: Serving(Core(sys, key))
    ensures Leads(up, hash, sys, events, sys')
    ensures sys'.handlers == (match Choice(up, hash, keep, sys.counter)
                              case None => sys.handlers
                              case Some(t) => sys.handlers[h := Waiting(t)])
    ensures sys'.counter == sys.counter + 1 && sys'.clock <= now && SameCores(sys, sys')
  {
    var scan, mid := BeginScan(up, hash, sys, h, keep, |up.targets|, now);
    LeadsOne(up, hash, mid, Choose(h));
    sys' := Step(up, hash, mid, Choose(h));
    events := scan + [Choose(h)];
    LeadsOn(up, hash, sys, scan, mid, [Choose(h)], sys');
    SameStatesSameCores(mid, sys');
    ChooseHandlers(up, hash, mid, h);
    assert sys.handlers[h := mid.handlers[h]] - {h} == sys.handlers;
  }

  lemma {:induction false} SameStatesSameCores(sys: System, sys': System)
    requires sys.states == sys'.states
    ensures SameCores(sys, sys')
  {
  }

  lemma {:induction false} ChooseHandlers(up: Upstream, hash: string -> nat, sys: System, h: nat)
    requires Enabled(up, sys, Choose(h))
    ensures var was := sys.handlers[h];
            Step(up, hash, sys, Choose(h)).handlers
            == match Chosen(up, was.available, was.requestKey, was.requestCount, hash)
               case None => sys.handlers - {h}
               case Some(t) => sys.handlers[h := Waiting(t)]
  {
  }

  // --- Tripping a target ---

  ghost predicate AllHealthy(sys: System) {
    forall key: string :: Core(sys, key) == HEALTHY
  }

  lemma {:induction false} HealthyServes(sys: System)
    requires AllHealthy(sys)
    ensures forall key: string :: Serving(Core(sys, key))
  {
  }

  /** Handlers `0` to `n - 1` wait for target `p`; nothing has been recorded yet. */
  ghost predicate Piled(up: Upstream, sys: System, p: nat, n: nat)
    requires p < |up.targets|
  {
    && (forall h: nat :: h in sys.handlers <==> h < n)
    && (forall h | h in sys.handlers :: sys.handlers[h] == Waiting(up.targets[p]))
    && AllHealthy(sys) && sys.clock <= 0.0
  }

  lemma {:induction false} PileUp(up: Upstream, hash: string -> nat, p: nat, n: nat)
    returns (events: seq<Event>, sys: System)
    requires up.activeChecks && p < |up.targets| && up.targets[p].weight > 0
    ensures Leads(up, hash, INITIAL, events, sys) && Piled(up, sys, p, n)
  {
    if n == 0 {
      events, sys := [], INITIAL;
    } else {
      var before, mid := PileUp(up, hash, p, n - 1);
      HealthyServes(mid);
      KeptOne(up.targets, p, |up.targets|);
      LoneTargetIsChosen(up, [up.targets[p]], "", mid.counter, hash, up.targets[p]);
      var more;
      more, sys := Dispatch(up, hash, mid, n - 1, {p}, 0.0);
      events := before + more;
      LeadsOn(up, hash, INITIAL, before, mid, more, sys);
    }
  }

  /** The key of target `p` has seen `n` failures, every other key nothing. */
  ghost predicate Tripped(up: Upstream, sys: System, p: nat, n: nat)
    requires p < |up.targets|
  {
    forall key: string ::
      Core(sys, key)
      == if key == KeyOf(up, up.targets[p]) then Breaker.Run(up.thresholds, HEALTHY, Breaker.Failures(n)) else HEALTHY
  }

  /** Handlers `0` to `n - 1` leave one after the other, each with a failure of target `p`. */
  lemma {:induction false} FailAll(up: Upstream, hash: string -> nat, sys: System, p: nat, n: u32)
    returns (events: seq<Event>, sys': System)
    requires p < |up.targets| && AllHealthy(sys) && sys.clock <= 0.0
    requires forall h: nat | h < n :: h in sys.handlers && sys.handlers[h] == Waiting(up.targets[p])
    ensures Leads(up, hash, sys, events, sys')
    ensures forall h: nat :: h in sys'.handlers <==> h in sys.handlers && h >= n
    ensures forall h | h in sys'.handlers :: sys'.handlers[h] == sys.handlers[h]
    ensures Tripped(up, sys', p, n) && sys'.clock <= 0.0
  {
    if n == 0 {
      events, sys' := [], sys;
    } else {
      var before, mid := FailAll(up, hash, sys, p, n - 1);
      var e := Finish(n - 1, false, 0.0);
      LeadsOne(up, hash, mid, e);
      sys' := Step(up, hash, mid, e);
      events := before + [e];
      LeadsOn(up, hash, sys, before, mid, [e], sys');
      FailureCounts(up, hash, mid, p, n - 1, n - 1);
    }
  }

  lemma {:induction false} FailureCounts(up: Upstream, hash: string -> nat, sys: System, p: nat, h: nat, n: nat)
    requires p < |up.targets| && Tripped(up, sys, p, n) && sys.clock <= 0.0
    requires h in sys.handlers && sys.handlers[h] == Waiting(up.targets[p])
    ensures Tripped(up, Step(up, hash, sys, Finish(h, false, 0.0)), p, n + 1)
  {
    var sys' := Step(up, hash, sys, Finish(h, false, 0.0));
    assert Breaker.Failures(n + 1)[..n] == Breaker.Failures(n);
    forall key: string
      ensures Core(sys', key) == if key == KeyOf(up, up.targets[p])
                                 then Breaker.Run(up.thresholds, HEALTHY, Breaker.Failures(n + 1)) else HEALTHY
    {
      StateStep(up, hash, sys, Finish(h, false, 0.0), key);
      assert Core(sys, key) == if key == KeyOf(up, up.targets[p])
                               then Breaker.Run(up.thresholds, HEALTHY, Breaker.Failures(n)) else HEALTHY;
    }
  }

  // --- Wasting the probes ---

  /** A handler that collects `keep`, the last of the victim's key being `last`, chooses nobody. */
  datatype Plan = Plan(victim: nat, keep: set<nat>, last: nat)

  ghost predicate PassesOver(up: Upstream, hash: string -> nat, plan: Plan, requestCount: nat) {
    Choice(up, hash, plan.keep, requestCount) == None
  }

  ghost predicate Works(up: Upstream, hash: string -> nat, plan: Plan) {
    && up.activeChecks
    && plan.victim < |up.targets| && up.targets[plan.victim].weight > 0
    && plan.last < |up.targets| && plan.last in plan.keep
    && KeyOf(up, up.targets[plan.last]) == KeyOf(up, up.targets[plan.victim])
    && (forall i: nat | plan.last < i < |up.targets| && i in plan.keep ::
          KeyOf(up, up.targets[i]) != KeyOf(up, up.targets[plan.victim]))
    && (forall requestCount: nat :: PassesOver(up, hash, plan, requestCount))
  }

  /** The handler is about to ask for the last target of the victim's key. */
  ghost predicate IsPoised(up: Upstream, handler: Handler, plan: Plan) {
    && plan.last < |up.targets|
    && handler.Scanning? && handler.requestKey == ""
    && handler.next == plan.last && handler.available == Kept(up.targets, plan.keep, plan.last)
  }

  /** `n` handlers wait for the victim and the `m` after them are poised. */
  ghost predicate Prepared(up: Upstream, sys: System, plan: Plan, n: nat, m: nat)
    requires plan.victim < |up.targets|
  {
    && (forall h: nat :: h in sys.handlers <==> h < n + m)
    && (forall h | h in sys.handlers ::
          if h < n then sys.handlers[h] == Waiting(up.targets[plan.victim]) else IsPoised(up, sys.handlers[h], plan))
    && AllHealthy(sys) && sys.clock <= 0.0
  }

  lemma {:induction false} Prepare(up: Upstream, hash: string -> nat, plan: Plan, n: nat, m: nat)
    returns (events: seq<Event>, sys: System)
    requires Works(up, hash, plan)
    ensures Leads(up, hash, INITIAL, events, sys) && Prepared(up, sys, plan, n, m)
    decreases m
  {
    if m == 0 {
      events, sys := PileUp(up, hash, plan.victim, n);
    } else {
      var before, mid := Prepare(up, hash, plan, n, m - 1);
      HealthyServes(mid);
      var scan;
      scan, sys := BeginScan(up, hash, mid, n + m - 1, plan.keep, plan.last, 0.0);
      events := before + scan;
      LeadsOn(up, hash, INITIAL, before, mid, scan, sys);
    }
  }

  ghost predicate OthersServe(up: Upstream, sys: System, key: string) {
    forall other: string | other != key :: Serving(Core(sys, other))
  }

  /** A poised handler is granted the victim's key, ends its scan and finds nobody to choose: one probe is gone. */
  lemma {:induction false} PassOne(up: Upstream, hash: string -> nat, sys: System, plan: Plan, h: nat, now: Instant)
    returns (events: seq<Event>, sys': System)
    requires Works(up, hash, plan) && sys.clock <= now
    requires h in sys.handlers && IsPoised(up, sys.handlers[h], plan)
    requires var key := KeyOf(up, up.targets[plan.victim]);
             Ask(up.thresholds, Core(sys, key), now).available && OthersServe(up, sys, key)
    ensures Leads(up, hash, sys, events, sys')
    ensures sys'.handlers == sys.handlers - {h} && sys'.clock <= now
    ensures var key := KeyOf(up, up.targets[plan.victim]);
            Core(sys', key) == Ask(up.thresholds, Core(sys, key), now).next && OthersServe(up, sys', key)
  {
    var key := KeyOf(up, up.targets[plan.victim]);
    var ask, asked := Steer(up, hash, sys, h, true, now);
    forall other: string | other != key
      ensures Serving(Core(asked, other))
    {
      assert Serving(Core(sys, other));
    }
    var scan, scanned := ScanTo(up, hash, asked, h, plan.keep, |up.targets|, now);
    forall other: string | other != key
      ensures Serving(Core(scanned, other))
    {
      assert Serving(Core(asked, other));
    }
    assert PassesOver(up, hash, plan, sys.handlers[h].requestCount);
    LeadsOne(up, hash, scanned, Choose(h));
    sys' := Step(up, hash, scanned, Choose(h));
    events := ask + scan + [Choose(h)];
    ChooseHandlers(up, hash, scanned, h);
    assert sys'.handlers == sys.handlers - {h};
    StillServe(up, scanned, sys', key);
    LeadsOn(up, hash, sys, ask, asked, scan, scanned);
    LeadsOn(up, hash, sys, ask + scan, scanned, [Choose(h)], sys');
  }

  lemma {:induction false} StillServe(up: Upstream, sys: System, sys': System, key: string)
    requires sys.states == sys'.states && OthersServe(up, sys, key)
    ensures Core(sys', key) == Core(sys, key) && OthersServe(up, sys', key)
  {
    forall other: string | other != key
      ensures Serving(Core(sys', other))
    {
      assert Serving(Core(sys, other));
    }
  }

  /** The victim is open, the poised handlers `n` to `n + halfOpenMax` are left. */
  ghost predicate Cocked(up: Upstream, sys: System, plan: Plan, n: nat)
    requires plan.victim < |up.targets|
  {
    && (forall h: nat :: h in sys.handlers <==> n <= h < n + up.thresholds.halfOpenMax + 1)
    && (forall h | h in sys.handlers :: IsPoised(up, sys.handlers[h], plan))
    && Core(sys, KeyOf(up, up.targets[plan.victim])).circuit == Open(0.0)
    && OthersServe(up, sys, KeyOf(up, up.targets[plan.victim]))
    && sys.clock <= 0.0
  }

  /** The `i`-th yes after the cool-down; the first comes from the open circuit. */
  lemma {:induction false} SpendProbe(cfg: Thresholds, s: TargetValue, i: nat)
    requires s.activeHealthy && 1 <= i <= cfg.halfOpenMax + 1
    requires s.circuit == if i == 1 then Open(0.0) else HalfOpen(cfg.halfOpenMax + 2 - i)
    ensures Ask(cfg, s, Millis(cfg.openMs)).available
    ensures Ask(cfg, s, Millis(cfg.openMs)).next.circuit == HalfOpen(cfg.halfOpenMax + 1 - i)
  {
  }

  /** After `i` of them have passed over the victim. */
  lemma {:induction false} PassSome(up: Upstream, hash: string -> nat, sys: System, plan: Plan, n: nat, i: nat)
    returns (events: seq<Event>, sys': System)
    requires Works(up, hash, plan) && Cocked(up, sys, plan, n) && i <= up.thresholds.halfOpenMax + 1
    ensures Leads(up, hash, sys, events, sys')
    ensures forall h: nat :: h in sys'.handlers <==> h in sys.handlers && h >= n + i
    ensures forall h | h in sys'.handlers :: sys'.handlers[h] == sys.handlers[h]
    ensures var key := KeyOf(up, up.targets[plan.victim]);
            && OthersServe(up, sys', key)
            && Core(sys', key).circuit == if i == 0 then Open(0.0) else HalfOpen(up.thresholds.halfOpenMax + 1 - i)
    ensures sys'.clock <= Millis(up.thresholds.openMs)
  {
    if i == 0 {
      events, sys' := [], sys;
    } else {
      var before, mid := PassSome(up, hash, sys, plan, n, i - 1);
      var more;
      assert IsPoised(up, mid.handlers[n + i - 1], plan);
      SpendProbe(up.thresholds, Core(mid, KeyOf(up, up.targets[plan.victim])), i);
      more, sys' := PassOne(up, hash, mid, plan, n + i - 1, Millis(up.thresholds.openMs));
      events := before + more;
      LeadsOn(up, hash, sys, before, mid, more, sys');
    }
  }

  /** With a plan the victim's key is lost while every request is answered and every send recorded. */
  lemma {:induction false} LoseByPlan(up: Upstream, hash: string -> nat, plan: Plan) returns (events: seq<Event>, sys: System)
    requires Works(up, hash, plan)
    ensures Leads(up, hash, INITIAL, events, sys) && sys.handlers == map[]
    ensures var key := KeyOf(up, up.targets[plan.victim]); HalfOpenAt(sys, key) && Lost(up, sys, key)
  {
    var key := KeyOf(up, up.targets[plan.victim]);
    var n, m := Breaker.AtLeastOne(up.thresholds.breakerFailures), up.thresholds.halfOpenMax + 1;
    var prepare, ready := Prepare(up, hash, plan, n, m);
    var trip, cocked := FailAll(up, hash, ready, plan.victim, n);
    Breaker.AfterFailures(up.thresholds, n);
    assert Core(cocked, key).circuit == Open(0.0);
    forall other: string | other != key
      ensures Serving(Core(cocked, other))
    {
      assert Core(cocked, other) == HEALTHY;
    }
    var pass;
    pass, sys := PassSome(up, hash, cocked, plan, n, m);
    events := prepare + trip + pass;
    LeadsOn(up, hash, INITIAL, prepare, ready, trip, cocked);
    LeadsOn(up, hash, INITIAL, prepare + trip, cocked, pass, sys);
    assert sys.handlers == map[];
  }

  // --- Weights that wrap ---

  lemma {:induction false} LastOfKey(up: Upstream, keep: set<nat>, key: string, n: nat) returns (last: nat)
    requires n <= |up.targets|
    requires exists i: nat :: i < n && i in keep && KeyOf(up, up.targets[i]) == key
    ensures last < n && last in keep && KeyOf(up, up.targets[last]) == key
    ensures forall i: nat | last < i < n && i in keep :: KeyOf(up, up.targets[i]) != key
  {
    if n - 1 in keep && KeyOf(up, up.targets[n - 1]) == key {
      last := n - 1;
    } else {
      last := LastOfKey(up, keep, key, n - 1);
    }
  }

  /** Weights that wrap to zero get nobody chosen. */
  lemma {:induction false} PlanForWrap(up: Upstream, hash: string -> nat, keep: set<nat>) returns (plan: Plan)
    requires up.activeChecks && up.strategy != LeastConnections && !SumSurvives(up.targets, keep)
    ensures Works(up, hash, plan)
  {
    var kept := Kept(up.targets, keep, |up.targets|);
    var t := kept[Owner(kept, 0)];
    KeptMember(up.targets, keep, |up.targets|, t);
    var i: nat :| i < |up.targets| && i in keep && up.targets[i] == t;
    var last := LastOfKey(up, keep, KeyOf(up, t), |up.targets|);
    plan := Plan(i, keep, last);
    forall c: nat
      ensures PassesOver(up, hash, plan, c)
    {
      assert Choice(up, hash, keep, c) == None;
    }
  }

  // --- Ejection ---

  /** One success closes the circuit without healing. */
  lemma {:induction false} OneSuccessIsTooFew(up: Upstream, hash: string -> nat, sys: System, h: nat, p: nat)
    requires p < |up.targets| && up.thresholds.passiveSuccesses > 1 && sys.clock <= 0.0
    requires h in sys.handlers && sys.handlers[h] == Waiting(up.targets[p])
    requires var s := Core(sys, KeyOf(up, up.targets[p])); !s.passiveHealthy && s.consecutiveSuccesses == 0
    ensures var s := Core(Step(up, hash, sys, Finish(h, true, 0.0)), KeyOf(up, up.targets[p]));
            s.circuit == Closed && !s.passiveHealthy
  {
    StateStep(up, hash, sys, Finish(h, true, 0.0), KeyOf(up, up.targets[p]));
  }

  /** As many failures as eject the target, while `extra` handlers still wait for it. */
  lemma {:induction false} Eject(up: Upstream, hash: string -> nat, p: nat, extra: nat) returns (events: seq<Event>, sys: System)
    requires up.activeChecks && p < |up.targets| && up.targets[p].weight > 0
    ensures Leads(up, hash, INITIAL, events, sys) && sys.clock <= 0.0
    ensures var n := Breaker.AtLeastOne(up.thresholds.passiveFailures);
            && (forall h: nat :: h in sys.handlers <==> n <= h < n + extra)
            && (forall h | h in sys.handlers :: sys.handlers[h] == Waiting(up.targets[p]))
            && Tripped(up, sys, p, n)
  {
    var n := Breaker.AtLeastOne(up.thresholds.passiveFailures);
    var pile, piled := PileUp(up, hash, p, extra + n);
    var trip;
    trip, sys := FailAll(up, hash, piled, p, n);
    events := pile + trip;
    LeadsOn(up, hash, INITIAL, pile, piled, trip, sys);
  }

  /** Where ejection is not covered by the breaker, active checks can direct the traffic so that any weighted target is lost for good. */
  lemma {:induction false} EjectionIsReachable(up: Upstream, hash: string -> nat, p: nat) returns (events: seq<Event>, sys: System)
    requires up.activeChecks && p < |up.targets| && up.targets[p].weight > 0
    requires !Breaker.BreakerCoversEjection(up.thresholds)
    ensures Leads(up, hash, INITIAL, events, sys) && sys.handlers == map[]
    ensures Lost(up, sys, KeyOf(up, up.targets[p]))
  {
    if up.thresholds.passiveSuccesses > 1 {
      events, sys := CloseWithoutHealing(up, hash, p);
    } else {
      events, sys := Eject(up, hash, p, 0);
      Breaker.AfterFailures(up.thresholds, Breaker.AtLeastOne(up.thresholds.passiveFailures));
      assert Serving(Core(sys, KeyOf(up, up.targets[p]))) || !Core(sys, KeyOf(up, up.targets[p])).passiveHealthy;
      assert sys.handlers == map[];
    }
  }

  lemma {:induction false} CloseWithoutHealing(up: Upstream, hash: string -> nat, p: nat) returns (events: seq<Event>, sys: System)
    requires up.activeChecks && p < |up.targets| && up.targets[p].weight > 0 && up.thresholds.passiveSuccesses > 1
    ensures Leads(up, hash, INITIAL, events, sys) && sys.handlers == map[]
    ensures Lost(up, sys, KeyOf(up, up.targets[p]))
  {
    var n := Breaker.AtLeastOne(up.thresholds.passiveFailures);
    var eject, ejected := Eject(up, hash, p, 1);
    Breaker.AfterFailures(up.thresholds, n);
    var e := Finish(n, true, 0.0);
    LeadsOne(up, hash, ejected, e);
    events, sys := eject + [e], Step(up, hash, ejected, e);
    LeadsOn(up, hash, INITIAL, eject, ejected, [e], sys);
    OneSuccessIsTooFew(up, hash, ejected, n, p);
    assert sys.handlers == map[];
  }
}
