/**
 Concurrent requests to one upstream. Every request handler asks the targets one by one, chooses,
 sends, waits and records; handlers, active health checks and the clock interleave freely, each
 registry call being one atomic step. A retry is a handler that begins again. A handler that waits is
 dropped when its client disconnects, and then records nothing. Targets with one id share one key and
 so one state, as in the source.
 */
module GatewayInterleaving {
  import opened Wrappers
  import opened MachineInts
  import opened Clock
  import opened Balancer
  import opened BalancerPeriods
  import opened Resilience
  import Breaker
  import opened Gateway

  datatype Handler =
    | Scanning(requestCount: nat, requestKey: string, next: nat, available: seq<Target>)
    | Waiting(target: Target)

  /** `counter` is the request counter, from which the other upstreams draw as well. */
  datatype System = System(states: Resilience.Targets, handlers: map<nat, Handler>, counter: nat, clock: Instant)

  const INITIAL := System(map[], map[], 0, 0.0)

  datatype Event =
    | Begin(h: nat, requestKey: string)
    | OtherUpstream
    | AskNext(h: nat, now: Instant)
    | Choose(h: nat)
    | Finish(h: nat, success: bool, now: Instant)
    | Drop(h: nat)
    | ActiveCheck(i: nat, healthy: bool)

  ghost predicate Enabled(up: Upstream, sys: System, e: Event) {
    match e
    case Begin(h, _) => h !in sys.handlers
    case OtherUpstream => true
    case AskNext(h, now) =>
      h in sys.handlers && sys.handlers[h].Scanning? && sys.handlers[h].next < |up.targets| && now >= sys.clock
    case Choose(h) => h in sys.handlers && sys.handlers[h].Scanning? && sys.handlers[h].next == |up.targets|
    case Finish(h, _, now) => h in sys.handlers && sys.handlers[h].Waiting? && now >= sys.clock
    case Drop(h) => h in sys.handlers && sys.handlers[h].Waiting?
    case ActiveCheck(i, _) => up.activeChecks && i < |up.targets|
  }

  ghost function Step(up: Upstream, hash: string -> nat, sys: System, e: Event): System
    requires Enabled(up, sys, e)
  {
    match e
    case Begin(h, requestKey) =>
      sys.(handlers := sys.handlers[h := Scanning(sys.counter, requestKey, 0, [])], counter := sys.counter + 1)
    case OtherUpstream => sys.(counter := sys.counter + 1)
    case AskNext(h, now) =>
      var handler := sys.handlers[h];
      var target := up.targets[handler.next];
      var answer := Ask(up.thresholds, Lookup(sys.states, KeyOf(up, target)), now);
      var available := if answer.available then handler.available + [target] else handler.available;
      sys.(states := Asked(up.thresholds, sys.states, KeyOf(up, target), now),
           handlers := sys.handlers[h := handler.(next := handler.next + 1, available := available)],
           clock := now)
    case Choose(h) =>
      var handler := sys.handlers[h];
      (match Chosen(up, handler.available, handler.requestKey, handler.requestCount, hash)
       case None => sys.(handlers := sys.handlers - {h})
       case Some(target) => sys.(handlers := sys.handlers[h := Waiting(target)]))
    case Finish(h, success, now) =>
      var key := KeyOf(up, sys.handlers[h].target);
      sys.(states := if success then Succeeded(up.thresholds, sys.states, key)
                     else Failed(up.thresholds, sys.states, key, now),
           handlers := sys.handlers - {h},
           clock := now)
    case Drop(h) => sys.(handlers := sys.handlers - {h})
    case ActiveCheck(i, healthy) =>
      sys.(states := Checked(sys.states, KeyOf(up, up.targets[i]), healthy))
  }

  /** The state after `events`, if each of them was possible in its turn. */
  ghost function Exec(up: Upstream, hash: string -> nat, sys: System, events: seq<Event>): Option<System> {
    if events == [] then Some(sys)
    else
      match Exec(up, hash, sys, events[..|events| - 1])
      case None => None
      case Some(mid) =>
        var e := events[|events| - 1];
        if Enabled(up, mid, e) then Some(Step(up, hash, mid, e)) else None
  }

  /** Every send that was made is recorded or still awaited. */
  ghost predicate Recorded(events: seq<Event>) {
    forall e | e in events :: !e.Drop?
  }

  // --- What a scan can collect ---

  /** The targets among the first `n` whose index is in `keep`. */
  ghost function Kept(targets: seq<Target>, keep: set<nat>, n: nat): seq<Target>
    requires n <= |targets|
  {
    if n == 0 then []
    else Kept(targets, keep, n - 1) + if n - 1 in keep then [targets[n - 1]] else []
  }

  lemma {:induction false} KeptMember(targets: seq<Target>, keep: set<nat>, n: nat, t: Target)
    requires n <= |targets|
    ensures t in Kept(targets, keep, n) <==> exists i: nat :: i < n && i in keep && targets[i] == t
  {
    if n > 0 {
      KeptMember(targets, keep, n - 1, t);
    }
  }

  /** Indices from `n` on do not matter. */
  lemma {:induction false} KeptAgrees(targets: seq<Target>, keep: set<nat>, other: set<nat>, n: nat)
    requires n <= |targets| && forall i: nat | i < n :: i in keep <==> i in other
    ensures Kept(targets, keep, n) == Kept(targets, other, n)
  {
    if n > 0 {
      KeptAgrees(targets, keep, other, n - 1);
    }
  }

  /** `available` was collected from the first `n` targets. */
  ghost predicate Collected(targets: seq<Target>, available: seq<Target>, n: nat) {
    n <= |targets| && exists keep: set<nat> :: available == Kept(targets, keep, n)
  }

  lemma {:induction false} CollectedStep(targets: seq<Target>, available: seq<Target>, n: nat, granted: bool)
    requires n < |targets| && Collected(targets, available, n)
    ensures Collected(targets, if granted then available + [targets[n]] else available, n + 1)
  {
    var keep: set<nat> :| available == Kept(targets, keep, n);
    var more := if granted then keep + {n} else keep - {n};
    KeptAgrees(targets, keep, more, n);
    assert Kept(targets, more, n + 1) == if granted then available + [targets[n]] else available;
  }

  ghost predicate HandlerFine(up: Upstream, handler: Handler) {
    match handler
    case Scanning(_, _, next, available) => Collected(up.targets, available, next)
    case Waiting(target) => target in up.targets && target.weight > 0
  }

  ghost predicate HandlersFine(up: Upstream, sys: System) {
    forall h | h in sys.handlers :: HandlerFine(up, sys.handlers[h])
  }

  lemma {:induction false} SelectionIsPositive(up: Upstream, available: seq<Target>, requestKey: string, requestCount: nat, hash: string -> nat)
    ensures var r := Chosen(up, available, requestKey, requestCount, hash);
            r.Some? ==> r.value in available && r.value.weight > 0
  {
  }

  lemma {:induction false} AskKeepsFine(up: Upstream, hash: string -> nat, sys: System, h: nat, now: Instant)
    requires Enabled(up, sys, AskNext(h, now)) && HandlerFine(up, sys.handlers[h])
    ensures HandlerFine(up, Step(up, hash, sys, AskNext(h, now)).handlers[h])
  {
    var handler := sys.handlers[h];
    var key := KeyOf(up, up.targets[handler.next]);
    var granted := Ask(up.thresholds, Lookup(sys.states, key), now).available;
    var after := Step(up, hash, sys, AskNext(h, now)).handlers[h];
    assert after.next == handler.next + 1;
    assert after.available == if granted then handler.available + [up.targets[handler.next]] else handler.available;
    CollectedStep(up.targets, handler.available, handler.next, granted);
  }

  lemma {:induction false} ChoiceIsFine(
    up: Upstream, available: seq<Target>, requestKey: string, requestCount: nat, hash: string -> nat)
    requires Collected(up.targets, available, |up.targets|)
    ensures var r := Chosen(up, available, requestKey, requestCount, hash);
            r.Some? ==> HandlerFine(up, Waiting(r.value))
  {
    var r := Chosen(up, available, requestKey, requestCount, hash);
    if r.Some? {
      SelectionIsPositive(up, available, requestKey, requestCount, hash);
      var keep: set<nat> :| available == Kept(up.targets, keep, |up.targets|);
      KeptMember(up.targets, keep, |up.targets|, r.value);
    }
  }

  lemma {:induction false} HandlersFineStep(up: Upstream, hash: string -> nat, sys: System, e: Event)
    requires HandlersFine(up, sys) && Enabled(up, sys, e)
    ensures HandlersFine(up, Step(up, hash, sys, e))
  {
    var sys' := Step(up, hash, sys, e);
    match e
    case Begin(h, _) =>
      assert Kept(up.targets, {}, 0) == [];
    case AskNext(h, now) =>
      AskKeepsFine(up, hash, sys, h, now);
    case Choose(h) =>
      var handler := sys.handlers[h];
      ChoiceIsFine(up, handler.available, handler.requestKey, handler.requestCount, hash);
    case _ =>
  }

  // --- One key ---

  /** What an event is to one key. */
  ghost function Local(up: Upstream, sys: System, e: Event, key: string): Option<Breaker.Event>
    requires Enabled(up, sys, e)
  {
    match e
    case AskNext(h, now) =>
      if key == KeyOf(up, up.targets[sys.handlers[h].next]) then Some(Breaker.Query(now)) else None
    case Finish(h, success, now) =>
      if key == KeyOf(up, sys.handlers[h].target) then Some(if success then Breaker.Success else Breaker.Failure(now))
      else None
    case ActiveCheck(i, healthy) =>
      if key == KeyOf(up, up.targets[i]) then Some(Breaker.ActiveCheck(healthy)) else None
    case _ => None
  }

  /** An event changes a key as the breaker's step does, or not at all. */
  lemma {:induction false} StateStep(up: Upstream, hash: string -> nat, sys: System, e: Event, key: string)
    requires Enabled(up, sys, e)
    ensures Lookup(Step(up, hash, sys, e).states, key)
         == match Local(up, sys, e, key)
            case None => Lookup(sys.states, key)
            case Some(own) => Breaker.Apply(up.thresholds, Lookup(sys.states, key), own)
  {
  }

  /**
   Whatever the handlers do, the state of one key is that of a breaker on its own: what is proved of the
   breaker's runs holds for every target in every interleaving.
   */
  lemma {:induction false} KeyIsABreaker(up: Upstream, hash: string -> nat, events: seq<Event>, sys: System, key: string)
    returns (own: seq<Breaker.Event>)
    requires Exec(up, hash, INITIAL, events) == Some(sys)
    ensures Lookup(sys.states, key) == Breaker.Run(up.thresholds, HEALTHY, own)
    decreases |events|
  {
    if events == [] {
      own := [];
    } else {
      var n := |events| - 1;
      var mid := Exec(up, hash, INITIAL, events[..n]).value;
      own := KeyIsABreaker(up, hash, events[..n], mid, key);
      StateStep(up, hash, mid, events[n], key);
      var local := Local(up, mid, events[n], key);
      if local.Some? {
        assert (own + [local.value])[..|own|] == own;
        own := own + [local.value];
      }
    }
  }

  // --- Outstanding attempts ---

  /** The handler has been granted a target of `key` and will choose, or has chosen one and not yet recorded. */
  ghost predicate Holds(up: Upstream, handler: Handler, key: string) {
    match handler
    case Scanning(_, _, _, available) => exists t :: t in available && KeyOf(up, t) == key
    case Waiting(target) => KeyOf(up, target) == key
  }

  ghost predicate CommittedTo(up: Upstream, sys: System, key: string) {
    exists h :: h in sys.handlers && Holds(up, sys.handlers[h], key)
  }

  ghost predicate HalfOpenAt(sys: System, key: string) {
    Lookup(sys.states, key).circuit.HalfOpen?
  }

  // --- When a grant cannot be wasted ---

  /** The targets with weight all have one id, and no target without weight has it. */
  predicate OneWeightedId(targets: seq<Target>) {
    forall i, j | 0 <= i < |targets| && 0 <= j < |targets| && targets[i].weight > 0 ::
      targets[j].weight > 0 <==> targets[j].id == targets[i].id
  }

  ghost predicate SumSurvives(targets: seq<Target>, keep: set<nat>) {
    var total := Total(Kept(targets, keep, |targets|));
    total > 0 ==> total % TWO_32 != 0
  }

  /** No selection of the targets has positive weights that add up to a multiple of 2^32. */
  ghost predicate NeverWraps(targets: seq<Target>) {
    forall keep: set<nat> :: SumSurvives(targets, keep)
  }

  /** Whoever is granted a weighted target also chooses its id. */
  ghost predicate SafeToProbe(up: Upstream) {
    OneWeightedId(up.targets) && (up.strategy == LeastConnections || NeverWraps(up.targets))
  }

  /** Whatever the strategy, the only weighted target among the available ones is chosen. */
  lemma {:induction false} LoneTargetIsChosen(
    up: Upstream, available: seq<Target>, requestKey: string, requestCount: nat, hash: string -> nat, t: Target)
    requires AtMostOnePositive(available) && t in available && t.weight > 0
    ensures Chosen(up, available, requestKey, requestCount, hash) == Some(t)
  {
    var i :| 0 <= i < |available| && available[i] == t;
    PrefixMonotone(available, i + 1, |available|);
    LoneTargetOwnsAll(available, i, 0);
    assert Total(available) == t.weight < TWO_32;
    DivModUnique(t.weight, TWO_32, 0, t.weight);
    var selected := Selection(up.strategy, available, Some(requestKey), requestCount, hash);
    assert selected.Some? && available[selected.value].weight > 0;
  }

  lemma {:induction false} MemberWeighs(targets: seq<Target>, t: Target)
    requires t in targets && t.weight > 0
    ensures Total(targets) > 0
  {
    var i :| 0 <= i < |targets| && targets[i] == t;
    PrefixMonotone(targets, i + 1, |targets|);
  }

  lemma {:induction false} SafeChoice(
    up: Upstream, available: seq<Target>, requestKey: string, requestCount: nat, hash: string -> nat, t: Target)
    requires SafeToProbe(up) && Collected(up.targets, available, |up.targets|)
    requires t in available && t.weight > 0
    ensures var r := Chosen(up, available, requestKey, requestCount, hash);
            r.Some? && KeyOf(up, r.value) == KeyOf(up, t)
  {
    var keep: set<nat> :| available == Kept(up.targets, keep, |up.targets|);
    MemberWeighs(available, t);
    assert up.strategy != LeastConnections ==> SumSurvives(up.targets, keep);
    SelectionIsPositive(up, available, requestKey, requestCount, hash);
    var selected := Selection(up.strategy, available, Some(requestKey), requestCount, hash);
    var k :| 0 <= k < |available| && available[k] == t;
    assert selected.Some?;
    KeptMember(up.targets, keep, |up.targets|, t);
    KeptMember(up.targets, keep, |up.targets|, available[selected.value]);
  }

  /** A weighted target's key, half-open, is awaited; the key of a target without weight keeps serving. */
  ghost predicate AwaitedAt(up: Upstream, sys: System, t: Target) {
    var s := Lookup(sys.states, KeyOf(up, t));
    && (HalfOpenAt(sys, KeyOf(up, t)) ==> CommittedTo(up, sys, KeyOf(up, t)))
    && (t.weight == 0 ==> s.circuit.Closed? && s.passiveHealthy)
  }

  ghost predicate Awaited(up: Upstream, sys: System) {
    forall t | t in up.targets :: AwaitedAt(up, sys, t)
  }

  lemma {:induction false} SharesWeight(up: Upstream, t: Target, u: Target)
    requires OneWeightedId(up.targets) && t in up.targets && u in up.targets && u.weight > 0
    requires KeyOf(up, t) == KeyOf(up, u)
    ensures t.weight > 0
  {
    KeysDiffer(up, t, u);
  }

  lemma {:induction false} StaysCommitted(up: Upstream, hash: string -> nat, sys: System, e: Event, t: Target)
    requires HandlersFine(up, sys) && Enabled(up, sys, e) && !e.Drop? && SafeToProbe(up)
    requires t in up.targets && t.weight > 0 && CommittedTo(up, sys, KeyOf(up, t))
    requires !(e.Finish? && KeyOf(up, sys.handlers[e.h].target) == KeyOf(up, t))
    ensures CommittedTo(up, Step(up, hash, sys, e), KeyOf(up, t))
  {
    var key := KeyOf(up, t);
    var h :| h in sys.handlers && Holds(up, sys.handlers[h], key);
    var sys' := Step(up, hash, sys, e);
    if e.Choose? && h == e.h {
      var handler := sys.handlers[h];
      var u :| u in handler.available && KeyOf(up, u) == key;
      var keep: set<nat> :| handler.available == Kept(up.targets, keep, |up.targets|);
      KeptMember(up.targets, keep, |up.targets|, u);
      SharesWeight(up, u, t);
      SafeChoice(up, handler.available, handler.requestKey, handler.requestCount, hash, u);
    } else if e.AskNext? && h == e.h {
      var u :| u in sys.handlers[h].available && KeyOf(up, u) == key;
      assert u in sys'.handlers[h].available;
    }
    assert h in sys'.handlers && Holds(up, sys'.handlers[h], key);
  }

  /** A key becomes half-open only by granting somebody a target. */
  lemma {:induction false} NewlyHalfOpen(up: Upstream, hash: string -> nat, sys: System, e: Event, key: string)
    requires Enabled(up, sys, e) && !HalfOpenAt(sys, key) && HalfOpenAt(Step(up, hash, sys, e), key)
    ensures CommittedTo(up, Step(up, hash, sys, e), key)
  {
    var sys' := Step(up, hash, sys, e);
    StateStep(up, hash, sys, e, key);
    assert e.AskNext?;
    var target := up.targets[sys.handlers[e.h].next];
    assert target in sys'.handlers[e.h].available && KeyOf(up, target) == key;
    assert e.h in sys'.handlers && Holds(up, sys'.handlers[e.h], key);
  }

  lemma {:induction false} AwaitedStep(up: Upstream, hash: string -> nat, sys: System, e: Event, t: Target)
    requires HandlersFine(up, sys) && Enabled(up, sys, e) && !e.Drop? && SafeToProbe(up)
    requires t in up.targets && AwaitedAt(up, sys, t)
    requires Breaker.Consistent(up.thresholds, Lookup(sys.states, KeyOf(up, t)))
    ensures AwaitedAt(up, Step(up, hash, sys, e), t)
  {
    var key := KeyOf(up, t);
    StateStep(up, hash, sys, e, key);
    if e.Finish? && KeyOf(up, sys.handlers[e.h].target) == key {
      SharesWeight(up, t, sys.handlers[e.h].target);
      Breaker.ConsistentStep(up.thresholds, Lookup(sys.states, key), Local(up, sys, e, key).value);
    } else if t.weight > 0 && HalfOpenAt(Step(up, hash, sys, e), key) {
      if HalfOpenAt(sys, key) {
        StaysCommitted(up, hash, sys, e, t);
      } else {
        NewlyHalfOpen(up, hash, sys, e, key);
      }
    }
  }

  lemma {:induction false} KeyIsConsistent(up: Upstream, hash: string -> nat, events: seq<Event>, sys: System, key: string)
    requires Exec(up, hash, INITIAL, events) == Some(sys)
    ensures Breaker.Consistent(up.thresholds, Lookup(sys.states, key))
  {
    var own := KeyIsABreaker(up, hash, events, sys, key);
    Breaker.StateFollowsStreaks(up.thresholds, own);
  }

  lemma {:induction false} ReachableIsAwaited(up: Upstream, hash: string -> nat, events: seq<Event>, sys: System)
    requires SafeToProbe(up) && Recorded(events) && Exec(up, hash, INITIAL, events) == Some(sys)
    ensures HandlersFine(up, sys) && Awaited(up, sys)
    decreases |events|
  {
    if events != [] {
      var n := |events| - 1;
      var mid := Exec(up, hash, INITIAL, events[..n]).value;
      assert events[n] in events;
      ReachableIsAwaited(up, hash, events[..n], mid);
      HandlersFineStep(up, hash, mid, events[n]);
      forall t | t in up.targets
        ensures AwaitedAt(up, sys, t)
      {
        KeyIsConsistent(up, hash, events[..n], mid, KeyOf(up, t));
        AwaitedStep(up, hash, mid, events[n], t);
      }
    }
  }
}
