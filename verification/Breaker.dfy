/** What one target's circuit and health do over whole runs. */
module Breaker {
  import opened Wrappers
  import opened MachineInts
  import opened Clock
  import opened Resilience

  datatype Event = Query(now: Instant) | ActiveCheck(healthy: bool) | Success | Failure(now: Instant)

  function Apply(cfg: Thresholds, s: TargetValue, e: Event): TargetValue {
    match e
    case Query(now) => Ask(cfg, s, now).next
    case ActiveCheck(healthy) => s.(activeHealthy := healthy)
    case Success => AfterSuccess(cfg, s)
    case Failure(now) => AfterFailure(cfg, s, now)
  }

  ghost function Run(cfg: Thresholds, s: TargetValue, events: seq<Event>): TargetValue {
    if events == [] then s
    else Apply(cfg, Run(cfg, s, events[..|events| - 1]), events[|events| - 1])
  }

  /** A threshold of zero trips on the first failure, like a threshold of one. */
  function AtLeastOne(threshold: u32): u32 {
    if threshold == 0 then 1 else threshold
  }

  // --- The state told from the recorded outcomes ---

  /** The failures recorded since the last success. */
  ghost function TrailingFailures(events: seq<Event>): nat {
    if events == [] then 0
    else
      var before := TrailingFailures(events[..|events| - 1]);
      match events[|events| - 1]
      case Success => 0
      case Failure(_) => before + 1
      case _ => before
  }

  ghost function TrailingSuccesses(events: seq<Event>): nat {
    if events == [] then 0
    else
      var before := TrailingSuccesses(events[..|events| - 1]);
      match events[|events| - 1]
      case Success => before + 1
      case Failure(_) => 0
      case _ => before
  }

  /** The time of the last recorded failure. */
  ghost function LastFailure(events: seq<Event>): Instant {
    if events == [] then 0.0
    else
      match events[|events| - 1]
      case Failure(now) => now
      case _ => LastFailure(events[..|events| - 1])
  }

  /** The result of the last active check; a target that was never checked counts as healthy. */
  ghost function LastCheck(events: seq<Event>): bool {
    if events == [] then true
    else
      match events[|events| - 1]
      case ActiveCheck(healthy) => healthy
      case _ => LastCheck(events[..|events| - 1])
  }

  ghost function Saturated(n: nat): u32 {
    if n < TWO_32 then n else TWO_32 - 1
  }

  /**
   The counters are the saturated lengths of the current streak, one of them is zero, and the
   circuit is closed exactly while the failure streak is shorter than the threshold. An open circuit
   counts its cool-down from the last failure.
   */
  lemma {:induction false} StateFollowsStreaks(cfg: Thresholds, events: seq<Event>)
    ensures var s := Run(cfg, HEALTHY, events);
            && s.breakerFailures == s.consecutiveFailures == Saturated(TrailingFailures(events))
            && s.consecutiveSuccesses == Saturated(TrailingSuccesses(events))
            && (TrailingFailures(events) == 0 || TrailingSuccesses(events) == 0)
            && (s.circuit.Closed? <==> TrailingFailures(events) < AtLeastOne(cfg.breakerFailures))
            && (s.circuit.Open? ==> s.circuit.openedAt == LastFailure(events))
            && (s.circuit.HalfOpen? ==> s.circuit.remaining <= cfg.halfOpenMax)
            && s.activeHealthy == LastCheck(events)
  {
    if events != [] {
      StateFollowsStreaks(cfg, events[..|events| - 1]);
    }
  }

  /** The part of `StateFollowsStreaks` that speaks about a single state. */
  ghost predicate Consistent(cfg: Thresholds, s: TargetValue) {
    && s.breakerFailures == s.consecutiveFailures
    && (s.consecutiveFailures == 0 || s.consecutiveSuccesses == 0)
    && (s.circuit.Closed? <==> s.breakerFailures < AtLeastOne(cfg.breakerFailures))
    && (s.circuit.HalfOpen? ==> s.circuit.remaining <= cfg.halfOpenMax)
  }

  lemma {:induction false} ConsistentStep(cfg: Thresholds, s: TargetValue, e: Event)
    requires Consistent(cfg, s)
    ensures Consistent(cfg, Apply(cfg, s, e))
    ensures e.Failure? && !s.circuit.Closed? ==> Apply(cfg, s, e).circuit == Open(e.now)
    ensures e.Success? || e.Failure? ==> !Apply(cfg, s, e).circuit.HalfOpen?
  {
  }

  // --- Passive ejection ---

  /** After the first `i` events the failure streak is long enough to eject. */
  ghost predicate EjectsAt(cfg: Thresholds, events: seq<Event>, i: nat)
    requires i <= |events|
  {
    TrailingFailures(events[..i]) >= AtLeastOne(cfg.passiveFailures)
  }

  /** After the first `j` events the success streak is long enough to heal. */
  ghost predicate HealsAt(cfg: Thresholds, events: seq<Event>, j: nat)
    requires j <= |events|
  {
    TrailingSuccesses(events[..j]) >= AtLeastOne(cfg.passiveSuccesses)
  }

  ghost predicate Unhealed(cfg: Thresholds, events: seq<Event>, i: nat, n: nat)
    requires n <= |events|
  {
    forall j: nat | i < j <= n :: !HealsAt(cfg, events, j)
  }

  ghost predicate EjectedSince(cfg: Thresholds, events: seq<Event>, i: nat) {
    i <= |events| && EjectsAt(cfg, events, i) && Unhealed(cfg, events, i, |events|)
  }

  lemma {:induction false} SamePrefix(cfg: Thresholds, events: seq<Event>, n: nat, i: nat)
    requires i <= n <= |events|
    ensures EjectsAt(cfg, events, i) == EjectsAt(cfg, events[..n], i)
    ensures HealsAt(cfg, events, i) == HealsAt(cfg, events[..n], i)
  {
    assert events[..n][..i] == events[..i];
  }

  lemma {:induction false} UnhealedPrefix(cfg: Thresholds, events: seq<Event>, i: nat, n: nat)
    requires n <= |events|
    ensures Unhealed(cfg, events, i, n) == Unhealed(cfg, events[..n], i, n)
  {
    forall j: nat | j <= n
      ensures HealsAt(cfg, events, j) == HealsAt(cfg, events[..n], j)
    {
      SamePrefix(cfg, events, n, j);
    }
  }

  lemma {:induction false} EjectedSinceStep(cfg: Thresholds, events: seq<Event>, i: nat)
    requires i < |events|
    ensures EjectedSince(cfg, events, i)
       <==> EjectedSince(cfg, events[..|events| - 1], i) && TrailingSuccesses(events) < AtLeastOne(cfg.passiveSuccesses)
  {
    var n := |events| - 1;
    SamePrefix(cfg, events, n, i);
    UnhealedPrefix(cfg, events, i, n);
    assert Unhealed(cfg, events, i, n + 1) <==> Unhealed(cfg, events, i, n) && !HealsAt(cfg, events, n + 1);
    assert events[..n + 1] == events;
  }

  lemma {:induction false} EjectedNow(cfg: Thresholds, events: seq<Event>)
    ensures EjectedSince(cfg, events, |events|) <==> TrailingFailures(events) >= AtLeastOne(cfg.passiveFailures)
  {
    assert events[..|events|] == events;
  }

  /** Passive health told from the recorded outcomes. */
  lemma {:induction false} EjectionFollowsStreaks(cfg: Thresholds, events: seq<Event>)
    ensures !Run(cfg, HEALTHY, events).passiveHealthy <==> exists i: nat :: EjectedSince(cfg, events, i)
  {
    EjectedNow(cfg, events);
    if events != [] {
      var n := |events| - 1;
      EjectionFollowsStreaks(cfg, events[..n]);
      StateFollowsStreaks(cfg, events[..n]);
      EjectedNow(cfg, events[..n]);
      forall i: nat | i < |events|
        ensures EjectedSince(cfg, events, i)
           <==> EjectedSince(cfg, events[..n], i) && TrailingSuccesses(events) < AtLeastOne(cfg.passiveSuccesses)
      {
        EjectedSinceStep(cfg, events, i);
      }
      EjectionStep(cfg, events);
    }
  }

  /** What the last event does to the existence of an ejection. */
  lemma {:induction false} EjectionStep(cfg: Thresholds, events: seq<Event>)
    requires events != []
    requires var before := events[..|events| - 1];
             && (TrailingFailures(before) == 0 || TrailingSuccesses(before) == 0)
             && (EjectedSince(cfg, before, |before|) <==> TrailingFailures(before) >= AtLeastOne(cfg.passiveFailures))
             && (EjectedSince(cfg, events, |events|) <==> TrailingFailures(events) >= AtLeastOne(cfg.passiveFailures))
             && forall i: nat | i < |events| ::
                  EjectedSince(cfg, events, i)
                  <==> EjectedSince(cfg, before, i) && TrailingSuccesses(events) < AtLeastOne(cfg.passiveSuccesses)
    ensures var before := events[..|events| - 1];
            (exists i: nat :: EjectedSince(cfg, events, i))
            <==> match events[|events| - 1]
                 case Success => (exists i: nat :: EjectedSince(cfg, before, i))
                                 && TrailingSuccesses(events) < AtLeastOne(cfg.passiveSuccesses)
                 case Failure(_) => (exists i: nat :: EjectedSince(cfg, before, i))
                                    || TrailingFailures(events) >= AtLeastOne(cfg.passiveFailures)
                 case _ => exists i: nat :: EjectedSince(cfg, before, i)
  {
    var n := |events| - 1;
    var before := events[..n];
    if i: nat :| EjectedSince(cfg, before, i) {
      assert i < |events|;
      assert before[..n] == before;
      assert i < n ==> !HealsAt(cfg, before, n);
      if TrailingSuccesses(events) < AtLeastOne(cfg.passiveSuccesses) {
        assert EjectedSince(cfg, events, i);
      }
    }
    if i: nat :| EjectedSince(cfg, events, i) {
      if i == |events| && !events[n].Failure? {
        assert TrailingFailures(events) > 0;
        assert EjectedSince(cfg, before, n);
      }
    }
  }

  /** In every reachable closed state the target is passively healthy. */
  ghost predicate NeverEjectedWhenClosed(cfg: Thresholds) {
    forall events: seq<Event> :: var s := Run(cfg, HEALTHY, events); s.circuit.Closed? ==> s.passiveHealthy
  }

  /** The breaker trips no later than passive ejection, and one success heals. */
  predicate BreakerCoversEjection(cfg: Thresholds) {
    AtLeastOne(cfg.breakerFailures) <= AtLeastOne(cfg.passiveFailures) && cfg.passiveSuccesses <= 1
  }

  lemma {:induction false} EjectedHasFailed(cfg: Thresholds, events: seq<Event>)
    requires cfg.passiveSuccesses <= 1
    ensures var s := Run(cfg, HEALTHY, events);
            !s.passiveHealthy ==> s.consecutiveFailures >= AtLeastOne(cfg.passiveFailures)
  {
    if events != [] {
      EjectedHasFailed(cfg, events[..|events| - 1]);
    }
  }

  /** `n` failures in a row, all at time zero. */
  ghost function Failures(n: nat): seq<Event> {
    seq(n, _ => Failure(0.0))
  }

  lemma {:induction false} AfterFailures(cfg: Thresholds, n: u32)
    ensures var s := Run(cfg, HEALTHY, Failures(n));
            && s.activeHealthy
            && s.consecutiveFailures == s.breakerFailures == n && s.consecutiveSuccesses == 0
            && (s.passiveHealthy <==> n < AtLeastOne(cfg.passiveFailures))
            && s.circuit == if n < AtLeastOne(cfg.breakerFailures) then Closed else Open(0.0)
  {
    if n > 0 {
      AfterFailures(cfg, n - 1);
      assert Failures(n)[..n - 1] == Failures(n - 1);
    }
  }

  lemma {:induction false} EjectionWitness(cfg: Thresholds) returns (events: seq<Event>)
    requires !BreakerCoversEjection(cfg)
    ensures var s := Run(cfg, HEALTHY, events); s.circuit.Closed? && !s.passiveHealthy
  {
    var n := AtLeastOne(cfg.passiveFailures);
    AfterFailures(cfg, n);
    events := Failures(n);
    if cfg.passiveSuccesses > 1 {
      events := Failures(n) + [Success];
      assert events[..n] == Failures(n);
    }
  }

  /** Closed and ejected is unreachable exactly when the thresholds say so. */
  lemma {:induction false} NeverEjectedWhenClosedIff(cfg: Thresholds)
    ensures NeverEjectedWhenClosed(cfg) <==> BreakerCoversEjection(cfg)
  {
    if BreakerCoversEjection(cfg) {
      forall events: seq<Event>
        ensures var s := Run(cfg, HEALTHY, events); s.circuit.Closed? ==> s.passiveHealthy
      {
        EjectedHasFailed(cfg, events);
        StateFollowsStreaks(cfg, events);
      }
    } else {
      var events := EjectionWitness(cfg);
    }
  }

  // --- Without recorded outcomes ---

  ghost predicate Unrecorded(events: seq<Event>) {
    forall i | 0 <= i < |events| :: events[i].Query? || events[i].ActiveCheck?
  }

  /** How many questions of `events` are answered with yes. */
  ghost function Admitted(cfg: Thresholds, s: TargetValue, events: seq<Event>): nat {
    if events == [] then 0
    else
      var n := |events| - 1;
      Admitted(cfg, s, events[..n])
      + match events[n]
        case Query(now) => if Ask(cfg, Run(cfg, s, events[..n]), now).available then 1 else 0
        case _ => 0
  }

  /** Closed and ejected: nothing but a recorded success brings the target back. */
  lemma {:induction false} EjectedStaysEjected(cfg: Thresholds, s: TargetValue, events: seq<Event>)
    requires s.circuit.Closed? && !s.passiveHealthy && Unrecorded(events)
    ensures Admitted(cfg, s, events) == 0
    ensures Run(cfg, s, events) == s.(activeHealthy := Run(cfg, s, events).activeHealthy)
  {
    if events != [] {
      EjectedStaysEjected(cfg, s, events[..|events| - 1]);
    }
  }

  /** How many more yes-answers a circuit that is not closed can give before the next record. */
  ghost function Budget(cfg: Thresholds, c: Circuit): nat {
    match c
    case Closed => 0
    case Open(_) => cfg.halfOpenMax + 1
    case HalfOpen(remaining) => remaining
  }

  /** Yes-answers are paid for from the budget, and from nothing else. */
  lemma {:induction false} BudgetIsSpent(cfg: Thresholds, s: TargetValue, events: seq<Event>)
    requires !s.circuit.Closed? && Unrecorded(events)
    ensures !Run(cfg, s, events).circuit.Closed?
    ensures Admitted(cfg, s, events) + Budget(cfg, Run(cfg, s, events).circuit) == Budget(cfg, s.circuit)
  {
    if events != [] {
      BudgetIsSpent(cfg, s, events[..|events| - 1]);
    }
  }

  /** Between two records a circuit that is not closed admits at most `half_open_max_requests + 1` requests. */
  lemma {:induction false} ProbeBound(cfg: Thresholds, history: seq<Event>, events: seq<Event>)
    requires var s := Run(cfg, HEALTHY, history); !s.circuit.Closed? && Unrecorded(events)
    ensures Admitted(cfg, Run(cfg, HEALTHY, history), events) <= cfg.halfOpenMax + 1
  {
    StateFollowsStreaks(cfg, history);
    BudgetIsSpent(cfg, Run(cfg, HEALTHY, history), events);
  }

  /** `open_ms` thousandths of a second have passed; a cool-down of zero is over at once, whatever the clock says. */
  ghost predicate CooledDown(cfg: Thresholds, openedAt: Instant, now: Instant) {
    cfg.openMs == 0 || 1000.0 * (now - openedAt) >= cfg.openMs as real
  }

  /** `n` questions after the cool-down of an actively healthy open target: exactly the budget gets through. */
  lemma {:induction false} ProbesExact(cfg: Thresholds, s: TargetValue, events: seq<Event>)
    requires s.activeHealthy && s.circuit.Open?
    requires forall i | 0 <= i < |events| :: events[i].Query? && CooledDown(cfg, s.circuit.openedAt, events[i].now)
    ensures Admitted(cfg, s, events) == if |events| <= cfg.halfOpenMax + 1 then |events| else cfg.halfOpenMax + 1
    ensures Run(cfg, s, events).activeHealthy
    ensures events != [] ==> Run(cfg, s, events).circuit.HalfOpen?
    ensures events == [] ==> Run(cfg, s, events) == s
  {
    BudgetIsSpent(cfg, s, events);
    if events != [] {
      ProbesExact(cfg, s, events[..|events| - 1]);
    }
  }

  /** The times of `events` lie in the cool-down that starts at `openedAt`. */
  ghost predicate WithinCoolDown(cfg: Thresholds, openedAt: Instant, events: seq<Event>) {
    forall i | 0 <= i < |events| && (events[i].Query? || events[i].Failure?) ::
      openedAt <= events[i].now && !CooledDown(cfg, openedAt, events[i].now)
  }

  /** No success, no admission before the cool-down is over; late failures do not shorten it. */
  lemma {:induction false} CoolDownHolds(cfg: Thresholds, history: seq<Event>, openedAt: Instant, events: seq<Event>)
    requires Run(cfg, HEALTHY, history).circuit == Open(openedAt)
    requires WithinCoolDown(cfg, openedAt, events) && Success !in events
    ensures Admitted(cfg, Run(cfg, HEALTHY, history), events) == 0
    ensures var s := Run(cfg, Run(cfg, HEALTHY, history), events);
            && Consistent(cfg, s)
            && s.circuit.Open? && openedAt <= s.circuit.openedAt
  {
    var start := Run(cfg, HEALTHY, history);
    StateFollowsStreaks(cfg, history);
    if events != [] {
      var n := |events| - 1;
      CoolDownHolds(cfg, history, openedAt, events[..n]);
      assert events[n] in events;
      ConsistentStep(cfg, Run(cfg, start, events[..n]), events[n]);
    }
  }

  // --- The whole breaker told from its events ---

  /** The yes-answers since the last record, as long as the failure streak has tripped the breaker. */
  ghost function Granted(cfg: Thresholds, events: seq<Event>): nat
    decreases |events|, 0
  {
    if events == [] then 0
    else
      var before := events[..|events| - 1];
      match events[|events| - 1]
      case Query(now) =>
        Granted(cfg, before)
        + if TrailingFailures(before) >= AtLeastOne(cfg.breakerFailures) && Admits(cfg, before, now) then 1 else 0
      case ActiveCheck(_) => Granted(cfg, before)
      case _ => 0
  }

  /**
   Whether a target is available, from what was recorded, checked and asked before. The last active check must
   not have failed. While the failure streak is short, the target must not be ejected; after that the first question has to wait
   for the end of the cool-down, and `half_open_max_requests` further ones are granted before the next record.
   */
  ghost predicate Admits(cfg: Thresholds, events: seq<Event>, now: Instant)
    decreases |events|, 1
  {
    && LastCheck(events)
    && if TrailingFailures(events) < AtLeastOne(cfg.breakerFailures) then forall i: nat :: !EjectedSince(cfg, events, i)
       else if Granted(cfg, events) == 0 then CooledDown(cfg, LastFailure(events), now)
       else Granted(cfg, events) <= cfg.halfOpenMax
  }

  /** A tripped circuit is open until the first yes and has paid for every further one. */
  ghost predicate CircuitTells(cfg: Thresholds, c: Circuit, granted: nat) {
    if granted == 0 then c.Open? else c.HalfOpen? && c.remaining + granted == cfg.halfOpenMax + 1
  }

  /** The answer to one question, from the counters and the circuit told by the events. */
  lemma {:induction false} AnswerFollows(cfg: Thresholds, events: seq<Event>, now: Instant)
    requires var s := Run(cfg, HEALTHY, events);
             TrailingFailures(events) >= AtLeastOne(cfg.breakerFailures) ==> CircuitTells(cfg, s.circuit, Granted(cfg, events))
    ensures Ask(cfg, Run(cfg, HEALTHY, events), now).available <==> Admits(cfg, events, now)
  {
    StateFollowsStreaks(cfg, events);
    EjectionFollowsStreaks(cfg, events);
  }

  lemma {:induction false} CircuitFollowsGrants(cfg: Thresholds, events: seq<Event>)
    ensures var s := Run(cfg, HEALTHY, events);
            TrailingFailures(events) >= AtLeastOne(cfg.breakerFailures) ==> CircuitTells(cfg, s.circuit, Granted(cfg, events))
  {
    if events != [] {
      var before := events[..|events| - 1];
      CircuitFollowsGrants(cfg, before);
      StateFollowsStreaks(cfg, before);
      match events[|events| - 1]
      case Query(now) => AnswerFollows(cfg, before, now);
      case _ => StateFollowsStreaks(cfg, events);
    }
  }

  /**
   The main result. A target that keeps two streak counters and a circuit answers every question of every run
   as the full list of recorded outcomes, checks and questions does.
   */
  lemma {:induction false} BreakerRefinesHistory(cfg: Thresholds, events: seq<Event>, now: Instant)
    ensures Ask(cfg, Run(cfg, HEALTHY, events), now).available <==> Admits(cfg, events, now)
  {
    CircuitFollowsGrants(cfg, events);
    AnswerFollows(cfg, events, now);
  }

  // --- The whole registry told from its operations ---

  /** What one operation is to one key. */
  ghost function EventOf(operation: Operation, key: string): Option<Event> {
    if operation.key != key then None
    else
      match operation
      case IsAvailable(_, now) => Some(Query(now))
      case SetActiveHealth(_, healthy) => Some(ActiveCheck(healthy))
      case RecordSuccess(_) => Some(Success)
      case RecordFailure(_, now) => Some(Failure(now))
  }

  ghost function EventsOf(operations: seq<Operation>, key: string): seq<Event> {
    if operations == [] then []
    else
      EventsOf(operations[..|operations| - 1], key)
      + match EventOf(operations[|operations| - 1], key) case None => [] case Some(e) => [e]
  }

  lemma {:induction false} RegistryStep(cfg: Thresholds, targets: Targets, operation: Operation, key: string)
    ensures Lookup(PerformedOne(cfg, targets, operation), key)
         == match EventOf(operation, key)
            case None => Lookup(targets, key)
            case Some(e) => Apply(cfg, Lookup(targets, key), e)
  {
  }

  /** Each key is a breaker on its own, which sees exactly the operations made on it. */
  lemma {:induction false} RegistryRuns(cfg: Thresholds, operations: seq<Operation>, key: string)
    ensures Lookup(Performed(cfg, map[], operations), key) == Run(cfg, HEALTHY, EventsOf(operations, key))
  {
    if operations != [] {
      var n := |operations| - 1;
      RegistryRuns(cfg, operations[..n], key);
      RegistryStep(cfg, Performed(cfg, map[], operations[..n]), operations[n], key);
      var before := EventsOf(operations[..n], key);
      match EventOf(operations[n], key)
      case None => assert before + [] == before;
      case Some(e) => assert (before + [e])[..|before|] == before;
    }
  }

  /** Whether a target is available after any operations on the registry, by whomever. */
  lemma {:induction false} RegistryRefinesHistory(cfg: Thresholds, operations: seq<Operation>, key: string, now: Instant)
    ensures Ask(cfg, Lookup(Performed(cfg, map[], operations), key), now).available
       <==> Admits(cfg, EventsOf(operations, key), now)
  {
    RegistryRuns(cfg, operations, key);
    BreakerRefinesHistory(cfg, EventsOf(operations, key), now);
  }
}
