/**
 Health and circuit state of upstream targets: gateway-core-rust/src/resilience.rs.
 A `TargetValue` is the content of one `TargetRuntime`.
 */
module Resilience {
  import opened MachineInts
  import opened Clock

  datatype Circuit = Closed | Open(openedAt: Instant) | HalfOpen(remaining: u32)

  datatype TargetValue = TargetValue(
    activeHealthy: bool,
    passiveHealthy: bool,
    consecutiveFailures: u32,
    consecutiveSuccesses: u32,
    breakerFailures: u32,
    circuit: Circuit)

  const HEALTHY := TargetValue(true, true, 0, 0, 0, Closed)

  datatype Thresholds = Thresholds(
    passiveFailures: u32,
    passiveSuccesses: u32,
    breakerFailures: u32,
    openMs: nat,
    halfOpenMax: u32)

  type Targets = map<string, TargetValue>

  function Lookup(targets: Targets, key: string): TargetValue {
    if key in targets then targets[key] else HEALTHY
  }

  // --- One target ---

  datatype Answer = Answer(available: bool, next: TargetValue)

  /** Lines 59-83: the question changes the state. */
  function Ask(cfg: Thresholds, s: TargetValue, now: Instant): Answer {
    if !s.activeHealthy then Answer(false, s)
    else
      match s.circuit
      case Closed => Answer(s.passiveHealthy, s)
      case Open(openedAt) =>
        if Elapsed(now, openedAt) >= Millis(cfg.openMs) then
          Answer(true, s.(circuit := HalfOpen(cfg.halfOpenMax)))
        else
          Answer(false, s)
      case HalfOpen(remaining) =>
        if remaining == 0 then Answer(false, s) else Answer(true, s.(circuit := HalfOpen(remaining - 1)))
  }

  function AfterSuccess(cfg: Thresholds, s: TargetValue): TargetValue {
    var successes := SaturatingInc(s.consecutiveSuccesses);
    TargetValue(s.activeHealthy, s.passiveHealthy || successes >= cfg.passiveSuccesses, 0, successes, 0, Closed)
  }

  function AfterFailure(cfg: Thresholds, s: TargetValue, now: Instant): TargetValue {
    var failures, tripping := SaturatingInc(s.consecutiveFailures), SaturatingInc(s.breakerFailures);
    TargetValue(s.activeHealthy, s.passiveHealthy && failures < cfg.passiveFailures, failures, 0, tripping,
                if tripping >= cfg.breakerFailures then Open(now) else s.circuit)
  }

  // --- The registry: every operation touches one key and enters it if it is missing ---

  function Asked(cfg: Thresholds, targets: Targets, key: string, now: Instant): Targets {
    targets[key := Ask(cfg, Lookup(targets, key), now).next]
  }

  function Succeeded(cfg: Thresholds, targets: Targets, key: string): Targets {
    targets[key := AfterSuccess(cfg, Lookup(targets, key))]
  }

  function Failed(cfg: Thresholds, targets: Targets, key: string, now: Instant): Targets {
    targets[key := AfterFailure(cfg, Lookup(targets, key), now)]
  }

  function Checked(targets: Targets, key: string, healthy: bool): Targets {
    targets[key := Lookup(targets, key).(activeHealthy := healthy)]
  }

  /** One call on the registry, by whomever. */
  datatype Operation =
    | IsAvailable(key: string, now: Instant)
    | SetActiveHealth(key: string, healthy: bool)
    | RecordSuccess(key: string)
    | RecordFailure(key: string, now: Instant)

  function PerformedOne(cfg: Thresholds, targets: Targets, operation: Operation): Targets {
    match operation
    case IsAvailable(key, now) => Asked(cfg, targets, key, now)
    case SetActiveHealth(key, healthy) => Checked(targets, key, healthy)
    case RecordSuccess(key) => Succeeded(cfg, targets, key)
    case RecordFailure(key, now) => Failed(cfg, targets, key, now)
  }

  function Performed(cfg: Thresholds, targets: Targets, operations: seq<Operation>): Targets {
    if operations == [] then targets
    else
      PerformedOne(cfg, Performed(cfg, targets, operations[..|operations| - 1]), operations[|operations| - 1])
  }

  class TargetRuntime {
    var activeHealthy: bool
    var passiveHealthy: bool
    var consecutiveFailures: u32
    var consecutiveSuccesses: u32
    var breakerFailures: u32
    var circuitState: Circuit

    ghost function View(): TargetValue
      reads this
    {
      TargetValue(activeHealthy, passiveHealthy, consecutiveFailures, consecutiveSuccesses, breakerFailures, circuitState)
    }

    constructor ()
      ensures View() == HEALTHY
    {
      activeHealthy, passiveHealthy := true, true;
      consecutiveFailures, consecutiveSuccesses, breakerFailures := 0, 0, 0;
      circuitState := Closed;
    }

    /** Lines 59-83. */
    method Available(cfg: Thresholds, now: Instant) returns (available: bool)
      modifies this
      ensures Answer(available, View()) == Ask(cfg, old(View()), now)
    {
      if !activeHealthy {
        return false;
      }
      match circuitState {
        case Closed =>
          available := passiveHealthy;
        case Open(openedAt) =>
          available := Elapsed(now, openedAt) >= Millis(cfg.openMs);
          if available {
            circuitState := HalfOpen(cfg.halfOpenMax);
          }
        case HalfOpen(remaining) =>
          available := remaining != 0;
          if available {
            circuitState := HalfOpen(remaining - 1);
          }
      }
    }

    /** Line 89. */
    method SetActive(healthy: bool)
      modifies this
      ensures View() == old(View()).(activeHealthy := healthy)
    {
      activeHealthy := healthy;
    }

    /** Lines 95-103. */
    method Succeed(cfg: Thresholds)
      modifies this
      ensures View() == AfterSuccess(cfg, old(View()))
    {
      consecutiveSuccesses := SaturatingInc(consecutiveSuccesses);
      consecutiveFailures := 0;
      breakerFailures := 0;
      if consecutiveSuccesses >= cfg.passiveSuccesses {
        passiveHealthy := true;
      }
      circuitState := Closed;
    }

    /** Lines 109-121. */
    method Fail(cfg: Thresholds, now: Instant)
      modifies this
      ensures View() == AfterFailure(cfg, old(View()), now)
    {
      consecutiveFailures := SaturatingInc(consecutiveFailures);
      consecutiveSuccesses := 0;
      if consecutiveFailures >= cfg.passiveFailures {
        passiveHealthy := false;
      }
      breakerFailures := SaturatingInc(breakerFailures);
      if breakerFailures >= cfg.breakerFailures {
        circuitState := Open(now);
      }
    }
  }

  class RuntimeRegistry {
    const cfg: Thresholds
    var targets: map<string, TargetRuntime>

    /** No two keys share a `TargetRuntime`. */
    ghost predicate Valid()
      reads this
    {
      forall j, k | j in targets && k in targets && j != k :: targets[j] != targets[k]
    }

    ghost function View(): Targets
      reads this, targets.Values
    {
      map k | k in targets :: targets[k].View()
    }

    /** Only the target of `key` has changed. */
    twostate lemma OnlyKeyChanged(key: string)
      requires old(Valid()) && targets == old(targets) && key in targets
      requires forall k | k in targets && k != key :: unchanged(targets[k])
      ensures View() == old(View())[key := targets[key].View()]
    {
      assert forall k | k in targets && k != key :: targets[k].View() == old(targets[k].View());
    }

    constructor (cfg: Thresholds)
      ensures Valid() && this.cfg == cfg && View() == map[]
    {
      this.cfg := cfg;
      targets := map[];
    }

    /** `entry(key).or_default()` */
    method Entry(key: string) returns (state: TargetRuntime)
      requires Valid()
      modifies this`targets
      ensures Valid() && key in targets && targets[key] == state
      ensures state.View() == Lookup(old(View()), key)
      ensures View() == old(View())[key := state.View()]
      ensures forall t | t in targets.Values :: t in old(targets.Values) || fresh(t)
    {
      if key !in targets {
        state := new TargetRuntime();
        targets := targets[key := state];
      }
      state := targets[key];
    }

    /** Lines 55-84. */
    method IsAvailable(key: string, now: Instant) returns (available: bool)
      requires Valid()
      modifies this`targets, targets.Values
      ensures Valid() && View() == Asked(cfg, old(View()), key, now)
      ensures available == Ask(cfg, Lookup(old(View()), key), now).available
      ensures var s := Lookup(old(View()), key);
              && (!s.activeHealthy ==> !available)
              && (s.activeHealthy && s.circuit.Open? && now >= s.circuit.openedAt ==>
                    (available <==> 1000.0 * (now - s.circuit.openedAt) >= cfg.openMs as real))
      ensures forall t | t in targets.Values :: t in old(targets.Values) || fresh(t)
    {
      var state := Entry(key);
      label entered:
      available := state.Available(cfg, now);
      OnlyKeyChanged@entered(key);
    }

    method SetActiveHealth(key: string, healthy: bool)
      requires Valid()
      modifies this`targets, targets.Values
      ensures Valid() && View() == Checked(old(View()), key, healthy)
      ensures forall t | t in targets.Values :: t in old(targets.Values) || fresh(t)
    {
      var state := Entry(key);
      label entered:
      state.SetActive(healthy);
      OnlyKeyChanged@entered(key);
    }

    method RecordSuccess(key: string)
      requires Valid()
      modifies this`targets, targets.Values
      ensures Valid() && View() == Succeeded(cfg, old(View()), key)
      ensures forall t | t in targets.Values :: t in old(targets.Values) || fresh(t)
    {
      var state := Entry(key);
      label entered:
      state.Succeed(cfg);
      OnlyKeyChanged@entered(key);
    }

    method RecordFailure(key: string, now: Instant)
      requires Valid()
      modifies this`targets, targets.Values
      ensures Valid() && View() == Failed(cfg, old(View()), key, now)
      ensures forall t | t in targets.Values :: t in old(targets.Values) || fresh(t)
    {
      var state := Entry(key);
      label entered:
      state.Fail(cfg, now);
      OnlyKeyChanged@entered(key);
    }

    method PerformOne(operation: Operation)
      requires Valid()
      modifies this`targets, targets.Values
      ensures Valid() && View() == PerformedOne(cfg, old(View()), operation)
      ensures forall t | t in targets.Values :: t in old(targets.Values) || fresh(t)
    {
      match operation {
        case IsAvailable(key, now) => var _ := IsAvailable(key, now);
        case SetActiveHealth(key, healthy) => SetActiveHealth(key, healthy);
        case RecordSuccess(key) => RecordSuccess(key);
        case RecordFailure(key, now) => RecordFailure(key, now);
      }
    }

    /** What others do while a handler does not hold the lock. */
    method Perform(operations: seq<Operation>)
      requires Valid()
      modifies this`targets, targets.Values
      ensures Valid() && View() == Performed(cfg, old(View()), operations)
      ensures forall t | t in targets.Values :: t in old(targets.Values) || fresh(t)
    {
      for i := 0 to |operations|
        invariant Valid() && View() == Performed(cfg, old(View()), operations[..i])
        invariant forall t | t in targets.Values :: t in old(targets.Values) || fresh(t)
      {
        PerformOne(operations[i]);
        assert operations[..i + 1][..i] == operations[..i];
      }
      assert operations[..|operations|] == operations;
    }
  }
}
