/**
 The rate limiter of gateway-core-rust/src/rate_limit.rs.

 A `LimitValue` is the content of one `LimitState`. The functions say what one call computes
 on such contents, the classes carry out the same steps in place and are proved against them.
 Token amounts are exact reals; every clock reading is an argument.
 */
module RateLimit {
  import opened Wrappers
  import opened Clock

  datatype Policy = TokenBucket | FixedWindow | SlidingWindow

  datatype Scope = Route | Service | Consumer | Client

  datatype Rule = Rule(scope: Scope, limit: nat, quota: Option<nat>, window: nat, policy: Option<Policy>)

  datatype Config = Config(
    enabled: bool,
    policy: Policy,
    capacity: nat,
    refillPerSecond: nat,
    fixedWindow: nat,
    slidingWindow: nat,
    scopedLimits: seq<Rule>)

  datatype Context = Context(route: string, service: string, consumer: Option<string>, client: string)

  datatype LimitValue = LimitValue(
    tokens: real,
    lastRefill: Option<Instant>,
    windowStart: Option<Instant>,
    windowCount: nat,
    hits: seq<Instant>,
    acceptedTotal: nat)

  const FRESH := LimitValue(0.0, None, None, 0, [], 0)

  /** What a policy answers, and the content it leaves behind. */
  datatype Verdict = Verdict(ok: bool, next: LimitValue)

  type States = map<string, LimitValue>

  // --- Keys and rules ---

  function ScopeName(scope: Scope): string {
    match scope
    case Route => "route"
    case Service => "service"
    case Consumer => "consumer"
    case Client => "client"
  }

  function ScopeKey(scope: Scope, value: string): string {
    ScopeName(scope) + ":" + value
  }

  function ScopeValue(scope: Scope, ctx: Context): string {
    match scope
    case Route => ctx.route
    case Service => ctx.service
    case Consumer => (match ctx.consumer case Some(c) => c case None => "anonymous")
    case Client => ctx.client
  }

  function KeyFor(rule: Rule, ctx: Context): string {
    ScopeKey(rule.scope, ScopeValue(rule.scope, ctx))
  }

  function EffectiveRules(cfg: Config): seq<Rule> {
    if cfg.scopedLimits == [] then
      [Rule(Client, cfg.capacity, None,
            match cfg.policy
            case TokenBucket => 1
            case FixedWindow => cfg.fixedWindow
            case SlidingWindow => cfg.slidingWindow,
            Some(cfg.policy))]
    else
      cfg.scopedLimits
  }

  function PolicyOf(cfg: Config, rule: Rule): Policy {
    match rule.policy
    case Some(p) => p
    case None => cfg.policy
  }

  /** The configuration takes the token bucket that bypasses staging. */
  predicate UsesLegacyBucket(cfg: Config) {
    cfg.scopedLimits == [] && cfg.policy == TokenBucket
  }

  /** A window of zero seconds counts as one second. */
  function WindowSeconds(rule: Rule): (w: real)
    ensures w >= 1.0
  {
    (if rule.window < 1 then 1 else rule.window) as real
  }

  function RefillRate(rule: Rule): (r: real)
    ensures r >= 0.0
  {
    rule.limit as real / WindowSeconds(rule)
  }

  // --- The three policies ---

  function Min(a: real, b: real): real {
    if a <= b then a else b
  }

  /** The tokens a bucket holds at `now`, before anything is taken out. */
  function Level(cap: real, rate: real, s: LimitValue, now: Instant): real {
    match s.lastRefill
    case None => cap
    case Some(last) => Min(s.tokens + Elapsed(now, last) * rate, cap)
  }

  function BucketStep(cap: real, rate: real, s: LimitValue, now: Instant): Verdict {
    var level := Level(cap, rate, s, now);
    if level >= 1.0 then
      Verdict(true, s.(tokens := level - 1.0, lastRefill := Some(now)))
    else
      Verdict(false, s.(tokens := level, lastRefill := Some(now)))
  }

  function FixedStep(limit: nat, window: real, s: LimitValue, now: Instant): Verdict {
    var start := match s.windowStart case Some(t) => t case None => now;
    var current :=
      if Elapsed(now, start) >= window then s.(windowStart := Some(now), windowCount := 0)
      else s.(windowStart := Some(start));
    if current.windowCount < limit then
      Verdict(true, current.(windowCount := current.windowCount + 1))
    else
      Verdict(false, current)
  }

  /** The hits left after expired ones are popped off the front. */
  function DropExpired(hits: seq<Instant>, window: real, now: Instant): seq<Instant> {
    if hits != [] && Elapsed(now, hits[0]) >= window then DropExpired(hits[1..], window, now) else hits
  }

  function SlidingStep(limit: nat, window: real, s: LimitValue, now: Instant): Verdict {
    var live := DropExpired(s.hits, window, now);
    if |live| < limit then Verdict(true, s.(hits := live + [now])) else Verdict(false, s.(hits := live))
  }

  function PolicyStep(policy: Policy, rule: Rule, s: LimitValue, now: Instant): Verdict {
    match policy
    case TokenBucket => BucketStep(rule.limit as real, RefillRate(rule), s, now)
    case FixedWindow => FixedStep(rule.limit, WindowSeconds(rule), s, now)
    case SlidingWindow => SlidingStep(rule.limit, WindowSeconds(rule), s, now)
  }

  // --- One request ---

  function Lookup(states: States, key: string): LimitValue {
    if key in states then states[key] else FRESH
  }

  /** One rule judged against the committed states; earlier rules of the request have no influence. */
  function RuleVerdict(cfg: Config, states: States, rule: Rule, ctx: Context, now: Instant): Verdict {
    var s := Lookup(states, KeyFor(rule, ctx));
    if rule.quota.Some? && s.acceptedTotal >= rule.quota.value then
      Verdict(false, s)
    else
      var v := PolicyStep(PolicyOf(cfg, rule), rule, s, now);
      if v.ok then Verdict(true, v.next.(acceptedTotal := v.next.acceptedTotal + 1)) else v
  }

  /** The staged contents of `rules`, inserted in rule order. */
  function Commit(cfg: Config, states: States, rules: seq<Rule>, ctx: Context, now: Instant): States {
    if rules == [] then states
    else
      var last := rules[|rules| - 1];
      Commit(cfg, states, rules[..|rules| - 1], ctx, now)
        [KeyFor(last, ctx) := RuleVerdict(cfg, states, last, ctx, now).next]
  }

  predicate AllAdmit(cfg: Config, states: States, rules: seq<Rule>, ctx: Context, now: Instant) {
    forall i | 0 <= i < |rules| :: RuleVerdict(cfg, states, rules[i], ctx, now).ok
  }

  datatype Outcome = Outcome(ok: bool, states: States)

  function Check(cfg: Config, states: States, ctx: Context, now: Instant): Outcome {
    if !cfg.enabled then
      Outcome(true, states)
    else if UsesLegacyBucket(cfg) then
      var key := ScopeKey(Client, ctx.client);
      var v := BucketStep(cfg.capacity as real, cfg.refillPerSecond as real, Lookup(states, key), now);
      Outcome(v.ok, states[key := v.next])
    else if AllAdmit(cfg, states, EffectiveRules(cfg), ctx, now) then
      Outcome(true, Commit(cfg, states, EffectiveRules(cfg), ctx, now))
    else
      Outcome(false, states)
  }

  // --- The same steps in place ---

  class LimitState {
    var tokens: real
    var lastRefill: Option<Instant>
    var windowStart: Option<Instant>
    var windowCount: nat
    var hits: seq<Instant>
    var acceptedTotal: nat

    ghost function View(): LimitValue
      reads this
    {
      LimitValue(tokens, lastRefill, windowStart, windowCount, hits, acceptedTotal)
    }

    constructor ()
      ensures View() == FRESH
    {
      tokens, lastRefill, windowStart, windowCount, hits, acceptedTotal := 0.0, None, None, 0, [], 0;
    }

    constructor Clone(other: LimitState)
      ensures View() == other.View()
    {
      tokens, lastRefill := other.tokens, other.lastRefill;
      windowStart, windowCount := other.windowStart, other.windowCount;
      hits, acceptedTotal := other.hits, other.acceptedTotal;
    }
  }

  class RateLimiter {
    const config: Config
    var states: map<string, LimitState>

    /** No two keys share a `LimitState`. */
    ghost predicate Valid()
      reads this
    {
      forall j, k | j in states && k in states && j != k :: states[j] != states[k]
    }

    ghost function View(): States
      reads this, states.Values
    {
      map k | k in states :: states[k].View()
    }

    constructor (config: Config)
      ensures Valid() && this.config == config && View() == map[]
    {
      this.config := config;
      states := map[];
    }

    /** The bucket itself, written out twice in the source: lines 181-198 and 256-272. */
    method TakeToken(capacity: real, refillPerSecond: real, state: LimitState, now: Instant) returns (ok: bool)
      modifies state
      ensures Verdict(ok, state.View()) == BucketStep(capacity, refillPerSecond, old(state.View()), now)
    {
      if state.lastRefill.None? {
        state.tokens := capacity;
        state.lastRefill := Some(now);
      }
      var elapsed := Elapsed(now, state.lastRefill.value);
      state.tokens := Min(state.tokens + elapsed * refillPerSecond, capacity);
      state.lastRefill := Some(now);
      ok := state.tokens >= 1.0;
      if ok {
        state.tokens := state.tokens - 1.0;
      }
    }

    /** Lines 180-199: the bucket of configurations without scoped limits. */
    method ApplyLegacyTokenBucket(state: LimitState, now: Instant) returns (ok: bool)
      modifies state
      ensures Verdict(ok, state.View())
           == BucketStep(config.capacity as real, config.refillPerSecond as real, old(state.View()), now)
    {
      ok := TakeToken(config.capacity as real, config.refillPerSecond as real, state, now);
    }

    /** Lines 252-309, one method per arm of the match. */
    method ApplyPolicy(policy: Policy, rule: Rule, state: LimitState, now: Instant) returns (ok: bool)
      modifies state
      ensures Verdict(ok, state.View()) == PolicyStep(policy, rule, old(state.View()), now)
    {
      match policy {
        case TokenBucket => ok := ApplyTokenBucket(rule, state, now);
        case FixedWindow => ok := ApplyFixedWindow(rule, state, now);
        case SlidingWindow => ok := ApplySlidingWindow(rule, state, now);
      }
    }

    method ApplyTokenBucket(rule: Rule, state: LimitState, now: Instant) returns (ok: bool)
      modifies state
      ensures Verdict(ok, state.View())
           == BucketStep(rule.limit as real, RefillRate(rule), old(state.View()), now)
    {
      ok := TakeToken(rule.limit as real, RefillRate(rule), state, now);
    }

    method ApplyFixedWindow(rule: Rule, state: LimitState, now: Instant) returns (ok: bool)
      modifies state
      ensures Verdict(ok, state.View()) == FixedStep(rule.limit, WindowSeconds(rule), old(state.View()), now)
    {
      var window := WindowSeconds(rule);
      var windowStart := match state.windowStart case Some(t) => t case None => now;
      if Elapsed(now, windowStart) >= window {
        state.windowStart := Some(now);
        state.windowCount := 0;
      } else {
        state.windowStart := Some(windowStart);
      }
      ok := state.windowCount < rule.limit;
      if ok {
        state.windowCount := state.windowCount + 1;
      }
    }

    method ApplySlidingWindow(rule: Rule, state: LimitState, now: Instant) returns (ok: bool)
      modifies state
      ensures Verdict(ok, state.View()) == SlidingStep(rule.limit, WindowSeconds(rule), old(state.View()), now)
    {
      var window := WindowSeconds(rule);
      while state.hits != [] && Elapsed(now, state.hits[0]) >= window
        invariant DropExpired(state.hits, window, now) == DropExpired(old(state.hits), window, now)
        invariant state.View() == old(state.View()).(hits := state.hits)
        decreases |state.hits|
      {
        state.hits := state.hits[1..];
      }
      ok := |state.hits| < rule.limit;
      if ok {
        state.hits := state.hits + [now];
      }
    }

    /** `entry` carries the key and the next content of `rule`, in an object of its own. */
    ghost predicate StagedRule(entry: (string, LimitState), before: States, rule: Rule, ctx: Context, now: Instant)
      reads this, entry.1
    {
      && entry.0 == KeyFor(rule, ctx)
      && entry.1 !in states.Values
      && Verdict(true, entry.1.View()) == RuleVerdict(config, before, rule, ctx, now)
    }

    /** Lines 153-170: one rule, worked out on a clone of the stored state. */
    method StageRule(rule: Rule, ctx: Context, now: Instant) returns (admitted: bool, entry: (string, LimitState))
      ensures fresh(entry.1)
      ensures admitted == RuleVerdict(config, View(), rule, ctx, now).ok
      ensures admitted ==> StagedRule(entry, View(), rule, ctx, now)
    {
      var stateKey := KeyFor(rule, ctx);
      var next;
      if stateKey in states {
        next := new LimitState.Clone(states[stateKey]);
      } else {
        next := new LimitState();
      }
      entry := (stateKey, next);
      assert next.View() == Lookup(View(), stateKey);
      if rule.quota.Some? && next.acceptedTotal >= rule.quota.value {
        return false, entry;
      }
      admitted := ApplyPolicy(PolicyOf(config, rule), rule, next, now);
      if admitted {
        next.acceptedTotal := next.acceptedTotal + 1;
      }
    }

    /** `staged` holds one new object for each of the first rules. */
    ghost predicate StagedRules(
      staged: seq<(string, LimitState)>, before: States, rules: seq<Rule>, ctx: Context, now: Instant)
      reads this, set j | 0 <= j < |staged| :: staged[j].1
    {
      && |staged| <= |rules|
      && (forall j, k | 0 <= j < k < |staged| :: staged[j].1 != staged[k].1)
      && (forall j | 0 <= j < |staged| :: StagedRule(staged[j], before, rules[j], ctx, now))
    }

    /** Lines 150-171: stage the rules in order and give up at the first that does not admit. */
    method StageAll(rules: seq<Rule>, ctx: Context, now: Instant)
      returns (ok: bool, staged: seq<(string, LimitState)>)
      ensures ok == AllAdmit(config, View(), rules, ctx, now)
      ensures ok ==> |staged| == |rules| && StagedRules(staged, View(), rules, ctx, now)
    {
      ghost var before := View();
      staged := [];
      while |staged| < |rules|
        invariant View() == before
        invariant StagedRules(staged, before, rules, ctx, now)
      {
        var admitted, entry := StageRule(rules[|staged|], ctx, now);
        if !admitted {
          return false, staged;
        }
        staged := staged + [entry];
      }
      forall j | 0 <= j < |rules|
        ensures RuleVerdict(config, before, rules[j], ctx, now).ok
      {
        assert StagedRule(staged[j], before, rules[j], ctx, now);
      }
      ok := true;
    }

    /** Lines 150-177: stage every rule on clones, then insert all of them or none. */
    method CheckStaged(ctx: Context, now: Instant) returns (ok: bool)
      requires Valid()
      modifies this`states
      ensures Valid()
      ensures ok == AllAdmit(config, old(View()), EffectiveRules(config), ctx, now)
      ensures View()
           == if ok then Commit(config, old(View()), EffectiveRules(config), ctx, now) else old(View())
    {
      var staged;
      ok, staged := StageAll(EffectiveRules(config), ctx, now);
      if ok {
        CommitStaged(staged, View(), EffectiveRules(config), ctx, now);
      }
    }

    method Insert(key: string, state: LimitState)
      requires Valid() && state !in states.Values
      modifies this`states
      ensures Valid() && View() == old(View())[key := state.View()]
      ensures states == old(states)[key := state] && states.Values <= old(states.Values) + {state}
    {
      states := states[key := state];
    }

    /** Lines 173-175. */
    method CommitStaged(
      staged: seq<(string, LimitState)>, ghost before: States, ghost rules: seq<Rule>, ghost ctx: Context, ghost now: Instant)
      requires Valid() && before == View()
      requires |staged| == |rules| && StagedRules(staged, before, rules, ctx, now)
      modifies this`states
      ensures Valid() && View() == Commit(config, before, rules, ctx, now)
    {
      for i := 0 to |staged|
        invariant Valid() && View() == Commit(config, before, rules[..i], ctx, now)
        invariant forall j | i <= j < |staged| :: staged[j].1 !in states.Values
      {
        assert old(StagedRule(staged[i], before, rules[i], ctx, now));
        assert rules[..i + 1][..i] == rules[..i];
        Insert(staged[i].0, staged[i].1);
      }
      assert rules[..|staged|] == rules;
    }

    /** Lines 130-178. */
    method CheckWithContext(ctx: Context, now: Instant) returns (ok: bool)
      requires Valid()
      modifies this`states, states.Values
      ensures Valid()
      ensures Outcome(ok, View()) == Check(config, old(View()), ctx, now)
    {
      if !config.enabled {
        return true;
      }
      if UsesLegacyBucket(config) {
        var key := ScopeKey(Client, ctx.client);
        if key !in states {
          var state := new LimitState();
          states := states[key := state];
        }
        ok := ApplyLegacyTokenBucket(states[key], now);
      } else {
        ok := CheckStaged(ctx, now);
      }
    }
  }
}
