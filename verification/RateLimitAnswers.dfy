/**
 What the limiter answers, told from the fields of its configuration and the accepted requests of each caller
 alone: which limit, which window and which refill apply is written out here, not looked up in the model.
 */
module RateLimitAnswers {
  import opened Wrappers
  import opened Clock
  import opened History
  import opened RateLimit
  import opened RateLimitPolicies
  import opened RateLimitRuns
  import opened RateLimitBounds
  import opened RateLimitLegacy

  /** The times of those requests that come from the same caller, as far as `scope` can tell. */
  ghost function TimesOf(requests: seq<Request>, scope: Scope, ctx: Context): seq<Instant> {
    if requests == [] then []
    else
      var n := |requests| - 1;
      TimesOf(requests[..n], scope, ctx) + if SameCaller(scope, requests[n].ctx, ctx) then [requests[n].now] else []
  }

  /** The accepts of the caller of `q`. */
  ghost function CallerHistory(cfg: Config, trace: seq<Request>, scope: Scope, q: Request): seq<Instant> {
    TimesOf(Accepted(cfg, trace), scope, q.ctx)
  }

  /** `limit` per window of `seconds`, as a bucket that refills evenly or as a fixed or sliding window. */
  ghost predicate Allows(policy: Policy, limit: nat, seconds: nat, h: seq<Instant>, now: Instant) {
    match policy
    case TokenBucket => BucketDecides(limit as real, limit as real / AtLeastOneSecond(seconds), h, now)
    case FixedWindow => FixedDecides(limit, AtLeastOneSecond(seconds), h, now)
    case SlidingWindow => SlidingDecides(limit, AtLeastOneSecond(seconds), h, now)
  }

  /** What a configuration without scoped limits asks of the client's accepts. */
  ghost predicate UnscopedPermits(cfg: Config, h: seq<Instant>, now: Instant) {
    match cfg.policy
    case TokenBucket => BucketDecides(cfg.capacity as real, cfg.refillPerSecond as real, h, now)
    case FixedWindow => Allows(FixedWindow, cfg.capacity, cfg.fixedWindow, h, now)
    case SlidingWindow => Allows(SlidingWindow, cfg.capacity, cfg.slidingWindow, h, now)
  }

  /** What one scoped limit asks; the default policy applies where the limit names none. */
  ghost predicate ScopedPermits(cfg: Config, rule: Rule, h: seq<Instant>, now: Instant) {
    && (rule.quota.Some? ==> |h| < rule.quota.value)
    && Allows(if rule.policy.Some? then rule.policy.value else cfg.policy, rule.limit, rule.window, h, now)
  }

  ghost predicate Permits(cfg: Config, trace: seq<Request>, q: Request) {
    if !cfg.enabled then true
    else if cfg.scopedLimits == [] then UnscopedPermits(cfg, CallerHistory(cfg, trace, Client, q), q.now)
    else forall rule | rule in cfg.scopedLimits :: ScopedPermits(cfg, rule, CallerHistory(cfg, trace, rule.scope, q), q.now)
  }

  lemma {:induction false} SameTimes(requests: seq<Request>, scope: Scope, ctx: Context)
    ensures TimesOf(requests, scope, ctx) == Times(requests, scope, ScopeValue(scope, ctx))
  {
    if requests != [] {
      SameTimes(requests[..|requests| - 1], scope, ctx);
    }
  }

  /** The accepts of a caller are those of the caller's key. */
  lemma {:induction false} SameHistory(cfg: Config, trace: seq<Request>, scope: Scope, q: Request)
    ensures CallerHistory(cfg, trace, scope, q) == KeyHistory(cfg, trace, scope, ScopeValue(scope, q.ctx))
  {
    SameTimes(Accepted(cfg, trace), scope, q.ctx);
  }

  /** Without scoped limits the client is held to `capacity` by the default policy and its window or refill. */
  lemma {:induction false} UnscopedAnswers(cfg: Config, trace: seq<Request>, q: Request)
    requires cfg.enabled && cfg.scopedLimits == [] && Nondecreasing(trace + [q])
    ensures Check(cfg, Run(cfg, trace), q.ctx, q.now).ok <==> UnscopedPermits(cfg, CallerHistory(cfg, trace, Client, q), q.now)
  {
    SameHistory(cfg, trace, Client, q);
    if cfg.policy == TokenBucket {
      LegacyRefinesHistory(cfg, trace, q);
    } else {
      DistinctScopesKeepState(cfg);
      LimiterRefinesHistory(cfg, trace, q);
      assert EffectiveRules(cfg)[0] in EffectiveRules(cfg);
    }
  }

  lemma {:induction false} ScopedAnswers(cfg: Config, trace: seq<Request>, q: Request)
    requires cfg.enabled && cfg.scopedLimits != [] && AllSeeState(cfg) && Nondecreasing(trace + [q])
    ensures Check(cfg, Run(cfg, trace), q.ctx, q.now).ok
       <==> forall rule | rule in cfg.scopedLimits ::
              ScopedPermits(cfg, rule, CallerHistory(cfg, trace, rule.scope, q), q.now)
  {
    LimiterRefinesHistory(cfg, trace, q);
    forall rule | rule in cfg.scopedLimits
      ensures ScopedPermits(cfg, rule, CallerHistory(cfg, trace, rule.scope, q), q.now)
         <==> HistoryAdmits(cfg, rule, KeyHistory(cfg, trace, rule.scope, ScopeValue(rule.scope, q.ctx)), q.now)
    {
      SameHistory(cfg, trace, rule.scope, q);
    }
  }

  /**
   Every answer of every run, from the configuration as it is written and the accepted requests of the same caller.
   Pairwise distinct scopes are enough for the one thing asked of scoped limits.
   */
  lemma {:induction false} AnswersFollowConfiguration(cfg: Config, trace: seq<Request>, q: Request)
    requires Nondecreasing(trace + [q])
    requires cfg.enabled && cfg.scopedLimits != [] ==> AllSeeState(cfg) || DistinctScopes(cfg.scopedLimits)
    ensures Check(cfg, Run(cfg, trace), q.ctx, q.now).ok <==> Permits(cfg, trace, q)
  {
    if cfg.enabled {
      if cfg.scopedLimits == [] {
        UnscopedAnswers(cfg, trace, q);
      } else {
        if DistinctScopes(cfg.scopedLimits) {
          DistinctScopesKeepState(cfg);
        }
        ScopedAnswers(cfg, trace, q);
      }
    }
  }

  // --- What changes nothing ---

  /** A disabled limiter passes every request of every run and keeps nothing. */
  lemma {:induction false} DisabledPasses(cfg: Config, trace: seq<Request>)
    requires !cfg.enabled
    ensures Accepted(cfg, trace) == trace && Run(cfg, trace) == map[]
  {
    if trace != [] {
      var n := |trace| - 1;
      DisabledPasses(cfg, trace[..n]);
      assert trace[..n] + [trace[n]] == trace;
    }
  }

  /** The default policy written into a limit that names none. */
  function Filled(cfg: Config, rule: Rule): Rule {
    if rule.policy.None? then rule.(policy := Some(cfg.policy)) else rule
  }

  function AllFilled(cfg: Config, rules: seq<Rule>): seq<Rule> {
    seq(|rules|, i requires 0 <= i < |rules| => Filled(cfg, rules[i]))
  }

  lemma {:induction false} FilledVerdict(cfg: Config, other: Config, states: States, rule: Rule, q: Request)
    requires other.policy == cfg.policy
    ensures RuleVerdict(other, states, Filled(cfg, rule), q.ctx, q.now) == RuleVerdict(cfg, states, rule, q.ctx, q.now)
    ensures KeyFor(Filled(cfg, rule), q.ctx) == KeyFor(rule, q.ctx)
  {
    assert PolicyOf(other, Filled(cfg, rule)) == PolicyOf(cfg, rule);
    assert WindowSeconds(Filled(cfg, rule)) == WindowSeconds(rule);
    assert RefillRate(Filled(cfg, rule)) == RefillRate(rule);
  }

  lemma {:induction false} FilledCommits(cfg: Config, other: Config, states: States, rules: seq<Rule>, q: Request)
    requires other.policy == cfg.policy
    ensures Commit(other, states, AllFilled(cfg, rules), q.ctx, q.now) == Commit(cfg, states, rules, q.ctx, q.now)
  {
    if rules != [] {
      var n := |rules| - 1;
      var filled := AllFilled(cfg, rules);
      FilledCommits(cfg, other, states, rules[..n], q);
      FilledVerdict(cfg, other, states, rules[n], q);
      assert filled[..n] == AllFilled(cfg, rules[..n]) && filled[n] == Filled(cfg, rules[n]);
      LastCommitted(cfg, states, rules, q);
      LastCommitted(other, states, filled, q);
    }
  }

  lemma {:induction false} LastCommitted(cfg: Config, states: States, rules: seq<Rule>, q: Request)
    requires rules != []
    ensures var n, last := |rules| - 1, rules[|rules| - 1];
            Commit(cfg, states, rules, q.ctx, q.now)
            == Commit(cfg, states, rules[..n], q.ctx, q.now)
                 [KeyFor(last, q.ctx) := RuleVerdict(cfg, states, last, q.ctx, q.now).next]
  {
  }

  lemma {:induction false} FilledAdmits(cfg: Config, other: Config, states: States, rules: seq<Rule>, q: Request)
    requires other.policy == cfg.policy
    ensures AllAdmit(other, states, AllFilled(cfg, rules), q.ctx, q.now) <==> AllAdmit(cfg, states, rules, q.ctx, q.now)
  {
    forall i | 0 <= i < |rules|
      ensures RuleVerdict(other, states, AllFilled(cfg, rules)[i], q.ctx, q.now)
           == RuleVerdict(cfg, states, rules[i], q.ctx, q.now)
    {
      FilledVerdict(cfg, other, states, rules[i], q);
    }
  }

  /** Writing the default policy into the limits changes no answer and no stored content. */
  lemma {:induction false} DefaultPolicyIsImplied(cfg: Config, states: States, q: Request)
    ensures var filled := cfg.(scopedLimits := AllFilled(cfg, cfg.scopedLimits));
            Check(filled, states, q.ctx, q.now) == Check(cfg, states, q.ctx, q.now)
  {
    if cfg.scopedLimits != [] {
      var filled := cfg.(scopedLimits := AllFilled(cfg, cfg.scopedLimits));
      FilledCommits(cfg, filled, states, cfg.scopedLimits, q);
      FilledAdmits(cfg, filled, states, cfg.scopedLimits, q);
    }
  }
}
