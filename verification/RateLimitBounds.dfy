/** Bounds on the accepts of one key over whole runs, and how sharp they are. */
module RateLimitBounds {
  import opened Wrappers
  import opened Clock
  import opened History
  import opened RateLimit
  import opened RateLimitPolicies
  import opened RateLimitRuns

  // --- Interval bounds ---

  /** How many of the accepts `h` fall into the half-open interval of one window from `from` on. */
  ghost function InWindow(rule: Rule, h: seq<Instant>, from: Instant): nat {
    Count(h, HalfOpen(from, from + WindowSeconds(rule)))
  }

  /** A request that passes was allowed by every rule that sees its state. */
  lemma {:induction false} AdmittedDecides(cfg: Config, trace: seq<Request>, i: nat, rule: Rule, h: seq<Instant>)
    requires trace != [] && Staged(cfg) && Nondecreasing(trace) && SeesState(cfg, i) && rule == EffectiveRules(cfg)[i]
    ensures h == KeyHistory(cfg, trace[..|trace| - 1], rule.scope, ScopeValue(rule.scope, trace[|trace| - 1].ctx))
            && LastCheck(cfg, trace).ok
            ==> Decides(PolicyOf(cfg, rule), rule, h, trace[|trace| - 1].now) && NotAfter(h, trace[|trace| - 1].now)
  {
    var n := |trace| - 1;
    assert trace[..n] + [trace[n]] == trace;
    RuleRefinesHistory(cfg, trace[..n], trace[n], i);
    HistoryNotAfter(cfg, trace[..n], rule.scope, ScopeValue(rule.scope, trace[n].ctx), trace[n].now);
  }

  /** The accepts of a key are lawful for every rule that sees its state. */
  lemma {:induction false} RunIsLawful(cfg: Config, trace: seq<Request>, i: nat, rule: Rule, value: string)
    requires Staged(cfg) && Nondecreasing(trace) && SeesState(cfg, i) && rule == EffectiveRules(cfg)[i]
    ensures Lawful(PolicyOf(cfg, rule), rule, KeyHistory(cfg, trace, rule.scope, value))
  {
    if trace != [] {
      var n := |trace| - 1;
      var q, h := trace[n], KeyHistory(cfg, trace[..n], rule.scope, value);
      RunIsLawful(cfg, trace[..n], i, rule, value);
      HistoryStep(cfg, trace, rule.scope, value);
      if LastCheck(cfg, trace).ok && ScopeValue(rule.scope, q.ctx) == value {
        AdmittedDecides(cfg, trace, i, rule, h);
        LawfulExtends(PolicyOf(cfg, rule), rule, h, q.now);
      } else {
        assert KeyHistory(cfg, trace, rule.scope, value) == h;
      }
    }
  }

  lemma {:induction false} HistoryIsLawful(cfg: Config, trace: seq<Request>, i: nat, value: string, policy: Policy) returns (h: seq<Instant>)
    requires Staged(cfg) && Nondecreasing(trace) && SeesState(cfg, i)
    requires PolicyOf(cfg, EffectiveRules(cfg)[i]) == policy
    ensures h == KeyHistory(cfg, trace, EffectiveRules(cfg)[i].scope, value)
    ensures Lawful(policy, EffectiveRules(cfg)[i], h)
  {
    h := KeyHistory(cfg, trace, EffectiveRules(cfg)[i].scope, value);
    RunIsLawful(cfg, trace, i, EffectiveRules(cfg)[i], value);
  }

  lemma {:induction false} LawfulSliding(rule: Rule, h: seq<Instant>, from: Instant)
    requires Lawful(SlidingWindow, rule, h)
    ensures InWindow(rule, h, from) <= rule.limit
  {
    forall m, n | 0 <= m <= n < |h| && h[n] - h[m] < WindowSeconds(rule)
      ensures n - m + 1 <= rule.limit
    {
      SlidingStretch(rule, h, m, n);
    }
    IntervalBound(h, WindowSeconds(rule), rule.limit, from);
  }

  /** Sliding window: every half-open interval of one window holds at most `limit` accepts. */
  lemma {:induction false} SlidingBound(cfg: Config, trace: seq<Request>, i: nat, value: string, from: Instant)
    requires Staged(cfg) && Nondecreasing(trace)
    requires SeesState(cfg, i)
    requires PolicyOf(cfg, EffectiveRules(cfg)[i]) == SlidingWindow
    ensures var rule := EffectiveRules(cfg)[i];
            InWindow(rule, KeyHistory(cfg, trace, rule.scope, value), from) <= rule.limit
  {
    var rule := EffectiveRules(cfg)[i];
    var h := HistoryIsLawful(cfg, trace, i, value, SlidingWindow);
    LawfulSliding(rule, h, from);
  }

  /** What one window length of fixed windows can hold. */
  function FixedCeiling(limit: nat): nat {
    if limit == 0 then 0 else 2 * limit - 1
  }

  lemma {:induction false} LawfulFixed(rule: Rule, h: seq<Instant>, from: Instant)
    requires Lawful(FixedWindow, rule, h)
    ensures InWindow(rule, h, from) <= FixedCeiling(rule.limit)
  {
    forall m, n | 0 <= m <= n < |h| && h[n] - h[m] < WindowSeconds(rule)
      ensures n - m + 1 <= FixedCeiling(rule.limit)
    {
      FixedStretch(rule, h, m, n);
    }
    IntervalBound(h, WindowSeconds(rule), FixedCeiling(rule.limit), from);
  }

  /** Fixed window: every half-open interval of one window holds at most `2 * limit - 1` accepts. */
  lemma {:induction false} FixedBound(cfg: Config, trace: seq<Request>, i: nat, value: string, from: Instant)
    requires Staged(cfg) && Nondecreasing(trace)
    requires KeepsState(cfg, i)
    requires PolicyOf(cfg, EffectiveRules(cfg)[i]) == FixedWindow
    ensures var rule := EffectiveRules(cfg)[i];
            InWindow(rule, KeyHistory(cfg, trace, rule.scope, value), from) <= FixedCeiling(rule.limit)
  {
    var rule := EffectiveRules(cfg)[i];
    var h := HistoryIsLawful(cfg, trace, i, value, FixedWindow);
    LawfulFixed(rule, h, from);
  }

  /** The window of a policy that works with windows; zero seconds count as one. */
  function AtLeastOneSecond(seconds: nat): real {
    (if seconds < 1 then 1 else seconds) as real
  }

  /** Without scoped rules the default policy limits each client to `capacity` by the window of that policy. */
  lemma {:induction false} UnscopedBound(cfg: Config, trace: seq<Request>, client: string, from: Instant)
    requires Staged(cfg) && cfg.scopedLimits == [] && Nondecreasing(trace)
    ensures cfg.policy == SlidingWindow ==>
              Count(KeyHistory(cfg, trace, Client, client), HalfOpen(from, from + AtLeastOneSecond(cfg.slidingWindow)))
              <= cfg.capacity
    ensures cfg.policy == FixedWindow ==>
              Count(KeyHistory(cfg, trace, Client, client), HalfOpen(from, from + AtLeastOneSecond(cfg.fixedWindow)))
              <= FixedCeiling(cfg.capacity)
  {
    DistinctScopesKeepState(cfg);
    if cfg.policy == SlidingWindow {
      SlidingBound(cfg, trace, 0, client, from);
    } else {
      FixedBound(cfg, trace, 0, client, from);
    }
  }

  /** Token bucket: every closed interval holds at most `limit` accepts plus the refill of its length. */
  lemma {:induction false} TokenBound(cfg: Config, trace: seq<Request>, i: nat, value: string, from: Instant, span: real)
    requires Staged(cfg) && Nondecreasing(trace) && span >= 0.0
    requires KeepsState(cfg, i)
    requires PolicyOf(cfg, EffectiveRules(cfg)[i]) == TokenBucket
    ensures var rule := EffectiveRules(cfg)[i];
            Count(KeyHistory(cfg, trace, rule.scope, value), Closed(from, from + span)) as real
            <= TokenBudget(rule, span)
  {
    var rule := EffectiveRules(cfg)[i];
    var h := HistoryIsLawful(cfg, trace, i, value, TokenBucket);
    TokenStretch(rule, h, from, span);
  }

  lemma {:induction false} ReplayTokens(rule: Rule, h: seq<Instant>)
    requires Lawful(TokenBucket, rule, h)
    ensures 0.0 <= Replay(TokenBucket, rule, h).tokens <= rule.limit as real
  {
    if h != [] {
      var n := |h| - 1;
      assert AllowedAt(TokenBucket, rule, h, n);
      LawfulPrefix(TokenBucket, rule, h, n);
      ReplayDecides(TokenBucket, rule, h[..n], h[n]);
    }
  }

  /** Stored tokens stay between zero and the limit. */
  lemma {:induction false} TokensInRange(cfg: Config, trace: seq<Request>, i: nat, value: string)
    requires Staged(cfg) && Nondecreasing(trace)
    requires KeepsState(cfg, i)
    requires PolicyOf(cfg, EffectiveRules(cfg)[i]) == TokenBucket
    ensures var rule := EffectiveRules(cfg)[i];
            0.0 <= Lookup(Run(cfg, trace), ScopeKey(rule.scope, value)).tokens <= rule.limit as real
  {
    var rule := EffectiveRules(cfg)[i];
    RunReplays(cfg, trace, i, value);
    ReplayTokens(rule, KeyHistory(cfg, trace, rule.scope, value));
  }

  // --- Quotas ---

  lemma {:induction false} VerdictCounts(cfg: Config, states: States, rule: Rule, q: Request)
    requires RuleVerdict(cfg, states, rule, q.ctx, q.now).ok
    ensures RuleVerdict(cfg, states, rule, q.ctx, q.now).next.acceptedTotal
         == Lookup(states, KeyFor(rule, q.ctx)).acceptedTotal + 1
  {
  }

  /** The stored total is the number of accepted requests that touched the key, whatever the clock does and however many rules share the key. */
  lemma {:induction false} TotalCountsAccepts(cfg: Config, trace: seq<Request>, i: nat, value: string)
    requires Staged(cfg) && i < |EffectiveRules(cfg)|
    ensures var scope := EffectiveRules(cfg)[i].scope;
            Lookup(Run(cfg, trace), ScopeKey(scope, value)).acceptedTotal == |KeyHistory(cfg, trace, scope, value)|
  {
    if trace != [] {
      var n := |trace| - 1;
      var last := LastExists(EffectiveRules(cfg), i);
      var rule, q := EffectiveRules(cfg)[last], trace[n];
      assert KeepsState(cfg, last);
      TotalCountsAccepts(cfg, trace[..n], i, value);
      HistoryStep(cfg, trace, rule.scope, value);
      RunOnKey(cfg, trace, last, value);
      if LastCheck(cfg, trace).ok && ScopeValue(rule.scope, q.ctx) == value {
        VerdictCounts(cfg, Run(cfg, trace[..n]), rule, q);
      }
    }
  }

  /** A rule with quota `q` lets at most `q` requests through for each of its keys. */
  lemma {:induction false} QuotaBound(cfg: Config, trace: seq<Request>, i: nat, value: string)
    requires Staged(cfg) && i < |EffectiveRules(cfg)| && EffectiveRules(cfg)[i].quota.Some?
    ensures var rule := EffectiveRules(cfg)[i];
            |KeyHistory(cfg, trace, rule.scope, value)| <= rule.quota.value
  {
    if trace != [] {
      var rule, n := EffectiveRules(cfg)[i], |trace| - 1;
      QuotaBound(cfg, trace[..n], i, value);
      HistoryStep(cfg, trace, rule.scope, value);
      TotalCountsAccepts(cfg, trace[..n], i, value);
      if LastCheck(cfg, trace).ok {
        assert RuleVerdict(cfg, Run(cfg, trace[..n]), rule, trace[n].ctx, trace[n].now).ok;
      }
    }
  }

  // --- Every lawful history happens ---

  ghost function Requests(ctx: Context, h: seq<Instant>): seq<Request> {
    seq(|h|, i requires 0 <= i < |h| => Request(ctx, h[i]))
  }

  lemma {:induction false} TimesOfRequests(ctx: Context, h: seq<Instant>, scope: Scope)
    ensures Times(Requests(ctx, h), scope, ScopeValue(scope, ctx)) == h
  {
    if h != [] {
      var n := |h| - 1;
      TimesOfRequests(ctx, h[..n], scope);
      assert Requests(ctx, h)[..n] == Requests(ctx, h[..n]);
      assert h[..n] + [h[n]] == h;
    }
  }

  /**
   With one rule and no quota, any accept times that are lawful for the rule are all accepted.
   Together with `RunReplays` this makes the lawful lists exactly the reachable histories.
   */
  lemma {:induction false} LawfulIsReachable(cfg: Config, rule: Rule, ctx: Context, h: seq<Instant>)
    requires Staged(cfg) && EffectiveRules(cfg) == [rule] && rule.quota == None
    requires Lawful(PolicyOf(cfg, rule), rule, h)
    ensures Nondecreasing(Requests(ctx, h))
    ensures Accepted(cfg, Requests(ctx, h)) == Requests(ctx, h)
    ensures KeyHistory(cfg, Requests(ctx, h), rule.scope, ScopeValue(rule.scope, ctx)) == h
  {
    var trace := Requests(ctx, h);
    if h != [] {
      var n := |h| - 1;
      LawfulPrefix(PolicyOf(cfg, rule), rule, h, n);
      LawfulIsReachable(cfg, rule, ctx, h[..n]);
      assert trace[..n] == Requests(ctx, h[..n]) && trace[..n] + [trace[n]] == trace;
      assert AllowedAt(PolicyOf(cfg, rule), rule, h, n);
      DistinctScopesKeepState(cfg);
      LimiterRefinesHistory(cfg, trace[..n], trace[n]);
    }
    TimesOfRequests(ctx, h, rule.scope);
  }
}
