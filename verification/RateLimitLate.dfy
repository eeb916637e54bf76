/**
 Token buckets under late readings. A late reading that is accepted sets the refill time back, and the next
 reading refills the same time again. Exactly when the accepts of an interval remain bounded, for the staged
 bucket, which forgets rejected requests, and for the legacy bucket, which does not.
 */
module RateLimitLate {
  import opened Wrappers
  import opened Clock
  import opened History
  import opened RateLimit
  import opened RateLimitPolicies
  import opened RateLimitRuns
  import opened RateLimitBounds
  import opened RateLimitSharp
  import opened RateLimitSkew

  // --- Up and down ---

  /** How far the readings from `i` to `j` go up, step by step. */
  ghost function Ups(h: seq<Instant>, i: nat, j: nat): (u: real)
    requires i <= j < |h|
    ensures u >= 0.0
  {
    if i == j then 0.0 else Ups(h, i, j - 1) + Elapsed(h[j], h[j - 1])
  }

  ghost function Downs(h: seq<Instant>, i: nat, j: nat): (d: real)
    requires i <= j < |h|
    ensures d >= 0.0
  {
    if i == j then 0.0 else Downs(h, i, j - 1) + Elapsed(h[j - 1], h[j])
  }

  lemma {:induction false} UpsAndDowns(h: seq<Instant>, i: nat, j: nat)
    requires i <= j < |h|
    ensures Ups(h, i, j) == h[j] - h[i] + Downs(h, i, j)
  {
    if i < j {
      UpsAndDowns(h, i, j - 1);
    }
  }

  lemma {:induction false} UpsAgree(h: seq<Instant>, more: seq<Instant>, i: nat, j: nat)
    requires i <= j < |h|
    ensures Ups(h + more, i, j) == Ups(h, i, j)
  {
    if i < j {
      UpsAgree(h, more, i, j - 1);
    }
  }

  /** No reading lies more than `skew` before an earlier one. */
  ghost predicate Late(h: seq<Instant>, skew: real) {
    forall i, j | 0 <= i <= j < |h| :: h[i] <= h[j] + skew
  }

  ghost function Times(skew: real, n: nat): (r: real)
    ensures r == skew * n as real
  {
    if n == 0 then 0.0
    else
      assert skew * (n - 1) as real + skew == skew * n as real;
      Times(skew, n - 1) + skew
  }

  lemma {:induction false} TimesGrows(skew: real, m: nat, n: nat)
    requires skew >= 0.0 && m <= n
    ensures Times(skew, m) <= Times(skew, n)
  {
    if m < n {
      TimesGrows(skew, m, n - 1);
    }
  }

  /** The readings came down `d` times before `peak`, and have not gone up since; coming down takes two readings. */
  ghost predicate Descents(h: seq<Instant>, i: nat, peak: nat, j: nat, skew: real, d: nat) {
    && i <= peak <= j < |h|
    && Downs(h, i, j) == Downs(h, i, peak) + (h[peak] - h[j])
    && Downs(h, i, peak) <= Times(skew, d) && 2 * d <= peak - i
  }

  lemma {:induction false} AllDescents(h: seq<Instant>, i: nat, j: nat, skew: real) returns (peak: nat, d: nat)
    requires i <= j < |h| && Late(h, skew) && skew >= 0.0
    ensures Descents(h, i, peak, j, skew, d)
  {
    if i == j {
      peak, d := j, 0;
    } else {
      peak, d := AllDescents(h, i, j - 1, skew);
      if h[j] >= h[j - 1] {
        if peak < j - 1 {
          assert h[peak] <= h[j - 1] + skew;
          d := d + 1;
        }
        peak := j;
      }
    }
  }

  lemma {:induction false} DownsBound(h: seq<Instant>, i: nat, j: nat, skew: real) returns (d: nat)
    requires i <= j < |h| && Late(h, skew) && skew >= 0.0
    ensures Downs(h, i, j) <= Times(skew, d) && 2 * d <= j - i + 1
  {
    var peak;
    peak, d := AllDescents(h, i, j, skew);
    if peak < j {
      assert h[peak] <= h[j] + skew;
      d := d + 1;
    }
  }

  // --- The staged bucket ---

  ghost predicate Fits(cap: real, rate: real, h: seq<Instant>, i: nat, j: nat)
    requires i <= j < |h|
  {
    (j - i + 1) as real <= cap + rate * Ups(h, i, j)
  }

  /** What a bucket can hold after the accepts `h`, in whatever order their readings come. */
  ghost predicate LateHolds(cap: real, rate: real, s: LimitValue, h: seq<Instant>) {
    && (forall i, j | 0 <= i <= j < |h| :: Fits(cap, rate, h, i, j))
    && if h == [] then s.lastRefill == None
       else
         && s.lastRefill == Some(h[|h| - 1])
         && forall i | 0 <= i < |h| :: Holds(cap, rate, s.tokens, h, i)
  }

  ghost predicate Holds(cap: real, rate: real, tokens: real, h: seq<Instant>, i: nat)
    requires i < |h|
  {
    tokens <= cap - (|h| - i) as real + rate * Ups(h, i, |h| - 1)
  }

  lemma {:induction false} HoldsNext(cap: real, rate: real, s: LimitValue, h: seq<Instant>, now: Instant, i: nat)
    requires i < |h| && s.lastRefill == Some(h[|h| - 1]) && Holds(cap, rate, s.tokens, h, i)
    requires BucketStep(cap, rate, s, now).ok
    ensures Holds(cap, rate, BucketStep(cap, rate, s, now).next.tokens, h + [now], i)
    ensures Fits(cap, rate, h + [now], i, |h|)
  {
    HoldsAtLevel(cap, rate, s.tokens, Level(cap, rate, s, now), Elapsed(now, h[|h| - 1]), h, now, i);
  }

  lemma {:induction false} HoldsAtLevel(
    cap: real, rate: real, tokens: real, level: real, step: real, h: seq<Instant>, now: Instant, i: nat)
    requires i < |h| && Holds(cap, rate, tokens, h, i) && step == Elapsed(now, h[|h| - 1])
    requires level == Min(tokens + step * rate, cap) && level >= 1.0
    ensures Holds(cap, rate, level - 1.0, h + [now], i)
    ensures Fits(cap, rate, h + [now], i, |h|)
  {
    UpsNext(h, now, i);
    OneMoreToken(cap, rate, tokens, level, |h| - i, Ups(h, i, |h| - 1), step, Ups(h + [now], i, |h|));
  }

  lemma {:induction false} UpsNext(h: seq<Instant>, now: Instant, i: nat)
    requires i < |h|
    ensures Ups(h + [now], i, |h|) == Ups(h, i, |h| - 1) + Elapsed(now, h[|h| - 1])
  {
    UpsAgree(h, [now], i, |h| - 1);
  }

  lemma {:induction false} HoldsLast(cap: real, rate: real, s: LimitValue, h: seq<Instant>, now: Instant)
    requires BucketStep(cap, rate, s, now).ok
    ensures Holds(cap, rate, BucketStep(cap, rate, s, now).next.tokens, h + [now], |h|)
    ensures Fits(cap, rate, h + [now], |h|, |h|)
  {
    assert rate * Ups(h + [now], |h|, |h|) == 0.0;
  }

  lemma {:induction false} OneMoreToken(
    cap: real, rate: real, tokens: real, level: real, n: nat, before: real, step: real, ups: real)
    requires tokens <= cap - n as real + rate * before && ups == before + step
    requires level == Min(tokens + step * rate, cap) && level >= 1.0
    ensures level - 1.0 <= cap - (n + 1) as real + rate * ups
    ensures (n + 1) as real <= cap + rate * ups
  {
    Distribute(rate, before, step);
    assert step * rate == rate * step;
  }

  lemma {:induction false} LateStep(cap: real, rate: real, s: LimitValue, h: seq<Instant>, now: Instant, total: nat)
    requires rate >= 0.0 && LateHolds(cap, rate, s, h) && BucketStep(cap, rate, s, now).ok
    ensures LateHolds(cap, rate, BucketStep(cap, rate, s, now).next.(acceptedTotal := total), h + [now])
  {
    var h', next := h + [now], BucketStep(cap, rate, s, now).next;
    forall i | 0 <= i < |h'|
      ensures Holds(cap, rate, next.tokens, h', i)
    {
      if i < |h| {
        HoldsNext(cap, rate, s, h, now, i);
      } else {
        HoldsLast(cap, rate, s, h, now);
      }
    }
    forall i, j | 0 <= i <= j < |h'|
      ensures Fits(cap, rate, h', i, j)
    {
      if j < |h| {
        assert Fits(cap, rate, h, i, j);
        UpsAgree(h, [now], i, j);
      } else if i < |h| {
        HoldsNext(cap, rate, s, h, now, i);
      } else {
        HoldsLast(cap, rate, s, h, now);
      }
    }
  }

  lemma {:induction false} LateRun(cfg: Config, trace: seq<Request>, k: nat, rule: Rule, value: string)
    requires Staged(cfg) && KeepsState(cfg, k) && rule == EffectiveRules(cfg)[k] && PolicyOf(cfg, rule) == TokenBucket
    ensures LateHolds(rule.limit as real, RefillRate(rule), Lookup(Run(cfg, trace), ScopeKey(rule.scope, value)),
                      KeyHistory(cfg, trace, rule.scope, value))
  {
    if trace != [] {
      var n := |trace| - 1;
      var q, h := trace[n], KeyHistory(cfg, trace[..n], rule.scope, value);
      LateRun(cfg, trace[..n], k, rule, value);
      HistoryStep(cfg, trace, rule.scope, value);
      RunOnKey(cfg, trace, k, value);
      if LastCheck(cfg, trace).ok && ScopeValue(rule.scope, q.ctx) == value {
        var s := Lookup(Run(cfg, trace[..n]), ScopeKey(rule.scope, value));
        VerdictIsStep(cfg, Run(cfg, trace[..n]), rule, q);
        LateStep(rule.limit as real, RefillRate(rule), s, h, q.now, s.acceptedTotal + 1);
      } else {
        assert KeyHistory(cfg, trace, rule.scope, value) == h;
      }
    }
  }

  lemma {:induction false} HistoryIsLate(cfg: Config, trace: seq<Request>, scope: Scope, value: string, skew: real)
    requires SkewedBy(trace, skew) && skew >= 0.0
    ensures Late(KeyHistory(cfg, trace, scope, value), skew)
  {
    if trace != [] {
      var n := |trace| - 1;
      HistoryStep(cfg, trace, scope, value);
      HistoryIsLate(cfg, trace[..n], scope, value, skew);
      HistoryWithin(cfg, trace[..n], scope, value, trace[n].now + skew);
    }
  }

  // --- A bound ---

  ghost predicate AllFit(cap: real, rate: real, h: seq<Instant>) {
    forall i, j | 0 <= i <= j < |h| :: Fits(cap, rate, h, i, j)
  }

  /** With `d` descents among `n` readings, what goes up is what the interval allows and `d` times the skew. */
  lemma {:induction false} Solve(cap: real, rate: real, skew: real, span: real, n: nat, d: nat, ups: real)
    requires rate >= 0.0 && skew >= 0.0 && 2 * d <= n
    requires n as real <= cap + rate * ups && ups <= span + skew * d as real
    ensures (2.0 - rate * skew) * n as real <= 2.0 * (cap + rate * span)
  {
    var x := rate * skew;
    Scale(rate, ups, span + skew * d as real);
    assert rate * (span + skew * d as real) == rate * span + x * d as real by {
      assert rate * (skew * d as real) == x * d as real;
      Distribute(rate, span, skew * d as real);
    }
    Scale(x, 2.0 * d as real, n as real);
    assert x * (2.0 * d as real) == 2.0 * (x * d as real);
    assert (2.0 - x) * n as real == 2.0 * n as real - x * n as real;
  }

  lemma {:induction false} Scale(factor: real, a: real, b: real)
    requires factor >= 0.0 && a <= b
    ensures factor * a <= factor * b
  {
  }

  lemma {:induction false} StretchBound(cap: real, rate: real, skew: real, h: seq<Instant>, i: nat, j: nat, span: real)
    requires rate >= 0.0 && skew >= 0.0 && i <= j < |h| && h[j] - h[i] <= span
    requires AllFit(cap, rate, h) && Late(h, skew)
    ensures (2.0 - rate * skew) * (j - i + 1) as real <= 2.0 * (cap + rate * span)
  {
    assert Fits(cap, rate, h, i, j);
    UpsAndDowns(h, i, j);
    var d := DownsBound(h, i, j, skew);
    Solve(cap, rate, skew, span, j - i + 1, d, Ups(h, i, j));
  }

  /** As long as a skew refills less than two tokens, an interval holds a bounded number of accepts. */
  lemma {:induction false} LateBound(
    cap: real, rate: real, skew: real, h: seq<Instant>, from: Instant, span: real, cost: real, budget: real)
    requires rate >= 0.0 && skew >= 0.0 && cap >= 0.0 && span >= 0.0
    requires cost == rate * skew && cost < 2.0 && budget == cap + rate * span
    requires AllFit(cap, rate, h) && Late(h, skew)
    ensures (2.0 - cost) * Count(h, Closed(from, from + span)) as real <= 2.0 * budget
  {
    if Count(h, Closed(from, from + span)) > 0 {
      var i, j := CountSpan(h, Closed(from, from + span));
      StretchBound(cap, rate, skew, h, i, j, span);
      FewerStill(cost, budget, Count(h, Closed(from, from + span)), j - i + 1);
    } else {
      Scale(rate, 0.0, span);
      FewerStill(cost, budget, 0, 0);
    }
  }

  lemma {:induction false} FewerStill(cost: real, budget: real, m: nat, n: nat)
    requires m <= n && cost < 2.0 && (2.0 - cost) * n as real <= 2.0 * budget
    ensures (2.0 - cost) * m as real <= 2.0 * budget
  {
    Scale(2.0 - cost, m as real, n as real);
  }

  lemma {:induction false} IsPositive(rate: real, e: real)
    requires e >= 0.0 && rate * e >= 1.0
    ensures e > 0.0
  {
    assert e == 0.0 ==> rate * e == 0.0;
  }

  /** A bucket of one token is empty after every accept, so its accepts come in order. */
  lemma {:induction false} OneTokenInOrder(cap: real, rate: real, h: seq<Instant>, i: nat, j: nat)
    requires cap <= 1.0 && rate >= 0.0 && AllFit(cap, rate, h) && i <= j < |h|
    ensures h[i] <= h[j]
  {
    if i < j {
      OneTokenInOrder(cap, rate, h, i, j - 1);
      assert Fits(cap, rate, h, j - 1, j);
      assert Ups(h, j - 1, j) == Ups(h, j - 1, j - 1) + Elapsed(h[j], h[j - 1]);
      IsPositive(rate, Elapsed(h[j], h[j - 1]));
    }
  }

  /** The tokens that the lateness of a clock brings a bucket of this size. */
  ghost function Cost(limit: nat, rate: real, skew: real): real {
    if limit <= 1 then 0.0 else rate * skew
  }

  ghost predicate WithinLate(rule: Rule, h: seq<Instant>, skew: real, from: Instant, span: real) {
    (2.0 - Cost(rule.limit, RefillRate(rule), skew)) * Count(h, Closed(from, from + span)) as real
    <= 2.0 * TokenBudget(rule, span)
  }

  /** Token bucket: with readings late by `skew`, an interval holds `(limit + rate * span) / (1 - rate * skew / 2)` accepts at most. */
  lemma {:induction false} LateTokenBound(
    cfg: Config, trace: seq<Request>, k: nat, rule: Rule, value: string, skew: real, from: Instant, span: real)
    requires Staged(cfg) && KeepsState(cfg, k) && rule == EffectiveRules(cfg)[k] && PolicyOf(cfg, rule) == TokenBucket
    requires skew >= 0.0 && SkewedBy(trace, skew) && span >= 0.0 && Cost(rule.limit, RefillRate(rule), skew) < 2.0
    ensures WithinLate(rule, KeyHistory(cfg, trace, rule.scope, value), skew, from, span)
  {
    var h := KeyHistory(cfg, trace, rule.scope, value);
    LateHistory(cfg, trace, k, rule, value, skew, h);
    RuleBound(rule, skew, h, from, span);
  }

  lemma {:induction false} RuleBound(rule: Rule, skew: real, h: seq<Instant>, from: Instant, span: real)
    requires skew >= 0.0 && span >= 0.0 && Cost(rule.limit, RefillRate(rule), skew) < 2.0
    requires AllFit(rule.limit as real, RefillRate(rule), h) && Late(h, skew)
    ensures WithinLate(rule, h, skew, from, span)
  {
    HistoryBound(rule.limit, RefillRate(rule), skew, h, from, span, TokenBudget(rule, span));
  }

  lemma {:induction false} LateHistory(
    cfg: Config, trace: seq<Request>, k: nat, rule: Rule, value: string, skew: real, h: seq<Instant>)
    requires Staged(cfg) && KeepsState(cfg, k) && rule == EffectiveRules(cfg)[k] && PolicyOf(cfg, rule) == TokenBucket
    requires skew >= 0.0 && SkewedBy(trace, skew) && h == KeyHistory(cfg, trace, rule.scope, value)
    ensures AllFit(rule.limit as real, RefillRate(rule), h) && Late(h, skew)
  {
    LateRun(cfg, trace, k, rule, value);
    HistoryIsLate(cfg, trace, rule.scope, value, skew);
  }

  lemma {:induction false} HistoryBound(
    limit: nat, rate: real, skew: real, h: seq<Instant>, from: Instant, span: real, budget: real)
    requires rate >= 0.0 && skew >= 0.0 && span >= 0.0 && budget == limit as real + rate * span
    requires Cost(limit, rate, skew) < 2.0
    requires AllFit(limit as real, rate, h) && Late(h, skew)
    ensures (2.0 - Cost(limit, rate, skew)) * Count(h, Closed(from, from + span)) as real <= 2.0 * budget
  {
    if limit <= 1 {
      OneTokenIsNotLate(limit as real, rate, h);
      LateBound(limit as real, rate, 0.0, h, from, span, 0.0, budget);
    } else {
      LateBound(limit as real, rate, skew, h, from, span, Cost(limit, rate, skew), budget);
    }
  }

  lemma {:induction false} OneTokenIsNotLate(cap: real, rate: real, h: seq<Instant>)
    requires cap <= 1.0 && rate >= 0.0 && AllFit(cap, rate, h)
    ensures Late(h, 0.0)
  {
    forall i, j | 0 <= i <= j < |h|
      ensures h[i] <= h[j] + 0.0
    {
      OneTokenInOrder(cap, rate, h, i, j);
    }
  }

  // --- No bound ---

  /** Readings that go back and forth between `skew` and zero. */
  ghost function Swings(skew: real, n: nat): seq<Instant> {
    seq(n, i => if i % 2 == 0 then skew else 0.0)
  }

  lemma {:induction false} SwingsAreLate(ctx: Context, skew: real, n: nat)
    requires skew >= 0.0
    ensures SkewedBy(Requests(ctx, Swings(skew, n)), skew)
  {
  }

  /** The bucket after `n` swings: what the late reading took is refilled at once. */
  ghost predicate SwingHolds(rule: Rule, s: LimitValue, skew: real, n: nat) {
    if n == 0 then s.lastRefill == None
    else if n % 2 == 1 then s.lastRefill == Some(skew) && s.tokens == rule.limit as real - 1.0
    else s.lastRefill == Some(0.0) && s.tokens == rule.limit as real - 2.0
  }

  lemma {:induction false} SwingStep(cap: real, rate: real, s: LimitValue, skew: real, rule: Rule, n: nat)
    requires cap == rule.limit as real && cap >= 2.0 && skew >= 0.0 && skew * rate >= 2.0
    requires SwingHolds(rule, s, skew, n)
    ensures var v := BucketStep(cap, rate, s, if n % 2 == 0 then skew else 0.0);
            v.ok && SwingHolds(rule, v.next, skew, n + 1)
  {
    if n % 2 == 1 {
      assert Elapsed(0.0, skew) == 0.0;
    } else if n > 0 {
      assert Elapsed(skew, 0.0) == skew;
    }
  }

  /** With one rule a verdict is the answer, and its content is kept. */
  lemma {:induction false} OneRulePasses(cfg: Config, rule: Rule, states: States, q: Request)
    requires Staged(cfg) && EffectiveRules(cfg) == [rule] && rule.quota == None
    requires PolicyStep(PolicyOf(cfg, rule), rule, Lookup(states, KeyFor(rule, q.ctx)), q.now).ok
    ensures var o := Check(cfg, states, q.ctx, q.now);
            var step := PolicyStep(PolicyOf(cfg, rule), rule, Lookup(states, KeyFor(rule, q.ctx)), q.now).next;
            o.ok && Lookup(o.states, KeyFor(rule, q.ctx)) == step.(acceptedTotal := step.acceptedTotal + 1)
  {
    assert RuleVerdict(cfg, states, [rule][0], q.ctx, q.now).ok;
    CommitAt(cfg, states, [rule], q, 0);
  }

  lemma {:induction false} SwingPasses(cfg: Config, rule: Rule, states: States, q: Request, skew: real, n: nat)
    requires Staged(cfg) && EffectiveRules(cfg) == [rule] && rule.quota == None && PolicyOf(cfg, rule) == TokenBucket
    requires rule.limit >= 2 && skew >= 0.0 && RefillRate(rule) * skew >= 2.0
    requires SwingHolds(rule, Lookup(states, KeyFor(rule, q.ctx)), skew, n)
    requires q.now == if n % 2 == 0 then skew else 0.0
    ensures Check(cfg, states, q.ctx, q.now).ok
    ensures SwingHolds(rule, Lookup(Check(cfg, states, q.ctx, q.now).states, KeyFor(rule, q.ctx)), skew, n + 1)
  {
    var rate := RefillRate(rule);
    assert skew * rate == rate * skew;
    SwingStep(rule.limit as real, rate, Lookup(states, KeyFor(rule, q.ctx)), skew, rule, n);
    OneRulePasses(cfg, rule, states, q);
  }

  lemma {:induction false} SwingsGrow(ctx: Context, skew: real, n: nat)
    requires n > 0
    ensures Requests(ctx, Swings(skew, n))
         == Requests(ctx, Swings(skew, n - 1)) + [Request(ctx, if (n - 1) % 2 == 0 then skew else 0.0)]
  {
  }

  lemma {:induction false} SwingsPass(cfg: Config, rule: Rule, ctx: Context, skew: real, n: nat)
    requires Staged(cfg) && EffectiveRules(cfg) == [rule] && rule.quota == None && PolicyOf(cfg, rule) == TokenBucket
    requires rule.limit >= 2 && skew >= 0.0 && RefillRate(rule) * skew >= 2.0
    ensures var trace := Requests(ctx, Swings(skew, n));
            && Accepted(cfg, trace) == trace
            && SwingHolds(rule, Lookup(Run(cfg, trace), KeyFor(rule, ctx)), skew, n)
  {
    if n > 0 {
      var before, q := Requests(ctx, Swings(skew, n - 1)), Request(ctx, if (n - 1) % 2 == 0 then skew else 0.0);
      SwingsPass(cfg, rule, ctx, skew, n - 1);
      SwingPasses(cfg, rule, Run(cfg, before), q, skew, n - 1);
      SwingsGrow(ctx, skew, n);
      assert (before + [q])[..|before|] == before;
      assert LastCheck(cfg, before + [q]).ok;
    }
  }

  // --- Bounded exactly when ---

  ghost function Between(h: seq<Instant>, from: Instant, span: real): nat {
    Count(h, Closed(from, from + span))
  }

  ghost predicate BoundedBy(cfg: Config, rule: Rule, skew: real, span: real, bound: nat) {
    forall trace: seq<Request>, value: string, from: Instant | SkewedBy(trace, skew) ::
      Between(KeyHistory(cfg, trace, rule.scope, value), from, span) <= bound
  }

  /** Every interval length has a bound on the accepts of a key, over all runs with this skew. */
  ghost predicate StaysBounded(cfg: Config, rule: Rule, skew: real) {
    forall span: real | span >= 0.0 :: HasBound(cfg, rule, skew, span)
  }

  ghost predicate HasBound(cfg: Config, rule: Rule, skew: real, span: real) {
    exists bound: nat :: BoundedBy(cfg, rule, skew, span, bound)
  }

  lemma {:induction false} Divide(left: real, budget: real) returns (bound: nat)
    requires left > 0.0 && budget >= 0.0
    ensures left * (bound + 1) as real > budget
  {
    var q := budget / left;
    assert left * q == budget;
    assert q >= 0.0;
    bound := q.Floor;
    assert left * ((bound + 1) as real - q) > 0.0;
    assert left * (bound + 1) as real == left * ((bound + 1) as real - q) + left * q;
  }

  lemma {:induction false} NotAbove(left: real, budget: real, bound: nat, m: nat)
    requires left > 0.0 && left * m as real <= budget < left * (bound + 1) as real
    ensures m <= bound
  {
    if m > bound {
      Scale(left, (bound + 1) as real, m as real);
      assert false;
    }
  }

  lemma {:induction false} LateHasBound(cfg: Config, rule: Rule, skew: real, span: real)
    requires Staged(cfg) && EffectiveRules(cfg) == [rule] && PolicyOf(cfg, rule) == TokenBucket
    requires skew >= 0.0 && span >= 0.0 && Cost(rule.limit, RefillRate(rule), skew) < 2.0
    ensures HasBound(cfg, rule, skew, span)
  {
    var bound := BoundOf(rule, skew, span);
    forall trace: seq<Request>, value: string, from: Instant | SkewedBy(trace, skew)
      ensures Between(KeyHistory(cfg, trace, rule.scope, value), from, span) <= bound
    {
      DistinctScopesKeepState(cfg);
      LateTokenBound(cfg, trace, 0, rule, value, skew, from, span);
      WithinBound(rule, KeyHistory(cfg, trace, rule.scope, value), skew, from, span, bound);
    }
    assert BoundedBy(cfg, rule, skew, span, bound);
  }

  ghost predicate Suffices(rule: Rule, skew: real, span: real, bound: nat) {
    2.0 * TokenBudget(rule, span) < (2.0 - Cost(rule.limit, RefillRate(rule), skew)) * (bound + 1) as real
  }

  lemma {:induction false} BoundOf(rule: Rule, skew: real, span: real) returns (bound: nat)
    requires span >= 0.0 && Cost(rule.limit, RefillRate(rule), skew) < 2.0
    ensures Suffices(rule, skew, span, bound)
  {
    MonotoneInTime(RefillRate(rule), 0.0, span);
    bound := Divide(2.0 - Cost(rule.limit, RefillRate(rule), skew), 2.0 * TokenBudget(rule, span));
  }

  lemma {:induction false} WithinBound(rule: Rule, h: seq<Instant>, skew: real, from: Instant, span: real, bound: nat)
    requires Cost(rule.limit, RefillRate(rule), skew) < 2.0
    requires WithinLate(rule, h, skew, from, span) && Suffices(rule, skew, span, bound)
    ensures Between(h, from, span) <= bound
  {
    NotAbove(2.0 - Cost(rule.limit, RefillRate(rule), skew), 2.0 * TokenBudget(rule, span), bound, Between(h, from, span));
  }

  lemma {:induction false} SwingsCount(skew: real, n: nat)
    requires skew >= 0.0
    ensures Count(Swings(skew, n), Closed(0.0, 0.0 + skew)) == n
  {
    CountAll(Swings(skew, n), Closed(0.0, 0.0 + skew));
  }

  /** Any number of accepts between zero and `skew`. */
  lemma {:induction false} SwingsExceed(cfg: Config, rule: Rule, ctx: Context, skew: real, n: nat) returns (trace: seq<Request>)
    requires Staged(cfg) && EffectiveRules(cfg) == [rule] && rule.quota == None && PolicyOf(cfg, rule) == TokenBucket
    requires rule.limit >= 2 && skew >= 0.0 && RefillRate(rule) * skew >= 2.0
    ensures SkewedBy(trace, skew)
    ensures Between(HistoryOf(cfg, rule, ctx, trace), 0.0, skew) == n
  {
    trace := Requests(ctx, Swings(skew, n));
    SwingsPass(cfg, rule, ctx, skew, n);
    SwingsAreLate(ctx, skew, n);
    TimesOfRequests(ctx, Swings(skew, n), rule.scope);
    SwingsCount(skew, n);
  }

  lemma {:induction false} SwingsHaveNoBound(cfg: Config, rule: Rule, skew: real)
    requires Staged(cfg) && EffectiveRules(cfg) == [rule] && rule.quota == None && PolicyOf(cfg, rule) == TokenBucket
    requires rule.limit >= 2 && skew >= 0.0 && RefillRate(rule) * skew >= 2.0
    ensures !HasBound(cfg, rule, skew, skew)
  {
    forall bound: nat
      ensures !BoundedBy(cfg, rule, skew, skew, bound)
    {
      var ctx := Context("r", "s", None, "c");
      var trace := SwingsExceed(cfg, rule, ctx, skew, bound + 1);
      assert SkewedBy(trace, skew);
      assert Between(KeyHistory(cfg, trace, rule.scope, ScopeValue(rule.scope, ctx)), 0.0, skew) > bound;
    }
  }

  /**
   A staged bucket keeps a bound under late readings exactly when it holds at most one token or a skew
   refills less than two: the accept that sets the time back and the one that refills cost a token each.
   */
  lemma {:induction false} StaysBoundedIff(cfg: Config, rule: Rule, skew: real)
    requires Staged(cfg) && EffectiveRules(cfg) == [rule] && rule.quota == None && PolicyOf(cfg, rule) == TokenBucket
    requires skew >= 0.0
    ensures StaysBounded(cfg, rule, skew) <==> rule.limit <= 1 || RefillRate(rule) * skew < 2.0
  {
    if rule.limit <= 1 || RefillRate(rule) * skew < 2.0 {
      forall span: real | span >= 0.0
        ensures HasBound(cfg, rule, skew, span)
      {
        LateHasBound(cfg, rule, skew, span);
      }
    } else {
      SwingsHaveNoBound(cfg, rule, skew);
    }
  }
}
