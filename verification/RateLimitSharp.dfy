/** The interval bounds are reached: no smaller numbers would do. */
module RateLimitSharp {
  import opened Wrappers
  import opened Clock
  import opened History
  import opened RateLimit
  import opened RateLimitPolicies
  import opened RateLimitRuns
  import opened RateLimitBounds

  /** The accept times of the key that `rule` uses for the caller `ctx`. */
  ghost function HistoryOf(cfg: Config, rule: Rule, ctx: Context, trace: seq<Request>): seq<Instant> {
    KeyHistory(cfg, trace, rule.scope, ScopeValue(rule.scope, ctx))
  }

  lemma {:induction false} LawfulIsItsHistory(cfg: Config, rule: Rule, ctx: Context, h: seq<Instant>)
    requires Staged(cfg) && EffectiveRules(cfg) == [rule] && rule.quota == None
    requires Lawful(PolicyOf(cfg, rule), rule, h)
    ensures Nondecreasing(Requests(ctx, h)) && HistoryOf(cfg, rule, ctx, Requests(ctx, h)) == h
  {
    LawfulIsReachable(cfg, rule, ctx, h);
  }

  lemma {:induction false} CountAtMost(h: seq<Instant>, p: Instant -> bool)
    ensures Count(h, p) <= |h|
  {
    if h != [] {
      CountAtMost(h[..|h| - 1], p);
    }
  }

  // --- Sliding window ---

  /** For every limit there is a run whose interval holds `limit` accepts. */
  lemma {:induction false} SlidingBoundIsSharp(cfg: Config, rule: Rule, ctx: Context) returns (trace: seq<Request>, from: Instant)
    requires Staged(cfg) && EffectiveRules(cfg) == [rule] && rule.quota == None
    requires PolicyOf(cfg, rule) == SlidingWindow
    ensures Nondecreasing(trace)
    ensures InWindow(rule, HistoryOf(cfg, rule, ctx, trace), from) == rule.limit
  {
    var h: seq<Instant> := seq(rule.limit, _ => 0.0);
    forall n | 0 <= n < |h|
      ensures AllowedAt(SlidingWindow, rule, h, n)
    {
      CountAtMost(h[..n], LiveAt(h[n], WindowSeconds(rule)));
    }
    trace, from := Requests(ctx, h), 0.0;
    LawfulIsItsHistory(cfg, rule, ctx, h);
    CountAll(h, HalfOpen(0.0, 0.0 + WindowSeconds(rule)));
  }

  // --- Token bucket ---

  /** Empty the bucket at time zero, then take every token the moment it is there. */
  ghost function Drip(limit: nat, rate: real, n: nat): Instant
    requires rate > 0.0
  {
    if n < limit then 0.0 else (n - limit + 1) as real / rate
  }

  ghost function Drips(limit: nat, rate: real, n: nat): seq<Instant>
    requires rate > 0.0
  {
    seq(n, i requires 0 <= i < n => Drip(limit, rate, i))
  }

  lemma {:induction false} DivideBy(rate: real, x: real, y: real)
    requires rate > 0.0
    ensures rate * (x / rate) == x
    ensures rate * (x / rate - y / rate) == x - y
    ensures x <= y <==> x / rate <= y / rate
  {
    assert rate * (x / rate) == x && rate * (y / rate) == y;
    assert rate * (x / rate - y / rate) == rate * (x / rate) - rate * (y / rate);
  }

  /** Between accepts `i` and `n` the bucket has produced what they took beyond the limit. */
  lemma {:induction false} DripGap(limit: nat, rate: real, i: nat, n: nat)
    requires rate > 0.0 && limit >= 1 && i <= n
    ensures Drip(limit, rate, i) <= Drip(limit, rate, n)
    ensures (n - i + 1) as real <= limit as real + rate * (Drip(limit, rate, n) - Drip(limit, rate, i))
  {
    var x, y := (n - limit + 1) as real, (i - limit + 1) as real;
    DivideBy(rate, x, y);
    DivideBy(rate, y, x);
    DivideBy(rate, 0.0, x);
    assert rate * (Drip(limit, rate, n) - 0.0) == rate * Drip(limit, rate, n);
  }

  ghost predicate GapFits(limit: nat, rate: real, h: seq<Instant>, i: nat, j: nat)
    requires i <= j < |h|
  {
    (j - i + 1) as real <= limit as real + rate * (h[j] - h[i])
  }

  lemma {:induction false} DripFits(limit: nat, rate: real, n: nat, i: nat, j: nat)
    requires rate > 0.0 && limit >= 1 && i <= j < n
    ensures GapFits(limit, rate, Drips(limit, rate, n), i, j)
  {
    DripGap(limit, rate, i, j);
  }

  lemma {:induction false} GapsAllow(limit: nat, rate: real, h: seq<Instant>, j: nat)
    requires limit >= 1 && j < |h| && forall i | 0 <= i < j :: GapFits(limit, rate, h, i, j)
    ensures BucketAllows(limit as real, rate, h, j)
  {
    forall i | 0 <= i < j
      ensures (j - i + 1) as real <= limit as real + rate * (h[j] - h[..j][i])
    {
      assert GapFits(limit, rate, h, i, j) && h[..j][i] == h[i];
    }
  }

  lemma {:induction false} DripsAscend(limit: nat, rate: real, n: nat)
    requires rate > 0.0 && limit >= 1
    ensures Sorted(Drips(limit, rate, n))
  {
    forall i, j | 0 <= i <= j < n
      ensures Drips(limit, rate, n)[i] <= Drips(limit, rate, n)[j]
    {
      DripGap(limit, rate, i, j);
    }
  }

  lemma {:induction false} DripsAreLawful(limit: nat, rate: real, n: nat)
    requires rate > 0.0 && limit >= 1
    ensures BucketLawful(limit as real, rate, Drips(limit, rate, n))
  {
    var cap, h := limit as real, Drips(limit, rate, n);
    forall j | 0 <= j < n
      ensures BucketAllows(cap, rate, h, j)
    {
      forall i | 0 <= i < j
        ensures GapFits(limit, rate, h, i, j)
      {
        DripFits(limit, rate, n, i, j);
      }
      GapsAllow(limit, rate, h, j);
    }
  }

  lemma {:induction false} RateIsPositive(rule: Rule)
    requires rule.limit >= 1
    ensures RefillRate(rule) > 0.0
  {
    var w := WindowSeconds(rule);
    assert rule.limit as real / w * w == rule.limit as real;
  }

  /** For every limit and every length there is a run whose interval holds as many accepts as the budget has whole tokens. */
  lemma {:induction false} TokenBoundIsSharp(cfg: Config, rule: Rule, ctx: Context, span: real) returns (trace: seq<Request>, from: Instant)
    requires Staged(cfg) && EffectiveRules(cfg) == [rule] && rule.quota == None
    requires PolicyOf(cfg, rule) == TokenBucket && span >= 0.0
    ensures Nondecreasing(trace)
    ensures Count(HistoryOf(cfg, rule, ctx, trace), Closed(from, from + span)) == TokenBudget(rule, span).Floor
  {
    var h := SpendBudget(rule, span);
    trace, from := Requests(ctx, h), 0.0;
    LawfulIsItsHistory(cfg, rule, ctx, h);
  }

  lemma {:induction false} SpendBudget(rule: Rule, span: real) returns (h: seq<Instant>)
    requires span >= 0.0
    ensures Lawful(TokenBucket, rule, h)
    ensures Count(h, Closed(0.0, 0.0 + span)) == TokenBudget(rule, span).Floor
  {
    if rule.limit >= 1 {
      RateIsPositive(rule);
      h := SpendAtRate(rule.limit, RefillRate(rule), span);
      BucketLawfulIsLawful(rule, h);
    } else {
      h := [];
      NothingToSpend(rule, span);
    }
  }

  lemma {:induction false} BucketLawfulIsLawful(rule: Rule, h: seq<Instant>)
    requires Sorted(h) && BucketLawful(rule.limit as real, RefillRate(rule), h)
    ensures Lawful(TokenBucket, rule, h)
  {
    forall j | 0 <= j < |h|
      ensures AllowedAt(TokenBucket, rule, h, j)
    {
      assert BucketAllows(rule.limit as real, RefillRate(rule), h, j);
    }
  }

  lemma {:induction false} SpendAtRate(limit: nat, rate: real, span: real) returns (h: seq<Instant>)
    requires limit >= 1 && rate > 0.0 && span >= 0.0
    ensures Sorted(h) && BucketLawful(limit as real, rate, h)
    ensures Count(h, Closed(0.0, 0.0 + span)) == (limit as real + rate * span).Floor
  {
    var k := WholeTokens(limit, rate, span);
    h := Drips(limit, rate, limit + k);
    DripsInTime(limit, rate, k, span);
    DripsAscend(limit, rate, limit + k);
    DripsAreLawful(limit, rate, limit + k);
  }

  lemma {:induction false} WholeTokens(limit: nat, rate: real, span: real) returns (k: nat)
    requires rate > 0.0 && span >= 0.0
    ensures k as real <= rate * span && (limit as real + rate * span).Floor == limit + k
  {
    MonotoneInTime(rate, 0.0, span);
    k := (rate * span).Floor;
  }

  lemma {:induction false} NothingToSpend(rule: Rule, span: real)
    requires rule.limit == 0
    ensures TokenBudget(rule, span) == 0.0
  {
    var w := WindowSeconds(rule);
    assert 0.0 / w == 0.0;
  }

  lemma {:induction false} DripsInTime(limit: nat, rate: real, k: nat, span: real)
    requires rate > 0.0 && span >= 0.0 && k as real <= rate * span
    ensures Count(Drips(limit, rate, limit + k), Closed(0.0, 0.0 + span)) == limit + k
  {
    var h := Drips(limit, rate, limit + k);
    forall i | 0 <= i < |h|
      ensures Closed(0.0, 0.0 + span)(h[i])
    {
      LastDrip(limit, rate, k, span, i);
    }
    CountAll(h, Closed(0.0, 0.0 + span));
  }

  lemma {:induction false} LastDrip(limit: nat, rate: real, k: nat, span: real, i: nat)
    requires rate > 0.0 && span >= 0.0 && k as real <= rate * span && i < limit + k
    ensures 0.0 <= Drip(limit, rate, i) <= span
  {
    DivideBy(rate, 0.0, (i - limit + 1) as real);
    DivideBy(rate, (i - limit + 1) as real, rate * span);
    assert rate * span / rate == span by {
      DivideBy(rate, rate * span, 0.0);
      Cancel(rate, rate * span / rate, span);
    }
  }

  lemma {:induction false} Cancel(rate: real, x: real, y: real)
    requires rate > 0.0 && rate * x == rate * y
    ensures x == y
  {
    assert rate * (x - y) == 0.0;
  }

  // --- Fixed window ---

  /** One accept opens a window, the others follow late in it, a full window follows at once. */
  ghost function Burst(limit: nat, window: real): seq<Instant>
    requires limit >= 1
  {
    [0.0] + seq(limit - 1, _ => window / 2.0) + seq(limit, _ => window)
  }

  lemma {:induction false} BurstOpeners(limit: nat, window: real, n: nat)
    requires limit >= 1 && window > 0.0 && n < 2 * limit
    ensures Opener(Burst(limit, window), window, n) == if n < limit then 0 else limit
  {
    if n > 0 {
      BurstOpeners(limit, window, n - 1);
    }
  }

  lemma {:induction false} BurstIsLawful(rule: Rule)
    requires rule.limit >= 1
    ensures Lawful(FixedWindow, rule, Burst(rule.limit, WindowSeconds(rule)))
  {
    var window := WindowSeconds(rule);
    var h := Burst(rule.limit, window);
    forall n | 0 <= n < |h|
      ensures AllowedAt(FixedWindow, rule, h, n)
    {
      if n > 0 {
        BurstOpeners(rule.limit, window, n - 1);
        OpenerPrefix(h, window, n, n - 1);
      }
    }
  }

  lemma {:induction false} BurstCount(rule: Rule)
    requires rule.limit >= 1
    ensures InWindow(rule, Burst(rule.limit, WindowSeconds(rule)), WindowSeconds(rule) / 2.0) == 2 * rule.limit - 1
  {
    var limit, window := rule.limit, WindowSeconds(rule);
    var late, next := seq(limit - 1, _ => window / 2.0), seq(limit, _ => window);
    var inside := HalfOpen(window / 2.0, window / 2.0 + window);
    CountAll(late, inside);
    CountAll(next, inside);
    CountNone([0.0], inside);
    CountAppend([0.0] + late, next, inside);
    CountAppend([0.0], late, inside);
    assert Burst(limit, window) == [0.0] + late + next;
  }

  /** For every limit of at least one there is a run whose interval holds `2 * limit - 1` accepts. */
  lemma {:induction false} FixedBoundIsSharp(cfg: Config, rule: Rule, ctx: Context) returns (trace: seq<Request>, from: Instant)
    requires Staged(cfg) && EffectiveRules(cfg) == [rule] && rule.quota == None
    requires PolicyOf(cfg, rule) == FixedWindow && rule.limit >= 1
    ensures Nondecreasing(trace)
    ensures InWindow(rule, HistoryOf(cfg, rule, ctx, trace), from) == FixedCeiling(rule.limit)
  {
    var window := WindowSeconds(rule);
    var h := Burst(rule.limit, window);
    trace, from := Requests(ctx, h), window / 2.0;
    BurstIsLawful(rule);
    LawfulIsItsHistory(cfg, rule, ctx, h);
    BurstCount(rule);
  }
}
