/**
 The token bucket used without scoped limits stores its refill even when it rejects. It is compared
 with the staged bucket, which forgets a rejected request altogether.
 */
module RateLimitLegacy {
  import opened Wrappers
  import opened Clock
  import opened History
  import opened RateLimit
  import opened RateLimitPolicies
  import opened RateLimitRuns
  import opened RateLimitBounds

  /** A bucket that has seen nothing but the accepts `h`. */
  ghost function BucketState(cap: real, rate: real, h: seq<Instant>): LimitValue {
    if h == [] then FRESH
    else BucketStep(cap, rate, BucketState(cap, rate, h[..|h| - 1]), h[|h| - 1]).next
  }

  /** From `since` on the two contents offer the same number of tokens at any time. */
  ghost predicate SameLevel(cap: real, rate: real, s: LimitValue, t: LimitValue, since: Instant) {
    forall now: Instant | now >= since :: Level(cap, rate, s, now) == Level(cap, rate, t, now)
  }

  lemma {:induction false} CappedTwice(cap: real, tokens: real, first: real, second: real)
    requires second >= 0.0
    ensures Min(Min(tokens + first, cap) + second, cap) == Min(tokens + (first + second), cap)
    ensures Min(cap + second, cap) == cap
  {
  }

  lemma {:induction false} RefillAdds(rate: real, a: real, b: real)
    requires rate >= 0.0 && b >= 0.0
    ensures a * rate + b * rate == (a + b) * rate
    ensures b * rate >= 0.0
  {
  }

  /** Refilling in two steps is refilling in one. */
  lemma {:induction false} RefillTwice(cap: real, rate: real, s: LimitValue, mid: Instant, now: Instant)
    requires rate >= 0.0 && mid <= now
    requires s.lastRefill.Some? ==> s.lastRefill.value <= mid
    ensures Min(Level(cap, rate, s, mid) + Elapsed(now, mid) * rate, cap) == Level(cap, rate, s, now)
  {
    var second := Elapsed(now, mid);
    var first := if s.lastRefill.Some? then Elapsed(mid, s.lastRefill.value) else 0.0;
    RefillAdds(rate, first, second);
    CappedTwice(cap, s.tokens, first * rate, second * rate);
    if s.lastRefill.Some? {
      assert Elapsed(now, s.lastRefill.value) == first + second;
    }
  }

  /** Storing the refill of a rejected request is invisible. */
  lemma {:induction false} RejectionIsInvisible(cap: real, rate: real, s: LimitValue, now: Instant)
    requires rate >= 0.0 && (s.lastRefill.Some? ==> s.lastRefill.value <= now)
    requires !BucketStep(cap, rate, s, now).ok
    ensures SameLevel(cap, rate, BucketStep(cap, rate, s, now).next, s, now)
  {
    var next := BucketStep(cap, rate, s, now).next;
    forall later: Instant | later >= now
      ensures Level(cap, rate, next, later) == Level(cap, rate, s, later)
    {
      RefillTwice(cap, rate, s, now, later);
    }
  }

  /** The stored refill time never lies ahead of the clock. */
  ghost predicate RefillNotAfter(s: LimitValue, now: Instant) {
    s.lastRefill.Some? ==> s.lastRefill.value <= now
  }

  /**
   The legacy bucket of a client is at every moment as full as one that saw only the accepts, and
   these accepts obey the stretch condition for capacity and refill rate.
   */
  ghost predicate LegacyHolds(cfg: Config, states: States, h: seq<Instant>, client: string, clock: Instant) {
    var cap, rate, s := cfg.capacity as real, cfg.refillPerSecond as real, Lookup(states, ScopeKey(Client, client));
    && BucketLawful(cap, rate, h)
    && BucketHolds(cap, rate, BucketState(cap, rate, h), h)
    && NotAfter(h, clock)
    && RefillNotAfter(s, clock)
    && SameLevel(cap, rate, s, BucketState(cap, rate, h), clock)
  }

  lemma {:induction false} BucketLawfulExtends(cap: real, rate: real, h: seq<Instant>, now: Instant)
    requires BucketLawful(cap, rate, h) && BucketDecides(cap, rate, h, now)
    ensures BucketLawful(cap, rate, h + [now])
  {
    forall n | 0 <= n < |h| + 1
      ensures BucketAllows(cap, rate, h + [now], n)
    {
      if n < |h| {
        assert BucketAllows(cap, rate, h, n) && (h + [now])[..n] == h[..n];
      } else {
        assert (h + [now])[..n] == h;
      }
    }
  }

  /** One call of the legacy bucket against the reference bucket. */
  lemma {:induction false} BucketSimulates(cap: real, rate: real, s: LimitValue, h: seq<Instant>, clock: Instant, now: Instant)
    requires rate >= 0.0 && clock <= now
    requires BucketHolds(cap, rate, BucketState(cap, rate, h), h)
    requires NotAfter(h, clock) && RefillNotAfter(s, clock)
    requires SameLevel(cap, rate, s, BucketState(cap, rate, h), clock)
    ensures var v := BucketStep(cap, rate, s, now);
            var h' := if v.ok then h + [now] else h;
            && (v.ok <==> BucketDecides(cap, rate, h, now))
            && BucketHolds(cap, rate, BucketState(cap, rate, h'), h')
            && SameLevel(cap, rate, v.next, BucketState(cap, rate, h'), now)
  {
    var ref := BucketState(cap, rate, h);
    assert Level(cap, rate, s, now) == Level(cap, rate, ref, now);
    assert BucketStep(cap, rate, s, now).ok <==> BucketStep(cap, rate, ref, now).ok;
    BucketFollows(cap, rate, ref, h, now);
    if BucketStep(cap, rate, s, now).ok {
      assert (h + [now])[..|h|] == h;
      SameRefillSameLevel(cap, rate, BucketStep(cap, rate, s, now).next, BucketStep(cap, rate, ref, now).next, now);
    } else {
      RejectionIsInvisible(cap, rate, s, now);
      SameLevelLater(cap, rate, BucketStep(cap, rate, s, now).next, s, ref, clock, now);
    }
  }

  lemma {:induction false} SameRefillSameLevel(cap: real, rate: real, s: LimitValue, t: LimitValue, now: Instant)
    requires s.tokens == t.tokens && s.lastRefill == t.lastRefill
    ensures SameLevel(cap, rate, s, t, now)
  {
  }

  lemma {:induction false} SameLevelLater(cap: real, rate: real, r: LimitValue, s: LimitValue, t: LimitValue, clock: Instant, now: Instant)
    requires clock <= now && SameLevel(cap, rate, r, s, now) && SameLevel(cap, rate, s, t, clock)
    ensures SameLevel(cap, rate, r, t, now)
  {
    forall later: Instant | later >= now
      ensures Level(cap, rate, r, later) == Level(cap, rate, t, later)
    {
      assert Level(cap, rate, s, later) == Level(cap, rate, t, later);
    }
  }

  ghost function Ending(trace: seq<Request>, start: Instant): Instant {
    if trace == [] then start else trace[|trace| - 1].now
  }

  lemma {:induction false} LegacyRunHolds(cfg: Config, trace: seq<Request>, client: string, start: Instant)
    requires cfg.enabled && UsesLegacyBucket(cfg) && Nondecreasing(trace)
    ensures LegacyHolds(cfg, Run(cfg, trace), KeyHistory(cfg, trace, Client, client), client, Ending(trace, start))
  {
    if trace != [] {
      var n := |trace| - 1;
      var q, states, h := trace[n], Run(cfg, trace[..n]), KeyHistory(cfg, trace[..n], Client, client);
      var cap, rate, key := cfg.capacity as real, cfg.refillPerSecond as real, ScopeKey(Client, client);
      LegacyRunHolds(cfg, trace[..n], client, q.now);
      var clock := Ending(trace[..n], q.now);
      assert clock <= q.now;
      HistoryStep(cfg, trace, Client, client);
      if q.ctx.client == client {
        BucketSimulates(cap, rate, Lookup(states, key), h, clock, q.now);
        if LastCheck(cfg, trace).ok {
          BucketLawfulExtends(cap, rate, h, q.now);
        }
        assert Lookup(Run(cfg, trace), key) == BucketStep(cap, rate, Lookup(states, key), q.now).next;
        assert KeyHistory(cfg, trace, Client, client) == if LastCheck(cfg, trace).ok then h + [q.now] else h;
      } else {
        if ScopeKey(Client, q.ctx.client) == key {
          ScopeKeyInjective(Client, q.ctx.client, Client, client);
        }
        assert KeyHistory(cfg, trace, Client, client) == h;
        assert Lookup(Run(cfg, trace), key) == Lookup(states, key);
      }
    }
  }

  /** The legacy bucket, too, answers from its accepts alone, on every run. */
  lemma {:induction false} LegacyRefinesHistory(cfg: Config, trace: seq<Request>, q: Request)
    requires cfg.enabled && UsesLegacyBucket(cfg) && Nondecreasing(trace + [q])
    ensures Check(cfg, Run(cfg, trace), q.ctx, q.now).ok
       <==> BucketDecides(cfg.capacity as real, cfg.refillPerSecond as real,
                          KeyHistory(cfg, trace, Client, q.ctx.client), q.now)
  {
    NondecreasingPrefix(trace, q);
    LegacyRunHolds(cfg, trace, q.ctx.client, q.now);
    BucketSimulates(cfg.capacity as real, cfg.refillPerSecond as real,
                    Lookup(Run(cfg, trace), ScopeKey(Client, q.ctx.client)),
                    KeyHistory(cfg, trace, Client, q.ctx.client), Ending(trace, q.now), q.now);
  }

  /** Its accepts obey the token bound on every interval. */
  lemma {:induction false} LegacyTokenBound(cfg: Config, trace: seq<Request>, client: string, from: Instant, span: real)
    requires cfg.enabled && UsesLegacyBucket(cfg) && Nondecreasing(trace) && span >= 0.0
    ensures Count(KeyHistory(cfg, trace, Client, client), Closed(from, from + span)) as real
         <= cfg.capacity as real + cfg.refillPerSecond as real * span
  {
    var cap, rate := cfg.capacity as real, cfg.refillPerSecond as real;
    LegacyRunHolds(cfg, trace, client, from);
    BucketBound(cap, rate, KeyHistory(cfg, trace, Client, client), from, span);
  }

  // --- Legacy against staged ---

  /** The staged rule a configuration would write to replace its legacy bucket. */
  function BucketRule(cfg: Config, window: nat): Rule {
    Rule(Client, cfg.capacity, None, window, Some(TokenBucket))
  }

  function Restaged(cfg: Config, window: nat): Config {
    cfg.(scopedLimits := [BucketRule(cfg, window)])
  }

  ghost predicate SameAnswers(cfg: Config, other: Config) {
    forall trace: seq<Request> | Nondecreasing(trace) :: Accepted(cfg, trace) == Accepted(other, trace)
  }

  /** Both buckets refill alike, or neither ever holds a token. */
  predicate SameRefill(cfg: Config, window: nat) {
    cfg.capacity == 0 || cfg.refillPerSecond * (if window < 1 then 1 else window) == cfg.capacity
  }

  lemma {:induction false} RatesAgree(cfg: Config, window: nat)
    requires cfg.capacity > 0
    ensures RefillRate(BucketRule(cfg, window)) == cfg.refillPerSecond as real <==> SameRefill(cfg, window)
  {
    var w := if window < 1 then 1 else window;
    var product := cfg.refillPerSecond * w;
    assert product as real == cfg.refillPerSecond as real * w as real;
    assert RefillRate(BucketRule(cfg, window)) * w as real == cfg.capacity as real;
  }

  lemma {:induction false} RestagedRefinesHistory(cfg: Config, window: nat, trace: seq<Request>, q: Request)
    requires cfg.enabled && Nondecreasing(trace + [q])
    ensures Check(Restaged(cfg, window), Run(Restaged(cfg, window), trace), q.ctx, q.now).ok
       <==> BucketDecides(cfg.capacity as real, RefillRate(BucketRule(cfg, window)),
                          KeyHistory(Restaged(cfg, window), trace, Client, q.ctx.client), q.now)
  {
    var other, rule := Restaged(cfg, window), BucketRule(cfg, window);
    DistinctScopesKeepState(other);
    LimiterRefinesHistory(other, trace, q);
    assert EffectiveRules(other) == [rule] && rule in EffectiveRules(other);
  }

  lemma {:induction false} AgreeOn(cfg: Config, window: nat, trace: seq<Request>)
    requires cfg.enabled && UsesLegacyBucket(cfg) && SameRefill(cfg, window) && Nondecreasing(trace)
    ensures Accepted(cfg, trace) == Accepted(Restaged(cfg, window), trace)
  {
    if trace != [] {
      var n := |trace| - 1;
      AgreeOn(cfg, window, trace[..n]);
      assert trace[..n] + [trace[n]] == trace;
      LegacyRefinesHistory(cfg, trace[..n], trace[n]);
      RestagedRefinesHistory(cfg, window, trace[..n], trace[n]);
      if cfg.capacity > 0 {
        RatesAgree(cfg, window);
      }
    }
  }

  // A trace that tells two refill rates apart: empty the bucket at time zero, come back for one token.

  function Zeros(n: nat): seq<Instant> {
    seq(n, _ => 0.0)
  }

  lemma {:induction false} ZerosAreLawful(n: nat, cap: real, rate: real)
    requires cap == n as real
    ensures BucketLawful(cap, rate, Zeros(n))
  {
    forall m | 0 <= m < n
      ensures BucketAllows(cap, rate, Zeros(n), m)
    {
      forall i | 0 <= i < m
        ensures (m - i + 1) as real <= cap + rate * (0.0 - Zeros(n)[..m][i])
      {
        assert Zeros(n)[..m][i] == 0.0;
      }
    }
  }

  /** After emptying the bucket, the next token is there as soon as the rate has produced it. */
  lemma {:induction false} NextToken(cap: nat, rate: real, now: Instant)
    requires cap > 0 && rate >= 0.0 && now >= 0.0
    ensures BucketDecides(cap as real, rate, Zeros(cap), now) <==> rate * now >= 1.0
  {
    if BucketDecides(cap as real, rate, Zeros(cap), now) {
      assert Zeros(cap)[0] == 0.0;
      assert (cap + 1) as real <= cap as real + rate * (now - Zeros(cap)[0]);
    }
  }

  /** The legacy bucket accepts a burst as large as its capacity. */
  lemma {:induction false} LegacyBurst(cfg: Config, ctx: Context, n: nat)
    requires cfg.enabled && UsesLegacyBucket(cfg) && n <= cfg.capacity
    ensures var burst := Requests(ctx, Zeros(n));
            Accepted(cfg, burst) == burst && KeyHistory(cfg, burst, Client, ctx.client) == Zeros(n)
  {
    var burst := Requests(ctx, Zeros(n));
    if n > 0 {
      LegacyBurst(cfg, ctx, n - 1);
      assert burst[..n - 1] == Requests(ctx, Zeros(n - 1)) && burst[..n - 1] + [burst[n - 1]] == burst;
      LegacyRefinesHistory(cfg, burst[..n - 1], burst[n - 1]);
      ZeroAdmits(cfg.capacity, cfg.refillPerSecond as real, n - 1);
    }
    TimesOfRequests(ctx, Zeros(n), Client);
  }

  /** So does its staged replacement. */
  lemma {:induction false} RestagedBurst(cfg: Config, window: nat, ctx: Context)
    requires cfg.enabled
    ensures var burst := Requests(ctx, Zeros(cfg.capacity));
            && Accepted(Restaged(cfg, window), burst) == burst
            && KeyHistory(Restaged(cfg, window), burst, Client, ctx.client) == Zeros(cfg.capacity)
  {
    var rule, zeros := BucketRule(cfg, window), Zeros(cfg.capacity);
    forall n | 0 <= n < cfg.capacity
      ensures AllowedAt(TokenBucket, rule, zeros, n)
    {
      ZeroAdmits(cfg.capacity, RefillRate(rule), n);
      assert zeros[..n] == Zeros(n);
    }
    LawfulIsReachable(Restaged(cfg, window), rule, ctx, zeros);
  }

  lemma {:induction false} ZeroAdmits(cap: nat, rate: real, n: nat)
    requires n < cap
    ensures BucketDecides(cap as real, rate, Zeros(n), 0.0)
  {
    ZerosAreLawful(cap, cap as real, rate);
    assert BucketAllows(cap as real, rate, Zeros(cap), n) && Zeros(cap)[..n] == Zeros(n);
  }

  lemma {:induction false} SlowerProducesLess(fast: real, slow: real, t: real)
    requires t > 0.0 && slow < fast
    ensures slow * t < fast * t
  {
  }

  /** A moment at which the faster of two emptied buckets has its next token and the slower one has not. */
  lemma {:induction false} TellingTime(cap: nat, legacy: real, staged: real) returns (now: Instant)
    requires cap > 0 && legacy >= 0.0 && staged >= 0.0 && legacy != staged
    ensures now >= 0.0
    ensures BucketDecides(cap as real, legacy, Zeros(cap), now) != BucketDecides(cap as real, staged, Zeros(cap), now)
  {
    var fast := if legacy > staged then legacy else staged;
    now := 1.0 / fast;
    SlowerProducesLess(fast, if legacy > staged then staged else legacy, now);
    NextToken(cap, legacy, now);
    NextToken(cap, staged, now);
  }

  lemma {:induction false} AfterBurst(cfg: Config, window: nat, q: Request)
    requires cfg.enabled && UsesLegacyBucket(cfg) && q.now >= 0.0
    ensures var cap, zeros := cfg.capacity as real, Zeros(cfg.capacity);
            var burst, other := Requests(q.ctx, zeros), Restaged(cfg, window);
            && Nondecreasing(burst + [q])
            && (Check(cfg, Run(cfg, burst), q.ctx, q.now).ok
                <==> BucketDecides(cap, cfg.refillPerSecond as real, zeros, q.now))
            && (Check(other, Run(other, burst), q.ctx, q.now).ok
                <==> BucketDecides(cap, RefillRate(BucketRule(cfg, window)), zeros, q.now))
  {
    var burst := Requests(q.ctx, Zeros(cfg.capacity));
    LegacyBurst(cfg, q.ctx, cfg.capacity);
    RestagedBurst(cfg, window, q.ctx);
    LegacyRefinesHistory(cfg, burst, q);
    RestagedRefinesHistory(cfg, window, burst, q);
  }

  lemma {:induction false} DisagreeSomewhere(cfg: Config, window: nat) returns (trace: seq<Request>)
    requires cfg.enabled && UsesLegacyBucket(cfg) && !SameRefill(cfg, window)
    ensures Nondecreasing(trace) && Accepted(cfg, trace) != Accepted(Restaged(cfg, window), trace)
  {
    RatesAgree(cfg, window);
    var now := TellingTime(cfg.capacity, cfg.refillPerSecond as real, RefillRate(BucketRule(cfg, window)));
    var q := Request(Context("r", "s", None, "c"), now);
    var burst := Requests(q.ctx, Zeros(cfg.capacity));
    AfterBurst(cfg, window, q);
    LegacyBurst(cfg, q.ctx, cfg.capacity);
    RestagedBurst(cfg, window, q.ctx);
    trace := burst + [q];
    assert trace[..|trace| - 1] == burst;
    assert |Accepted(cfg, trace)| != |Accepted(Restaged(cfg, window), trace)|;
  }

  /**
   The two buckets are indistinguishable on all runs exactly when the staged rule refills at the
   configured rate, or the capacity is zero.
   */
  lemma {:induction false} LegacyEqualsStagedIff(cfg: Config, window: nat)
    requires cfg.enabled && UsesLegacyBucket(cfg)
    ensures SameAnswers(cfg, Restaged(cfg, window)) <==> SameRefill(cfg, window)
  {
    if SameRefill(cfg, window) {
      forall trace: seq<Request> | Nondecreasing(trace)
        ensures Accepted(cfg, trace) == Accepted(Restaged(cfg, window), trace)
      {
        AgreeOn(cfg, window, trace);
      }
    } else {
      var trace := DisagreeSomewhere(cfg, window);
    }
  }
}
