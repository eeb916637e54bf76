/**
 The bucket used without scoped limits, under late readings. It stores the refill of rejected requests, so a
 rejected late reading sets the time back for nothing and the next one refills the same time again.
 */
module RateLimitLateLegacy {
  import opened Wrappers
  import opened Clock
  import opened History
  import opened RateLimit
  import opened RateLimitRuns
  import opened RateLimitSharp
  import opened RateLimitLegacy
  import opened RateLimitSkew
  import opened RateLimitLate

  ghost predicate LegacyBoundedBy(cfg: Config, skew: real, span: real, bound: nat) {
    forall trace: seq<Request>, client: string, from: Instant | SkewedBy(trace, skew) ::
      Between(KeyHistory(cfg, trace, Client, client), from, span) <= bound
  }

  ghost predicate LegacyHasBound(cfg: Config, skew: real, span: real) {
    exists bound: nat :: LegacyBoundedBy(cfg, skew, span, bound)
  }

  ghost predicate LegacyStaysBounded(cfg: Config, skew: real) {
    forall span: real | span >= 0.0 :: LegacyHasBound(cfg, skew, span)
  }

  ghost function KeyOf(ctx: Context): string {
    ScopeKey(Client, ctx.client)
  }

  ghost function StepOf(cfg: Config, states: States, q: Request): Verdict {
    BucketStep(cfg.capacity as real, cfg.refillPerSecond as real, Lookup(states, KeyOf(q.ctx)), q.now)
  }

  /** One more request. */
  lemma {:induction false} LegacyNext(cfg: Config, trace: seq<Request>, q: Request)
    requires cfg.enabled && UsesLegacyBucket(cfg)
    ensures var v := StepOf(cfg, Run(cfg, trace), q);
            && Lookup(Run(cfg, trace + [q]), KeyOf(q.ctx)) == v.next
            && LastCheck(cfg, trace + [q]).ok == v.ok
    ensures |Accepted(cfg, trace + [q])| == |Accepted(cfg, trace)| + if LastCheck(cfg, trace + [q]).ok then 1 else 0
  {
    var more := trace + [q];
    assert more[..|trace|] == trace && more[|trace|] == q;
    assert LastCheck(cfg, more) == Check(cfg, Run(cfg, trace), q.ctx, q.now);
  }

  // --- Bounded ---

  /** Nothing is refilled: what was accepted and what is left never exceed the capacity. */
  ghost predicate Spends(cfg: Config, s: LimitValue, h: seq<Instant>) {
    if s.lastRefill == None then h == []
    else s.tokens >= 0.0 && |h| as real + s.tokens <= cfg.capacity as real
  }

  lemma {:induction false} SpendsStep(cfg: Config, s: LimitValue, h: seq<Instant>, now: Instant)
    requires cfg.capacity == 0 || cfg.refillPerSecond == 0
    requires Spends(cfg, s, h)
    ensures var v := BucketStep(cfg.capacity as real, cfg.refillPerSecond as real, s, now);
            Spends(cfg, v.next, if v.ok then h + [now] else h)
  {
    if s.lastRefill.Some? && cfg.refillPerSecond == 0 {
      assert Elapsed(now, s.lastRefill.value) * 0.0 == 0.0;
    } else if s.lastRefill.Some? {
      NeverNegative(Elapsed(now, s.lastRefill.value), cfg.refillPerSecond as real);
    }
  }

  lemma {:induction false} NeverNegative(a: real, b: real)
    requires a >= 0.0 && b >= 0.0
    ensures a * b >= 0.0
  {
  }

  lemma {:induction false} LegacySpends(cfg: Config, trace: seq<Request>, client: string)
    requires cfg.enabled && UsesLegacyBucket(cfg) && (cfg.capacity == 0 || cfg.refillPerSecond == 0)
    ensures Spends(cfg, Lookup(Run(cfg, trace), ScopeKey(Client, client)), KeyHistory(cfg, trace, Client, client))
  {
    if trace != [] {
      var n := |trace| - 1;
      var q, states, h := trace[n], Run(cfg, trace[..n]), KeyHistory(cfg, trace[..n], Client, client);
      LegacySpends(cfg, trace[..n], client);
      HistoryStep(cfg, trace, Client, client);
      if q.ctx.client == client {
        SpendsStep(cfg, Lookup(states, ScopeKey(Client, client)), h, q.now);
        assert KeyHistory(cfg, trace, Client, client) == if LastCheck(cfg, trace).ok then h + [q.now] else h;
      } else {
        if KeyOf(q.ctx) == ScopeKey(Client, client) {
          ScopeKeyInjective(Client, q.ctx.client, Client, client);
        }
        assert KeyHistory(cfg, trace, Client, client) == h;
      }
    }
  }

  lemma {:induction false} FewEnough(h: seq<Instant>, from: Instant, span: real)
    ensures Between(h, from, span) <= |h|
  {
    CountAtMost(h, Closed(from, from + span));
  }

  lemma {:induction false} SpendingIsBounded(cfg: Config, skew: real, span: real)
    requires cfg.enabled && UsesLegacyBucket(cfg) && (cfg.capacity == 0 || cfg.refillPerSecond == 0)
    ensures LegacyHasBound(cfg, skew, span)
  {
    forall trace: seq<Request>, client: string, from: Instant | SkewedBy(trace, skew)
      ensures Between(KeyHistory(cfg, trace, Client, client), from, span) <= cfg.capacity
    {
      LegacySpends(cfg, trace, client);
      FewEnough(KeyHistory(cfg, trace, Client, client), from, span);
    }
    assert LegacyBoundedBy(cfg, skew, span, cfg.capacity);
  }

  lemma {:induction false} InOrderIsBounded(cfg: Config, span: real)
    requires cfg.enabled && UsesLegacyBucket(cfg) && span >= 0.0
    ensures LegacyHasBound(cfg, 0.0, span)
  {
    var budget := cfg.capacity as real + cfg.refillPerSecond as real * span;
    NeverNegative(cfg.refillPerSecond as real, span);
    var bound: nat := budget.Floor;
    forall trace: seq<Request>, client: string, from: Instant | SkewedBy(trace, 0.0)
      ensures Between(KeyHistory(cfg, trace, Client, client), from, span) <= bound
    {
      assert Nondecreasing(trace);
      LegacyTokenBound(cfg, trace, client, from, span);
    }
    assert LegacyBoundedBy(cfg, 0.0, span, bound);
  }

  // --- Not bounded ---

  /** Requests of one caller between zero and `skew`. */
  ghost predicate InRange(ctx: Context, trace: seq<Request>, skew: real) {
    forall i | 0 <= i < |trace| :: trace[i].ctx == ctx && 0.0 <= trace[i].now <= skew
  }

  ghost function TokensOf(cfg: Config, ctx: Context, trace: seq<Request>): real {
    Lookup(Run(cfg, trace), KeyOf(ctx)).tokens
  }

  lemma {:induction false} DownStep(cap: real, rate: real, s: LimitValue)
    requires cap >= 1.0 && rate >= 0.0 && !BucketStep(cap, rate, s, 0.0).ok
    ensures s.tokens < 1.0
    ensures var t := BucketStep(cap, rate, s, 0.0).next; t.tokens >= s.tokens && t.lastRefill == Some(0.0)
  {
    if s.lastRefill.Some? {
      NeverNegative(Elapsed(0.0, s.lastRefill.value), rate);
    }
  }

  lemma {:induction false} UpStep(cap: real, rate: real, s: LimitValue, skew: real)
    requires cap >= 1.0 && skew >= 0.0 && s.lastRefill == Some(0.0) && !BucketStep(cap, rate, s, skew).ok
    ensures BucketStep(cap, rate, s, skew).next.tokens == s.tokens + rate * skew
  {
    assert Elapsed(skew, 0.0) == skew;
    assert skew * rate == rate * skew;
  }

  /** A rejected reading at zero takes nothing and sets the time back. */
  lemma {:induction false} DownKeeps(cfg: Config, ctx: Context, trace: seq<Request>)
    requires cfg.enabled && UsesLegacyBucket(cfg) && cfg.capacity >= 1
    requires !LastCheck(cfg, trace + [Request(ctx, 0.0)]).ok
    ensures TokensOf(cfg, ctx, trace) < 1.0
    ensures TokensOf(cfg, ctx, trace + [Request(ctx, 0.0)]) >= TokensOf(cfg, ctx, trace)
    ensures Lookup(Run(cfg, trace + [Request(ctx, 0.0)]), KeyOf(ctx)).lastRefill == Some(0.0)
  {
    LegacyNext(cfg, trace, Request(ctx, 0.0));
    DownStep(cfg.capacity as real, cfg.refillPerSecond as real, Lookup(Run(cfg, trace), KeyOf(ctx)));
  }

  /** A rejected reading at `skew` after it brings the refill of `skew`. */
  lemma {:induction false} UpRefills(cfg: Config, ctx: Context, trace: seq<Request>, skew: real)
    requires cfg.enabled && UsesLegacyBucket(cfg) && cfg.capacity >= 1 && skew >= 0.0
    requires Lookup(Run(cfg, trace), KeyOf(ctx)).lastRefill == Some(0.0)
    requires !LastCheck(cfg, trace + [Request(ctx, skew)]).ok
    ensures TokensOf(cfg, ctx, trace + [Request(ctx, skew)]) == TokensOf(cfg, ctx, trace) + cfg.refillPerSecond as real * skew
  {
    LegacyNext(cfg, trace, Request(ctx, skew));
    UpStep(cfg.capacity as real, cfg.refillPerSecond as real, Lookup(Run(cfg, trace), KeyOf(ctx)), skew);
  }

  lemma {:induction false} SwingCounts(cfg: Config, ctx: Context, trace: seq<Request>, skew: real)
    requires cfg.enabled && UsesLegacyBucket(cfg)
    ensures var down, up := Request(ctx, 0.0), Request(ctx, skew);
            && |Accepted(cfg, trace + [down])| == |Accepted(cfg, trace)| + (if LastCheck(cfg, trace + [down]).ok then 1 else 0)
            && |Accepted(cfg, trace + [down] + [up])|
               == |Accepted(cfg, trace + [down])| + if LastCheck(cfg, trace + [down] + [up]).ok then 1 else 0
  {
    LegacyNext(cfg, trace, Request(ctx, 0.0));
    LegacyNext(cfg, trace + [Request(ctx, 0.0)], Request(ctx, skew));
  }

  /** Swing until the bucket holds a token: `q` refills are enough. */
  lemma {:induction false} OneMore(cfg: Config, ctx: Context, trace: seq<Request>, skew: real, q: nat) returns (more: seq<Request>)
    requires cfg.enabled && UsesLegacyBucket(cfg) && cfg.capacity >= 1 && skew >= 0.0
    requires InRange(ctx, trace, skew)
    requires TokensOf(cfg, ctx, trace) + RateLimitLate.Times(cfg.refillPerSecond as real * skew, q) >= 1.0
    ensures InRange(ctx, more, skew) && |Accepted(cfg, more)| > |Accepted(cfg, trace)|
    decreases q
  {
    var down, up, x := Request(ctx, 0.0), Request(ctx, skew), cfg.refillPerSecond as real * skew;
    SwingCounts(cfg, ctx, trace, skew);
    more := trace + [down];
    if !LastCheck(cfg, more).ok {
      DownKeeps(cfg, ctx, trace);
      more := trace + [down] + [up];
      if !LastCheck(cfg, more).ok {
        UpRefills(cfg, ctx, trace + [down], skew);
        assert q > 0 && RateLimitLate.Times(x, q) == RateLimitLate.Times(x, q - 1) + x;
        more := OneMore(cfg, ctx, more, skew, q - 1);
      }
    }
  }

  lemma {:induction false} Reach(x: real, a: real) returns (q: nat)
    requires x > 0.0
    ensures RateLimitLate.Times(x, q) >= a
  {
    var r := if a <= 0.0 then 0.0 else a / x;
    q := r.Floor + 1;
    if a > 0.0 {
      assert x * r == a;
      Scale(x, r, q as real);
    } else {
      NeverNegative(x, q as real);
    }
  }

  lemma {:induction false} Many(cfg: Config, ctx: Context, skew: real, n: nat) returns (trace: seq<Request>)
    requires cfg.enabled && UsesLegacyBucket(cfg) && cfg.capacity >= 1 && cfg.refillPerSecond >= 1 && skew > 0.0
    ensures InRange(ctx, trace, skew) && |Accepted(cfg, trace)| >= n
  {
    if n == 0 {
      trace := [];
    } else {
      var before := Many(cfg, ctx, skew, n - 1);
      var x := cfg.refillPerSecond as real * skew;
      Scale(skew, 1.0, cfg.refillPerSecond as real);
      assert x == skew * cfg.refillPerSecond as real;
      var q := Reach(x, 1.0 - TokensOf(cfg, ctx, before));
      trace := OneMore(cfg, ctx, before, skew, q);
    }
  }

  lemma {:induction false} AcceptedInRange(cfg: Config, ctx: Context, trace: seq<Request>, skew: real)
    requires InRange(ctx, trace, skew)
    ensures InRange(ctx, Accepted(cfg, trace), skew)
  {
    if trace != [] {
      AcceptedInRange(cfg, ctx, trace[..|trace| - 1], skew);
    }
  }

  lemma {:induction false} TimesInRange(ctx: Context, requests: seq<Request>, skew: real)
    requires InRange(ctx, requests, skew)
    ensures var h := RateLimitRuns.Times(requests, Client, ctx.client);
            |h| == |requests| && forall i | 0 <= i < |h| :: Closed(0.0, 0.0 + skew)(h[i])
  {
    if requests != [] {
      TimesInRange(ctx, requests[..|requests| - 1], skew);
    }
  }

  lemma {:induction false} LegacyExceeds(cfg: Config, skew: real, n: nat) returns (trace: seq<Request>)
    requires cfg.enabled && UsesLegacyBucket(cfg) && cfg.capacity >= 1 && cfg.refillPerSecond >= 1 && skew > 0.0
    ensures SkewedBy(trace, skew)
    ensures Between(KeyHistory(cfg, trace, Client, "c"), 0.0, skew) >= n
  {
    var ctx := Context("r", "s", None, "c");
    trace := Many(cfg, ctx, skew, n);
    AcceptedInRange(cfg, ctx, trace, skew);
    TimesInRange(ctx, Accepted(cfg, trace), skew);
    CountAll(KeyHistory(cfg, trace, Client, "c"), Closed(0.0, 0.0 + skew));
  }

  /** The legacy bucket keeps a bound under late readings exactly when it never holds a token, never refills, or no reading is late. */
  lemma {:induction false} LegacyStaysBoundedIff(cfg: Config, skew: real)
    requires cfg.enabled && UsesLegacyBucket(cfg) && skew >= 0.0
    ensures LegacyStaysBounded(cfg, skew) <==> cfg.capacity == 0 || cfg.refillPerSecond == 0 || skew == 0.0
  {
    if cfg.capacity == 0 || cfg.refillPerSecond == 0 || skew == 0.0 {
      forall span: real | span >= 0.0
        ensures LegacyHasBound(cfg, skew, span)
      {
        if skew == 0.0 {
          InOrderIsBounded(cfg, span);
        } else {
          SpendingIsBounded(cfg, skew, span);
        }
      }
    } else {
      forall bound: nat
        ensures !LegacyBoundedBy(cfg, skew, skew, bound)
      {
        var trace := LegacyExceeds(cfg, skew, bound + 1);
        assert SkewedBy(trace, skew);
      }
      assert !LegacyHasBound(cfg, skew, skew);
    }
  }
}
