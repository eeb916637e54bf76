/** Exactly when the order of scoped rules leaves no trace, for rules without quotas and with limits of two or more. */
module RateLimitOrderExact {
  import opened Wrappers
  import opened Clock
  import opened RateLimit
  import opened RateLimitRuns
  import opened RateLimitOrder

  /** No quota, and room for two requests at once. */
  predicate Roomy(rules: seq<Rule>) {
    forall rule | rule in rules :: rule.quota == None && rule.limit >= 2
  }

  // --- Two requests always pass ---

  /** What one accept at time zero may have left behind, under whatever policy. */
  ghost predicate UsedOnce(s: LimitValue) {
    && (s.lastRefill == None || (s.lastRefill == Some(0.0) && s.tokens >= 1.0))
    && (s.windowStart == None || s.windowStart == Some(0.0)) && s.windowCount <= 1
    && |s.hits| <= 1
  }

  lemma {:induction false} DropsSome(hits: seq<Instant>, window: real, now: Instant)
    ensures |DropExpired(hits, window, now)| <= |hits|
  {
    if hits != [] && Elapsed(now, hits[0]) >= window {
      DropsSome(hits[1..], window, now);
    }
  }

  lemma {:induction false} RefillHelps(cap: real, rate: real, s: LimitValue, now: Instant)
    requires cap >= 1.0 && rate >= 0.0 && s.lastRefill.Some? && s.tokens >= 1.0
    ensures Level(cap, rate, s, now) >= 1.0
  {
    var e := Elapsed(now, s.lastRefill.value);
    assert e * rate >= 0.0;
  }

  lemma {:induction false} RoomForOneMore(policy: Policy, rule: Rule, s: LimitValue, now: Instant)
    requires rule.limit >= 2 && (s == FRESH || UsedOnce(s))
    ensures PolicyStep(policy, rule, s, now).ok
  {
    match policy
    case TokenBucket =>
      if s.lastRefill.Some? {
        RefillHelps(rule.limit as real, RefillRate(rule), s, now);
      }
    case FixedWindow =>
    case SlidingWindow => DropsSome(s.hits, WindowSeconds(rule), now);
  }

  lemma {:induction false} FirstUse(cfg: Config, rule: Rule, q: Request)
    requires rule.quota == None && rule.limit >= 2 && q.now == 0.0
    ensures var v := RuleVerdict(cfg, map[], rule, q.ctx, q.now); v.ok && UsedOnce(v.next)
  {
    RoomForOneMore(PolicyOf(cfg, rule), rule, FRESH, 0.0);
  }

  lemma {:induction false} FirstPasses(cfg: Config, q: Request)
    requires cfg.enabled && cfg.scopedLimits != [] && Roomy(cfg.scopedLimits) && q.now == 0.0
    ensures AllAdmit(cfg, map[], cfg.scopedLimits, q.ctx, q.now)
    ensures Run(cfg, [q]) == Commit(cfg, map[], cfg.scopedLimits, q.ctx, q.now)
  {
    forall i | 0 <= i < |cfg.scopedLimits|
      ensures RuleVerdict(cfg, map[], cfg.scopedLimits[i], q.ctx, q.now).ok
    {
      FirstUse(cfg, cfg.scopedLimits[i], q);
    }
    assert [q][..0] == [] && Run(cfg, []) == map[];
    assert LastCheck(cfg, [q]) == Check(cfg, map[], q.ctx, q.now);
  }

  /** After the first request each key of the caller has been used once. */
  lemma {:induction false} UsedAfterFirst(cfg: Config, q: Request, i: nat)
    requires cfg.enabled && Roomy(cfg.scopedLimits) && i < |cfg.scopedLimits| && q.now == 0.0
    ensures UsedOnce(Lookup(Run(cfg, [q]), KeyFor(cfg.scopedLimits[i], q.ctx)))
  {
    var j := LastExists(cfg.scopedLimits, i);
    FirstPasses(cfg, q);
    CommitAt(cfg, map[], cfg.scopedLimits, q, j);
    FirstUse(cfg, cfg.scopedLimits[j], q);
  }

  lemma {:induction false} SecondPasses(cfg: Config, p: Request, q: Request)
    requires cfg.enabled && cfg.scopedLimits != [] && Roomy(cfg.scopedLimits) && p.now == 0.0 && q.ctx == p.ctx
    ensures AllAdmit(cfg, Run(cfg, [p]), cfg.scopedLimits, q.ctx, q.now)
    ensures Run(cfg, [p, q]) == Commit(cfg, Run(cfg, [p]), cfg.scopedLimits, q.ctx, q.now)
  {
    forall i | 0 <= i < |cfg.scopedLimits|
      ensures RuleVerdict(cfg, Run(cfg, [p]), cfg.scopedLimits[i], q.ctx, q.now).ok
    {
      var rule := cfg.scopedLimits[i];
      UsedAfterFirst(cfg, p, i);
      RoomForOneMore(PolicyOf(cfg, rule), rule, Lookup(Run(cfg, [p]), KeyFor(rule, q.ctx)), q.now);
    }
    assert [p, q][..1] == [p];
    assert LastCheck(cfg, [p, q]) == Check(cfg, Run(cfg, [p]), q.ctx, q.now);
  }

  // --- Rules that do not keep alike ---

  /** The content after one accept at zero. */
  ghost function After(cfg: Config, rule: Rule): LimitValue {
    PolicyStep(PolicyOf(cfg, rule), rule, FRESH, 0.0).next.(acceptedTotal := 1)
  }

  ghost function AfterTwo(cfg: Config, rule: Rule, now: Instant): LimitValue {
    PolicyStep(PolicyOf(cfg, rule), rule, After(cfg, rule), now).next.(acceptedTotal := 2)
  }

  lemma {:induction false} ContentAfterFirst(cfg: Config, q: Request, i: nat)
    requires cfg.enabled && Roomy(cfg.scopedLimits) && LastOfScope(cfg.scopedLimits, i) && q.now == 0.0
    ensures Lookup(Run(cfg, [q]), KeyFor(cfg.scopedLimits[i], q.ctx)) == After(cfg, cfg.scopedLimits[i])
  {
    FirstPasses(cfg, q);
    CommitAt(cfg, map[], cfg.scopedLimits, q, i);
    FirstUse(cfg, cfg.scopedLimits[i], q);
    assert FRESH.acceptedTotal == 0;
  }

  lemma {:induction false} ContentAfterSecond(cfg: Config, p: Request, q: Request, i: nat)
    requires cfg.enabled && Roomy(cfg.scopedLimits) && LastOfScope(cfg.scopedLimits, i) && p.now == 0.0 && q.ctx == p.ctx
    ensures Lookup(Run(cfg, [p, q]), KeyFor(cfg.scopedLimits[i], q.ctx)) == AfterTwo(cfg, cfg.scopedLimits[i], q.now)
  {
    var rule := cfg.scopedLimits[i];
    ContentAfterFirst(cfg, p, i);
    SecondPasses(cfg, p, q);
    CommitAt(cfg, Run(cfg, [p]), cfg.scopedLimits, q, i);
    assert RuleVerdict(cfg, Run(cfg, [p]), rule, q.ctx, q.now).ok;
  }

  /** The first accept tells policies and the sizes of buckets apart. */
  lemma {:induction false} FirstTells(cfg: Config, r: Rule, s: Rule)
    requires r.limit >= 2 && s.limit >= 2
    requires PolicyOf(cfg, r) != PolicyOf(cfg, s) || (PolicyOf(cfg, r) == TokenBucket && r.limit != s.limit)
    ensures After(cfg, r) != After(cfg, s)
  {
    match PolicyOf(cfg, r)
    case TokenBucket =>
      assert After(cfg, r).tokens == r.limit as real - 1.0 && After(cfg, r).lastRefill == Some(0.0);
    case FixedWindow =>
      assert After(cfg, r).windowStart == Some(0.0);
    case SlidingWindow =>
      assert After(cfg, r).hits == [0.0];
  }

  /** A moment at which a second accept tells two windows apart. */
  lemma {:induction false} SecondTells(cfg: Config, r: Rule, s: Rule) returns (now: Instant)
    requires r.limit >= 2 && s.limit >= 2 && PolicyOf(cfg, r) == PolicyOf(cfg, s)
    requires PolicyOf(cfg, r) == TokenBucket ==> r.limit == s.limit
    requires WindowSeconds(r) < WindowSeconds(s)
    ensures AfterTwo(cfg, r, now) != AfterTwo(cfg, s, now)
  {
    match PolicyOf(cfg, r)
    case TokenBucket =>
      now := BucketsTell(cfg, r, s);
    case FixedWindow =>
      now := WindowSeconds(r);
      FixedAfterTwo(r, now);
      FixedAfterTwo(s, now);
      assert AfterTwo(cfg, r, now).windowStart != AfterTwo(cfg, s, now).windowStart;
    case SlidingWindow =>
      now := WindowSeconds(r);
      SlidingAfterTwo(r, now);
      SlidingAfterTwo(s, now);
      assert |AfterTwo(cfg, r, now).hits| != |AfterTwo(cfg, s, now).hits|;
  }

  lemma {:induction false} FixedAfterTwo(rule: Rule, now: Instant)
    requires rule.limit >= 2 && now > 0.0
    ensures var first := FixedStep(rule.limit, WindowSeconds(rule), FRESH, 0.0).next.(acceptedTotal := 1);
            FixedStep(rule.limit, WindowSeconds(rule), first, now).next.windowStart
            == Some(if now >= WindowSeconds(rule) then now else 0.0)
  {
  }

  lemma {:induction false} SlidingAfterTwo(rule: Rule, now: Instant)
    requires rule.limit >= 2 && now > 0.0
    ensures var first := SlidingStep(rule.limit, WindowSeconds(rule), FRESH, 0.0).next.(acceptedTotal := 1);
            |SlidingStep(rule.limit, WindowSeconds(rule), first, now).next.hits| == if now >= WindowSeconds(rule) then 1 else 2
  {
    assert SlidingStep(rule.limit, WindowSeconds(rule), FRESH, 0.0).next.hits == [0.0];
    assert [0.0][1..] == [];
    assert DropExpired([0.0], WindowSeconds(rule), now) == if now >= WindowSeconds(rule) then [] else [0.0];
  }

  /** So early that neither bucket is full again, and late enough to have refilled. */
  lemma {:induction false} SlowRefill(r: Rule, s: Rule) returns (now: Instant, more: real, less: real)
    requires r.limit == s.limit >= 2 && WindowSeconds(r) < WindowSeconds(s)
    ensures now > 0.0 && more == now * RefillRate(r) && less == now * RefillRate(s)
    ensures 0.0 <= less < more <= 1.0
  {
    var l, v, w := r.limit as real, WindowSeconds(r), WindowSeconds(s);
    now, more, less := v / l, 1.0, v / w;
    assert now * l == v;
    Refills(l, v, now, v);
    Refills(l, w, now, v);
    assert v / v == 1.0;
    assert less * w == v;
  }

  lemma {:induction false} Refills(l: real, w: real, now: real, v: real)
    requires w > 0.0 && now * l == v
    ensures now * (l / w) == v / w
  {
    assert now * (l / w) * w == now * (l / w * w);
    assert l / w * w == l;
  }

  lemma {:induction false} BucketAfterTwo(rule: Rule, now: Instant, gain: real)
    requires rule.limit >= 2 && now > 0.0 && gain == now * RefillRate(rule) && 0.0 <= gain <= 1.0
    ensures var first := BucketStep(rule.limit as real, RefillRate(rule), FRESH, 0.0).next.(acceptedTotal := 1);
            BucketStep(rule.limit as real, RefillRate(rule), first, now).next.tokens == rule.limit as real - 2.0 + gain
  {
  }

  lemma {:induction false} BucketsTell(cfg: Config, r: Rule, s: Rule) returns (now: Instant)
    requires r.limit == s.limit >= 2 && PolicyOf(cfg, r) == PolicyOf(cfg, s) == TokenBucket
    requires WindowSeconds(r) < WindowSeconds(s)
    ensures AfterTwo(cfg, r, now) != AfterTwo(cfg, s, now)
  {
    var more, less;
    now, more, less := SlowRefill(r, s);
    BucketAfterTwo(r, now, more);
    BucketAfterTwo(s, now, less);
    assert AfterTwo(cfg, r, now).tokens == r.limit as real - 2.0 + more;
    assert AfterTwo(cfg, s, now).tokens == s.limit as real - 2.0 + less;
  }

  /** If the last rules of a scope do not keep alike, one or two requests leave different contents. */
  lemma {:induction false} OrderShows(cfg: Config, other: Config, i: nat, j: nat) returns (trace: seq<Request>)
    requires cfg.enabled && other == cfg.(scopedLimits := other.scopedLimits)
    requires Roomy(cfg.scopedLimits) && Roomy(other.scopedLimits)
    requires LastOfScope(cfg.scopedLimits, i) && LastOfScope(other.scopedLimits, j)
    requires cfg.scopedLimits[i].scope == other.scopedLimits[j].scope
    requires !KeepAlike(cfg, cfg.scopedLimits[i], other.scopedLimits[j])
    ensures Run(cfg, trace) != Run(other, trace)
  {
    var r, s := cfg.scopedLimits[i], other.scopedLimits[j];
    var p := Request(Context("r", "s", None, "c"), 0.0);
    if PolicyOf(cfg, r) != PolicyOf(cfg, s) || (PolicyOf(cfg, r) == TokenBucket && r.limit != s.limit) {
      trace := [p];
      FirstTells(cfg, r, s);
      ContentAfterFirst(cfg, p, i);
      ContentAfterFirst(other, p, j);
      assert After(cfg, s) == After(other, s);
    } else {
      var now;
      if WindowSeconds(r) < WindowSeconds(s) {
        now := SecondTells(cfg, r, s);
      } else {
        now := SecondTells(cfg, s, r);
      }
      var q := Request(p.ctx, now);
      trace := [p, q];
      ContentAfterSecond(cfg, p, q, i);
      ContentAfterSecond(other, p, q, j);
      assert AfterTwo(cfg, s, now) == AfterTwo(other, s, now);
    }
  }

  ghost predicate SameRuns(cfg: Config, other: Config) {
    forall trace: seq<Request> :: Run(cfg, trace) == Run(other, trace)
  }

  /** A reordering leaves every state on every run as it was exactly when the last rules of each scope keep alike. */
  lemma {:induction false} SameRunsIff(cfg: Config, other: Config)
    requires cfg.enabled && other == cfg.(scopedLimits := other.scopedLimits)
    requires Roomy(cfg.scopedLimits) && multiset(cfg.scopedLimits) == multiset(other.scopedLimits)
    ensures SameRuns(cfg, other) <==> SameUpToOrder(cfg, cfg.scopedLimits, other.scopedLimits)
  {
    if SameUpToOrder(cfg, cfg.scopedLimits, other.scopedLimits) {
      forall trace: seq<Request>
        ensures Run(cfg, trace) == Run(other, trace)
      {
        RunIgnoresOrder(cfg, other, trace);
      }
    } else {
      var i: nat, j: nat :| LastOfScope(cfg.scopedLimits, i) && LastOfScope(other.scopedLimits, j)
        && cfg.scopedLimits[i].scope == other.scopedLimits[j].scope
        && !KeepAlike(cfg, cfg.scopedLimits[i], other.scopedLimits[j]);
      forall rule | rule in other.scopedLimits
        ensures rule.quota == None && rule.limit >= 2
      {
        SameMembers(cfg.scopedLimits, other.scopedLimits, rule);
      }
      var trace := OrderShows(cfg, other, i, j);
    }
  }
}
