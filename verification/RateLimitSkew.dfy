/**
 The limiter reads its clock before it takes its lock, so a request can be judged by an older reading
 than the one before it. What the sliding window still guarantees, and what it does not.
 */
module RateLimitSkew {
  import opened Wrappers
  import opened Clock
  import opened History
  import opened RateLimit
  import opened RateLimitPolicies
  import opened RateLimitRuns
  import opened RateLimitBounds
  import opened RateLimitSharp

  /** In lock order no reading lies more than `skew` before an earlier one. */
  ghost predicate SkewedBy(trace: seq<Request>, skew: real) {
    forall i, j | 0 <= i <= j < |trace| :: trace[i].now <= trace[j].now + skew
  }

  // --- The deque without an ordered clock ---

  /** The latest reading among the accepts. */
  ghost function Latest(h: seq<Instant>): Instant
    requires h != []
  {
    var last := h[|h| - 1];
    if |h| == 1 then last
    else
      var before := Latest(h[..|h| - 1]);
      if before >= last then before else last
  }

  lemma {:induction false} LatestAppend(h: seq<Instant>, now: Instant)
    requires h != []
    ensures Latest(h + [now]) == if Latest(h) >= now then Latest(h) else now
  {
    assert (h + [now])[..|h|] == h;
  }

  lemma {:induction false} LatestWithin(h: seq<Instant>, bound: Instant)
    requires h != [] && forall m | 0 <= m < |h| :: h[m] <= bound
    ensures Latest(h) <= bound
  {
    if |h| > 1 {
      LatestWithin(h[..|h| - 1], bound);
    }
  }

  /** An accept came a whole window later, by its reading. */
  ghost predicate Outlived(window: real, h: seq<Instant>, t: Instant)
    requires h != []
  {
    Latest(h) - t >= window
  }

  /** The deque misses only outlived accepts. */
  ghost predicate Pruned(window: real, hits: seq<Instant>, h: seq<Instant>, d: nat) {
    d <= |h| && hits == h[d..] && forall i | 0 <= i < d :: Outlived(window, h, h[i])
  }

  ghost predicate IsPruned(window: real, hits: seq<Instant>, h: seq<Instant>) {
    exists d: nat :: Pruned(window, hits, h, d)
  }

  lemma {:induction false} DropPrefix(hits: seq<Instant>, window: real, now: Instant) returns (e: nat)
    ensures e <= |hits| && DropExpired(hits, window, now) == hits[e..]
    ensures forall i | 0 <= i < e :: Elapsed(now, hits[i]) >= window
  {
    if hits != [] && Elapsed(now, hits[0]) >= window {
      var f := DropPrefix(hits[1..], window, now);
      e := f + 1;
      assert forall i | 0 < i < e :: hits[i] == hits[1..][i - 1];
    } else {
      e := 0;
    }
  }

  lemma {:induction false} CountTail(h: seq<Instant>, p: Instant -> bool, k: nat)
    requires k <= |h| && forall i | 0 <= i < k :: !p(h[i])
    ensures Count(h, p) <= |h| - k
  {
    CountNone(h[..k], p);
    CountAtMost(h[k..], p);
    CountAppend(h[..k], h[k..], p);
    assert h[..k] + h[k..] == h;
  }

  /** Accept `n` came when fewer than `limit` earlier ones were younger than `span`. */
  ghost predicate Spaced(limit: nat, span: real, h: seq<Instant>, n: nat)
    requires n < |h|
  {
    Count(h[..n], LiveAt(h[n], span)) < limit
  }

  /** What an earlier accept outlived is old for this reading, too. */
  lemma {:induction false} OutlivedIsOld(window: real, skew: real, h: seq<Instant>, t: Instant, now: Instant)
    requires h != [] && Outlived(window, h, t) && skew < window
    requires forall m | 0 <= m < |h| :: h[m] <= now + skew
    ensures !LiveAt(now, window - skew)(t)
    ensures Outlived(window, h + [now], t)
  {
    LatestWithin(h, now + skew);
    LatestAppend(h, now);
  }

  lemma {:induction false} ExpiredIsOutlived(window: real, skew: real, h: seq<Instant>, t: Instant, now: Instant)
    requires Elapsed(now, t) >= window > 0.0 && 0.0 <= skew < window
    ensures !LiveAt(now, window - skew)(t)
    ensures Outlived(window, h + [now], t)
  {
    if h != [] {
      LatestAppend(h, now);
    }
  }

  lemma {:induction false} PrunedStep(limit: nat, window: real, skew: real, hits: seq<Instant>, h: seq<Instant>, now: Instant)
    requires window > 0.0 && 0.0 <= skew < window && IsPruned(window, hits, h)
    requires forall m | 0 <= m < |h| :: h[m] <= now + skew
    requires |DropExpired(hits, window, now)| < limit
    ensures IsPruned(window, DropExpired(hits, window, now) + [now], h + [now])
    ensures Spaced(limit, window - skew, h + [now], |h|)
  {
    var d: nat :| Pruned(window, hits, h, d);
    var e := DropPrefix(hits, window, now);
    PrunedFurther(limit, window, skew, hits, h, now, d, e);
  }

  lemma {:induction false} PrunedFurther(
    limit: nat, window: real, skew: real, hits: seq<Instant>, h: seq<Instant>, now: Instant, d: nat, e: nat)
    requires window > 0.0 && 0.0 <= skew < window && Pruned(window, hits, h, d)
    requires forall m | 0 <= m < |h| :: h[m] <= now + skew
    requires e <= |hits| && |hits[e..]| < limit && forall i | 0 <= i < e :: Elapsed(now, hits[i]) >= window
    ensures IsPruned(window, hits[e..] + [now], h + [now])
    ensures Spaced(limit, window - skew, h + [now], |h|)
  {
    OldOnes(window, skew, hits, h, now, d, e);
    PrunedAt(limit, window, window - skew, hits[e..], h, now, d + e);
  }

  lemma {:induction false} PrunedAt(
    limit: nat, window: real, span: real, live: seq<Instant>, h: seq<Instant>, now: Instant, d: nat)
    requires d <= |h| && live == h[d..] && |live| < limit
    requires forall i | 0 <= i < d :: Outlived(window, h + [now], h[i]) && !LiveAt(now, span)(h[i])
    ensures IsPruned(window, live + [now], h + [now])
    ensures Spaced(limit, span, h + [now], |h|)
  {
    PrunedBy(window, h, now, d);
    CountTail(h, LiveAt(now, span), d);
    assert (h + [now])[..|h|] == h;
  }

  /** What was missing and what is dropped now. */
  lemma {:induction false} OldOnes(window: real, skew: real, hits: seq<Instant>, h: seq<Instant>, now: Instant, d: nat, e: nat)
    requires window > 0.0 && 0.0 <= skew < window && Pruned(window, hits, h, d)
    requires forall m | 0 <= m < |h| :: h[m] <= now + skew
    requires e <= |hits| && forall i | 0 <= i < e :: Elapsed(now, hits[i]) >= window
    ensures d + e <= |h| && hits[e..] == h[d + e..]
    ensures forall i | 0 <= i < d + e :: Outlived(window, h + [now], h[i]) && !LiveAt(now, window - skew)(h[i])
  {
    forall i | 0 <= i < d + e
      ensures Outlived(window, h + [now], h[i]) && !LiveAt(now, window - skew)(h[i])
    {
      if i < d {
        OutlivedIsOld(window, skew, h, h[i], now);
      } else {
        assert hits[i - d] == h[i];
        ExpiredIsOutlived(window, skew, h, h[i], now);
      }
    }
  }

  lemma {:induction false} PrunedBy(window: real, h: seq<Instant>, now: Instant, d: nat)
    requires d <= |h| && forall i | 0 <= i < d :: Outlived(window, h + [now], h[i])
    ensures IsPruned(window, h[d..] + [now], h + [now])
  {
    assert Pruned(window, h[d..] + [now], h + [now], d);
  }

  lemma {:induction false} HistoryWithin(cfg: Config, trace: seq<Request>, scope: Scope, value: string, bound: Instant)
    requires forall i | 0 <= i < |trace| :: trace[i].now <= bound
    ensures var h := KeyHistory(cfg, trace, scope, value); forall m | 0 <= m < |h| :: h[m] <= bound
  {
    if trace != [] {
      HistoryStep(cfg, trace, scope, value);
      HistoryWithin(cfg, trace[..|trace| - 1], scope, value, bound);
    }
  }

  ghost predicate AllSpaced(limit: nat, span: real, h: seq<Instant>) {
    forall n | 0 <= n < |h| :: Spaced(limit, span, h, n)
  }

  lemma {:induction false} SpacedExtends(limit: nat, span: real, h: seq<Instant>, now: Instant)
    requires AllSpaced(limit, span, h) && Spaced(limit, span, h + [now], |h|)
    ensures AllSpaced(limit, span, h + [now])
  {
    forall n | 0 <= n < |h| + 1
      ensures Spaced(limit, span, h + [now], n)
    {
      if n < |h| {
        assert Spaced(limit, span, h, n) && (h + [now])[..n] == h[..n];
      }
    }
  }

  /** The content of a key and its accepts on a run with late readings. */
  ghost predicate SkewHolds(limit: nat, window: real, skew: real, s: LimitValue, h: seq<Instant>) {
    IsPruned(window, s.hits, h) && AllSpaced(limit, window - skew, h)
  }

  lemma {:induction false} SkewHoldsStep(limit: nat, window: real, skew: real, s: LimitValue, h: seq<Instant>, now: Instant)
    requires 0.0 <= skew < window && SkewHolds(limit, window, skew, s, h)
    requires forall m | 0 <= m < |h| :: h[m] <= now + skew
    requires SlidingStep(limit, window, s, now).ok
    ensures SkewHolds(limit, window, skew, SlidingStep(limit, window, s, now).next, h + [now])
  {
    PrunedStep(limit, window, skew, s.hits, h, now);
    SpacedExtends(limit, window - skew, h, now);
  }

  lemma {:induction false} SkewedRun(cfg: Config, trace: seq<Request>, i: nat, rule: Rule, value: string, skew: real)
    requires Staged(cfg) && KeepsState(cfg, i) && rule == EffectiveRules(cfg)[i] && PolicyOf(cfg, rule) == SlidingWindow
    requires SkewedBy(trace, skew) && 0.0 <= skew < WindowSeconds(rule)
    ensures SkewHolds(rule.limit, WindowSeconds(rule), skew, Lookup(Run(cfg, trace), ScopeKey(rule.scope, value)),
                      KeyHistory(cfg, trace, rule.scope, value))
  {
    if trace == [] {
      assert Pruned(WindowSeconds(rule), [], [], 0);
    } else {
      var n := |trace| - 1;
      var q, h := trace[n], KeyHistory(cfg, trace[..n], rule.scope, value);
      SkewedRun(cfg, trace[..n], i, rule, value, skew);
      HistoryStep(cfg, trace, rule.scope, value);
      RunOnKey(cfg, trace, i, value);
      if LastCheck(cfg, trace).ok && ScopeValue(rule.scope, q.ctx) == value {
        var s := Lookup(Run(cfg, trace[..n]), ScopeKey(rule.scope, value));
        HistoryWithin(cfg, trace[..n], rule.scope, value, q.now + skew);
        VerdictIsStep(cfg, Run(cfg, trace[..n]), rule, q);
        SkewHoldsStep(rule.limit, WindowSeconds(rule), skew, s, h, q.now);
        SameHitsHold(rule.limit, WindowSeconds(rule), skew, SlidingStep(rule.limit, WindowSeconds(rule), s, q.now).next,
                     Lookup(Run(cfg, trace), ScopeKey(rule.scope, value)), h + [q.now]);
      } else {
        assert KeyHistory(cfg, trace, rule.scope, value) == h;
      }
    }
  }

  lemma {:induction false} SameHitsHold(limit: nat, window: real, skew: real, s: LimitValue, t: LimitValue, h: seq<Instant>)
    requires SkewHolds(limit, window, skew, s, h) && s.hits == t.hits
    ensures SkewHolds(limit, window, skew, t, h)
  {
  }

  lemma {:induction false} CountImplied(h: seq<Instant>, p: Instant -> bool, q: Instant -> bool)
    requires forall i | 0 <= i < |h| :: p(h[i]) ==> q(h[i])
    ensures Count(h, p) <= Count(h, q)
  {
    if h != [] {
      CountImplied(h[..|h| - 1], p, q);
    }
  }

  lemma {:induction false} SpacedInterval(limit: nat, span: real, h: seq<Instant>, from: Instant)
    requires AllSpaced(limit, span, h)
    ensures Count(h, HalfOpen(from, from + span)) <= limit
  {
    if h != [] {
      var n := |h| - 1;
      assert Spaced(limit, span, h, n);
      if HalfOpen(from, from + span)(h[n]) {
        CountImplied(h[..n], HalfOpen(from, from + span), LiveAt(h[n], span));
      } else {
        forall m | 0 <= m < n
          ensures Spaced(limit, span, h[..n], m)
        {
          assert Spaced(limit, span, h, m) && h[..n][..m] == h[..m];
        }
        SpacedInterval(limit, span, h[..n], from);
      }
    }
  }

  /** How many of the accepts `h` fall into the half-open interval from `from` on that a late clock takes `skew` off. */
  ghost function InShortWindow(rule: Rule, h: seq<Instant>, from: Instant, skew: real): nat {
    Count(h, HalfOpen(from, from + (WindowSeconds(rule) - skew)))
  }

  lemma {:induction false} SkewBoundsHistory(rule: Rule, h: seq<Instant>, from: Instant, skew: real)
    requires skew < WindowSeconds(rule) ==> AllSpaced(rule.limit, WindowSeconds(rule) - skew, h)
    ensures InShortWindow(rule, h, from, skew) <= rule.limit
  {
    var span := WindowSeconds(rule) - skew;
    if span > 0.0 {
      SpacedInterval(rule.limit, span, h, from);
    } else {
      CountNone(h, HalfOpen(from, from + span));
    }
  }

  /** With readings late by at most `skew`, every half-open interval shorter than a window by that much holds at most `limit` accepts. */
  lemma {:induction false} SkewedSlidingBound(cfg: Config, trace: seq<Request>, i: nat, value: string, skew: real, from: Instant)
    requires Staged(cfg) && KeepsState(cfg, i) && PolicyOf(cfg, EffectiveRules(cfg)[i]) == SlidingWindow
    requires skew >= 0.0 && SkewedBy(trace, skew)
    ensures var rule := EffectiveRules(cfg)[i];
            InShortWindow(rule, KeyHistory(cfg, trace, rule.scope, value), from, skew) <= rule.limit
  {
    var rule := EffectiveRules(cfg)[i];
    var h := KeyHistory(cfg, trace, rule.scope, value);
    if skew < WindowSeconds(rule) {
      SkewedHistory(cfg, trace, i, rule, value, skew, h);
    }
    SkewBoundsHistory(rule, h, from, skew);
  }

  lemma {:induction false} SkewedHistory(
    cfg: Config, trace: seq<Request>, i: nat, rule: Rule, value: string, skew: real, h: seq<Instant>)
    requires Staged(cfg) && KeepsState(cfg, i) && rule == EffectiveRules(cfg)[i] && PolicyOf(cfg, rule) == SlidingWindow
    requires SkewedBy(trace, skew) && 0.0 <= skew < WindowSeconds(rule)
    requires h == KeyHistory(cfg, trace, rule.scope, value)
    ensures AllSpaced(rule.limit, WindowSeconds(rule) - skew, h)
  {
    SkewedRun(cfg, trace, i, rule, value, skew);
    SpacedFrom(rule.limit, WindowSeconds(rule), skew, Lookup(Run(cfg, trace), ScopeKey(rule.scope, value)), h);
  }

  lemma {:induction false} SpacedFrom(limit: nat, window: real, skew: real, s: LimitValue, h: seq<Instant>)
    requires SkewHolds(limit, window, skew, s, h)
    ensures AllSpaced(limit, window - skew, h)
  {
  }

  // --- The whole window ---

  /** With a limit of one the deque holds the last accept alone, and accepts are a window apart. */
  ghost predicate AloneHolds(window: real, hits: seq<Instant>, h: seq<Instant>) {
    && hits == (if h == [] then [] else [h[|h| - 1]])
    && forall n | 0 < n < |h| :: h[n] - h[n - 1] >= window
  }

  lemma {:induction false} AloneStep(window: real, hits: seq<Instant>, h: seq<Instant>, now: Instant)
    requires window > 0.0 && AloneHolds(window, hits, h) && |DropExpired(hits, window, now)| < 1
    ensures AloneHolds(window, DropExpired(hits, window, now) + [now], h + [now])
  {
    if h != [] {
      assert hits[1..] == [];
      assert Elapsed(now, hits[0]) >= window;
    }
  }

  ghost predicate AloneState(limit: nat, window: real, s: LimitValue, h: seq<Instant>) {
    AloneHolds(window, s.hits, h) && (limit == 0 ==> h == [])
  }

  lemma {:induction false} AloneNext(limit: nat, window: real, s: LimitValue, h: seq<Instant>, now: Instant, total: nat)
    requires window > 0.0 && limit <= 1 && AloneState(limit, window, s, h) && SlidingStep(limit, window, s, now).ok
    ensures AloneState(limit, window, SlidingStep(limit, window, s, now).next.(acceptedTotal := total), h + [now])
  {
    AloneStep(window, s.hits, h, now);
  }

  lemma {:induction false} AloneRun(cfg: Config, trace: seq<Request>, i: nat, rule: Rule, value: string)
    requires Staged(cfg) && KeepsState(cfg, i) && rule == EffectiveRules(cfg)[i] && PolicyOf(cfg, rule) == SlidingWindow
    requires rule.limit <= 1
    ensures AloneState(rule.limit, WindowSeconds(rule), Lookup(Run(cfg, trace), ScopeKey(rule.scope, value)),
                       KeyHistory(cfg, trace, rule.scope, value))
  {
    if trace != [] {
      var n := |trace| - 1;
      var q, h := trace[n], KeyHistory(cfg, trace[..n], rule.scope, value);
      AloneRun(cfg, trace[..n], i, rule, value);
      HistoryStep(cfg, trace, rule.scope, value);
      RunOnKey(cfg, trace, i, value);
      if LastCheck(cfg, trace).ok && ScopeValue(rule.scope, q.ctx) == value {
        var s := Lookup(Run(cfg, trace[..n]), ScopeKey(rule.scope, value));
        VerdictIsStep(cfg, Run(cfg, trace[..n]), rule, q);
        AloneNext(rule.limit, WindowSeconds(rule), s, h, q.now, s.acceptedTotal + 1);
      } else {
        assert KeyHistory(cfg, trace, rule.scope, value) == h;
      }
    }
  }

  lemma {:induction false} AloneAscends(window: real, h: seq<Instant>, i: nat, j: nat)
    requires window > 0.0 && i <= j < |h| && forall n | 0 < n < |h| :: h[n] - h[n - 1] >= window
    ensures h[i] <= h[j] && (i < j ==> h[j] - h[i] >= window)
  {
    if i < j {
      AloneAscends(window, h, i, j - 1);
    }
  }

  /** A limit of at most one holds on every window, whatever the clock does. */
  lemma {:induction false} AloneBound(cfg: Config, trace: seq<Request>, i: nat, rule: Rule, value: string, from: Instant)
    requires Staged(cfg) && KeepsState(cfg, i) && rule == EffectiveRules(cfg)[i] && PolicyOf(cfg, rule) == SlidingWindow
    requires rule.limit <= 1
    ensures InWindow(rule, KeyHistory(cfg, trace, rule.scope, value), from) <= rule.limit
  {
    var h := KeyHistory(cfg, trace, rule.scope, value);
    AloneHistory(cfg, trace, i, rule, value, h);
    AloneInWindow(rule, h, from);
  }

  lemma {:induction false} AloneHistory(
    cfg: Config, trace: seq<Request>, i: nat, rule: Rule, value: string, h: seq<Instant>)
    requires Staged(cfg) && KeepsState(cfg, i) && rule == EffectiveRules(cfg)[i] && PolicyOf(cfg, rule) == SlidingWindow
    requires rule.limit <= 1 && h == KeyHistory(cfg, trace, rule.scope, value)
    ensures forall n | 0 < n < |h| :: h[n] - h[n - 1] >= WindowSeconds(rule)
    ensures rule.limit == 0 ==> h == []
  {
    AloneRun(cfg, trace, i, rule, value);
  }

  lemma {:induction false} AloneInWindow(rule: Rule, h: seq<Instant>, from: Instant)
    requires rule.limit <= 1 && (rule.limit == 0 ==> h == [])
    requires forall n | 0 < n < |h| :: h[n] - h[n - 1] >= WindowSeconds(rule)
    ensures InWindow(rule, h, from) <= rule.limit
  {
    AloneIntervals(WindowSeconds(rule), h, from);
  }

  lemma {:induction false} AloneIntervals(window: real, h: seq<Instant>, from: Instant)
    requires window > 0.0 && forall n | 0 < n < |h| :: h[n] - h[n - 1] >= window
    ensures Count(h, HalfOpen(from, from + window)) <= 1
  {
    forall i, j | 0 <= i <= j < |h|
      ensures h[i] <= h[j] && (h[j] - h[i] < window ==> j - i + 1 <= 1)
    {
      AloneAscends(window, h, i, j);
    }
    IntervalBound(h, window, 1, from);
  }

  // --- A late reading fills the window twice ---

  /** A full limit at zero, one accept a window later, and one that is judged by a reading before it. */
  ghost function LateReadings(limit: nat, window: real, late: real): seq<Instant> {
    seq(limit, _ => 0.0) + [window] + [window - late]
  }

  ghost function InOrder(limit: nat, window: real): seq<Instant> {
    seq(limit, _ => 0.0) + [window]
  }

  lemma {:induction false} InOrderIsLawful(rule: Rule)
    ensures rule.limit >= 1 ==> Lawful(SlidingWindow, rule, InOrder(rule.limit, WindowSeconds(rule)))
  {
    var h, window := InOrder(rule.limit, WindowSeconds(rule)), WindowSeconds(rule);
    if rule.limit >= 1 {
      forall n | 0 <= n < |h|
        ensures AllowedAt(SlidingWindow, rule, h, n)
      {
        if n < rule.limit {
          CountAtMost(h[..n], LiveAt(h[n], window));
        } else {
          CountNone(h[..n], LiveAt(h[n], window));
        }
      }
    }
  }

  /** The accept a window later clears the deque. */
  lemma {:induction false} HitsInOrder(rule: Rule)
    requires rule.limit >= 1
    ensures Replay(SlidingWindow, rule, InOrder(rule.limit, WindowSeconds(rule))).hits == [WindowSeconds(rule)]
  {
    var h, window := InOrder(rule.limit, WindowSeconds(rule)), WindowSeconds(rule);
    InOrderIsLawful(rule);
    SlidingReplay(rule, h);
    var d := DropSplit(h, window, window);
    var live := LiveAt(window, window);
    assert live(h[rule.limit]) && !live(h[rule.limit - 1]);
    assert h[rule.limit..] == [window];
  }

  /** Everything in order passes and leaves the deque with one entry. */
  lemma {:induction false} AfterOrder(cfg: Config, rule: Rule, ctx: Context)
    requires Staged(cfg) && EffectiveRules(cfg) == [rule] && rule.quota == None
    requires PolicyOf(cfg, rule) == SlidingWindow && rule.limit >= 1
    ensures var trace := Requests(ctx, InOrder(rule.limit, WindowSeconds(rule)));
            && Accepted(cfg, trace) == trace
            && Lookup(Run(cfg, trace), KeyFor(rule, ctx)).hits == [WindowSeconds(rule)]
  {
    var h := InOrder(rule.limit, WindowSeconds(rule));
    InOrderIsLawful(rule);
    LawfulIsReachable(cfg, rule, ctx, h);
    DistinctScopesKeepState(cfg);
    RunReplays(cfg, Requests(ctx, h), 0, ScopeValue(rule.scope, ctx));
    HitsInOrder(rule);
  }

  /** The late one passes, too. */
  lemma {:induction false} LatePasses(cfg: Config, rule: Rule, ctx: Context, late: real)
    requires Staged(cfg) && EffectiveRules(cfg) == [rule] && rule.quota == None
    requires PolicyOf(cfg, rule) == SlidingWindow && rule.limit >= 2 && late >= 0.0
    ensures var trace := Requests(ctx, LateReadings(rule.limit, WindowSeconds(rule), late));
            Accepted(cfg, trace) == trace
  {
    var window := WindowSeconds(rule);
    var all := LateReadings(rule.limit, window, late);
    var trace, n := Requests(ctx, all), |all| - 1;
    AfterOrder(cfg, rule, ctx);
    assert all[..n] == InOrder(rule.limit, window);
    assert trace[..n] == Requests(ctx, all[..n]);
    var s := Lookup(Run(cfg, trace[..n]), KeyFor(rule, ctx));
    assert DropExpired(s.hits, window, all[n]) == s.hits;
    assert RuleVerdict(cfg, Run(cfg, trace[..n]), rule, ctx, all[n]).ok;
    assert AllAdmit(cfg, Run(cfg, trace[..n]), [rule], ctx, all[n]);
    assert LastCheck(cfg, trace).ok;
  }

  lemma {:induction false} LateIsSkewed(ctx: Context, limit: nat, window: real, late: real)
    requires 0.0 <= late <= window
    ensures SkewedBy(Requests(ctx, LateReadings(limit, window, late)), late)
  {
  }

  lemma {:induction false} LateCount(limit: nat, window: real, late: real, span: real)
    requires window > 0.0 && 0.0 < late <= window && span > window - late
    ensures Count(LateReadings(limit, window, late), HalfOpen(0.0, span)) >= limit + 1
  {
    var zeros, inside := seq(limit, _ => 0.0), HalfOpen(0.0, span);
    CountAll(zeros, inside);
    CountAll([window - late], inside);
    CountAppend(zeros, [window], inside);
    CountAppend(zeros + [window], [window - late], inside);
  }

  /**
   For every limit of two or more and every skew up to a window, one run overfills every interval from zero on
   that is longer than the window without the skew; the bound above has the right length.
   */
  lemma {:induction false} LateReadingBreaksTheWindow(cfg: Config, rule: Rule, ctx: Context, late: real)
    returns (trace: seq<Request>)
    requires Staged(cfg) && EffectiveRules(cfg) == [rule] && rule.quota == None
    requires PolicyOf(cfg, rule) == SlidingWindow && rule.limit >= 2 && 0.0 < late <= WindowSeconds(rule)
    ensures SkewedBy(trace, late) && Accepted(cfg, trace) == trace
    ensures forall span: real | span > WindowSeconds(rule) - late ::
              Count(HistoryOf(cfg, rule, ctx, trace), HalfOpen(0.0, span)) > rule.limit
  {
    var window := WindowSeconds(rule);
    var all := LateReadings(rule.limit, window, late);
    trace := Requests(ctx, all);
    LatePasses(cfg, rule, ctx, late);
    LateIsSkewed(ctx, rule.limit, window, late);
    TimesOfRequests(ctx, all, rule.scope);
    forall span: real | span > window - late
      ensures Count(HistoryOf(cfg, rule, ctx, trace), HalfOpen(0.0, span)) > rule.limit
    {
      LateCount(rule.limit, window, late, span);
    }
  }

  /** Every window of every run with this skew holds at most `limit` accepts of every key. */
  ghost predicate WindowHolds(cfg: Config, rule: Rule, skew: real) {
    forall trace: seq<Request>, value: string, from: Instant | SkewedBy(trace, skew) ::
      InWindow(rule, KeyHistory(cfg, trace, rule.scope, value), from) <= rule.limit
  }

  lemma {:induction false} WindowBreaks(cfg: Config, rule: Rule, skew: real)
    requires Staged(cfg) && EffectiveRules(cfg) == [rule] && rule.quota == None
    requires PolicyOf(cfg, rule) == SlidingWindow && rule.limit >= 2 && skew > 0.0
    ensures !WindowHolds(cfg, rule, skew)
  {
    var ctx := Context("r", "s", None, "c");
    var late := if skew <= WindowSeconds(rule) then skew else WindowSeconds(rule);
    var trace := LateReadingBreaksTheWindow(cfg, rule, ctx, late);
    assert SkewedBy(trace, skew);
    var h := HistoryOf(cfg, rule, ctx, trace);
    assert Count(h, HalfOpen(0.0, 0.0 + WindowSeconds(rule))) > rule.limit;
    assert InWindow(rule, KeyHistory(cfg, trace, rule.scope, ScopeValue(rule.scope, ctx)), 0.0) > rule.limit;
  }

  /** A sliding window holds its limit under late readings exactly when the limit is at most one, or none is late. */
  lemma {:induction false} WindowHoldsIff(cfg: Config, rule: Rule, skew: real)
    requires Staged(cfg) && EffectiveRules(cfg) == [rule] && rule.quota == None
    requires PolicyOf(cfg, rule) == SlidingWindow && skew >= 0.0
    ensures WindowHolds(cfg, rule, skew) <==> rule.limit <= 1 || skew == 0.0
  {
    DistinctScopesKeepState(cfg);
    if rule.limit <= 1 || skew == 0.0 {
      forall trace: seq<Request>, value: string, from: Instant | SkewedBy(trace, skew)
        ensures InWindow(rule, KeyHistory(cfg, trace, rule.scope, value), from) <= rule.limit
      {
        if rule.limit <= 1 {
          AloneBound(cfg, trace, 0, rule, value, from);
        } else {
          SkewedSlidingBound(cfg, trace, 0, value, skew, from);
        }
      }
    } else {
      WindowBreaks(cfg, rule, skew);
    }
  }
}
