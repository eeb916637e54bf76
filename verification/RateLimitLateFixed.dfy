/** Fixed windows under late readings: a late reading counts in the window of a later opener. */
module RateLimitLateFixed {
  import opened Wrappers
  import opened Clock
  import opened History
  import opened RateLimit
  import opened RateLimitPolicies
  import opened RateLimitRuns
  import opened RateLimitBounds
  import opened RateLimitSharp
  import opened RateLimitSkew
  import opened RateLimitLate

  // --- A limit of one ---

  /** With a limit of one every accept opens a window. */
  ghost predicate OpenersOnly(limit: nat, window: real, s: LimitValue, h: seq<Instant>) {
    && (forall n | 0 < n < |h| :: h[n] - h[n - 1] >= window)
    && (if h == [] then s.windowStart == None && s.windowCount == 0
        else s.windowStart == Some(h[|h| - 1]) && s.windowCount == 1)
    && (limit == 0 ==> h == [])
  }

  lemma {:induction false} OpenersNext(limit: nat, window: real, s: LimitValue, h: seq<Instant>, now: Instant, total: nat)
    requires window > 0.0 && limit <= 1 && OpenersOnly(limit, window, s, h) && FixedStep(limit, window, s, now).ok
    ensures OpenersOnly(limit, window, FixedStep(limit, window, s, now).next.(acceptedTotal := total), h + [now])
  {
  }

  lemma {:induction false} OpenersRun(cfg: Config, trace: seq<Request>, i: nat, rule: Rule, value: string)
    requires Staged(cfg) && KeepsState(cfg, i) && rule == EffectiveRules(cfg)[i] && PolicyOf(cfg, rule) == FixedWindow
    requires rule.limit <= 1
    ensures OpenersOnly(rule.limit, WindowSeconds(rule), Lookup(Run(cfg, trace), ScopeKey(rule.scope, value)),
                        KeyHistory(cfg, trace, rule.scope, value))
  {
    if trace != [] {
      var n := |trace| - 1;
      var q, h := trace[n], KeyHistory(cfg, trace[..n], rule.scope, value);
      OpenersRun(cfg, trace[..n], i, rule, value);
      HistoryStep(cfg, trace, rule.scope, value);
      RunOnKey(cfg, trace, i, value);
      if LastCheck(cfg, trace).ok && ScopeValue(rule.scope, q.ctx) == value {
        var s := Lookup(Run(cfg, trace[..n]), ScopeKey(rule.scope, value));
        VerdictIsStep(cfg, Run(cfg, trace[..n]), rule, q);
        OpenersNext(rule.limit, WindowSeconds(rule), s, h, q.now, s.acceptedTotal + 1);
      } else {
        assert KeyHistory(cfg, trace, rule.scope, value) == h;
      }
    }
  }

  lemma {:induction false} OpenersBound(cfg: Config, trace: seq<Request>, i: nat, rule: Rule, value: string, from: Instant)
    requires Staged(cfg) && KeepsState(cfg, i) && rule == EffectiveRules(cfg)[i] && PolicyOf(cfg, rule) == FixedWindow
    requires rule.limit <= 1
    ensures InWindow(rule, KeyHistory(cfg, trace, rule.scope, value), from) <= rule.limit
  {
    var h := KeyHistory(cfg, trace, rule.scope, value);
    OpenersRun(cfg, trace, i, rule, value);
    AloneInWindow(rule, h, from);
  }

  // --- Three windows in one ---

  /** One opens a window, the others follow late in it, a full window comes next, then an opener one window later. */
  ghost function ThreeOpeners(limit: nat, window: real, lead: real): seq<Instant>
    requires limit >= 1
  {
    [lead] + seq(limit - 1, _ => window) + seq(limit, _ => window + lead) + [window + window + lead]
  }

  lemma {:induction false} ThreeOpenersAt(limit: nat, window: real, lead: real, n: nat)
    requires limit >= 1 && 0.0 < lead < window && n <= 2 * limit
    ensures Opener(ThreeOpeners(limit, window, lead), window, n)
         == if n < limit then 0 else if n < 2 * limit then limit else 2 * limit
  {
    if n > 0 {
      ThreeOpenersAt(limit, window, lead, n - 1);
    }
  }

  lemma {:induction false} FixedAllows(rule: Rule, h: seq<Instant>, n: nat, b: nat)
    requires 0 < n < |h| && b == Opener(h, WindowSeconds(rule), n - 1)
    requires if Elapsed(h[n], h[b]) >= WindowSeconds(rule) then rule.limit >= 1 else n - b < rule.limit
    ensures AllowedAt(FixedWindow, rule, h, n)
  {
    OpenerPrefix(h, WindowSeconds(rule), n, n - 1);
    assert h[..n][b] == h[b];
  }

  lemma {:induction false} ThreeOpenersAllow(rule: Rule, lead: real, n: nat)
    requires rule.limit >= 1 && 0.0 < lead < WindowSeconds(rule) && n <= 2 * rule.limit
    ensures AllowedAt(FixedWindow, rule, ThreeOpeners(rule.limit, WindowSeconds(rule), lead), n)
  {
    var window := WindowSeconds(rule);
    var h := ThreeOpeners(rule.limit, window, lead);
    if n > 0 {
      ThreeOpenersAt(rule.limit, window, lead, n - 1);
      FixedAllows(rule, h, n, if n - 1 < rule.limit then 0 else rule.limit);
    }
  }

  lemma {:induction false} ThreeOpenersLawful(rule: Rule, lead: real)
    requires rule.limit >= 1 && 0.0 < lead < WindowSeconds(rule)
    ensures Lawful(FixedWindow, rule, ThreeOpeners(rule.limit, WindowSeconds(rule), lead))
  {
    var h := ThreeOpeners(rule.limit, WindowSeconds(rule), lead);
    forall n | 0 <= n < |h|
      ensures AllowedAt(FixedWindow, rule, h, n)
    {
      ThreeOpenersAllow(rule, lead, n);
    }
  }

  /** Then the readings fall back by `late`. */
  ghost function Backlog(limit: nat, window: real, lead: real, late: real, k: nat): seq<Instant>
    requires limit >= 1
  {
    ThreeOpeners(limit, window, lead) + seq(k, _ => window + window + lead - late)
  }

  ghost predicate BacklogHolds(rule: Rule, s: LimitValue, lead: real, k: nat) {
    s.windowStart == Some(WindowSeconds(rule) + WindowSeconds(rule) + lead) && s.windowCount == k + 1
  }

  lemma {:induction false} BacklogStarts(rule: Rule, lead: real)
    requires rule.limit >= 1 && 0.0 < lead < WindowSeconds(rule)
    ensures BacklogHolds(rule, Replay(FixedWindow, rule, ThreeOpeners(rule.limit, WindowSeconds(rule), lead)), lead, 0)
  {
    var h := ThreeOpeners(rule.limit, WindowSeconds(rule), lead);
    ThreeOpenersLawful(rule, lead);
    FixedReplay(rule, h);
    ThreeOpenersAt(rule.limit, WindowSeconds(rule), lead, 2 * rule.limit);
  }

  lemma {:induction false} BacklogStep(rule: Rule, s: LimitValue, lead: real, late: real, k: nat)
    requires BacklogHolds(rule, s, lead, k) && k + 1 < rule.limit && late >= 0.0
    ensures var v := FixedStep(rule.limit, WindowSeconds(rule), s, WindowSeconds(rule) + WindowSeconds(rule) + lead - late);
            v.ok && BacklogHolds(rule, v.next, lead, k + 1)
  {
  }

  lemma {:induction false} FirstPass(cfg: Config, rule: Rule, ctx: Context, lead: real)
    requires Staged(cfg) && EffectiveRules(cfg) == [rule] && rule.quota == None && PolicyOf(cfg, rule) == FixedWindow
    requires rule.limit >= 1 && 0.0 < lead < WindowSeconds(rule)
    ensures var trace := Requests(ctx, ThreeOpeners(rule.limit, WindowSeconds(rule), lead));
            Accepted(cfg, trace) == trace && BacklogHolds(rule, Lookup(Run(cfg, trace), KeyFor(rule, ctx)), lead, 0)
  {
    var h := ThreeOpeners(rule.limit, WindowSeconds(rule), lead);
    ThreeOpenersLawful(rule, lead);
    LawfulIsReachable(cfg, rule, ctx, h);
    DistinctScopesKeepState(cfg);
    RunReplays(cfg, Requests(ctx, h), 0, ScopeValue(rule.scope, ctx));
    BacklogStarts(rule, lead);
  }

  lemma {:induction false} OneMorePasses(
    cfg: Config, rule: Rule, states: States, q: Request, lead: real, late: real, k: nat)
    requires Staged(cfg) && EffectiveRules(cfg) == [rule] && rule.quota == None && PolicyOf(cfg, rule) == FixedWindow
    requires BacklogHolds(rule, Lookup(states, KeyFor(rule, q.ctx)), lead, k) && k + 1 < rule.limit && late >= 0.0
    requires q.now == WindowSeconds(rule) + WindowSeconds(rule) + lead - late
    ensures Check(cfg, states, q.ctx, q.now).ok
    ensures BacklogHolds(rule, Lookup(Check(cfg, states, q.ctx, q.now).states, KeyFor(rule, q.ctx)), lead, k + 1)
  {
    BacklogStep(rule, Lookup(states, KeyFor(rule, q.ctx)), lead, late, k);
    OneRulePasses(cfg, rule, states, q);
  }

  lemma {:induction false} BacklogGrows(ctx: Context, limit: nat, window: real, lead: real, late: real, k: nat)
    requires limit >= 1 && k > 0
    ensures Requests(ctx, Backlog(limit, window, lead, late, k))
         == Requests(ctx, Backlog(limit, window, lead, late, k - 1)) + [Request(ctx, window + window + lead - late)]
  {
  }

  lemma {:induction false} BacklogPasses(cfg: Config, rule: Rule, ctx: Context, lead: real, late: real, k: nat)
    requires Staged(cfg) && EffectiveRules(cfg) == [rule] && rule.quota == None && PolicyOf(cfg, rule) == FixedWindow
    requires k < rule.limit && 0.0 < lead < WindowSeconds(rule) && late >= 0.0
    ensures var trace := Requests(ctx, Backlog(rule.limit, WindowSeconds(rule), lead, late, k));
            Accepted(cfg, trace) == trace && BacklogHolds(rule, Lookup(Run(cfg, trace), KeyFor(rule, ctx)), lead, k)
  {
    var window := WindowSeconds(rule);
    var all := Backlog(rule.limit, window, lead, late, k);
    if k == 0 {
      FirstPass(cfg, rule, ctx, lead);
      assert all == ThreeOpeners(rule.limit, window, lead);
    } else {
      var before, q := Requests(ctx, Backlog(rule.limit, window, lead, late, k - 1)), Request(ctx, window + window + lead - late);
      BacklogPasses(cfg, rule, ctx, lead, late, k - 1);
      OneMorePasses(cfg, rule, Run(cfg, before), q, lead, late, k - 1);
      BacklogGrows(ctx, rule.limit, window, lead, late, k);
      assert (before + [q])[..|before|] == before;
      assert LastCheck(cfg, before + [q]).ok;
    }
  }

  lemma {:induction false} BacklogIsLate(ctx: Context, limit: nat, window: real, lead: real, late: real, k: nat)
    requires limit >= 1 && 0.0 < lead < late <= window
    ensures SkewedBy(Requests(ctx, Backlog(limit, window, lead, late, k)), late)
  {
  }

  lemma {:induction false} BacklogCount(limit: nat, window: real, lead: real, late: real)
    requires limit >= 1 && 0.0 < lead < late <= window
    ensures Count(Backlog(limit, window, lead, late, limit - 1), HalfOpen(window, window + window)) >= 3 * limit - 2
  {
    var inside := HalfOpen(window, window + window);
    var a, b := seq(limit - 1, _ => window), seq(limit, _ => window + lead);
    var c, d := [window + window + lead], seq(limit - 1, _ => window + window + lead - late);
    CountAll(a, inside);
    CountAll(b, inside);
    CountAll(d, inside);
    CountAppend([lead] + a + b + c, d, inside);
    CountAppend([lead] + a + b, c, inside);
    CountAppend([lead] + a, b, inside);
    CountAppend([lead], a, inside);
  }

  lemma {:induction false} BacklogInWindow(rule: Rule, lead: real, late: real)
    requires rule.limit >= 1 && 0.0 < lead < late <= WindowSeconds(rule)
    ensures InWindow(rule, Backlog(rule.limit, WindowSeconds(rule), lead, late, rule.limit - 1), WindowSeconds(rule))
         >= 3 * rule.limit - 2
  {
    BacklogCount(rule.limit, WindowSeconds(rule), lead, late);
  }

  /** Where all requests of one caller pass, their times are its history. */
  lemma {:induction false} AllPassed(cfg: Config, rule: Rule, ctx: Context, h: seq<Instant>)
    requires Accepted(cfg, Requests(ctx, h)) == Requests(ctx, h)
    ensures HistoryOf(cfg, rule, ctx, Requests(ctx, h)) == h
  {
    TimesOfRequests(ctx, h, rule.scope);
  }

  lemma {:induction false} FillThree(cfg: Config, rule: Rule, ctx: Context, lead: real, late: real)
    returns (trace: seq<Request>)
    requires Staged(cfg) && EffectiveRules(cfg) == [rule] && rule.quota == None && PolicyOf(cfg, rule) == FixedWindow
    requires rule.limit >= 1 && 0.0 < lead < late <= WindowSeconds(rule)
    ensures SkewedBy(trace, late) && Accepted(cfg, trace) == trace
    ensures InWindow(rule, HistoryOf(cfg, rule, ctx, trace), WindowSeconds(rule)) >= 3 * rule.limit - 2
  {
    var all := Backlog(rule.limit, WindowSeconds(rule), lead, late, rule.limit - 1);
    trace := Requests(ctx, all);
    BacklogPasses(cfg, rule, ctx, lead, late, rule.limit - 1);
    BacklogIsLate(ctx, rule.limit, WindowSeconds(rule), lead, late, rule.limit - 1);
    AllPassed(cfg, rule, ctx, all);
    BacklogInWindow(rule, lead, late);
  }

  lemma {:induction false} LessLate(trace: seq<Request>, late: real, skew: real)
    requires SkewedBy(trace, late) && late <= skew
    ensures SkewedBy(trace, skew)
  {
  }

  /** For every positive limit and every skew some window length holds `3 * limit - 2` accepts. */
  lemma {:induction false} LateReadingsFillThreeWindows(cfg: Config, rule: Rule, ctx: Context, skew: real)
    returns (trace: seq<Request>)
    requires Staged(cfg) && EffectiveRules(cfg) == [rule] && rule.quota == None && PolicyOf(cfg, rule) == FixedWindow
    requires rule.limit >= 1 && skew > 0.0
    ensures SkewedBy(trace, skew) && Accepted(cfg, trace) == trace
    ensures InWindow(rule, HistoryOf(cfg, rule, ctx, trace), WindowSeconds(rule)) >= 3 * rule.limit - 2
  {
    var late := if skew <= WindowSeconds(rule) then skew else WindowSeconds(rule);
    trace := FillThree(cfg, rule, ctx, late / 2.0, late);
    LessLate(trace, late, skew);
  }

  /** Every window length of every run with this skew holds at most what it holds without. */
  ghost predicate CeilingHolds(cfg: Config, rule: Rule, skew: real) {
    forall trace: seq<Request>, value: string, from: Instant | SkewedBy(trace, skew) ::
      InWindow(rule, KeyHistory(cfg, trace, rule.scope, value), from) <= FixedCeiling(rule.limit)
  }

  /** The bound of fixed windows survives late readings exactly when the limit is at most one, or none is late. */
  lemma {:induction false} CeilingHoldsIff(cfg: Config, rule: Rule, skew: real)
    requires Staged(cfg) && EffectiveRules(cfg) == [rule] && rule.quota == None && PolicyOf(cfg, rule) == FixedWindow
    requires skew >= 0.0
    ensures CeilingHolds(cfg, rule, skew) <==> rule.limit <= 1 || skew == 0.0
  {
    DistinctScopesKeepState(cfg);
    if rule.limit <= 1 || skew == 0.0 {
      forall trace: seq<Request>, value: string, from: Instant | SkewedBy(trace, skew)
        ensures InWindow(rule, KeyHistory(cfg, trace, rule.scope, value), from) <= FixedCeiling(rule.limit)
      {
        if rule.limit <= 1 {
          OpenersBound(cfg, trace, 0, rule, value, from);
        } else {
          assert Nondecreasing(trace);
          FixedBound(cfg, trace, 0, value, from);
        }
      }
    } else {
      var ctx := Context("r", "s", None, "c");
      var trace := LateReadingsFillThreeWindows(cfg, rule, ctx, skew);
      assert SkewedBy(trace, skew);
      assert InWindow(rule, KeyHistory(cfg, trace, rule.scope, ScopeValue(rule.scope, ctx)), WindowSeconds(rule))
          > FixedCeiling(rule.limit);
    }
  }
}
