/**
 Whole runs of the limiter: any sequence of requests, any keys, several rules per request.
 The clock readings of a run are nondecreasing in the order in which the lock is taken;
 the results that do not need this do not ask for it.
 */
module RateLimitRuns {
  import opened Wrappers
  import opened Clock
  import opened RateLimit
  import opened RateLimitPolicies

  datatype Request = Request(ctx: Context, now: Instant)

  ghost function Run(cfg: Config, trace: seq<Request>): States
    decreases |trace|, 1
  {
    if trace == [] then map[] else LastCheck(cfg, trace).states
  }

  /** The check made for the last request of `trace`. */
  ghost function LastCheck(cfg: Config, trace: seq<Request>): Outcome
    requires trace != []
    decreases |trace|, 0
  {
    var n := |trace| - 1;
    Check(cfg, Run(cfg, trace[..n]), trace[n].ctx, trace[n].now)
  }

  ghost function Accepted(cfg: Config, trace: seq<Request>): seq<Request> {
    if trace == [] then []
    else
      var n := |trace| - 1;
      Accepted(cfg, trace[..n]) + if LastCheck(cfg, trace).ok then [trace[n]] else []
  }

  /** The times of the requests whose value in `scope` is `value`. */
  ghost function Times(requests: seq<Request>, scope: Scope, value: string): seq<Instant> {
    if requests == [] then []
    else
      var n := |requests| - 1;
      Times(requests[..n], scope, value)
      + if ScopeValue(scope, requests[n].ctx) == value then [requests[n].now] else []
  }

  /** The accept times of one key. */
  ghost function KeyHistory(cfg: Config, trace: seq<Request>, scope: Scope, value: string): seq<Instant> {
    Times(Accepted(cfg, trace), scope, value)
  }

  ghost predicate Nondecreasing(trace: seq<Request>) {
    forall i, j | 0 <= i <= j < |trace| :: trace[i].now <= trace[j].now
  }

  /** Requests go through the rules of `EffectiveRules`. */
  ghost predicate Staged(cfg: Config) {
    cfg.enabled && !UsesLegacyBucket(cfg)
  }

  ghost predicate LastOfScope(rules: seq<Rule>, i: nat) {
    i < |rules| && forall j | i < j < |rules| :: rules[j].scope != rules[i].scope
  }

  /** Whenever both rules admit, they leave the same content: quotas do not matter, and limits only for token buckets. */
  ghost predicate KeepAlike(cfg: Config, rule: Rule, other: Rule) {
    && PolicyOf(cfg, rule) == PolicyOf(cfg, other)
    && WindowSeconds(rule) == WindowSeconds(other)
    && (PolicyOf(cfg, rule) == TokenBucket ==> rule.limit == other.limit)
  }

  /** What is kept for the key of rule `i` is what rule `i` itself would keep. */
  ghost predicate KeepsState(cfg: Config, i: nat) {
    var rules := EffectiveRules(cfg);
    i < |rules| && exists j: nat :: LastOfScope(rules, j) && rules[j].scope == rules[i].scope && KeepAlike(cfg, rules[i], rules[j])
  }

  /** Two sliding windows of one scope, of which the last one is no shorter than that of rule `i`. */
  ghost predicate SeesLonger(cfg: Config, i: nat) {
    var rules := EffectiveRules(cfg);
    i < |rules| && exists j: nat :: LastOfScope(rules, j) && IsLonger(cfg, rules[i], rules[j])
  }

  ghost predicate IsLonger(cfg: Config, rule: Rule, other: Rule) {
    && rule.scope == other.scope && PolicyOf(cfg, rule) == PolicyOf(cfg, other) == SlidingWindow
    && WindowSeconds(rule) <= WindowSeconds(other)
  }

  /** What is kept for the key of rule `i` tells it all it asks for. */
  ghost predicate SeesState(cfg: Config, i: nat) {
    KeepsState(cfg, i) || SeesLonger(cfg, i)
  }

  ghost predicate AllSeeState(cfg: Config) {
    forall i: nat | i < |EffectiveRules(cfg)| :: SeesState(cfg, i)
  }

  ghost predicate DistinctScopes(rules: seq<Rule>) {
    forall i, j | 0 <= i < j < |rules| :: rules[i].scope != rules[j].scope
  }

  // --- Keys ---

  lemma {:induction false} ScopeKeyInjective(s: Scope, v: string, t: Scope, w: string)
    requires ScopeKey(s, v) == ScopeKey(t, w)
    ensures s == t && v == w
  {
    var k, l := ScopeKey(s, v), ScopeKey(t, w);
    assert k[..2] == ScopeName(s)[..2] && l[..2] == ScopeName(t)[..2];
    assert s == t by {
      assert ScopeName(Route)[0] == 'r' && ScopeName(Service)[0] == 's';
      assert ScopeName(Consumer)[1] == 'o' && ScopeName(Client)[1] == 'l';
      assert k[..2][0] == ScopeName(s)[0] && k[..2][1] == ScopeName(s)[1];
    }
    assert k[|ScopeName(s)| + 1..] == v && l[|ScopeName(s)| + 1..] == w;
  }

  /** Two callers are the same for a scope; a missing consumer is the consumer "anonymous". */
  ghost predicate SameCaller(scope: Scope, c: Context, d: Context) {
    match scope
    case Route => c.route == d.route
    case Service => c.service == d.service
    case Consumer =>
      || c.consumer == d.consumer
      || (c.consumer.None? && d.consumer == Some("anonymous"))
      || (c.consumer == Some("anonymous") && d.consumer.None?)
    case Client => c.client == d.client
  }

  /** Two rules applied to two requests share state exactly when scope and caller agree. */
  lemma {:induction false} SharedKeyIff(rule: Rule, other: Rule, c: Context, d: Context)
    ensures KeyFor(rule, c) == KeyFor(other, d) <==> rule.scope == other.scope && SameCaller(rule.scope, c, d)
  {
    if KeyFor(rule, c) == KeyFor(other, d) {
      ScopeKeyInjective(rule.scope, ScopeValue(rule.scope, c), other.scope, ScopeValue(other.scope, d));
    }
  }

  lemma {:induction false} CommitAt(cfg: Config, states: States, rules: seq<Rule>, q: Request, i: nat)
    requires LastOfScope(rules, i)
    ensures KeyFor(rules[i], q.ctx) in Commit(cfg, states, rules, q.ctx, q.now)
    ensures Commit(cfg, states, rules, q.ctx, q.now)[KeyFor(rules[i], q.ctx)]
         == RuleVerdict(cfg, states, rules[i], q.ctx, q.now).next
  {
    var n := |rules| - 1;
    if i < n {
      if KeyFor(rules[n], q.ctx) == KeyFor(rules[i], q.ctx) {
        ScopeKeyInjective(rules[n].scope, ScopeValue(rules[n].scope, q.ctx),
                          rules[i].scope, ScopeValue(rules[i].scope, q.ctx));
      }
      CommitAt(cfg, states, rules[..n], q, i);
    }
  }

  lemma {:induction false} CommitElsewhere(cfg: Config, states: States, rules: seq<Rule>, q: Request, key: string)
    requires forall i | 0 <= i < |rules| :: KeyFor(rules[i], q.ctx) != key
    ensures key in Commit(cfg, states, rules, q.ctx, q.now) <==> key in states
    ensures Lookup(Commit(cfg, states, rules, q.ctx, q.now), key) == Lookup(states, key)
  {
    if rules != [] {
      CommitElsewhere(cfg, states, rules[..|rules| - 1], q, key);
    }
  }

  lemma {:induction false} LastExists(rules: seq<Rule>, i: nat) returns (j: nat)
    requires i < |rules|
    ensures LastOfScope(rules, j) && i <= j && rules[j].scope == rules[i].scope
    decreases |rules| - i
  {
    j := i;
    if !LastOfScope(rules, i) {
      var k :| i < k < |rules| && rules[k].scope == rules[i].scope;
      j := LastExists(rules, k);
    }
  }

  /** What one accepted request does to the key of a rule: it is either touched by that rule's scope or left alone. */
  lemma {:induction false} CommitOnKey(cfg: Config, states: States, q: Request, i: nat, value: string)
    requires LastOfScope(EffectiveRules(cfg), i)
    ensures var rule := EffectiveRules(cfg)[i];
            var key := ScopeKey(rule.scope, value);
            Lookup(Commit(cfg, states, EffectiveRules(cfg), q.ctx, q.now), key)
            == if ScopeValue(rule.scope, q.ctx) == value
               then RuleVerdict(cfg, states, rule, q.ctx, q.now).next
               else Lookup(states, key)
  {
    var rules := EffectiveRules(cfg);
    var scope := rules[i].scope;
    if ScopeValue(scope, q.ctx) == value {
      CommitAt(cfg, states, rules, q, i);
    } else {
      forall j | 0 <= j < |rules|
        ensures KeyFor(rules[j], q.ctx) != ScopeKey(scope, value)
      {
        if KeyFor(rules[j], q.ctx) == ScopeKey(scope, value) {
          ScopeKeyInjective(rules[j].scope, ScopeValue(rules[j].scope, q.ctx), scope, value);
        }
      }
      CommitElsewhere(cfg, states, rules, q, ScopeKey(scope, value));
    }
  }

  lemma {:induction false} DistinctScopesKeepState(cfg: Config)
    requires DistinctScopes(EffectiveRules(cfg))
    ensures AllSeeState(cfg) && forall i: nat | i < |EffectiveRules(cfg)| :: KeepsState(cfg, i)
  {
    forall i: nat | i < |EffectiveRules(cfg)|
      ensures KeepsState(cfg, i)
    {
      assert LastOfScope(EffectiveRules(cfg), i);
    }
  }

  lemma {:induction false} AlikeVerdicts(cfg: Config, states: States, rule: Rule, other: Rule, q: Request)
    requires rule.scope == other.scope && KeepAlike(cfg, rule, other)
    requires RuleVerdict(cfg, states, rule, q.ctx, q.now).ok && RuleVerdict(cfg, states, other, q.ctx, q.now).ok
    ensures RuleVerdict(cfg, states, rule, q.ctx, q.now).next == RuleVerdict(cfg, states, other, q.ctx, q.now).next
  {
  }

  // --- The run refines the history ---

  lemma {:induction false} HistoryStep(cfg: Config, trace: seq<Request>, scope: Scope, value: string)
    requires trace != []
    ensures var n := |trace| - 1;
            KeyHistory(cfg, trace, scope, value)
            == KeyHistory(cfg, trace[..n], scope, value)
               + if LastCheck(cfg, trace).ok && ScopeValue(scope, trace[n].ctx) == value then [trace[n].now] else []
  {
    var n := |trace| - 1;
    var before := Accepted(cfg, trace[..n]);
    if LastCheck(cfg, trace).ok {
      assert (before + [trace[n]])[..|before|] == before;
    } else {
      assert before + [] == before;
    }
  }

  lemma {:induction false} HistoryNotAfter(cfg: Config, trace: seq<Request>, scope: Scope, value: string, now: Instant)
    requires Nondecreasing(trace)
    requires trace != [] ==> trace[|trace| - 1].now <= now
    ensures NotAfter(KeyHistory(cfg, trace, scope, value), now)
  {
    if trace != [] {
      var n := |trace| - 1;
      HistoryStep(cfg, trace, scope, value);
      HistoryNotAfter(cfg, trace[..n], scope, value, now);
    }
  }

  lemma {:induction false} LawfulExtends(policy: Policy, rule: Rule, h: seq<Instant>, now: Instant)
    requires Lawful(policy, rule, h) && NotAfter(h, now) && Decides(policy, rule, h, now)
    ensures Lawful(policy, rule, h + [now])
  {
    var h' := h + [now];
    forall n | 0 <= n < |h'|
      ensures AllowedAt(policy, rule, h', n)
    {
      if n < |h| {
        assert AllowedAt(policy, rule, h, n) && h'[..n] == h[..n];
      } else {
        assert h'[..n] == h;
      }
    }
  }

  lemma {:induction false} ReplayTotal(policy: Policy, rule: Rule, h: seq<Instant>)
    ensures Replay(policy, rule, h).acceptedTotal == |h|
  {
    if h != [] {
      ReplayTotal(policy, rule, h[..|h| - 1]);
    }
  }

  /** How the last request of a staged run changes the content stored for a rule's key. */
  lemma {:induction false} RunOnKey(cfg: Config, trace: seq<Request>, i: nat, value: string)
    requires Staged(cfg) && trace != [] && KeepsState(cfg, i)
    ensures var rule, q := EffectiveRules(cfg)[i], trace[|trace| - 1];
            var states := Run(cfg, trace[..|trace| - 1]);
            var verdict := RuleVerdict(cfg, states, rule, q.ctx, q.now);
            && (LastCheck(cfg, trace).ok ==> verdict.ok)
            && Lookup(Run(cfg, trace), ScopeKey(rule.scope, value))
               == if LastCheck(cfg, trace).ok && ScopeValue(rule.scope, q.ctx) == value
                  then verdict.next else Lookup(states, ScopeKey(rule.scope, value))
  {
    var n, rules := |trace| - 1, EffectiveRules(cfg);
    var states := Run(cfg, trace[..n]);
    var j: nat :| LastOfScope(rules, j) && rules[j].scope == rules[i].scope && KeepAlike(cfg, rules[i], rules[j]);
    CommitOnKey(cfg, states, trace[n], j, value);
    if LastCheck(cfg, trace).ok {
      AlikeVerdicts(cfg, states, rules[i], rules[j], trace[n]);
    }
  }

  /** An admitting step on the replay of `h` extends the replay. */
  lemma {:induction false} ReplayExtends(policy: Policy, rule: Rule, h: seq<Instant>, now: Instant)
    requires Lawful(policy, rule, h) && NotAfter(h, now)
    requires PolicyStep(policy, rule, Replay(policy, rule, h), now).ok
    ensures var next := PolicyStep(policy, rule, Replay(policy, rule, h), now).next;
            && Lawful(policy, rule, h + [now])
            && Replay(policy, rule, h + [now]) == next.(acceptedTotal := next.acceptedTotal + 1)
  {
    ReplayDecides(policy, rule, h, now);
    LawfulExtends(policy, rule, h, now);
    assert (h + [now])[..|h|] == h;
  }

  lemma {:induction false} VerdictIsStep(cfg: Config, states: States, rule: Rule, q: Request)
    requires RuleVerdict(cfg, states, rule, q.ctx, q.now).ok
    ensures var step := PolicyStep(PolicyOf(cfg, rule), rule, Lookup(states, KeyFor(rule, q.ctx)), q.now);
            step.ok && RuleVerdict(cfg, states, rule, q.ctx, q.now).next
                       == step.next.(acceptedTotal := step.next.acceptedTotal + 1)
  {
  }

  /**
   In every reachable state the content stored for a key is the replay of that key's accepts
   under every rule that keeps its state, and those accepts are lawful for that rule.
   */
  lemma {:induction false} RunReplays(cfg: Config, trace: seq<Request>, i: nat, value: string)
    requires Staged(cfg) && Nondecreasing(trace) && KeepsState(cfg, i)
    ensures var rule := EffectiveRules(cfg)[i];
            var h := KeyHistory(cfg, trace, rule.scope, value);
            && Lawful(PolicyOf(cfg, rule), rule, h)
            && Lookup(Run(cfg, trace), ScopeKey(rule.scope, value)) == Replay(PolicyOf(cfg, rule), rule, h)
  {
    if trace != [] {
      var rule, n := EffectiveRules(cfg)[i], |trace| - 1;
      var q, h := trace[n], KeyHistory(cfg, trace[..n], rule.scope, value);
      RunReplays(cfg, trace[..n], i, value);
      HistoryStep(cfg, trace, rule.scope, value);
      RunOnKey(cfg, trace, i, value);
      if LastCheck(cfg, trace).ok && ScopeValue(rule.scope, q.ctx) == value {
        HistoryNotAfter(cfg, trace[..n], rule.scope, value, q.now);
        VerdictIsStep(cfg, Run(cfg, trace[..n]), rule, q);
        ReplayExtends(PolicyOf(cfg, rule), rule, h, q.now);
      } else {
        assert KeyHistory(cfg, trace, rule.scope, value) == h;
      }
    }
  }

  /** The reference limiter: quota and policy, both judged on nothing but the key's accept times. */
  ghost predicate HistoryAdmits(cfg: Config, rule: Rule, h: seq<Instant>, now: Instant) {
    && (rule.quota.Some? ==> |h| < rule.quota.value)
    && Decides(PolicyOf(cfg, rule), rule, h, now)
  }

  lemma {:induction false} RuleRefinesHistory(cfg: Config, trace: seq<Request>, q: Request, i: nat)
    requires Staged(cfg) && Nondecreasing(trace + [q]) && SeesState(cfg, i)
    ensures var rule := EffectiveRules(cfg)[i];
            RuleVerdict(cfg, Run(cfg, trace), rule, q.ctx, q.now).ok
            <==> HistoryAdmits(cfg, rule, KeyHistory(cfg, trace, rule.scope, ScopeValue(rule.scope, q.ctx)), q.now)
  {
    var rules, rule := EffectiveRules(cfg), EffectiveRules(cfg)[i];
    var policy, value := PolicyOf(cfg, rule), ScopeValue(rule.scope, q.ctx);
    var h := KeyHistory(cfg, trace, rule.scope, value);
    NondecreasingPrefix(trace, q);
    HistoryNotAfter(cfg, trace, rule.scope, value, q.now);
    if KeepsState(cfg, i) {
      RunReplays(cfg, trace, i, value);
      ReplayTotal(policy, rule, h);
      ReplayDecides(policy, rule, h, q.now);
    } else {
      var j: nat :| LastOfScope(rules, j) && IsLonger(cfg, rule, rules[j]);
      assert KeepsState(cfg, j);
      RunReplays(cfg, trace, j, value);
      ReplayTotal(SlidingWindow, rules[j], h);
      LongerDecides(rules[j], rule, h, q.now);
    }
  }

  /** The content of a rule with a longer sliding window answers for a shorter one. */
  lemma {:induction false} LongerDecides(longer: Rule, rule: Rule, h: seq<Instant>, now: Instant)
    requires Lawful(SlidingWindow, longer, h) && NotAfter(h, now) && WindowSeconds(rule) <= WindowSeconds(longer)
    ensures PolicyStep(SlidingWindow, rule, Replay(SlidingWindow, longer, h), now).ok <==> Decides(SlidingWindow, rule, h, now)
  {
    SlidingReplay(longer, h);
    SlidingSees(rule.limit, WindowSeconds(longer), WindowSeconds(rule), Replay(SlidingWindow, longer, h), h, now);
  }

  lemma {:induction false} NondecreasingPrefix(trace: seq<Request>, q: Request)
    requires Nondecreasing(trace + [q])
    ensures Nondecreasing(trace)
    ensures forall i | 0 <= i < |trace| :: trace[i].now <= q.now
  {
    var whole := trace + [q];
    assert forall i | 0 <= i < |trace| :: trace[i] == whole[i];
    assert whole[|trace|] == q;
  }

  /**
   The main result. Unless rules of one scope disagree about what must be kept, the limiter, which keeps a refilled token count,
   a window counter or a pruned deque per key, answers every request of every run exactly as the
   reference limiter that remembers all accepts.
   */
  lemma {:induction false} LimiterRefinesHistory(cfg: Config, trace: seq<Request>, q: Request)
    requires Staged(cfg) && AllSeeState(cfg)
    requires Nondecreasing(trace + [q])
    ensures Check(cfg, Run(cfg, trace), q.ctx, q.now).ok
       <==> forall rule | rule in EffectiveRules(cfg) ::
              HistoryAdmits(cfg, rule, KeyHistory(cfg, trace, rule.scope, ScopeValue(rule.scope, q.ctx)), q.now)
  {
    var rules := EffectiveRules(cfg);
    forall i | 0 <= i < |rules|
      ensures RuleVerdict(cfg, Run(cfg, trace), rules[i], q.ctx, q.now).ok
         <==> HistoryAdmits(cfg, rules[i], KeyHistory(cfg, trace, rules[i].scope, ScopeValue(rules[i].scope, q.ctx)), q.now)
    {
      RuleRefinesHistory(cfg, trace, q, i);
    }
  }
}
