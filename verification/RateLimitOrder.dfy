/** What the order of the scoped rules can and cannot change. */
module RateLimitOrder {
  import opened Wrappers
  import opened RateLimit
  import opened RateLimitRuns

  /** The same rules, and for every scope the rules that come last keep alike. */
  ghost predicate SameUpToOrder(cfg: Config, rules: seq<Rule>, other: seq<Rule>) {
    && multiset(rules) == multiset(other)
    && forall i: nat, j: nat | LastOfScope(rules, i) && LastOfScope(other, j) && rules[i].scope == other[j].scope ::
         KeepAlike(cfg, rules[i], other[j])
  }

  lemma {:induction false} SameMembers(rules: seq<Rule>, other: seq<Rule>, rule: Rule)
    requires multiset(rules) == multiset(other)
    ensures rule in rules <==> rule in other
  {
    assert rule in rules <==> rule in multiset(rules);
    assert rule in other <==> rule in multiset(other);
  }

  lemma {:induction false} DistinctIsSameUpToOrder(cfg: Config, rules: seq<Rule>, other: seq<Rule>)
    requires multiset(rules) == multiset(other) && DistinctScopes(rules)
    ensures SameUpToOrder(cfg, rules, other)
  {
    forall i: nat, j: nat | LastOfScope(rules, i) && LastOfScope(other, j) && rules[i].scope == other[j].scope
      ensures KeepAlike(cfg, rules[i], other[j])
    {
      SameMembers(rules, other, other[j]);
      var k :| 0 <= k < |rules| && rules[k] == other[j];
    }
  }

  lemma {:induction false} AdmitsOneWay(cfg: Config, states: States, rules: seq<Rule>, other: seq<Rule>, q: Request)
    requires multiset(rules) == multiset(other) && AllAdmit(cfg, states, rules, q.ctx, q.now)
    ensures AllAdmit(cfg, states, other, q.ctx, q.now)
  {
    forall j | 0 <= j < |other|
      ensures RuleVerdict(cfg, states, other[j], q.ctx, q.now).ok
    {
      SameMembers(rules, other, other[j]);
      var k :| 0 <= k < |rules| && rules[k] == other[j];
    }
  }

  /** A key of the commit is either written by the last rule of one scope or untouched. */
  lemma {:induction false} CommitAgreesAt(cfg: Config, states: States, rules: seq<Rule>, other: seq<Rule>, q: Request, key: string)
    requires SameUpToOrder(cfg, rules, other) && AllAdmit(cfg, states, rules, q.ctx, q.now)
    ensures var c, d := Commit(cfg, states, rules, q.ctx, q.now), Commit(cfg, states, other, q.ctx, q.now);
            (key in c <==> key in d) && (key in c ==> c[key] == d[key])
  {
    if i :| 0 <= i < |rules| && KeyFor(rules[i], q.ctx) == key {
      SameMembers(rules, other, rules[i]);
      var j :| 0 <= j < |other| && other[j] == rules[i];
      var k := LastExists(rules, i);
      var l := LastExists(other, j);
      CommitAt(cfg, states, rules, q, k);
      CommitAt(cfg, states, other, q, l);
      AdmitsOneWay(cfg, states, rules, other, q);
      AlikeVerdicts(cfg, states, rules[k], other[l], q);
    } else {
      forall j | 0 <= j < |other|
        ensures KeyFor(other[j], q.ctx) != key
      {
        SameMembers(rules, other, other[j]);
        var k :| 0 <= k < |rules| && rules[k] == other[j];
      }
      CommitElsewhere(cfg, states, rules, q, key);
      CommitElsewhere(cfg, states, other, q, key);
    }
  }

  lemma {:induction false} CommitsAgree(cfg: Config, states: States, rules: seq<Rule>, other: seq<Rule>, q: Request)
    requires SameUpToOrder(cfg, rules, other) && AllAdmit(cfg, states, rules, q.ctx, q.now)
    ensures Commit(cfg, states, rules, q.ctx, q.now) == Commit(cfg, states, other, q.ctx, q.now)
  {
    var c, d := Commit(cfg, states, rules, q.ctx, q.now), Commit(cfg, states, other, q.ctx, q.now);
    forall key: string
      ensures (key in c <==> key in d) && (key in c ==> c[key] == d[key])
    {
      CommitAgreesAt(cfg, states, rules, other, q, key);
    }
    assert c == d;
  }

  /** One request: same answer, same map. */
  lemma {:induction false} CheckIgnoresOrder(cfg: Config, other: Config, states: States, q: Request)
    requires other == cfg.(scopedLimits := other.scopedLimits)
    requires SameUpToOrder(cfg, cfg.scopedLimits, other.scopedLimits)
    ensures Check(cfg, states, q.ctx, q.now) == Check(other, states, q.ctx, q.now)
  {
    assert |multiset(cfg.scopedLimits)| == |cfg.scopedLimits|;
    assert |multiset(other.scopedLimits)| == |other.scopedLimits|;
    if cfg.scopedLimits != [] {
      var rules, rules' := cfg.scopedLimits, other.scopedLimits;
      VerdictIgnoresRules(cfg, other, states, rules', q);
      if AllAdmit(cfg, states, rules, q.ctx, q.now) {
        AdmitsOneWay(cfg, states, rules, rules', q);
      } else if AllAdmit(cfg, states, rules', q.ctx, q.now) {
        AdmitsOneWay(cfg, states, rules', rules, q);
      }
      if AllAdmit(cfg, states, rules, q.ctx, q.now) {
        CommitsAgree(cfg, states, rules, rules', q);
      }
    }
  }

  /** A verdict reads the rule and the default policy, not the rule list of the configuration. */
  lemma {:induction false} VerdictIgnoresRules(cfg: Config, other: Config, states: States, rules: seq<Rule>, q: Request)
    requires other == cfg.(scopedLimits := other.scopedLimits)
    ensures AllAdmit(cfg, states, rules, q.ctx, q.now) == AllAdmit(other, states, rules, q.ctx, q.now)
    ensures Commit(cfg, states, rules, q.ctx, q.now) == Commit(other, states, rules, q.ctx, q.now)
  {
    forall i | 0 <= i < |rules|
      ensures RuleVerdict(cfg, states, rules[i], q.ctx, q.now) == RuleVerdict(other, states, rules[i], q.ctx, q.now)
    {
    }
    if rules != [] {
      VerdictIgnoresRules(cfg, other, states, rules[..|rules| - 1], q);
    }
  }

  /** Whole runs: reordering rules changes no answer and no state as long as the last rules of each scope keep alike. */
  lemma {:induction false} RunIgnoresOrder(cfg: Config, other: Config, trace: seq<Request>)
    requires other == cfg.(scopedLimits := other.scopedLimits)
    requires SameUpToOrder(cfg, cfg.scopedLimits, other.scopedLimits)
    ensures Run(cfg, trace) == Run(other, trace)
    ensures Accepted(cfg, trace) == Accepted(other, trace)
  {
    if trace != [] {
      var n := |trace| - 1;
      RunIgnoresOrder(cfg, other, trace[..n]);
      CheckIgnoresOrder(cfg, other, Run(cfg, trace[..n]), trace[n]);
    }
  }

  /** With pairwise distinct scopes any permutation of the rules will do. */
  lemma {:induction false} PermutationIsHarmless(cfg: Config, other: Config, trace: seq<Request>)
    requires other == cfg.(scopedLimits := other.scopedLimits)
    requires DistinctScopes(cfg.scopedLimits)
    requires multiset(cfg.scopedLimits) == multiset(other.scopedLimits)
    ensures Run(cfg, trace) == Run(other, trace)
    ensures Accepted(cfg, trace) == Accepted(other, trace)
  {
    DistinctIsSameUpToOrder(cfg, cfg.scopedLimits, other.scopedLimits);
    RunIgnoresOrder(cfg, other, trace);
  }

  // --- Two rules of one scope ---

  const STRICT := Rule(Client, 1, None, 60, Some(SlidingWindow))
  const LOOSE := Rule(Client, 5, None, 60, Some(TokenBucket))
  const ONE_CALLER := Context("r", "s", None, "c")

  function SharedScope(rules: seq<Rule>): Config {
    Config(true, TokenBucket, 100, 100, 60, 60, rules)
  }

  const AT_ZERO := Request(ONE_CALLER, 0.0)

  /** The first request passes either way and leaves the content of the last rule. */
  lemma {:induction false} FirstPasses(rules: seq<Rule>)
    requires rules == [STRICT, LOOSE] || rules == [LOOSE, STRICT]
    ensures Accepted(SharedScope(rules), [AT_ZERO]) == [AT_ZERO]
    ensures Lookup(Run(SharedScope(rules), [AT_ZERO]), KeyFor(rules[1], ONE_CALLER))
         == RuleVerdict(SharedScope(rules), map[], rules[1], ONE_CALLER, 0.0).next
  {
    var cfg := SharedScope(rules);
    assert [AT_ZERO][..0] == [];
    assert LastCheck(cfg, [AT_ZERO]) == Check(cfg, map[], ONE_CALLER, 0.0);
    assert AllAdmit(cfg, map[], rules, ONE_CALLER, 0.0);
    CommitAt(cfg, map[], rules, AT_ZERO, 1);
  }

  lemma {:induction false} SecondPassesLooseLast()
    ensures AllAdmit(SharedScope([STRICT, LOOSE]), Run(SharedScope([STRICT, LOOSE]), [AT_ZERO]), [STRICT, LOOSE], ONE_CALLER, 0.0)
  {
    FirstPasses([STRICT, LOOSE]);
  }

  lemma {:induction false} SecondFailsStrictLast()
    ensures !RuleVerdict(SharedScope([LOOSE, STRICT]), Run(SharedScope([LOOSE, STRICT]), [AT_ZERO]), STRICT, ONE_CALLER, 0.0).ok
  {
    FirstPasses([LOOSE, STRICT]);
    assert DropExpired([0.0], 60.0, 0.0) == [0.0];
  }

  /**
   With equal scopes the rules share a key and only the last one's content is kept. Put first, the
   one-hit rule never sees its own hit: two requests at one instant pass it. Put last, it holds.
   */
  lemma {:induction false} EqualScopesLoseTheFirstRule()
    ensures Accepted(SharedScope([STRICT, LOOSE]), [AT_ZERO, AT_ZERO]) == [AT_ZERO, AT_ZERO]
    ensures Accepted(SharedScope([LOOSE, STRICT]), [AT_ZERO, AT_ZERO]) == [AT_ZERO]
  {
    var twice := [AT_ZERO, AT_ZERO];
    assert twice[..1] == [AT_ZERO];
    FirstPasses([STRICT, LOOSE]);
    FirstPasses([LOOSE, STRICT]);
    SecondPassesLooseLast();
    SecondFailsStrictLast();
    assert LastCheck(SharedScope([STRICT, LOOSE]), twice).ok;
    assert !AllAdmit(SharedScope([LOOSE, STRICT]), Run(SharedScope([LOOSE, STRICT]), [AT_ZERO]), [LOOSE, STRICT], ONE_CALLER, 0.0) by {
      assert [LOOSE, STRICT][1] == STRICT;
    }
    assert !LastCheck(SharedScope([LOOSE, STRICT]), twice).ok;
  }
}
