/**
 Runs made of requests alone, without active checks and for every strategy. A target is taken out of the
 traffic by failing its requests and spending its probes: its key is then shut until an outcome arrives.
 Handlers whose counts are multiples of 2^32 are begun first and kept idle; the requests in between are
 answered with success.
 */
module GatewayTraffic {
  import opened Wrappers
  import opened MachineInts
  import opened Clock
  import opened Balancer
  import opened Resilience
  import Breaker
  import opened Gateway
  import opened GatewayInterleaving
  import opened GatewayProbes

  // --- States of keys ---

  /** In the traffic, with no failure on record. */
  ghost predicate Fresh(s: TargetValue) {
    s.activeHealthy && s.passiveHealthy && s.circuit == Closed && s.consecutiveFailures == s.breakerFailures == 0
  }

  ghost predicate Tripped(cfg: Thresholds, s: TargetValue) {
    s.activeHealthy && s.breakerFailures >= Breaker.AtLeastOne(cfg.breakerFailures)
  }

  /** Out of the traffic until an outcome is recorded. */
  ghost predicate Shut(cfg: Thresholds, s: TargetValue) {
    Tripped(cfg, s) && s.circuit == HalfOpen(0)
  }

  ghost predicate SameLookups(sys: System, sys': System) {
    forall key: string :: Lookup(sys'.states, key) == Lookup(sys.states, key)
  }

  /** Every key but `key` is as it was. */
  ghost predicate SameBut(sys: System, sys': System, key: string) {
    forall other: string | other != key :: Lookup(sys'.states, other) == Lookup(sys.states, other)
  }

  /** The keys of `shut` are shut, all others but `key` are fresh. */
  ghost predicate StatusBut(up: Upstream, sys: System, shut: set<string>, key: string) {
    forall other: string | other != key ::
      if other in shut then Shut(up.thresholds, Lookup(sys.states, other)) else Fresh(Lookup(sys.states, other))
  }

  ghost predicate Status(up: Upstream, sys: System, shut: set<string>) {
    forall key: string ::
      if key in shut then Shut(up.thresholds, Lookup(sys.states, key)) else Fresh(Lookup(sys.states, key))
  }

  // --- One handler ---

  /** The question for target `i` has the answer `keep` says and changes nothing. */
  ghost predicate QuietAt(up: Upstream, sys: System, keep: set<nat>, i: nat, now: Instant)
    requires i < |up.targets|
  {
    var s := Lookup(sys.states, KeyOf(up, up.targets[i]));
    Ask(up.thresholds, s, now) == Answer(i in keep, s)
  }

  lemma {:induction false} AskOne(up: Upstream, hash: string -> nat, sys: System, h: nat, now: Instant)
    returns (events: seq<Event>, sys': System)
    requires h in sys.handlers && sys.handlers[h].Scanning? && sys.handlers[h].next < |up.targets| && sys.clock <= now
    ensures Leads(up, hash, sys, events, sys') && sys'.clock == now && sys'.counter == sys.counter
    ensures var was := sys.handlers[h];
            var asked := up.targets[was.next];
            var answer := Ask(up.thresholds, Lookup(sys.states, KeyOf(up, asked)), now);
            && sys'.handlers
               == sys.handlers[h := was.(next := was.next + 1,
                                         available := if answer.available then was.available + [asked] else was.available)]
            && Lookup(sys'.states, KeyOf(up, asked)) == answer.next
            && SameBut(sys, sys', KeyOf(up, asked))
  {
    var e := AskNext(h, now);
    LeadsOne(up, hash, sys, e);
    events, sys' := [e], Step(up, hash, sys, e);
    var key := KeyOf(up, up.targets[sys.handlers[h].next]);
    forall other: string | other != key
      ensures Lookup(sys'.states, other) == Lookup(sys.states, other)
    {
      StateStep(up, hash, sys, e, other);
    }
  }

  /** A handler goes on to target `n` and changes nothing. */
  lemma {:induction false} ScanOn(up: Upstream, hash: string -> nat, sys: System, h: nat, keep: set<nat>, n: nat, now: Instant)
    returns (events: seq<Event>, sys': System)
    requires h in sys.handlers && sys.handlers[h].Scanning? && sys.clock <= now
    requires sys.handlers[h].next <= n <= |up.targets|
    requires sys.handlers[h].available == Kept(up.targets, keep, sys.handlers[h].next)
    requires forall i: nat | sys.handlers[h].next <= i < n :: QuietAt(up, sys, keep, i, now)
    ensures Leads(up, hash, sys, events, sys')
    ensures sys'.handlers == sys.handlers[h := sys.handlers[h].(next := n, available := Kept(up.targets, keep, n))]
    ensures SameLookups(sys, sys') && sys'.clock <= now && sys'.counter == sys.counter
    decreases n
  {
    if n == sys.handlers[h].next {
      events, sys' := [], sys;
      assert sys.handlers[h].(next := n, available := Kept(up.targets, keep, n)) == sys.handlers[h];
    } else {
      var before, mid := ScanOn(up, hash, sys, h, keep, n - 1, now);
      assert QuietAt(up, sys, keep, n - 1, now);
      var step;
      step, sys' := AskOne(up, hash, mid, h, now);
      events := before + step;
      LeadsOn(up, hash, sys, before, mid, step, sys');
      assert sys'.handlers[h].available == Kept(up.targets, keep, n);
      assert SameLookups(sys, sys') by {
        assert SameBut(mid, sys', KeyOf(up, up.targets[n - 1]));
      }
    }
  }

  // --- A pool of idle handlers ---

  /** A multiple of 2^32. */
  ghost predicate IsMultiple(n: nat) {
    n == 0 || (n >= TWO_32 && IsMultiple(n - TWO_32))
  }

  lemma {:induction false} MultipleOf(k: nat)
    ensures IsMultiple(k * TWO_32)
  {
    if k > 0 {
      MultipleOf(k - 1);
      assert k * TWO_32 - TWO_32 == (k - 1) * TWO_32;
    }
  }

  lemma {:induction false} MultipleSelects(n: nat)
    requires IsMultiple(n)
    ensures n % TWO_32 == 0
  {
    if n > 0 {
      MultipleSelects(n - TWO_32);
    }
  }

  /** The handler has come to target `i` and collected what `keep` says; its count is a multiple of 2^32. */
  ghost predicate At(up: Upstream, handler: Handler, keep: set<nat>, i: nat) {
    && i <= |up.targets|
    && handler.Scanning? && handler.requestKey == "" && IsMultiple(handler.requestCount)
    && handler.next == i && handler.available == Kept(up.targets, keep, i)
  }

  /** The targets in the traffic. */
  ghost function Offered(up: Upstream, shut: set<string>): set<nat> {
    set i: nat | i < |up.targets| && KeyOf(up, up.targets[i]) !in shut
  }

  lemma {:induction false} FreshIsQuiet(up: Upstream, sys: System, keep: set<nat>, now: Instant)
    requires Status(up, sys, {}) && forall i: nat | i < |up.targets| :: i in keep
    ensures forall i: nat | i < |up.targets| :: QuietAt(up, sys, keep, i, now)
  {
  }

  /** A request that is answered with success leaves every key fresh. */
  lemma {:induction false} Visit(up: Upstream, hash: string -> nat, sys: System, h: nat)
    returns (events: seq<Event>, sys': System)
    requires h !in sys.handlers && Status(up, sys, {}) && sys.clock <= 0.0
    ensures Leads(up, hash, sys, events, sys')
    ensures sys'.handlers == sys.handlers && sys'.counter == sys.counter + 1
    ensures Status(up, sys', {}) && sys'.clock <= 0.0
  {
    var begin := Begin(h, "");
    LeadsOne(up, hash, sys, begin);
    var begun := Step(up, hash, sys, begin);
    assert Kept(up.targets, Offered(up, {}), 0) == [];
    assert Status(up, begun, {});
    FreshIsQuiet(up, begun, Offered(up, {}), 0.0);
    var scan, scanned := ScanOn(up, hash, begun, h, Offered(up, {}), |up.targets|, 0.0);
    LeadsOn(up, hash, sys, [begin], begun, scan, scanned);
    var end;
    end, sys' := Leave(up, hash, scanned, h, 0.0);
    LeadsOn(up, hash, sys, [begin] + scan, scanned, end, sys');
    events := [begin] + scan + end;
    assert sys'.handlers == sys.handlers;
    forall key: string
      ensures Fresh(Lookup(sys'.states, key))
    {
      assert Fresh(Lookup(sys.states, key));
      assert Lookup(scanned.states, key) == Lookup(begun.states, key);
    }
  }

  /** A handler at the end of its scan chooses, and sends with success if there is anybody to send to. */
  lemma {:induction false} Leave(up: Upstream, hash: string -> nat, sys: System, h: nat, now: Instant)
    returns (events: seq<Event>, sys': System)
    requires h in sys.handlers && sys.handlers[h].Scanning? && sys.handlers[h].next == |up.targets| && sys.clock <= now
    ensures Leads(up, hash, sys, events, sys')
    ensures sys'.handlers == sys.handlers - {h} && sys'.counter == sys.counter && sys'.clock <= now
    ensures forall key: string | Fresh(Lookup(sys.states, key)) :: Fresh(Lookup(sys'.states, key))
  {
    LeadsOne(up, hash, sys, Choose(h));
    var mid := Step(up, hash, sys, Choose(h));
    if h in mid.handlers {
      var e := Finish(h, true, now);
      LeadsOne(up, hash, mid, e);
      events, sys' := [Choose(h)] + [e], Step(up, hash, mid, e);
      LeadsOn(up, hash, sys, [Choose(h)], mid, [e], sys');
      forall key: string | Fresh(Lookup(sys.states, key))
        ensures Fresh(Lookup(sys'.states, key))
      {
        StateStep(up, hash, mid, e, key);
      }
      assert sys'.handlers == sys.handlers - {h};
    } else {
      events, sys' := [Choose(h)], mid;
    }
  }

  lemma {:induction false} SkipTo(up: Upstream, hash: string -> nat, sys: System, h: nat, count: nat)
    returns (events: seq<Event>, sys': System)
    requires h !in sys.handlers && Status(up, sys, {}) && sys.clock <= 0.0 && sys.counter <= count
    ensures Leads(up, hash, sys, events, sys')
    ensures sys'.handlers == sys.handlers && sys'.counter == count && Status(up, sys', {}) && sys'.clock <= 0.0
    decreases count
  {
    if sys.counter == count {
      events, sys' := [], sys;
    } else {
      var before, mid := SkipTo(up, hash, sys, h, count - 1);
      var more;
      more, sys' := Visit(up, hash, mid, h);
      events := before + more;
      LeadsOn(up, hash, sys, before, mid, more, sys');
    }
  }

  lemma {:induction false} NextMultiple(counter: nat) returns (next: nat)
    ensures next >= counter && IsMultiple(next)
  {
    next := (counter / TWO_32 + 1) * TWO_32;
    MultipleOf(counter / TWO_32 + 1);
  }

  /** Handlers `0` to `size - 1` have begun and asked nobody yet. */
  ghost predicate Pooled(up: Upstream, sys: System, size: nat) {
    && (forall h: nat :: h in sys.handlers <==> h < size)
    && (forall h | h in sys.handlers :: At(up, sys.handlers[h], {}, 0))
    && Status(up, sys, {}) && sys.clock <= 0.0
  }

  lemma {:induction false} Pool(up: Upstream, hash: string -> nat, size: nat) returns (events: seq<Event>, sys: System)
    ensures Leads(up, hash, INITIAL, events, sys) && Pooled(up, sys, size)
  {
    if size == 0 {
      events, sys := [], INITIAL;
    } else {
      var before, mid := Pool(up, hash, size - 1);
      var count := NextMultiple(mid.counter);
      var skip, ready := SkipTo(up, hash, mid, size - 1, count);
      var begin := Begin(size - 1, "");
      LeadsOne(up, hash, ready, begin);
      sys := Step(up, hash, ready, begin);
      events := before + skip + [begin];
      LeadsOn(up, hash, INITIAL, before, mid, skip, ready);
      LeadsOn(up, hash, INITIAL, before + skip, ready, [begin], sys);
      assert Kept(up.targets, {}, 0) == [];
      assert SameLookups(ready, sys);
    }
  }

  // --- A squad of handlers in step ---

  /** Handlers `lo` to `lo + m - 1` are at target `i`. */
  ghost predicate SquadAt(up: Upstream, sys: System, lo: nat, m: nat, keep: set<nat>, i: nat) {
    forall h: nat | lo <= h < lo + m :: h in sys.handlers && At(up, sys.handlers[h], keep, i)
  }

  /** Nobody has come or gone, and only the squad has moved. */
  ghost predicate SquadMoved(sys: System, sys': System, lo: nat, m: nat) {
    && sys'.handlers.Keys == sys.handlers.Keys
    && forall h | h in sys.handlers && !(lo <= h < lo + m) :: sys'.handlers[h] == sys.handlers[h]
  }

  lemma {:induction false} OneMoreMoved(
    up: Upstream, sys: System, mid: System, sys': System, lo: nat, m: nat, h: nat, keep: set<nat>, i: nat)
    requires m > 0 && h == lo + m - 1
    requires SquadAt(up, mid, lo, m - 1, keep, i) && SquadMoved(sys, mid, lo, m - 1)
    requires h in mid.handlers && h in sys'.handlers && sys'.handlers == mid.handlers[h := sys'.handlers[h]]
    requires At(up, sys'.handlers[h], keep, i)
    ensures SquadAt(up, sys', lo, m, keep, i) && SquadMoved(sys, sys', lo, m)
  {
  }

  lemma {:induction false} Advance(
    up: Upstream, hash: string -> nat, sys: System, lo: nat, m: nat, keep: set<nat>, i: nat, n: nat, now: Instant)
    returns (events: seq<Event>, sys': System)
    requires SquadAt(up, sys, lo, m, keep, i) && i <= n <= |up.targets| && sys.clock <= now
    requires forall j: nat | i <= j < n :: QuietAt(up, sys, keep, j, now)
    ensures Leads(up, hash, sys, events, sys')
    ensures SquadAt(up, sys', lo, m, keep, n) && SquadMoved(sys, sys', lo, m)
    ensures SameLookups(sys, sys') && sys'.clock <= now
  {
    if m == 0 {
      events, sys' := [], sys;
    } else {
      var before, mid := Advance(up, hash, sys, lo, m - 1, keep, i, n, now);
      var h := lo + m - 1;
      assert At(up, mid.handlers[h], keep, i);
      forall j: nat | i <= j < n
        ensures QuietAt(up, mid, keep, j, now)
      {
        assert QuietAt(up, sys, keep, j, now);
      }
      var scan;
      scan, sys' := ScanOn(up, hash, mid, h, keep, n, now);
      events := before + scan;
      LeadsOn(up, hash, sys, before, mid, scan, sys');
      OneMoreMoved(up, sys, mid, sys', lo, m, h, keep, n);
    }
  }

  /** The `m`-th yes after the cool-down; the first comes from the open circuit. */
  lemma {:induction false} SpendOne(cfg: Thresholds, s: TargetValue, m: nat, openedAt: Instant, now: Instant)
    requires Tripped(cfg, s) && 1 <= m <= cfg.halfOpenMax + 1 && Elapsed(now, openedAt) >= Millis(cfg.openMs)
    requires s.circuit == if m == 1 then Open(openedAt) else HalfOpen(cfg.halfOpenMax + 2 - m)
    ensures Ask(cfg, s, now).available && Tripped(cfg, Ask(cfg, s, now).next)
    ensures Ask(cfg, s, now).next.circuit == HalfOpen(cfg.halfOpenMax + 1 - m)
  {
  }

  /** One handler has been granted target `i`, which `keep` has. */
  lemma {:induction false} GrantedAt(up: Upstream, was: Handler, now: Handler, keep: set<nat>, i: nat)
    requires i < |up.targets| && i in keep && At(up, was, keep, i)
    requires now == was.(next := i + 1, available := was.available + [up.targets[i]])
    ensures At(up, now, keep, i + 1)
  {
  }

  /** The next target is open since `openedAt` and has given `m` probes since. */
  ghost predicate Spent(up: Upstream, sys: System, i: nat, m: nat, openedAt: Instant)
    requires i < |up.targets| && m <= up.thresholds.halfOpenMax + 1
  {
    var s := Lookup(sys.states, KeyOf(up, up.targets[i]));
    && Tripped(up.thresholds, s)
    && s.circuit == if m == 0 then Open(openedAt) else HalfOpen(up.thresholds.halfOpenMax + 1 - m)
  }

  lemma {:induction false} GrantOne(
    up: Upstream, hash: string -> nat, sys: System, h: nat, m: nat, keep: set<nat>, i: nat, openedAt: Instant, now: Instant)
    returns (events: seq<Event>, sys': System)
    requires i < |up.targets| && i in keep && m <= up.thresholds.halfOpenMax && sys.clock <= now
    requires Spent(up, sys, i, m, openedAt) && Elapsed(now, openedAt) >= Millis(up.thresholds.openMs)
    requires h in sys.handlers && At(up, sys.handlers[h], keep, i)
    ensures Leads(up, hash, sys, events, sys') && sys'.clock <= now
    ensures h in sys'.handlers && At(up, sys'.handlers[h], keep, i + 1)
    ensures sys'.handlers == sys.handlers[h := sys'.handlers[h]]
    ensures Spent(up, sys', i, m + 1, openedAt) && SameBut(sys, sys', KeyOf(up, up.targets[i]))
  {
    SpendOne(up.thresholds, Lookup(sys.states, KeyOf(up, up.targets[i])), m + 1, openedAt, now);
    events, sys' := AskOne(up, hash, sys, h, now);
    GrantedAt(up, sys.handlers[h], sys'.handlers[h], keep, i);
  }

  lemma {:induction false} StillAt(
    up: Upstream, sys: System, mid: System, lo: nat, m: nat, h: nat, keep: set<nat>, i: nat)
    requires m > 0 && h == lo + m - 1 && SquadAt(up, sys, lo, m, keep, i) && SquadMoved(sys, mid, lo, m - 1)
    ensures h in mid.handlers && At(up, mid.handlers[h], keep, i)
  {
  }

  lemma {:induction false} SameButOn(sys: System, mid: System, sys': System, key: string)
    requires SameBut(sys, mid, key) && SameBut(mid, sys', key)
    ensures SameBut(sys, sys', key)
  {
    forall other: string | other != key
      ensures Lookup(sys'.states, other) == Lookup(sys.states, other)
    {
      assert Lookup(mid.states, other) == Lookup(sys.states, other);
    }
  }

  /** The first `m` of the squad have been granted target `i`. */
  ghost predicate SpentBy(
    up: Upstream, sys: System, sys': System, lo: nat, m: nat, keep: set<nat>, i: nat, openedAt: Instant, now: Instant)
    requires i < |up.targets| && m <= up.thresholds.halfOpenMax + 1
  {
    && SquadAt(up, sys', lo, m, keep, i + 1) && SquadMoved(sys, sys', lo, m) && sys'.clock <= now
    && Spent(up, sys', i, m, openedAt) && SameBut(sys, sys', KeyOf(up, up.targets[i]))
  }

  lemma {:induction false} SpendNext(
    up: Upstream, hash: string -> nat, sys: System, mid: System, lo: nat, m: nat, keep: set<nat>, i: nat,
    openedAt: Instant, now: Instant)
    returns (events: seq<Event>, sys': System)
    requires i < |up.targets| && i in keep && 0 < m <= up.thresholds.halfOpenMax + 1
    requires Elapsed(now, openedAt) >= Millis(up.thresholds.openMs)
    requires SquadAt(up, sys, lo, m, keep, i) && SpentBy(up, sys, mid, lo, m - 1, keep, i, openedAt, now)
    ensures Leads(up, hash, mid, events, sys') && SpentBy(up, sys, sys', lo, m, keep, i, openedAt, now)
  {
    var h := lo + m - 1;
    StillAt(up, sys, mid, lo, m, h, keep, i);
    events, sys' := GrantOne(up, hash, mid, h, m - 1, keep, i, openedAt, now);
    OneMoreMoved(up, sys, mid, sys', lo, m, h, keep, i + 1);
    SameButOn(sys, mid, sys', KeyOf(up, up.targets[i]));
  }

  /** The first `m` of the squad spend the probes of the next target, which has been open long enough. */
  lemma {:induction false} Spend(
    up: Upstream, hash: string -> nat, sys: System, lo: nat, m: nat, keep: set<nat>, i: nat, openedAt: Instant, now: Instant)
    returns (events: seq<Event>, sys': System)
    requires i < |up.targets| && i in keep && m <= up.thresholds.halfOpenMax + 1 && sys.clock <= now
    requires Spent(up, sys, i, 0, openedAt) && Elapsed(now, openedAt) >= Millis(up.thresholds.openMs)
    requires SquadAt(up, sys, lo, m, keep, i)
    ensures Leads(up, hash, sys, events, sys') && SpentBy(up, sys, sys', lo, m, keep, i, openedAt, now)
  {
    if m == 0 {
      events, sys' := [], sys;
    } else {
      var before, mid := Spend(up, hash, sys, lo, m - 1, keep, i, openedAt, now);
      var grant;
      grant, sys' := SpendNext(up, hash, sys, mid, lo, m, keep, i, openedAt, now);
      events := before + grant;
      LeadsOn(up, hash, sys, before, mid, grant, sys');
    }
  }

  /** The squad chooses: all of them the same target, or nobody. */
  lemma {:induction false} ChooseAll(up: Upstream, hash: string -> nat, sys: System, lo: nat, m: nat, keep: set<nat>)
    returns (events: seq<Event>, sys': System)
    requires SquadAt(up, sys, lo, m, keep, |up.targets|)
    ensures Leads(up, hash, sys, events, sys')
    ensures forall h | h in sys'.handlers :: h in sys.handlers
    ensures forall h | h in sys.handlers && !(lo <= h < lo + m) :: h in sys'.handlers && sys'.handlers[h] == sys.handlers[h]
    ensures forall h: nat | lo <= h < lo + m ::
              match Choice(up, hash, keep, 0)
              case None => h !in sys'.handlers
              case Some(t) => h in sys'.handlers && sys'.handlers[h] == Waiting(t)
    ensures SameLookups(sys, sys') && sys'.clock == sys.clock
  {
    if m == 0 {
      events, sys' := [], sys;
    } else {
      var before, mid := ChooseAll(up, hash, sys, lo, m - 1, keep);
      var h := lo + m - 1;
      assert At(up, sys.handlers[h], keep, |up.targets|);
      LeadsOne(up, hash, mid, Choose(h));
      sys' := Step(up, hash, mid, Choose(h));
      events := before + [Choose(h)];
      LeadsOn(up, hash, sys, before, mid, [Choose(h)], sys');
      MultipleSelects(sys.handlers[h].requestCount);
      ChoiceIsPeriodic(up, hash, keep, sys.handlers[h].requestCount, 0);
    }
  }

  /** Handlers that wait for `t` leave with success. */
  lemma {:induction false} SucceedAll(
    up: Upstream, hash: string -> nat, sys: System, lo: nat, m: nat, t: Target, now: Instant)
    returns (events: seq<Event>, sys': System)
    requires sys.clock <= now
    requires forall h: nat | lo <= h < lo + m :: h in sys.handlers && sys.handlers[h] == Waiting(t)
    ensures Leads(up, hash, sys, events, sys')
    ensures forall h :: h in sys'.handlers <==> h in sys.handlers && !(lo <= h < lo + m)
    ensures forall h | h in sys'.handlers :: sys'.handlers[h] == sys.handlers[h]
    ensures SameBut(sys, sys', KeyOf(up, t)) && sys'.clock <= now
    ensures Fresh(Lookup(sys.states, KeyOf(up, t))) ==> Fresh(Lookup(sys'.states, KeyOf(up, t)))
  {
    if m == 0 {
      events, sys' := [], sys;
    } else {
      var before, mid := SucceedAll(up, hash, sys, lo, m - 1, t, now);
      var e := Finish(lo + m - 1, true, now);
      LeadsOne(up, hash, mid, e);
      sys' := Step(up, hash, mid, e);
      events := before + [e];
      LeadsOn(up, hash, sys, before, mid, [e], sys');
      OneOutcome(up, hash, mid, e);
    }
  }

  /** An outcome concerns its own key alone. */
  lemma {:induction false} OneOutcome(up: Upstream, hash: string -> nat, sys: System, e: Event)
    requires Enabled(up, sys, e) && e.Finish?
    ensures var key := KeyOf(up, sys.handlers[e.h].target);
            && SameBut(sys, Step(up, hash, sys, e), key)
            && Lookup(Step(up, hash, sys, e).states, key)
               == if e.success then AfterSuccess(up.thresholds, Lookup(sys.states, key))
                  else AfterFailure(up.thresholds, Lookup(sys.states, key), e.now)
  {
    var key := KeyOf(up, sys.handlers[e.h].target);
    forall other: string | other != key
      ensures Lookup(Step(up, hash, sys, e).states, other) == Lookup(sys.states, other)
    {
      StateStep(up, hash, sys, e, other);
    }
  }

  // --- Failing ---

  /** A fresh key after `m` failures at time `now`. */
  ghost predicate FailedTimes(cfg: Thresholds, s: TargetValue, m: nat, now: Instant) {
    && s.activeHealthy && s.consecutiveFailures == s.breakerFailures == m
    && (s.passiveHealthy <==> m < Breaker.AtLeastOne(cfg.passiveFailures))
    && s.circuit == (if m < Breaker.AtLeastOne(cfg.breakerFailures) then Closed else Open(now))
    && (m > 0 ==> s.consecutiveSuccesses == 0)
  }

  lemma {:induction false} FailMany(
    up: Upstream, hash: string -> nat, sys: System, lo: nat, m: u32, t: Target, now: Instant)
    returns (events: seq<Event>, sys': System)
    requires sys.clock <= now && Fresh(Lookup(sys.states, KeyOf(up, t)))
    requires forall h: nat | lo <= h < lo + m :: h in sys.handlers && sys.handlers[h] == Waiting(t)
    ensures Leads(up, hash, sys, events, sys')
    ensures forall h :: h in sys'.handlers <==> h in sys.handlers && !(lo <= h < lo + m)
    ensures forall h | h in sys'.handlers :: sys'.handlers[h] == sys.handlers[h]
    ensures FailedTimes(up.thresholds, Lookup(sys'.states, KeyOf(up, t)), m, now)
    ensures SameBut(sys, sys', KeyOf(up, t)) && sys'.clock <= now
  {
    if m == 0 {
      events, sys' := [], sys;
    } else {
      var before, mid := FailMany(up, hash, sys, lo, m - 1, t, now);
      var e := Finish(lo + m - 1, false, now);
      LeadsOne(up, hash, mid, e);
      sys' := Step(up, hash, mid, e);
      events := before + [e];
      LeadsOn(up, hash, sys, before, mid, [e], sys');
      OneOutcome(up, hash, mid, e);
    }
  }

  ghost function WaitersOf(up: Upstream, sys: System, key: string): set<nat> {
    set h | h in sys.handlers && sys.handlers[h].Waiting? && KeyOf(up, sys.handlers[h].target) == key
  }

  /** All handlers that wait for a tripped key fail, which opens it again. */
  lemma {:induction false} FailWaiters(up: Upstream, hash: string -> nat, sys: System, key: string, now: Instant)
    returns (events: seq<Event>, sys': System)
    requires WaitersOf(up, sys, key) != {} && Tripped(up.thresholds, Lookup(sys.states, key)) && sys.clock <= now
    ensures Leads(up, hash, sys, events, sys')
    ensures forall h :: h in sys'.handlers <==> h in sys.handlers && h !in WaitersOf(up, sys, key)
    ensures forall h | h in sys'.handlers :: sys'.handlers[h] == sys.handlers[h]
    ensures Tripped(up.thresholds, Lookup(sys'.states, key)) && Lookup(sys'.states, key).circuit == Open(now)
    ensures SameBut(sys, sys', key) && sys'.clock <= now
    decreases |WaitersOf(up, sys, key)|
  {
    var w :| w in WaitersOf(up, sys, key);
    var e := Finish(w, false, now);
    LeadsOne(up, hash, sys, e);
    var mid := Step(up, hash, sys, e);
    OneOutcome(up, hash, sys, e);
    assert WaitersOf(up, mid, key) == WaitersOf(up, sys, key) - {w};
    if WaitersOf(up, mid, key) == {} {
      events, sys' := [e], mid;
    } else {
      var rest;
      rest, sys' := FailWaiters(up, hash, mid, key, now);
      events := [e] + rest;
      LeadsOn(up, hash, sys, [e], mid, rest, sys');
    }
  }
}
