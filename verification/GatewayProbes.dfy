/**
 When probes get lost. Every available target is asked, but only one is sent to; a half-open target
 that was asked and passed over has spent a probe on nothing.
 */
module GatewayProbes {
  import opened Wrappers
  import opened MachineInts
  import opened Clock
  import opened Balancer
  import opened Resilience
  import opened Gateway
  import opened GatewayInterleaving

  // --- Lost for good ---

  /** Not available, and with no outcome outstanding that could change this. */
  ghost predicate Lost(up: Upstream, sys: System, key: string) {
    var s := Lookup(sys.states, key);
    && !CommittedTo(up, sys, key)
    && (s.circuit == HalfOpen(0) || (s.circuit == Closed && !s.passiveHealthy))
  }

  lemma {:induction false} LostStep(up: Upstream, hash: string -> nat, sys: System, e: Event, key: string)
    requires Enabled(up, sys, e) && Lost(up, sys, key)
    ensures Lost(up, Step(up, hash, sys, e), key)
  {
    var sys' := Step(up, hash, sys, e);
    StateStep(up, hash, sys, e, key);
    assert e.Finish? ==> Holds(up, sys.handlers[e.h], KeyOf(up, sys.handlers[e.h].target));
    forall h | h in sys'.handlers && Holds(up, sys'.handlers[h], key)
      ensures h in sys.handlers && Holds(up, sys.handlers[h], key)
    {
    }
  }

  /** No traffic, no health check and no waiting brings a lost key back. */
  lemma {:induction false} LostForever(
    up: Upstream, hash: string -> nat, sys: System, events: seq<Event>, later: System, key: string)
    requires Lost(up, sys, key) && Exec(up, hash, sys, events) == Some(later)
    ensures Lost(up, later, key)
    ensures forall now: Instant :: !Ask(up.thresholds, Lookup(later.states, key), now).available
    decreases |events|
  {
    if events != [] {
      var n := |events| - 1;
      var mid := Exec(up, hash, sys, events[..n]).value;
      LostForever(up, hash, sys, events[..n], mid, key);
      LostStep(up, hash, mid, events[n], key);
    }
  }

  // --- Building runs ---

  lemma {:induction false} ExecOn(
    up: Upstream, hash: string -> nat, sys: System, a: seq<Event>, mid: System, b: seq<Event>)
    requires Exec(up, hash, sys, a) == Some(mid)
    ensures Exec(up, hash, sys, a + b) == Exec(up, hash, mid, b)
    decreases |b|
  {
    if b == [] {
      assert a + b == a;
    } else {
      assert (a + b)[..|a + b| - 1] == a + b[..|b| - 1];
      ExecOn(up, hash, sys, a, mid, b[..|b| - 1]);
    }
  }

  lemma {:induction false} ExecOne(up: Upstream, hash: string -> nat, sys: System, e: Event)
    requires Enabled(up, sys, e)
    ensures Exec(up, hash, sys, [e]) == Some(Step(up, hash, sys, e))
  {
    assert [e][..0] == [];
  }

  /** No other upstream takes a request count and no client disconnects. */
  ghost predicate Undisturbed(events: seq<Event>) {
    forall e | e in events :: !e.OtherUpstream? && !e.Drop?
  }

  ghost predicate Leads(up: Upstream, hash: string -> nat, sys: System, events: seq<Event>, sys': System) {
    Exec(up, hash, sys, events) == Some(sys') && Undisturbed(events)
  }

  lemma {:induction false} LeadsOn(
    up: Upstream, hash: string -> nat, sys: System, a: seq<Event>, mid: System, b: seq<Event>, sys': System)
    requires Leads(up, hash, sys, a, mid) && Leads(up, hash, mid, b, sys')
    ensures Leads(up, hash, sys, a + b, sys')
  {
    ExecOn(up, hash, sys, a, mid, b);
  }

  lemma {:induction false} LeadsOne(up: Upstream, hash: string -> nat, sys: System, e: Event)
    requires Enabled(up, sys, e) && !e.OtherUpstream? && !e.Drop?
    ensures Leads(up, hash, sys, [e], Step(up, hash, sys, e))
  {
    ExecOne(up, hash, sys, e);
  }

  /** What the handler of this request count chooses after a scan of all targets. */
  ghost function Choice(up: Upstream, hash: string -> nat, keep: set<nat>, requestCount: nat): Option<Target> {
    Chosen(up, Kept(up.targets, keep, |up.targets|), "", requestCount, hash)
  }

  lemma {:induction false} ChoiceIsPeriodic(up: Upstream, hash: string -> nat, keep: set<nat>, c: nat, d: nat)
    requires c % TWO_32 == d % TWO_32
    ensures Choice(up, hash, keep, c) == Choice(up, hash, keep, d)
  {
  }

  lemma {:induction false} KeptNone(targets: seq<Target>, n: nat)
    requires n <= |targets|
    ensures Kept(targets, {}, n) == []
  {
    if n > 0 {
      KeptNone(targets, n - 1);
    }
  }

  lemma {:induction false} KeptOne(targets: seq<Target>, i: nat, n: nat)
    requires n <= |targets|
    ensures Kept(targets, {i}, n) == if i < n then [targets[i]] else []
  {
    if n > 0 {
      KeptOne(targets, i, n - 1);
    }
  }
}
