/** Targets lost by requests alone, and by clients that disconnect. */
module GatewayLosses {
  import opened Wrappers
  import opened Clock
  import opened Resilience
  import Breaker
  import opened Gateway
  import opened GatewayInterleaving
  import opened GatewayProbes
  import opened GatewayTraffic
  import opened GatewayShutting

  // --- The last squad ---

  /** The last squad has come to target `i`; the other handlers wait for `keys`. */
  ghost predicate OnMission(
    up: Upstream, sys: System, lo: nat, keep: set<nat>, i: nat, shut: set<string>, keys: set<string>, now: Instant)
  {
    && SquadAt(up, sys, lo, SquadSize(up), keep, i)
    && (forall h | h in sys.handlers && !(lo <= h < lo + SquadSize(up)) ::
          sys.handlers[h].Waiting? && KeyOf(up, sys.handlers[h].target) in keys)
    && (forall key | key in keys :: WaitersOf(up, sys, key) != {})
    && Status(up, sys, shut) && sys.clock <= now
  }

  lemma {:induction false} SetOut(up: Upstream, sys: System, lo: nat, keep: set<nat>, shut: set<string>, now: Instant)
    requires Arranged(up, sys, lo, lo + SquadSize(up), shut, now)
    ensures OnMission(up, sys, lo, keep, 0, shut, shut, now)
  {
    IdleSquad(up, sys, lo, lo + SquadSize(up), SquadSize(up), keep);
  }

  /** Who waits is not changed by a squad that scans. */
  lemma {:induction false} SameWaiters(up: Upstream, sys: System, sys': System, lo: nat, m: nat, key: string)
    requires SquadMoved(sys, sys', lo, m)
    requires forall h: nat | lo <= h < lo + m :: h in sys.handlers && sys.handlers[h].Scanning? && sys'.handlers[h].Scanning?
    ensures WaitersOf(up, sys', key) == WaitersOf(up, sys, key)
  {
  }

  /** Past targets that answer as `keep` says. */
  lemma {:induction false} March(
    up: Upstream, hash: string -> nat, sys: System, lo: nat, keep: set<nat>, i: nat, n: nat,
    shut: set<string>, keys: set<string>, now: Instant)
    returns (events: seq<Event>, sys': System)
    requires OnMission(up, sys, lo, keep, i, shut, keys, now) && i <= n <= |up.targets|
    requires forall j: nat | i <= j < n :: j in keep <==> KeyOf(up, up.targets[j]) !in shut
    ensures Leads(up, hash, sys, events, sys') && OnMission(up, sys', lo, keep, n, shut, keys, now)
  {
    ShutIsQuiet(up, sys, shut, keep, i, n, now);
    events, sys' := Advance(up, hash, sys, lo, SquadSize(up), keep, i, n, now);
    SameStatus(up, sys, sys', shut);
    forall key | key in keys
      ensures WaitersOf(up, sys', key) != {}
    {
      SameWaiters(up, sys, sys', lo, SquadSize(up), key);
    }
  }

  /** All who wait for the next target's key fail, and after the cool-down the squad spends its probes again. */
  lemma {:induction false} Reopen(
    up: Upstream, hash: string -> nat, sys: System, lo: nat, keep: set<nat>, i: nat,
    shut: set<string>, keys: set<string>, now: Instant)
    returns (events: seq<Event>, sys': System)
    requires i < |up.targets| && i in keep && KeyOf(up, up.targets[i]) in keys * shut
    requires OnMission(up, sys, lo, keep, i, shut, keys, now)
    ensures Leads(up, hash, sys, events, sys')
    ensures OnMission(up, sys', lo, keep, i + 1, shut, keys - {KeyOf(up, up.targets[i])}, Later(up, now))
  {
    var key, m := KeyOf(up, up.targets[i]), SquadSize(up);
    var fail, failed := FailWaiters(up, hash, sys, key, now);
    assert SquadAt(up, failed, lo, m, keep, i);
    var spend;
    spend, sys' := Spend(up, hash, failed, lo, m, keep, i, now, Later(up, now));
    events := fail + spend;
    LeadsOn(up, hash, sys, fail, failed, spend, sys');
    ShutAgain(up, sys, failed, sys', shut, key);
    OthersStay(up, sys, failed, sys', lo, key, keys);
  }

  lemma {:induction false} ShutAgain(up: Upstream, sys: System, mid: System, sys': System, shut: set<string>, key: string)
    requires Status(up, sys, shut) && key in shut && SameBut(sys, mid, key) && SameBut(mid, sys', key)
    requires Shut(up.thresholds, Lookup(sys'.states, key))
    ensures Status(up, sys', shut)
  {
    forall other: string
      ensures if other in shut then Shut(up.thresholds, Lookup(sys'.states, other)) else Fresh(Lookup(sys'.states, other))
    {
      if other != key {
        assert Lookup(mid.states, other) == Lookup(sys.states, other);
        assert Lookup(sys'.states, other) == Lookup(mid.states, other);
      }
    }
  }

  lemma {:induction false} OthersStay(
    up: Upstream, sys: System, failed: System, sys': System, lo: nat, key: string, keys: set<string>)
    requires forall h: nat | lo <= h < lo + SquadSize(up) :: h in sys.handlers && sys.handlers[h].Scanning?
    requires forall h: nat | lo <= h < lo + SquadSize(up) :: h in sys'.handlers && sys'.handlers[h].Scanning?
    requires forall h | h in sys.handlers && !(lo <= h < lo + SquadSize(up)) ::
               sys.handlers[h].Waiting? && KeyOf(up, sys.handlers[h].target) in keys
    requires forall k | k in keys :: WaitersOf(up, sys, k) != {}
    requires forall h :: h in failed.handlers <==> h in sys.handlers && h !in WaitersOf(up, sys, key)
    requires forall h | h in failed.handlers :: failed.handlers[h] == sys.handlers[h]
    requires SquadMoved(failed, sys', lo, SquadSize(up))
    ensures forall h | h in sys'.handlers && !(lo <= h < lo + SquadSize(up)) ::
              sys'.handlers[h].Waiting? && KeyOf(up, sys'.handlers[h].target) in keys - {key}
    ensures forall k | k in keys - {key} :: WaitersOf(up, sys', k) != {}
  {
    forall h | h in sys'.handlers && !(lo <= h < lo + SquadSize(up))
      ensures sys'.handlers[h].Waiting? && KeyOf(up, sys'.handlers[h].target) in keys - {key}
    {
      assert h in failed.handlers;
    }
    forall k | k in keys - {key}
      ensures WaitersOf(up, sys', k) != {}
    {
      var w :| w in WaitersOf(up, sys, k);
      assert w in failed.handlers;
      assert w in WaitersOf(up, sys', k);
    }
  }

  /** The squad chooses nobody or another key: the victim's probes are spent on nothing. */
  lemma {:induction false} Conclude(
    up: Upstream, hash: string -> nat, sys: System, lo: nat, keep: set<nat>, shut: set<string>, victim: string, now: Instant)
    returns (events: seq<Event>, sys': System)
    requires OnMission(up, sys, lo, keep, |up.targets|, shut, {}, now) && victim in shut
    requires var r := Choice(up, hash, keep, 0); r.Some? ==> KeyOf(up, r.value) != victim
    ensures Leads(up, hash, sys, events, sys') && sys'.handlers == map[]
    ensures HalfOpenAt(sys', victim) && Lost(up, sys', victim)
  {
    var m, r := SquadSize(up), Choice(up, hash, keep, 0);
    var choose, mid := ChooseAll(up, hash, sys, lo, m, keep);
    assert Lookup(mid.states, victim) == Lookup(sys.states, victim);
    if r.Some? {
      var end;
      end, sys' := SucceedAll(up, hash, mid, lo, m, r.value, now);
      events := choose + end;
      LeadsOn(up, hash, sys, choose, mid, end, sys');
      assert Lookup(sys'.states, victim) == Lookup(mid.states, victim);
    } else {
      events, sys' := choose, mid;
    }
    assert forall h :: h !in sys'.handlers;
    assert sys'.handlers == map[];
  }

  /** On to target `n`, whose probes are spent. */
  lemma {:induction false} Leg(
    up: Upstream, hash: string -> nat, sys: System, lo: nat, keep: set<nat>, i: nat, n: nat,
    shut: set<string>, keys: set<string>, now: Instant)
    returns (events: seq<Event>, sys': System)
    requires OnMission(up, sys, lo, keep, i, shut, keys, now) && i <= n < |up.targets|
    requires forall j: nat | i <= j < n :: j in keep <==> KeyOf(up, up.targets[j]) !in shut
    requires n in keep && KeyOf(up, up.targets[n]) in keys * shut
    ensures Leads(up, hash, sys, events, sys')
    ensures OnMission(up, sys', lo, keep, n + 1, shut, keys - {KeyOf(up, up.targets[n])}, Later(up, now))
  {
    var march, there := March(up, hash, sys, lo, keep, i, n, shut, keys, now);
    var open;
    open, sys' := Reopen(up, hash, there, lo, keep, n, shut, keys, now);
    events := march + open;
    LeadsOn(up, hash, sys, march, there, open, sys');
  }

  /** On to the end, where the squad chooses nobody or another key. */
  lemma {:induction false} LastLeg(
    up: Upstream, hash: string -> nat, sys: System, lo: nat, keep: set<nat>, i: nat,
    shut: set<string>, victim: string, now: Instant)
    returns (events: seq<Event>, sys': System)
    requires OnMission(up, sys, lo, keep, i, shut, {}, now) && i <= |up.targets| && victim in shut
    requires forall j: nat | i <= j < |up.targets| :: j in keep <==> KeyOf(up, up.targets[j]) !in shut
    requires var r := Choice(up, hash, keep, 0); r.Some? ==> KeyOf(up, r.value) != victim
    ensures Leads(up, hash, sys, events, sys') && sys'.handlers == map[]
    ensures HalfOpenAt(sys', victim) && Lost(up, sys', victim)
  {
    var march, there := March(up, hash, sys, lo, keep, i, |up.targets|, shut, {}, now);
    var end;
    end, sys' := Conclude(up, hash, there, lo, keep, shut, victim, now);
    events := march + end;
    LeadsOn(up, hash, sys, march, there, end, sys');
  }

  // --- Two keys that are shut ---

  /** From a pool to the first shut key. */
  lemma {:induction false} ShutFirst(up: Upstream, hash: string -> nat, w: nat, spare: nat)
    returns (events: seq<Event>, sys: System, i: nat)
    requires AlwaysChooses(up) && w < |up.targets| && up.targets[w].weight > 0
    ensures i < |up.targets| && up.targets[i].weight > 0
    ensures Leads(up, hash, INITIAL, events, sys)
    ensures Arranged(up, sys, ShutSize(up), ShutSize(up) + spare, {KeyOf(up, up.targets[i])}, Later(up, 0.0))
  {
    i := ChoiceExists(up, hash, Offered(up, {}), w);
    var pool, pooled := Pool(up, hash, ShutSize(up) + spare);
    assert Arranged(up, pooled, 0, ShutSize(up) + spare, {}, 0.0);
    var shut;
    shut, sys := ShutOne(up, hash, pooled, 0, ShutSize(up) + spare, {}, i, 0.0);
    events := pool + shut;
    LeadsOn(up, hash, INITIAL, pool, pooled, shut, sys);
    assert {} + {KeyOf(up, up.targets[i])} == {KeyOf(up, up.targets[i])};
  }

  /** With two weighted ids, two keys can be shut. */
  lemma {:induction false} ShutTwo(up: Upstream, hash: string -> nat, v: nat, w: nat)
    returns (events: seq<Event>, sys: System, i: nat, j: nat)
    requires AlwaysChooses(up) && v < |up.targets| && w < |up.targets|
    requires up.targets[v].weight > 0 && up.targets[w].weight > 0 && up.targets[v].id != up.targets[w].id
    ensures i < |up.targets| && j < |up.targets| && up.targets[i].weight > 0 && up.targets[j].weight > 0
    ensures KeyOf(up, up.targets[i]) != KeyOf(up, up.targets[j])
    ensures Leads(up, hash, INITIAL, events, sys)
    ensures Arranged(up, sys, 2 * ShutSize(up), 2 * ShutSize(up) + SquadSize(up),
                     {KeyOf(up, up.targets[i]), KeyOf(up, up.targets[j])}, Later(up, Later(up, 0.0)))
  {
    var first, mid;
    first, mid, i := ShutFirst(up, hash, v, ShutSize(up) + SquadSize(up));
    var shut := {KeyOf(up, up.targets[i])};
    var other := if KeyOf(up, up.targets[v]) == KeyOf(up, up.targets[i]) then w else v;
    if KeyOf(up, up.targets[v]) == KeyOf(up, up.targets[w]) {
      KeysDiffer(up, up.targets[v], up.targets[w]);
    }
    j := ChoiceExists(up, hash, Offered(up, shut), other);
    var second;
    second, sys := ShutOne(up, hash, mid, ShutSize(up), 2 * ShutSize(up) + SquadSize(up), shut, j, Later(up, 0.0));
    events := first + second;
    LeadsOn(up, hash, INITIAL, first, mid, second, sys);
    assert shut + {KeyOf(up, up.targets[j])} == {KeyOf(up, up.targets[i]), KeyOf(up, up.targets[j])};
  }

  lemma {:induction false} ApartFrom(up: Upstream, shut: set<string>, extra: set<nat>, i: nat, n: nat)
    requires n <= |up.targets| && forall j: nat | i <= j < n :: j !in extra
    ensures forall j: nat | i <= j < n :: j in Offered(up, shut) + extra <==> KeyOf(up, up.targets[j]) !in shut
  {
  }

  /** A squad spends the probes of two shut keys on their targets `a` and `b`. */
  lemma {:induction false} SpendTwo(
    up: Upstream, hash: string -> nat, sys: System, lo: nat, keep: set<nat>, a: nat, b: nat, shut: set<string>, now: Instant)
    returns (events: seq<Event>, sys': System)
    requires a < b < |up.targets| && KeyOf(up, up.targets[a]) != KeyOf(up, up.targets[b])
    requires shut == {KeyOf(up, up.targets[a]), KeyOf(up, up.targets[b])} && keep == Offered(up, shut) + {a, b}
    requires Arranged(up, sys, lo, lo + SquadSize(up), shut, now)
    ensures Leads(up, hash, sys, events, sys')
    ensures OnMission(up, sys', lo, keep, b + 1, shut, {}, Later(up, Later(up, now)))
  {
    SetOut(up, sys, lo, keep, shut, now);
    var ka, kb := KeyOf(up, up.targets[a]), KeyOf(up, up.targets[b]);
    ApartFrom(up, shut, {a, b}, 0, a);
    ApartFrom(up, shut, {a, b}, a + 1, b);
    var first, mid := Leg(up, hash, sys, lo, keep, 0, a, shut, shut, now);
    assert shut - {ka} == {kb};
    var second;
    second, sys' := Leg(up, hash, mid, lo, keep, a + 1, b, shut, {kb}, Later(up, now));
    assert {kb} - {kb} == {};
    events := first + second;
    LeadsOn(up, hash, sys, first, mid, second, sys');
  }

  /** A squad that is granted `a` and `b` of two shut keys, and everything that is not shut. */
  lemma {:induction false} GrantTwo(
    up: Upstream, hash: string -> nat, sys: System, lo: nat, a: nat, b: nat, shut: set<string>, victim: string, now: Instant)
    returns (events: seq<Event>, sys': System)
    requires a < b < |up.targets| && KeyOf(up, up.targets[a]) != KeyOf(up, up.targets[b])
    requires shut == {KeyOf(up, up.targets[a]), KeyOf(up, up.targets[b])} && victim in shut
    requires Arranged(up, sys, lo, lo + SquadSize(up), shut, now)
    requires var r := Choice(up, hash, Offered(up, shut) + {a, b}, 0); r.Some? ==> KeyOf(up, r.value) != victim
    ensures Leads(up, hash, sys, events, sys') && sys'.handlers == map[]
    ensures HalfOpenAt(sys', victim) && Lost(up, sys', victim)
  {
    var keep := Offered(up, shut) + {a, b};
    var spend, late := SpendTwo(up, hash, sys, lo, keep, a, b, shut, now);
    var end;
    end, sys' := EndTwo(up, hash, late, lo, keep, a, b, shut, victim, Later(up, Later(up, now)));
    events := spend + end;
    LeadsOn(up, hash, sys, spend, late, end, sys');
  }

  lemma {:induction false} EndTwo(
    up: Upstream, hash: string -> nat, sys: System, lo: nat, keep: set<nat>, a: nat, b: nat, shut: set<string>,
    victim: string, now: Instant)
    returns (events: seq<Event>, sys': System)
    requires a < b < |up.targets| && keep == Offered(up, shut) + {a, b} && victim in shut
    requires OnMission(up, sys, lo, keep, b + 1, shut, {}, now)
    requires var r := Choice(up, hash, keep, 0); r.Some? ==> KeyOf(up, r.value) != victim
    ensures Leads(up, hash, sys, events, sys') && sys'.handlers == map[]
    ensures HalfOpenAt(sys', victim) && Lost(up, sys', victim)
  {
    ApartFrom(up, shut, {a, b}, b + 1, |up.targets|);
    events, sys' := LastLeg(up, hash, sys, lo, keep, b + 1, shut, victim, now);
  }

  /** With two weighted ids one of two shut keys is not chosen when both are granted. */
  lemma {:induction false} LoseOneOfTwo(up: Upstream, hash: string -> nat, v: nat, w: nat)
    returns (events: seq<Event>, sys: System, lost: nat)
    requires AlwaysChooses(up) && v < |up.targets| && w < |up.targets|
    requires up.targets[v].weight > 0 && up.targets[w].weight > 0 && up.targets[v].id != up.targets[w].id
    ensures Leads(up, hash, INITIAL, events, sys) && sys.handlers == map[]
    ensures lost < |up.targets| && up.targets[lost].weight > 0
    ensures HalfOpenAt(sys, KeyOf(up, up.targets[lost])) && Lost(up, sys, KeyOf(up, up.targets[lost]))
  {
    var start, mid, i, j := ShutTwo(up, hash, v, w);
    var shut := {KeyOf(up, up.targets[i]), KeyOf(up, up.targets[j])};
    var r := Choice(up, hash, Offered(up, shut) + {i, j}, 0);
    lost := if r.Some? && KeyOf(up, r.value) == KeyOf(up, up.targets[i]) then j else i;
    var a, b := if i < j then i else j, if i < j then j else i;
    assert {a, b} == {i, j};
    var end;
    end, sys := GrantTwo(up, hash, mid, 2 * ShutSize(up), a, b, shut, KeyOf(up, up.targets[lost]), Later(up, Later(up, 0.0)));
    events := start + end;
    LeadsOn(up, hash, INITIAL, start, mid, end, sys);
  }

  // --- A twin without weight ---

  lemma {:induction false} GrantOneOf(
    up: Upstream, hash: string -> nat, sys: System, lo: nat, z: nat, victim: string, now: Instant)
    returns (events: seq<Event>, sys': System)
    requires z < |up.targets| && KeyOf(up, up.targets[z]) == victim
    requires Arranged(up, sys, lo, lo + SquadSize(up), {victim}, now)
    requires var r := Choice(up, hash, Offered(up, {victim}) + {z}, 0); r.Some? ==> KeyOf(up, r.value) != victim
    ensures Leads(up, hash, sys, events, sys') && sys'.handlers == map[]
    ensures HalfOpenAt(sys', victim) && Lost(up, sys', victim)
  {
    var keep, shut := Offered(up, {victim}) + {z}, {victim};
    SetOut(up, sys, lo, keep, shut, now);
    var first, mid := Leg(up, hash, sys, lo, keep, 0, z, shut, shut, now);
    assert shut - {victim} == {};
    var end;
    end, sys' := LastLeg(up, hash, mid, lo, keep, z + 1, shut, victim, Later(up, now));
    events := first + end;
    LeadsOn(up, hash, sys, first, mid, end, sys');
  }

  /** A key whose only granted target has no weight is not chosen. */
  lemma {:induction false} TwinIsNotChosen(up: Upstream, hash: string -> nat, z: nat)
    requires z < |up.targets| && up.targets[z].weight == 0
    ensures var victim := KeyOf(up, up.targets[z]);
            var r := Choice(up, hash, Offered(up, {victim}) + {z}, 0);
            r.Some? ==> KeyOf(up, r.value) != victim
  {
    var victim := KeyOf(up, up.targets[z]);
    var keep := Offered(up, {victim}) + {z};
    var kept := Kept(up.targets, keep, |up.targets|);
    SelectionIsPositive(up, kept, "", 0, hash);
    var r := Choice(up, hash, keep, 0);
    if r.Some? {
      KeptMember(up.targets, keep, |up.targets|, r.value);
    }
  }

  /** With one weighted id and a twin without weight, the twin is granted the probes. */
  lemma {:induction false} LoseToTwin(up: Upstream, hash: string -> nat, w: nat, z: nat)
    returns (events: seq<Event>, sys: System, lost: nat)
    requires AlwaysChooses(up) && w < |up.targets| && z < |up.targets|
    requires up.targets[w].weight > 0 == up.targets[z].weight && up.targets[z].id == up.targets[w].id
    requires forall t | t in up.targets && t.weight > 0 :: t.id == up.targets[w].id
    ensures Leads(up, hash, INITIAL, events, sys) && sys.handlers == map[]
    ensures lost < |up.targets| && up.targets[lost].weight > 0
    ensures HalfOpenAt(sys, KeyOf(up, up.targets[lost])) && Lost(up, sys, KeyOf(up, up.targets[lost]))
  {
    var start, mid;
    start, mid, lost := ShutFirst(up, hash, w, SquadSize(up));
    var victim := KeyOf(up, up.targets[lost]);
    assert KeyOf(up, up.targets[z]) == victim;
    TwinIsNotChosen(up, hash, z);
    var end;
    end, sys := GrantOneOf(up, hash, mid, ShutSize(up), z, victim, Later(up, 0.0));
    events := start + end;
    LeadsOn(up, hash, INITIAL, start, mid, end, sys);
  }

  // --- Ejection ---

  /** The target that is chosen first has failed often enough to be ejected; `extra` handlers still wait for it. */
  lemma {:induction false} EjectFirst(up: Upstream, hash: string -> nat, w: nat, extra: nat)
    returns (events: seq<Event>, sys: System, i: nat)
    requires AlwaysChooses(up) && w < |up.targets| && up.targets[w].weight > 0
    ensures i < |up.targets| && up.targets[i].weight > 0
    ensures Leads(up, hash, INITIAL, events, sys) && sys.clock <= 0.0
    ensures var n := Breaker.AtLeastOne(up.thresholds.passiveFailures);
            && (forall h: nat :: h in sys.handlers <==> n <= h < n + extra)
            && (forall h | h in sys.handlers :: sys.handlers[h] == Waiting(up.targets[i]))
            && FailedTimes(up.thresholds, Lookup(sys.states, KeyOf(up, up.targets[i])), n, 0.0)
  {
    var n: nat := Breaker.AtLeastOne(up.thresholds.passiveFailures);
    i := ChoiceExists(up, hash, Offered(up, {}), w);
    var t := up.targets[i];
    var pool, pooled := Pool(up, hash, n + extra);
    assert Arranged(up, pooled, 0, n + extra, {}, 0.0);
    var send, sent := Dispatch(up, hash, pooled, 0, n + extra, n + extra, {}, t, 0.0);
    SameStatus(up, pooled, sent, {});
    var fail;
    fail, sys := FailMany(up, hash, sent, 0, n, t, 0.0);
    events := pool + send + fail;
    LeadsOn(up, hash, INITIAL, pool, pooled, send, sent);
    LeadsOn(up, hash, INITIAL, pool + send, sent, fail, sys);
  }

  /** Where ejection is not covered by the breaker, requests alone can eject the target that is chosen first. */
  lemma {:induction false} EjectionByTraffic(up: Upstream, hash: string -> nat, w: nat)
    returns (events: seq<Event>, sys: System, lost: nat)
    requires AlwaysChooses(up) && w < |up.targets| && up.targets[w].weight > 0
    requires !Breaker.BreakerCoversEjection(up.thresholds)
    ensures Leads(up, hash, INITIAL, events, sys) && sys.handlers == map[]
    ensures lost < |up.targets| && up.targets[lost].weight > 0 && Lost(up, sys, KeyOf(up, up.targets[lost]))
  {
    if up.thresholds.passiveSuccesses > 1 {
      var n: nat := Breaker.AtLeastOne(up.thresholds.passiveFailures);
      var eject, ejected;
      eject, ejected, lost := EjectFirst(up, hash, w, 1);
      var e := Finish(n, true, 0.0);
      LeadsOne(up, hash, ejected, e);
      events, sys := eject + [e], Step(up, hash, ejected, e);
      LeadsOn(up, hash, INITIAL, eject, ejected, [e], sys);
      OneOutcome(up, hash, ejected, e);
    } else {
      events, sys, lost := EjectFirst(up, hash, w, 0);
    }
    assert forall h :: h !in sys.handlers;
    assert sys.handlers == map[];
  }

  // --- Clients that disconnect ---

  /** All handlers that wait are dropped. */
  lemma {:induction false} DropAll(up: Upstream, hash: string -> nat, sys: System) returns (events: seq<Event>, sys': System)
    requires forall h | h in sys.handlers :: sys.handlers[h].Waiting?
    ensures Exec(up, hash, sys, events) == Some(sys') && sys'.handlers == map[] && sys'.states == sys.states
    decreases |sys.handlers.Keys|
  {
    if sys.handlers == map[] {
      events, sys' := [], sys;
    } else {
      var h :| h in sys.handlers;
      var mid := Step(up, hash, sys, Drop(h));
      ExecOne(up, hash, sys, Drop(h));
      assert mid.handlers.Keys == sys.handlers.Keys - {h};
      var rest;
      rest, sys' := DropAll(up, hash, mid);
      events := [Drop(h)] + rest;
      ExecOn(up, hash, sys, [Drop(h)], mid, rest);
    }
  }

  /** Shut a key, and let all clients that wait for it disconnect: it is lost, whatever the thresholds and the other targets. */
  lemma {:induction false} DroppedIsLost(up: Upstream, hash: string -> nat, w: nat)
    returns (events: seq<Event>, sys: System, lost: nat)
    requires AlwaysChooses(up) && w < |up.targets| && up.targets[w].weight > 0
    ensures Exec(up, hash, INITIAL, events) == Some(sys) && sys.handlers == map[]
    ensures lost < |up.targets| && up.targets[lost].weight > 0
    ensures HalfOpenAt(sys, KeyOf(up, up.targets[lost])) && Lost(up, sys, KeyOf(up, up.targets[lost]))
  {
    var start, shut;
    start, shut, lost := ShutFirst(up, hash, w, 0);
    var drop;
    drop, sys := DropAll(up, hash, shut);
    events := start + drop;
    ExecOn(up, hash, INITIAL, start, shut, drop);
  }
}
