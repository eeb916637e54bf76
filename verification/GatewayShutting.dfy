/**
 Losing a target by requests alone. The targets that are chosen are shut one by one, and a last squad of
 handlers spends the probes of a shut key on nothing.
 */
module GatewayShutting {
  import opened Wrappers
  import opened MachineInts
  import opened Clock
  import opened Balancer
  import opened Resilience
  import Breaker
  import opened Gateway
  import opened GatewayInterleaving
  import opened GatewayProbes
  import opened GatewayTraffic

  /** No selection of targets goes without a choice because its weights wrap to zero. */
  ghost predicate AlwaysChooses(up: Upstream) {
    up.strategy == LeastConnections || NeverWraps(up.targets)
  }

  /** From a selection with a weighted target somebody is chosen. */
  lemma {:induction false} ChoiceExists(up: Upstream, hash: string -> nat, keep: set<nat>, w: nat) returns (i: nat)
    requires AlwaysChooses(up) && w < |up.targets| && w in keep && up.targets[w].weight > 0
    ensures i < |up.targets| && i in keep && up.targets[i].weight > 0
    ensures Choice(up, hash, keep, 0) == Some(up.targets[i])
  {
    var kept := Kept(up.targets, keep, |up.targets|);
    KeptMember(up.targets, keep, |up.targets|, up.targets[w]);
    MemberWeighs(kept, up.targets[w]);
    assert up.strategy != LeastConnections ==> SumSurvives(up.targets, keep);
    SelectionIsPositive(up, kept, "", 0, hash);
    var j :| 0 <= j < |kept| && kept[j] == up.targets[w];
    assert Selection(up.strategy, kept, Some(""), 0, hash).Some?;
    var t := Choice(up, hash, keep, 0).value;
    KeptMember(up.targets, keep, |up.targets|, t);
    i :| i < |up.targets| && i in keep && up.targets[i] == t;
  }

  /** How many handlers spend the probes of one cool-down. */
  ghost function SquadSize(up: Upstream): nat {
    up.thresholds.halfOpenMax + 1
  }

  /** Failures that open the circuit. */
  ghost function Trips(up: Upstream): u32 {
    Breaker.AtLeastOne(up.thresholds.breakerFailures)
  }

  /** How many handlers it takes to shut a key. */
  ghost function ShutSize(up: Upstream): nat {
    Trips(up) as nat + 1 + SquadSize(up)
  }

  ghost function Later(up: Upstream, now: Instant): Instant {
    now + Millis(up.thresholds.openMs)
  }

  /** Handlers `lo` to `hi - 1` are idle, the others wait for shut keys, and for each shut key somebody waits. */
  ghost predicate Arranged(up: Upstream, sys: System, lo: nat, hi: nat, shut: set<string>, now: Instant) {
    && (forall h: nat | lo <= h < hi :: h in sys.handlers && At(up, sys.handlers[h], {}, 0))
    && (forall h | h in sys.handlers && !(lo <= h < hi) ::
          sys.handlers[h].Waiting? && KeyOf(up, sys.handlers[h].target) in shut)
    && (forall key | key in shut :: WaitersOf(up, sys, key) != {})
    && Status(up, sys, shut) && sys.clock <= now
  }

  lemma {:induction false} IdleSquad(up: Upstream, sys: System, lo: nat, hi: nat, m: nat, keep: set<nat>)
    requires lo + m <= hi && forall h: nat | lo <= h < hi :: h in sys.handlers && At(up, sys.handlers[h], {}, 0)
    ensures SquadAt(up, sys, lo, m, keep, 0)
  {
    assert Kept(up.targets, keep, 0) == Kept(up.targets, {}, 0);
  }

  /** Where `keep` holds what is not shut, the questions from `i` to `n - 1` are quiet; `key` is not among them. */
  lemma {:induction false} StatusIsQuiet(
    up: Upstream, sys: System, shut: set<string>, key: string, keep: set<nat>, i: nat, n: nat, now: Instant)
    requires StatusBut(up, sys, shut, key) && n <= |up.targets|
    requires forall j: nat | i <= j < n ::
               KeyOf(up, up.targets[j]) != key && (j in keep <==> KeyOf(up, up.targets[j]) !in shut)
    ensures forall j: nat | i <= j < n :: QuietAt(up, sys, keep, j, now)
  {
  }

  lemma {:induction false} ShutIsQuiet(
    up: Upstream, sys: System, shut: set<string>, keep: set<nat>, i: nat, n: nat, now: Instant)
    requires Status(up, sys, shut) && n <= |up.targets|
    requires forall j: nat | i <= j < n :: j in keep <==> KeyOf(up, up.targets[j]) !in shut
    ensures forall j: nat | i <= j < n :: QuietAt(up, sys, keep, j, now)
  {
  }

  lemma {:induction false} StatusCarries(up: Upstream, sys: System, sys': System, shut: set<string>, key: string)
    requires StatusBut(up, sys, shut, key) && SameBut(sys, sys', key)
    ensures StatusBut(up, sys', shut, key)
  {
    forall other: string | other != key
      ensures if other in shut then Shut(up.thresholds, Lookup(sys'.states, other)) else Fresh(Lookup(sys'.states, other))
    {
      assert Lookup(sys'.states, other) == Lookup(sys.states, other);
    }
  }

  // --- Shutting a key ---

  /** The first `m` idle handlers are sent to the target that is chosen from what is offered. */
  lemma {:induction false} Dispatch(
    up: Upstream, hash: string -> nat, sys: System, lo: nat, hi: nat, m: nat, shut: set<string>, t: Target, now: Instant)
    returns (events: seq<Event>, sys': System)
    requires Arranged(up, sys, lo, hi, shut, now) && lo + m <= hi
    requires Choice(up, hash, Offered(up, shut), 0) == Some(t)
    ensures Leads(up, hash, sys, events, sys') && SameLookups(sys, sys') && sys'.clock <= now
    ensures sys'.handlers.Keys == sys.handlers.Keys
    ensures forall h: nat | lo <= h < lo + m :: h in sys'.handlers && sys'.handlers[h] == Waiting(t)
    ensures forall h | h in sys.handlers && !(lo <= h < lo + m) :: sys'.handlers[h] == sys.handlers[h]
  {
    var keep := Offered(up, shut);
    IdleSquad(up, sys, lo, hi, m, keep);
    ShutIsQuiet(up, sys, shut, keep, 0, |up.targets|, now);
    var go, mid := Advance(up, hash, sys, lo, m, keep, 0, |up.targets|, now);
    var choose;
    choose, sys' := ChooseAll(up, hash, mid, lo, m, keep);
    events := go + choose;
    LeadsOn(up, hash, sys, go, mid, choose, sys');
  }

  /** The key of `t` is open since `now`; handler `lo - 1` waits for it. */
  ghost predicate Opened(up: Upstream, sys: System, lo: nat, hi: nat, shut: set<string>, t: Target, now: Instant) {
    && lo > 0
    && (forall h: nat | lo <= h < hi :: h in sys.handlers && At(up, sys.handlers[h], {}, 0))
    && lo - 1 in sys.handlers && sys.handlers[lo - 1] == Waiting(t)
    && (forall h | h in sys.handlers && !(lo <= h < hi) && h != lo - 1 ::
          sys.handlers[h].Waiting? && KeyOf(up, sys.handlers[h].target) in shut)
    && (forall key | key in shut :: WaitersOf(up, sys, key) != {})
    && StatusBut(up, sys, shut, KeyOf(up, t))
    && Tripped(up.thresholds, Lookup(sys.states, KeyOf(up, t)))
    && Lookup(sys.states, KeyOf(up, t)).circuit == Open(now)
    && sys.clock <= now
  }

  lemma {:induction false} Trip(
    up: Upstream, hash: string -> nat, sys: System, lo: nat, hi: nat, shut: set<string>, t: Target, now: Instant)
    returns (events: seq<Event>, sys': System)
    requires Arranged(up, sys, lo, hi, shut, now) && lo + Trips(up) as nat + 1 <= hi
    requires Choice(up, hash, Offered(up, shut), 0) == Some(t) && KeyOf(up, t) !in shut
    ensures Leads(up, hash, sys, events, sys') && Opened(up, sys', lo + Trips(up) as nat + 1, hi, shut, t, now)
  {
    var n: nat := Trips(up);
    var send, sent := Dispatch(up, hash, sys, lo, hi, n + 1, shut, t, now);
    var fail;
    fail, sys' := FailMany(up, hash, sent, lo, n, t, now);
    events := send + fail;
    LeadsOn(up, hash, sys, send, sent, fail, sys');
    SameStatus(up, sys, sent, shut);
    StatusCarries(up, sent, sys', shut, KeyOf(up, t));
    OthersWait(up, sys, sys', lo, lo + n + 1, shut);
  }

  /** Handlers from `lo` to `hi - 1` were not waiting; all others still are where they were. */
  lemma {:induction false} OthersWait(up: Upstream, sys: System, sys': System, lo: nat, hi: nat, shut: set<string>)
    requires forall h: nat | lo <= h < hi :: h in sys.handlers && sys.handlers[h].Scanning?
    requires forall h | h in sys.handlers && !(lo <= h < hi) :: h in sys'.handlers && sys'.handlers[h] == sys.handlers[h]
    requires forall key | key in shut :: WaitersOf(up, sys, key) != {}
    ensures forall key | key in shut :: WaitersOf(up, sys', key) != {}
  {
    forall key | key in shut
      ensures WaitersOf(up, sys', key) != {}
    {
      var w :| w in WaitersOf(up, sys, key);
      assert w in WaitersOf(up, sys', key);
    }
  }

  lemma {:induction false} FirstOfKey(up: Upstream, i: nat) returns (first: nat)
    requires i < |up.targets|
    ensures first <= i && KeyOf(up, up.targets[first]) == KeyOf(up, up.targets[i])
    ensures forall j: nat | j < first :: KeyOf(up, up.targets[j]) != KeyOf(up, up.targets[i])
  {
    first := i;
    if j: nat :| j < i && KeyOf(up, up.targets[j]) == KeyOf(up, up.targets[i]) {
      first := FirstOfKey(up, j);
    }
  }

  /** What is offered once the key of `f` is shut, and `f` itself. */
  ghost function With(up: Upstream, shut: set<string>, f: nat): set<nat>
    requires f < |up.targets|
  {
    Offered(up, shut) + {f}
  }

  /** A squad goes to the first target of the opened key and spends its probes. */
  lemma {:induction false} Burn(
    up: Upstream, hash: string -> nat, sys: System, lo: nat, hi: nat, shut: set<string>, f: nat, t: Target, now: Instant)
    returns (events: seq<Event>, sys': System)
    requires f < |up.targets| && KeyOf(up, up.targets[f]) == KeyOf(up, t) && KeyOf(up, t) !in shut
    requires forall j: nat | j < f :: KeyOf(up, up.targets[j]) != KeyOf(up, t)
    requires Opened(up, sys, lo, hi, shut, t, now) && lo + SquadSize(up) <= hi
    ensures Leads(up, hash, sys, events, sys')
    ensures Status(up, sys', shut + {KeyOf(up, t)}) && sys'.clock <= Later(up, now)
    ensures SquadAt(up, sys', lo, SquadSize(up), With(up, shut + {KeyOf(up, t)}, f), f + 1)
    ensures SquadMoved(sys, sys', lo, SquadSize(up))
  {
    var key, m := KeyOf(up, t), SquadSize(up);
    var keep := With(up, shut + {key}, f);
    IdleSquad(up, sys, lo, hi, m, keep);
    StatusIsQuiet(up, sys, shut, key, keep, 0, f, now);
    var go, there := Advance(up, hash, sys, lo, m, keep, 0, f, now);
    var spend;
    spend, sys' := Spend(up, hash, there, lo, m, keep, f, now, Later(up, now));
    events := go + spend;
    LeadsOn(up, hash, sys, go, there, spend, sys');
    StatusCarries(up, sys, sys', shut, key);
    ShutNow(up, sys', shut, key);
  }

  lemma {:induction false} ShutNow(up: Upstream, sys: System, shut: set<string>, key: string)
    requires StatusBut(up, sys, shut, key) && Shut(up.thresholds, Lookup(sys.states, key))
    ensures Status(up, sys, shut + {key})
  {
  }

  /** A squad goes on to the end of its scan past shut keys. */
  lemma {:induction false} GoOn(
    up: Upstream, hash: string -> nat, sys: System, lo: nat, shut: set<string>, f: nat, now: Instant)
    returns (events: seq<Event>, sys': System)
    requires f < |up.targets| && Status(up, sys, shut) && sys.clock <= now
    requires SquadAt(up, sys, lo, SquadSize(up), With(up, shut, f), f + 1)
    ensures Leads(up, hash, sys, events, sys') && SameLookups(sys, sys') && sys'.clock <= now
    ensures SquadAt(up, sys', lo, SquadSize(up), With(up, shut, f), |up.targets|)
    ensures SquadMoved(sys, sys', lo, SquadSize(up))
  {
    ShutIsQuiet(up, sys, shut, With(up, shut, f), f + 1, |up.targets|, now);
    events, sys' := Advance(up, hash, sys, lo, SquadSize(up), With(up, shut, f), f + 1, |up.targets|, now);
  }

  /** The squad chooses; whoever is sent to a key that is not shut succeeds, the others wait. */
  lemma {:induction false} Settle(
    up: Upstream, hash: string -> nat, sys: System, lo: nat, shut: set<string>, keep: set<nat>, now: Instant)
    returns (events: seq<Event>, sys': System)
    requires SquadAt(up, sys, lo, SquadSize(up), keep, |up.targets|) && Status(up, sys, shut) && sys.clock <= now
    ensures Leads(up, hash, sys, events, sys') && Status(up, sys', shut) && sys'.clock <= now
    ensures forall h | h in sys'.handlers :: h in sys.handlers
    ensures forall h | h in sys.handlers && !(lo <= h < lo + SquadSize(up)) ::
              h in sys'.handlers && sys'.handlers[h] == sys.handlers[h]
    ensures forall h | h in sys'.handlers && lo <= h < lo + SquadSize(up) ::
              sys'.handlers[h].Waiting? && KeyOf(up, sys'.handlers[h].target) in shut
              && Choice(up, hash, keep, 0) == Some(sys'.handlers[h].target)
  {
    var m := SquadSize(up);
    var choose, mid := ChooseAll(up, hash, sys, lo, m, keep);
    var r := Choice(up, hash, keep, 0);
    assert Status(up, mid, shut) by {
      SameStatus(up, sys, mid, shut);
    }
    if r.Some? && KeyOf(up, r.value) !in shut {
      var end;
      end, sys' := SucceedAll(up, hash, mid, lo, m, r.value, now);
      events := choose + end;
      LeadsOn(up, hash, sys, choose, mid, end, sys');
      StaysFresh(up, mid, sys', shut, KeyOf(up, r.value));
    } else {
      events, sys' := choose, mid;
    }
  }

  lemma {:induction false} SameStatus(up: Upstream, sys: System, sys': System, shut: set<string>)
    requires Status(up, sys, shut) && SameLookups(sys, sys')
    ensures Status(up, sys', shut)
  {
    forall key: string
      ensures if key in shut then Shut(up.thresholds, Lookup(sys'.states, key)) else Fresh(Lookup(sys'.states, key))
    {
      assert Lookup(sys'.states, key) == Lookup(sys.states, key);
    }
  }

  lemma {:induction false} StaysFresh(up: Upstream, sys: System, sys': System, shut: set<string>, key: string)
    requires Status(up, sys, shut) && key !in shut && SameBut(sys, sys', key) && Fresh(Lookup(sys'.states, key))
    ensures Status(up, sys', shut)
  {
    forall other: string
      ensures if other in shut then Shut(up.thresholds, Lookup(sys'.states, other)) else Fresh(Lookup(sys'.states, other))
    {
      if other != key {
        assert Lookup(sys'.states, other) == Lookup(sys.states, other);
      }
    }
  }

  /** A squad shuts an opened key. */
  lemma {:induction false} BurnAll(
    up: Upstream, hash: string -> nat, sys: System, lo: nat, hi: nat, shut: set<string>, i: nat, now: Instant)
    returns (events: seq<Event>, sys': System)
    requires i < |up.targets| && KeyOf(up, up.targets[i]) !in shut
    requires Opened(up, sys, lo, hi, shut, up.targets[i], now) && lo + SquadSize(up) <= hi
    ensures Leads(up, hash, sys, events, sys')
    ensures Arranged(up, sys', lo + SquadSize(up), hi, shut + {KeyOf(up, up.targets[i])}, Later(up, now))
  {
    var t := up.targets[i];
    var f := FirstOfKey(up, i);
    var after := shut + {KeyOf(up, t)};
    var burn, burnt := Burn(up, hash, sys, lo, hi, shut, f, t, now);
    var go, there := GoOn(up, hash, burnt, lo, after, f, Later(up, now));
    SameStatus(up, burnt, there, after);
    var end;
    end, sys' := Settle(up, hash, there, lo, after, With(up, after, f), Later(up, now));
    events := burn + go + end;
    LeadsOn(up, hash, sys, burn, burnt, go, there);
    LeadsOn(up, hash, sys, burn + go, there, end, sys');
    OnlyTheSquad(sys, burnt, there, sys', lo, SquadSize(up));
    Rearranged(up, sys, sys', lo, hi, shut, t, now);
  }

  /** The handlers after a squad has gone through an opened key. */
  lemma {:induction false} Rearranged(
    up: Upstream, sys: System, sys': System, lo: nat, hi: nat, shut: set<string>, t: Target, now: Instant)
    requires Opened(up, sys, lo, hi, shut, t, now) && lo + SquadSize(up) <= hi
    requires forall h | h in sys'.handlers :: h in sys.handlers
    requires forall h | h in sys.handlers && !(lo <= h < lo + SquadSize(up)) ::
               h in sys'.handlers && sys'.handlers[h] == sys.handlers[h]
    requires forall h | h in sys'.handlers && lo <= h < lo + SquadSize(up) ::
               sys'.handlers[h].Waiting? && KeyOf(up, sys'.handlers[h].target) in shut + {KeyOf(up, t)}
    requires Status(up, sys', shut + {KeyOf(up, t)}) && sys'.clock <= Later(up, now)
    ensures Arranged(up, sys', lo + SquadSize(up), hi, shut + {KeyOf(up, t)}, Later(up, now))
  {
    WaitersStay(up, sys, sys', lo, hi, shut, t);
    forall h | h in sys'.handlers && !(lo + SquadSize(up) <= h < hi)
      ensures sys'.handlers[h].Waiting? && KeyOf(up, sys'.handlers[h].target) in shut + {KeyOf(up, t)}
    {
    }
  }

  /** The others are as they were before the squad set out. */
  lemma {:induction false} OnlyTheSquad(sys: System, burnt: System, there: System, sys': System, lo: nat, m: nat)
    requires SquadMoved(sys, burnt, lo, m) && SquadMoved(burnt, there, lo, m)
    requires forall h | h in sys'.handlers :: h in there.handlers
    requires forall h | h in there.handlers && !(lo <= h < lo + m) :: h in sys'.handlers && sys'.handlers[h] == there.handlers[h]
    ensures forall h | h in sys'.handlers :: h in sys.handlers
    ensures forall h | h in sys.handlers && !(lo <= h < lo + m) :: h in sys'.handlers && sys'.handlers[h] == sys.handlers[h]
  {
  }

  /** The key of the target that is chosen from what is offered gets shut. */
  lemma {:induction false} ShutOne(
    up: Upstream, hash: string -> nat, sys: System, lo: nat, hi: nat, shut: set<string>, i: nat, now: Instant)
    returns (events: seq<Event>, sys': System)
    requires i < |up.targets| && KeyOf(up, up.targets[i]) !in shut
    requires Choice(up, hash, Offered(up, shut), 0) == Some(up.targets[i])
    requires Arranged(up, sys, lo, hi, shut, now) && lo + ShutSize(up) <= hi
    ensures Leads(up, hash, sys, events, sys')
    ensures Arranged(up, sys', lo + ShutSize(up), hi, shut + {KeyOf(up, up.targets[i])}, Later(up, now))
  {
    var trip, tripped := Trip(up, hash, sys, lo, hi, shut, up.targets[i], now);
    var burn;
    burn, sys' := BurnAll(up, hash, tripped, lo + Trips(up) as nat + 1, hi, shut, i, now);
    events := trip + burn;
    LeadsOn(up, hash, sys, trip, tripped, burn, sys');
  }

  lemma {:induction false} WaitersStay(
    up: Upstream, sys: System, sys': System, lo: nat, hi: nat, shut: set<string>, t: Target)
    requires lo > 0 && lo + SquadSize(up) <= hi
    requires lo - 1 in sys.handlers && sys.handlers[lo - 1] == Waiting(t)
    requires forall h: nat | lo <= h < hi :: h in sys.handlers && sys.handlers[h].Scanning?
    requires forall key | key in shut :: WaitersOf(up, sys, key) != {}
    requires forall h | h in sys.handlers && !(lo <= h < lo + SquadSize(up)) ::
               h in sys'.handlers && sys'.handlers[h] == sys.handlers[h]
    ensures forall key | key in shut + {KeyOf(up, t)} :: WaitersOf(up, sys', key) != {}
  {
    OthersWait(up, sys, sys', lo, lo + SquadSize(up), shut);
    assert lo - 1 in WaitersOf(up, sys', KeyOf(up, t));
  }
}
