/**
 Graceful shutdown: the draining flag and the in-flight counter of gateway-core-rust/src/main.rs
 under every interleaving of request handlers with the shutdown.
 */
module Drain {
  import opened Wrappers

  /** `Admitted` lies between the check of the flag and the creation of the guard. */
  datatype Phase = Arrived | Admitted | Guarded

  /** `inFlight` may go below zero here; that it does not is proved. */
  datatype System = System(draining: bool, inFlight: int, handlers: map<nat, Phase>)

  const INITIAL := System(false, 0, map[])

  datatype Event = Arrive(h: nat) | CheckFlag(h: nat) | CreateGuard(h: nat) | DropGuard(h: nat) | Shutdown

  ghost predicate Enabled(sys: System, e: Event) {
    match e
    case Arrive(h) => h !in sys.handlers
    case CheckFlag(h) => h in sys.handlers && sys.handlers[h] == Arrived
    case CreateGuard(h) => h in sys.handlers && sys.handlers[h] == Admitted
    case DropGuard(h) => h in sys.handlers && sys.handlers[h] == Guarded
    case Shutdown => true
  }

  function Step(sys: System, e: Event): System
    requires Enabled(sys, e)
  {
    match e
    case Arrive(h) => sys.(handlers := sys.handlers[h := Arrived])
    case CheckFlag(h) =>
      if sys.draining then sys.(handlers := sys.handlers - {h})
      else sys.(handlers := sys.handlers[h := Admitted])
    case CreateGuard(h) => sys.(inFlight := sys.inFlight + 1, handlers := sys.handlers[h := Guarded])
    case DropGuard(h) => sys.(inFlight := sys.inFlight - 1, handlers := sys.handlers - {h})
    case Shutdown => sys.(draining := true)
  }

  ghost function Exec(sys: System, events: seq<Event>): Option<System> {
    if events == [] then Some(sys)
    else
      match Exec(sys, events[..|events| - 1])
      case None => None
      case Some(mid) =>
        var e := events[|events| - 1];
        if Enabled(mid, e) then Some(Step(mid, e)) else None
  }

  /** The handlers in one phase. */
  ghost function In(sys: System, phase: Phase): set<nat> {
    set h | h in sys.handlers && sys.handlers[h] == phase
  }

  /** How each event changes the handlers of one phase. */
  lemma {:induction false} PhaseStep(sys: System, e: Event)
    requires Enabled(sys, e)
    ensures var sys' := Step(sys, e);
            && In(sys', Guarded) == (match e
                                     case CreateGuard(h) => In(sys, Guarded) + {h}
                                     case DropGuard(h) => In(sys, Guarded) - {h}
                                     case _ => In(sys, Guarded))
            && In(sys', Admitted) == (match e
                                      case CheckFlag(h) => In(sys, Admitted) + if sys.draining then {} else {h}
                                      case CreateGuard(h) => In(sys, Admitted) - {h}
                                      case _ => In(sys, Admitted))
  {
  }

  /** The counter is the number of live guards, so it never underflows. */
  lemma {:induction false} InFlightCountsGuards(events: seq<Event>, sys: System)
    requires Exec(INITIAL, events) == Some(sys)
    ensures sys.inFlight == |In(sys, Guarded)|
    decreases |events|
  {
    if events == [] {
      assert In(sys, Guarded) == {};
    } else {
      var n := |events| - 1;
      var mid := Exec(INITIAL, events[..n]).value;
      InFlightCountsGuards(events[..n], mid);
      PhaseStep(mid, events[n]);
    }
  }

  /** Live guards and handlers on the way to one. */
  ghost function Potential(sys: System): int {
    sys.inFlight + |In(sys, Admitted)|
  }

  lemma {:induction false} DrainingStep(sys: System, e: Event)
    requires sys.draining && Enabled(sys, e)
    ensures Step(sys, e).draining && Potential(Step(sys, e)) <= Potential(sys)
    ensures In(Step(sys, e), Admitted) <= In(sys, Admitted)
  {
    PhaseStep(sys, e);
  }

  /** While draining, the counter never exceeds what it was plus the handlers between check and guard. */
  lemma {:induction false} DrainingBound(sys: System, events: seq<Event>, later: System)
    requires sys.draining && Exec(sys, events) == Some(later)
    ensures later.draining && In(later, Admitted) <= In(sys, Admitted)
    ensures later.inFlight <= Potential(later) <= Potential(sys)
    decreases |events|
  {
    if events != [] {
      var n := |events| - 1;
      var mid := Exec(sys, events[..n]).value;
      DrainingBound(sys, events[..n], mid);
      DrainingStep(mid, events[n]);
    }
  }

  /** Some continuation brings the counter above its present value. */
  ghost predicate CanRise(sys: System) {
    exists events: seq<Event>, later: System :: Exec(sys, events) == Some(later) && later.inFlight > sys.inFlight
  }

  lemma {:induction false} ExecOne(sys: System, e: Event)
    requires Enabled(sys, e)
    ensures Exec(sys, [e]) == Some(Step(sys, e))
  {
    assert [e][..0] == [];
  }

  lemma {:induction false} AdmittedCanRise(sys: System, h: nat)
    requires h in In(sys, Admitted)
    ensures CanRise(sys)
  {
    ExecOne(sys, CreateGuard(h));
  }

  lemma {:induction false} FreshHandler(handlers: map<nat, Phase>) returns (h: nat)
    ensures h !in handlers
  {
    h := Above(handlers.Keys);
  }

  lemma {:induction false} Above(used: set<nat>) returns (h: nat)
    ensures forall u | u in used :: u < h
    decreases |used|
  {
    if used == {} {
      h := 0;
    } else {
      var u :| u in used;
      var g := Above(used - {u});
      h := if g > u then g else u + 1;
      forall w | w in used
        ensures w < h
      {
        assert w != u ==> w in used - {u};
      }
    }
  }

  lemma {:induction false} OpenCanRise(sys: System)
    requires !sys.draining
    ensures CanRise(sys)
  {
    var h := FreshHandler(sys.handlers);
    var arrive, check, guard := [Arrive(h)], [Arrive(h), CheckFlag(h)], [Arrive(h), CheckFlag(h), CreateGuard(h)];
    ExecOne(sys, Arrive(h));
    assert check[..1] == arrive && guard[..2] == check;
    assert Exec(sys, check).Some?;
    assert Exec(sys, guard).Some? && Exec(sys, guard).value.inFlight == sys.inFlight + 1;
  }

  /**
   In-flight work can still grow exactly when the gateway is not draining or some handler has passed
   the check without having created its guard yet.
   */
  lemma {:induction false} CanRiseIff(sys: System)
    ensures CanRise(sys) <==> !sys.draining || In(sys, Admitted) != {}
  {
    if !sys.draining {
      OpenCanRise(sys);
    } else if In(sys, Admitted) != {} {
      var h :| h in In(sys, Admitted);
      AdmittedCanRise(sys, h);
    } else if CanRise(sys) {
      var events: seq<Event>, later: System :| Exec(sys, events) == Some(later) && later.inFlight > sys.inFlight;
      DrainingBound(sys, events, later);
      assert false;
    }
  }

  // --- The shutdown ---

  /** The gateway drains exactly from the shutdown on. */
  lemma {:induction false} DrainsIffShutDown(events: seq<Event>, sys: System)
    requires Exec(INITIAL, events) == Some(sys)
    ensures sys.draining <==> Shutdown in events
    decreases |events|
  {
    if events != [] {
      var n := |events| - 1;
      DrainsIffShutDown(events[..n], Exec(INITIAL, events[..n]).value);
      assert events == events[..n] + [events[n]];
    }
  }

  /** A handler passes the check exactly when there was no shutdown before, and is turned away otherwise. */
  lemma {:induction false} PassesIffNotShutDown(events: seq<Event>, h: nat, sys: System)
    requires Exec(INITIAL, events + [CheckFlag(h)]) == Some(sys)
    ensures h in In(sys, Admitted) <==> Shutdown !in events
    ensures h in sys.handlers <==> Shutdown !in events
  {
    var all := events + [CheckFlag(h)];
    assert all[..|all| - 1] == events;
    DrainsIffShutDown(events, Exec(INITIAL, events).value);
  }

  lemma {:induction false} ExecOn(sys: System, a: seq<Event>, mid: System, b: seq<Event>)
    requires Exec(sys, a) == Some(mid)
    ensures Exec(sys, a + b) == Exec(mid, b)
    decreases |b|
  {
    if b == [] {
      assert a + b == a;
    } else {
      assert (a + b)[..|a + b| - 1] == a + b[..|b| - 1];
      ExecOn(sys, a, mid, b[..|b| - 1]);
    }
  }

  /** While draining, every guard belongs to a handler that had one or was about to create it. */
  lemma {:induction false} NobodyJoins(sys: System, events: seq<Event>, later: System)
    requires sys.draining && Exec(sys, events) == Some(later)
    ensures later.draining && In(later, Admitted) <= In(sys, Admitted)
    ensures In(later, Guarded) <= In(sys, Guarded) + In(sys, Admitted)
    decreases |events|
  {
    if events != [] {
      var n := |events| - 1;
      var mid := Exec(sys, events[..n]).value;
      NobodyJoins(sys, events[..n], mid);
      DrainingStep(mid, events[n]);
      PhaseStep(mid, events[n]);
    }
  }

  /**
   Whatever happens after a shutdown, the live guards are among the guards and the handlers between check and
   guard of that moment, so the counter never exceeds their number, and whoever arrives later is turned away.
   */
  lemma {:induction false} ShutdownBounds(before: seq<Event>, mid: System, after: seq<Event>, later: System)
    requires Exec(INITIAL, before) == Some(mid)
    requires Exec(INITIAL, before + [Shutdown] + after) == Some(later)
    ensures In(later, Guarded) <= In(mid, Guarded) + In(mid, Admitted) && In(later, Admitted) <= In(mid, Admitted)
    ensures 0 <= later.inFlight <= mid.inFlight + |In(mid, Admitted)|
    ensures forall h | h in later.handlers && h !in mid.handlers :: later.handlers[h] == Arrived
  {
    var shut := Step(mid, Shutdown);
    ExecOne(mid, Shutdown);
    ExecOn(INITIAL, before, mid, [Shutdown]);
    ExecOn(INITIAL, before + [Shutdown], shut, after);
    DrainsIffShutDown(before + [Shutdown], shut);
    PhaseStep(mid, Shutdown);
    NobodyJoins(shut, after, later);
    DrainingBound(shut, after, later);
    InFlightCountsGuards(before + [Shutdown] + after, later);
    InFlightCountsGuards(before, mid);
    InFlightCountsGuards(before + [Shutdown], shut);
    forall h | h in later.handlers && h !in mid.handlers
      ensures later.handlers[h] == Arrived
    {
      assert h !in In(mid, Guarded) && h !in In(mid, Admitted);
      assert later.handlers[h] == Guarded ==> h in In(later, Guarded);
      assert later.handlers[h] == Admitted ==> h in In(later, Admitted);
    }
  }
}
