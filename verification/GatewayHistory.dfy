/**
 The concurrent gateway told from its events. Handlers collect, choose and record step by step, in any order;
 here everything they know and everything they find is read off the list of events that happened.
 */
module GatewayHistory {
  import opened Wrappers
  import opened Clock
  import opened Balancer
  import opened Resilience
  import Breaker
  import opened Gateway
  import opened GatewayInterleaving
  import GatewayRetry

  // --- Read off the events ---

  /** The request counts drawn from the shared counter, by whichever upstream. */
  ghost function Draws(events: seq<Event>): nat {
    if events == [] then 0
    else
      Draws(events[..|events| - 1])
      + match events[|events| - 1]
        case Begin(_, _) => 1
        case OtherUpstream => 1
        case _ => 0
  }

  /** The last clock reading. */
  ghost function LastReading(events: seq<Event>): Instant {
    if events == [] then 0.0
    else
      match events[|events| - 1]
      case AskNext(_, now) => now
      case Finish(_, _, now) => now
      case _ => LastReading(events[..|events| - 1])
  }

  /** What a handler was given when it last began. */
  datatype Ticket = Ticket(requestCount: nat, requestKey: string)

  ghost function TicketOf(events: seq<Event>, h: nat): Ticket {
    if events == [] then Ticket(0, "")
    else
      var before, e := events[..|events| - 1], events[|events| - 1];
      if e.Begin? && e.h == h then Ticket(Draws(before), e.requestKey) else TicketOf(before, h)
  }

  /** How many targets the handler has asked since it last began. */
  ghost function AskedBy(events: seq<Event>, h: nat): nat {
    if events == [] then 0
    else
      var before, e := events[..|events| - 1], events[|events| - 1];
      if e.Begin? && e.h == h then 0
      else AskedBy(before, h) + if e.AskNext? && e.h == h then 1 else 0
  }

  /** The next target the handler asks is one of `key`. */
  ghost predicate NextHas(up: Upstream, events: seq<Event>, h: nat, key: string) {
    var n := AskedBy(events, h);
    n < |up.targets| && KeyOf(up, up.targets[n]) == key
  }

  /** The questions, checks and outcomes that concern one key. */
  ghost function EventsOf(up: Upstream, hash: string -> nat, events: seq<Event>, key: string): seq<Breaker.Event>
    decreases |events|, 0
  {
    if events == [] then []
    else
      var before := events[..|events| - 1];
      EventsOf(up, hash, before, key)
      + match events[|events| - 1]
        case AskNext(h, now) => if NextHas(up, before, h, key) then [Breaker.Query(now)] else []
        case Finish(h, success, now) =>
          var sent := SentTo(up, hash, before, h);
          if sent.None? || KeyOf(up, sent.value) != key then []
          else [if success then Breaker.Success else Breaker.Failure(now)]
        case ActiveCheck(i, healthy) =>
          if i < |up.targets| && KeyOf(up, up.targets[i]) == key then [Breaker.ActiveCheck(healthy)] else []
        case _ => []
  }

  /** The targets granted to the handler since it last began: those that the breaker of their key admits. */
  ghost function GrantedTo(up: Upstream, hash: string -> nat, events: seq<Event>, h: nat): seq<Target>
    decreases |events|, 0
  {
    if events == [] then []
    else
      var before, e := events[..|events| - 1], events[|events| - 1];
      if e.Begin? && e.h == h then []
      else
        var n := AskedBy(before, h);
        GrantedTo(up, hash, before, h)
        + if e.AskNext? && e.h == h && n < |up.targets|
             && Breaker.Admits(up.thresholds, EventsOf(up, hash, before, KeyOf(up, up.targets[n])), e.now)
          then [up.targets[n]] else []
  }

  /** What the handler chooses from the targets granted to it. */
  ghost function SentTo(up: Upstream, hash: string -> nat, events: seq<Event>, h: nat): Option<Target>
    decreases |events|, 1
  {
    var ticket := TicketOf(events, h);
    Chosen(up, GrantedTo(up, hash, events, h), ticket.requestKey, ticket.requestCount, hash)
  }

  datatype Phase = Idle | Asking | Sending

  ghost function PhaseOf(up: Upstream, hash: string -> nat, events: seq<Event>, h: nat): Phase {
    if events == [] then Idle
    else
      var before := events[..|events| - 1];
      match events[|events| - 1]
      case Begin(g, _) => if g == h then Asking else PhaseOf(up, hash, before, h)
      case Choose(g) =>
        if g != h then PhaseOf(up, hash, before, h) else if SentTo(up, hash, before, h).Some? then Sending else Idle
      case Finish(g, _, _) => if g == h then Idle else PhaseOf(up, hash, before, h)
      case Drop(g) => if g == h then Idle else PhaseOf(up, hash, before, h)
      case _ => PhaseOf(up, hash, before, h)
  }

  // --- The system follows ---

  /** The handler knows what the events tell of it. */
  ghost predicate HandlerFollows(up: Upstream, hash: string -> nat, events: seq<Event>, sys: System, h: nat) {
    match PhaseOf(up, hash, events, h)
    case Idle => h !in sys.handlers
    case Asking =>
      && h in sys.handlers
      && sys.handlers[h]
         == Scanning(TicketOf(events, h).requestCount, TicketOf(events, h).requestKey, AskedBy(events, h),
                     GrantedTo(up, hash, events, h))
    case Sending =>
      && h in sys.handlers && SentTo(up, hash, events, h).Some?
      && sys.handlers[h] == Waiting(SentTo(up, hash, events, h).value)
  }

  ghost predicate KeyFollows(up: Upstream, hash: string -> nat, events: seq<Event>, sys: System, key: string) {
    Lookup(sys.states, key) == Breaker.Run(up.thresholds, HEALTHY, EventsOf(up, hash, events, key))
  }

  /** The event `e` after `events`, and the states around it. */
  ghost predicate Happens(up: Upstream, hash: string -> nat, sys: System, e: Event, sys': System) {
    Enabled(up, sys, e) && sys' == Step(up, hash, sys, e)
  }

  lemma {:induction false} KeyFollowsStep(
    up: Upstream, hash: string -> nat, events: seq<Event>, sys: System, e: Event, sys': System, key: string)
    requires Happens(up, hash, sys, e, sys') && KeyFollows(up, hash, events, sys, key)
    requires forall h :: HandlerFollows(up, hash, events, sys, h)
    ensures KeyFollows(up, hash, events + [e], sys', key)
  {
    var all, own := events + [e], EventsOf(up, hash, events, key);
    assert all[..|all| - 1] == events;
    StateStep(up, hash, sys, e, key);
    var local := Local(up, sys, e, key);
    assert EventsOf(up, hash, all, key) == own + match local case None => [] case Some(b) => [b] by {
      assert e.AskNext? || e.Finish? ==> HandlerFollows(up, hash, events, sys, e.h);
    }
    match local
    case None => assert own + [] == own;
    case Some(b) => assert (own + [b])[..|own|] == own;
  }

  /** An event of another handler leaves this one as it is. */
  lemma {:induction false} OthersFollow(
    up: Upstream, hash: string -> nat, events: seq<Event>, sys: System, e: Event, sys': System, h: nat)
    requires Happens(up, hash, sys, e, sys') && HandlerFollows(up, hash, events, sys, h)
    requires e.OtherUpstream? || e.ActiveCheck? || e.h != h
    ensures HandlerFollows(up, hash, events + [e], sys', h)
  {
    var all := events + [e];
    assert all[..|all| - 1] == events;
    assert GrantedTo(up, hash, events, h) + [] == GrantedTo(up, hash, events, h);
  }

  lemma {:induction false} AskerFollows(
    up: Upstream, hash: string -> nat, events: seq<Event>, sys: System, h: nat, now: Instant, sys': System)
    requires Happens(up, hash, sys, AskNext(h, now), sys') && HandlerFollows(up, hash, events, sys, h)
    requires forall key :: KeyFollows(up, hash, events, sys, key)
    ensures HandlerFollows(up, hash, events + [AskNext(h, now)], sys', h)
  {
    var all := events + [AskNext(h, now)];
    assert all[..|all| - 1] == events;
    var handler := sys.handlers[h];
    var key := KeyOf(up, up.targets[handler.next]);
    assert KeyFollows(up, hash, events, sys, key);
    Breaker.BreakerRefinesHistory(up.thresholds, EventsOf(up, hash, events, key), now);
    assert GrantedTo(up, hash, events, h) + [] == GrantedTo(up, hash, events, h);
  }

  lemma {:induction false} ActorFollows(
    up: Upstream, hash: string -> nat, events: seq<Event>, sys: System, e: Event, sys': System)
    requires Happens(up, hash, sys, e, sys') && !e.OtherUpstream? && !e.ActiveCheck? && !e.AskNext?
    requires HandlerFollows(up, hash, events, sys, e.h) && sys.counter == Draws(events)
    ensures HandlerFollows(up, hash, events + [e], sys', e.h)
  {
    var all := events + [e];
    assert all[..|all| - 1] == events;
    assert GrantedTo(up, hash, events, e.h) + [] == GrantedTo(up, hash, events, e.h);
  }

  /**
   The main result. In every interleaving each handler holds the request count and key it began with, has been
   granted exactly the targets whose breakers admit it by their own history, waits for the target it chooses from these,
   and each key is in the state its own questions, checks and outcomes lead to.
   */
  lemma {:induction false} SystemRefinesHistory(up: Upstream, hash: string -> nat, events: seq<Event>, sys: System)
    requires Exec(up, hash, INITIAL, events) == Some(sys)
    ensures sys.counter == Draws(events) && sys.clock == LastReading(events)
    ensures forall h :: HandlerFollows(up, hash, events, sys, h)
    ensures forall key :: KeyFollows(up, hash, events, sys, key)
    decreases |events|
  {
    if events != [] {
      var n := |events| - 1;
      var before, e := events[..n], events[n];
      var mid := Exec(up, hash, INITIAL, before).value;
      assert events == before + [e];
      SystemRefinesHistory(up, hash, before, mid);
      forall h
        ensures HandlerFollows(up, hash, events, sys, h)
      {
        if e.OtherUpstream? || e.ActiveCheck? || e.h != h {
          OthersFollow(up, hash, before, mid, e, sys, h);
        } else if e.AskNext? {
          AskerFollows(up, hash, before, mid, h, e.now, sys);
        } else {
          ActorFollows(up, hash, before, mid, e, sys);
        }
      }
      forall key
        ensures KeyFollows(up, hash, events, sys, key)
      {
        KeyFollowsStep(up, hash, before, mid, e, sys, key);
      }
    }
  }

  // --- What follows for one handler ---

  /** Every question is answered by what was asked, checked and recorded before on its key. */
  lemma {:induction false} GrantsFollowHistory(
    up: Upstream, hash: string -> nat, events: seq<Event>, sys: System, h: nat, now: Instant)
    requires Exec(up, hash, INITIAL, events) == Some(sys) && Enabled(up, sys, AskNext(h, now))
    ensures var n := AskedBy(events, h);
            && n < |up.targets|
            && Step(up, hash, sys, AskNext(h, now)).handlers[h].available
               == GrantedTo(up, hash, events, h)
                  + if Breaker.Admits(up.thresholds, EventsOf(up, hash, events, KeyOf(up, up.targets[n])), now)
                    then [up.targets[n]] else []
  {
    SystemRefinesHistory(up, hash, events, sys);
    var n := AskedBy(events, h);
    assert HandlerFollows(up, hash, events, sys, h);
    var key := KeyOf(up, up.targets[n]);
    assert KeyFollows(up, hash, events, sys, key);
    Breaker.BreakerRefinesHistory(up.thresholds, EventsOf(up, hash, events, key), now);
    assert GrantedTo(up, hash, events, h) + [] == GrantedTo(up, hash, events, h);
  }

  /** Whoever waits was sent to what its strategy selects from the targets granted to it, by its own count and key. */
  lemma {:induction false} WaitsForItsChoice(up: Upstream, hash: string -> nat, events: seq<Event>, sys: System, h: nat)
    requires Exec(up, hash, INITIAL, events) == Some(sys) && h in sys.handlers && sys.handlers[h].Waiting?
    ensures var ticket := TicketOf(events, h);
            GatewayRetry.IsChoice(up, GrantedTo(up, hash, events, h), ticket.requestKey, ticket.requestCount, hash,
                                  Some(sys.handlers[h].target))
  {
    SystemRefinesHistory(up, hash, events, sys);
    assert HandlerFollows(up, hash, events, sys, h);
    var ticket := TicketOf(events, h);
    GatewayRetry.ChosenIff(up, GrantedTo(up, hash, events, h), ticket.requestKey, ticket.requestCount, hash,
                           Some(sys.handlers[h].target));
  }
}
