/**
 Configuration checks and upstream selection: `validate` of gateway-core-rust/src/config.rs,
 `select_upstream_name` and `build_runtime_registry` of gateway-core-rust/src/main.rs.
 */
module Routing {
  import opened Wrappers
  import opened Resilience
  import opened Gateway

  datatype HeaderMatch = HeaderMatch(name: string, value: string)

  datatype Route = Route(
    name: string,
    upstream: string,
    canaryUpstream: Option<string>,
    canaryPercentage: nat,
    canaryHeader: Option<HeaderMatch>,
    faultProbability: nat,
    abortStatus: Option<nat>)

  datatype GatewayConfig = GatewayConfig(routes: seq<Route>, upstreams: seq<Upstream>)

  datatype ConfigError =
    | NoRoutes
    | UnknownUpstream(route: string, upstream: string)
    | UnknownCanary(route: string, upstream: string)
    | InvalidPercentage(route: string)
    | InvalidProbability(route: string)
    | InvalidAbortStatus(route: string)
    | NoTargets(upstream: string)

  // --- validate ---

  predicate Known(upstreams: seq<Upstream>, name: string) {
    exists u | u in upstreams :: u.name == name
  }

  /** Lines 360-403 for one route. */
  function RouteError(route: Route, upstreams: seq<Upstream>): Option<ConfigError> {
    if !Known(upstreams, route.upstream) then Some(UnknownUpstream(route.name, route.upstream))
    else if route.canaryUpstream.Some? && !Known(upstreams, route.canaryUpstream.value) then
      Some(UnknownCanary(route.name, route.canaryUpstream.value))
    else if route.canaryPercentage > 100 then Some(InvalidPercentage(route.name))
    else if route.faultProbability > 100 then Some(InvalidProbability(route.name))
    else if route.abortStatus.Some? && !(100 <= route.abortStatus.value <= 599) then
      Some(InvalidAbortStatus(route.name))
    else None
  }

  function FirstRouteError(routes: seq<Route>, upstreams: seq<Upstream>): Option<ConfigError> {
    if routes == [] then None
    else
      match RouteError(routes[0], upstreams)
      case Some(e) => Some(e)
      case None => FirstRouteError(routes[1..], upstreams)
  }

  function FirstEmptyUpstream(upstreams: seq<Upstream>): Option<ConfigError> {
    if upstreams == [] then None
    else if upstreams[0].targets == [] then Some(NoTargets(upstreams[0].name))
    else FirstEmptyUpstream(upstreams[1..])
  }

  function Validate(cfg: GatewayConfig): Option<ConfigError> {
    if cfg.routes == [] then Some(NoRoutes)
    else
      match FirstRouteError(cfg.routes, cfg.upstreams)
      case Some(e) => Some(e)
      case None => FirstEmptyUpstream(cfg.upstreams)
  }

  ghost predicate SoundRoute(route: Route, upstreams: seq<Upstream>) {
    && Known(upstreams, route.upstream)
    && (route.canaryUpstream.Some? ==> Known(upstreams, route.canaryUpstream.value))
    && route.canaryPercentage <= 100 && route.faultProbability <= 100
    && (route.abortStatus.Some? ==> 100 <= route.abortStatus.value <= 599)
  }

  lemma {:induction false} NoRouteErrorIff(routes: seq<Route>, upstreams: seq<Upstream>)
    ensures FirstRouteError(routes, upstreams).None?
       <==> forall i | 0 <= i < |routes| :: SoundRoute(routes[i], upstreams)
  {
    if routes != [] {
      NoRouteErrorIff(routes[1..], upstreams);
      assert routes == [routes[0]] + routes[1..];
      assert forall i | 0 <= i < |routes[1..]| :: routes[1..][i] == routes[i + 1];
      assert forall i | 1 <= i < |routes| :: routes[i] == routes[1..][i - 1];
    }
  }

  lemma {:induction false} NoEmptyUpstreamIff(upstreams: seq<Upstream>)
    ensures FirstEmptyUpstream(upstreams).None? <==> forall i | 0 <= i < |upstreams| :: upstreams[i].targets != []
  {
    if upstreams != [] {
      NoEmptyUpstreamIff(upstreams[1..]);
      assert forall i | 1 <= i < |upstreams| :: upstreams[i] == upstreams[1..][i - 1];
    }
  }

  /** What an accepted configuration guarantees, and that nothing else is asked of it. */
  lemma {:induction false} ValidateIff(cfg: GatewayConfig)
    ensures Validate(cfg).None?
       <==> && cfg.routes != []
            && (forall i | 0 <= i < |cfg.routes| :: SoundRoute(cfg.routes[i], cfg.upstreams))
            && (forall i | 0 <= i < |cfg.upstreams| :: cfg.upstreams[i].targets != [])
  {
    NoRouteErrorIff(cfg.routes, cfg.upstreams);
    NoEmptyUpstreamIff(cfg.upstreams);
  }

  // --- What validate reports ---

  /** Some upstream has the name. */
  ghost predicate Configured(upstreams: seq<Upstream>, name: string) {
    exists i | 0 <= i < |upstreams| :: upstreams[i].name == name
  }

  lemma {:induction false} KnownIff(upstreams: seq<Upstream>, name: string)
    ensures Known(upstreams, name) <==> Configured(upstreams, name)
  {
    if Known(upstreams, name) {
      var u :| u in upstreams && u.name == name;
      var i :| 0 <= i < |upstreams| && upstreams[i] == u;
    }
  }

  /** What is wrong with a route, and that nothing tested before it is. */
  ghost predicate IsFault(route: Route, upstreams: seq<Upstream>, e: ConfigError) {
    var main := Configured(upstreams, route.upstream);
    var canary := route.canaryUpstream.Some? ==> Configured(upstreams, route.canaryUpstream.value);
    match e
    case UnknownUpstream(r, u) => r == route.name && u == route.upstream && !main
    case UnknownCanary(r, u) => r == route.name && route.canaryUpstream == Some(u) && main && !canary
    case InvalidPercentage(r) => r == route.name && main && canary && route.canaryPercentage > 100
    case InvalidProbability(r) =>
      r == route.name && main && canary && route.canaryPercentage <= 100 && route.faultProbability > 100
    case InvalidAbortStatus(r) =>
      && r == route.name && main && canary && route.canaryPercentage <= 100 && route.faultProbability <= 100
      && route.abortStatus.Some? && !(100 <= route.abortStatus.value <= 599)
    case _ => false
  }

  lemma {:induction false} RouteErrorIff(route: Route, upstreams: seq<Upstream>, e: ConfigError)
    ensures RouteError(route, upstreams) == Some(e) <==> IsFault(route, upstreams, e)
  {
    KnownIff(upstreams, route.upstream);
    if route.canaryUpstream.Some? {
      KnownIff(upstreams, route.canaryUpstream.value);
    }
  }

  lemma {:induction false} FirstRouteErrorIs(routes: seq<Route>, upstreams: seq<Upstream>, e: ConfigError) returns (i: nat)
    requires FirstRouteError(routes, upstreams) == Some(e)
    ensures i < |routes| && IsFault(routes[i], upstreams, e)
    ensures forall j | 0 <= j < i :: SoundRoute(routes[j], upstreams)
  {
    if RouteError(routes[0], upstreams).Some? {
      i := 0;
      RouteErrorIff(routes[0], upstreams, e);
    } else {
      var k := FirstRouteErrorIs(routes[1..], upstreams, e);
      i := k + 1;
      NoRouteErrorIff([routes[0]], upstreams);
      assert [routes[0]][1..] == [];
      assert [routes[0]][0] == routes[0];
      assert forall j | 1 <= j < i :: routes[j] == routes[1..][j - 1];
    }
  }

  lemma {:induction false} FirstEmptyIs(upstreams: seq<Upstream>, e: ConfigError) returns (i: nat)
    requires FirstEmptyUpstream(upstreams) == Some(e)
    ensures i < |upstreams| && upstreams[i].targets == [] && e == NoTargets(upstreams[i].name)
    ensures forall j | 0 <= j < i :: upstreams[j].targets != []
  {
    i := 0;
    if upstreams[0].targets != [] {
      var k := FirstEmptyIs(upstreams[1..], e);
      i := k + 1;
      assert forall j | 1 <= j < i :: upstreams[j] == upstreams[1..][j - 1];
    }
  }

  /** A refusal names the first fault: no routes, then the first unsound route, then the first upstream without targets. */
  lemma {:induction false} ValidateReports(cfg: GatewayConfig, e: ConfigError) returns (i: nat)
    requires Validate(cfg) == Some(e)
    ensures match e
            case NoRoutes => cfg.routes == []
            case NoTargets(name) =>
              && i < |cfg.upstreams| && cfg.upstreams[i].targets == [] && name == cfg.upstreams[i].name
              && (forall j | 0 <= j < i :: cfg.upstreams[j].targets != [])
              && forall j | 0 <= j < |cfg.routes| :: SoundRoute(cfg.routes[j], cfg.upstreams)
            case _ =>
              && i < |cfg.routes| && IsFault(cfg.routes[i], cfg.upstreams, e)
              && forall j | 0 <= j < i :: SoundRoute(cfg.routes[j], cfg.upstreams)
  {
    i := 0;
    NoRouteErrorIff(cfg.routes, cfg.upstreams);
    if cfg.routes != [] {
      if FirstRouteError(cfg.routes, cfg.upstreams).Some? {
        i := FirstRouteErrorIs(cfg.routes, cfg.upstreams, e);
      } else {
        i := FirstEmptyIs(cfg.upstreams, e);
      }
    }
  }

  // --- select_upstream_name ---

  /** Everything a request brings along; `hash` is the standard library's hash of the three values. */
  datatype Request = Request(
    header: string -> Option<string>,
    clientKey: string,
    requestCount: nat,
    hash: (string, string, nat) -> nat)

  /** Lines 474-500. */
  function SelectUpstreamName(route: Route, q: Request): string {
    match route.canaryUpstream
    case None => route.upstream
    case Some(canary) =>
      var forced := route.canaryHeader.Some? && q.header(route.canaryHeader.value.name) == Some(route.canaryHeader.value.value);
      if forced then canary
      else if route.canaryPercentage == 0 then route.upstream
      else if q.hash(route.name, q.clientKey, q.requestCount) % 100 < route.canaryPercentage then canary
      else route.upstream
  }

  // --- build_runtime_registry ---

  /** The thresholds of each registry; of two upstreams with one name the later one counts. */
  function BuildRuntimeRegistry(upstreams: seq<Upstream>): map<string, Thresholds> {
    if upstreams == [] then map[]
    else
      var last := upstreams[|upstreams| - 1];
      BuildRuntimeRegistry(upstreams[..|upstreams| - 1])[last.name := last.thresholds]
  }

  /** Lines 295-299: the first upstream of that name. */
  function FindUpstream(upstreams: seq<Upstream>, name: string): (r: Option<Upstream>)
    ensures r.None? <==> forall u | u in upstreams :: u.name != name
    ensures r.Some? ==> r.value in upstreams && r.value.name == name
  {
    if upstreams == [] then None
    else if upstreams[0].name == name then Some(upstreams[0])
    else
      assert forall u | u in upstreams :: u == upstreams[0] || u in upstreams[1..];
      FindUpstream(upstreams[1..], name)
  }

  lemma {:induction false} RegistryKeys(upstreams: seq<Upstream>, name: string)
    ensures name in BuildRuntimeRegistry(upstreams) <==> Known(upstreams, name)
  {
    if upstreams != [] {
      var n := |upstreams| - 1;
      RegistryKeys(upstreams[..n], name);
      assert upstreams == upstreams[..n] + [upstreams[n]];
    }
  }

  /** Both look-ups that could answer with a bad gateway succeed. */
  ghost predicate Served(upstreams: seq<Upstream>, name: string) {
    && FindUpstream(upstreams, name).Some?
    && FindUpstream(upstreams, name).value.name in BuildRuntimeRegistry(upstreams)
  }

  lemma {:induction false} ServedIff(upstreams: seq<Upstream>, name: string)
    ensures Served(upstreams, name) <==> Known(upstreams, name)
  {
    RegistryKeys(upstreams, name);
  }

  // --- Referential integrity ---

  /** Some request can be routed to the canary, or to the main upstream. */
  predicate CanaryReachable(route: Route) {
    route.canaryUpstream.Some? && (route.canaryHeader.Some? || route.canaryPercentage > 0)
  }

  predicate MainReachable(route: Route) {
    route.canaryUpstream.None? || route.canaryPercentage < 100
  }

  lemma {:induction false} CanaryRequest(route: Route) returns (q: Request)
    requires CanaryReachable(route)
    ensures SelectUpstreamName(route, q) == route.canaryUpstream.value
  {
    q := Request(_ => if route.canaryHeader.Some? then Some(route.canaryHeader.value.value) else None, "", 0, (_, _, _) => 0);
  }

  lemma {:induction false} MainRequest(route: Route) returns (q: Request)
    requires MainReachable(route)
    ensures SelectUpstreamName(route, q) == route.upstream
  {
    q := Request(_ => None, "", 0, (_, _, _) => 99);
  }

  /** No request on this route ever meets a missing upstream, exactly when every reachable upstream is configured. */
  lemma {:induction false} AlwaysServedIff(route: Route, upstreams: seq<Upstream>)
    ensures (forall q: Request :: Served(upstreams, SelectUpstreamName(route, q)))
       <==> && (MainReachable(route) ==> Known(upstreams, route.upstream))
            && (CanaryReachable(route) ==> Known(upstreams, route.canaryUpstream.value))
  {
    forall q: Request
      ensures Served(upstreams, SelectUpstreamName(route, q)) <==> Known(upstreams, SelectUpstreamName(route, q))
      ensures || (MainReachable(route) && SelectUpstreamName(route, q) == route.upstream)
              || (CanaryReachable(route) && SelectUpstreamName(route, q) == route.canaryUpstream.value)
    {
      ServedIff(upstreams, SelectUpstreamName(route, q));
    }
    if MainReachable(route) {
      var q := MainRequest(route);
    }
    if CanaryReachable(route) {
      var q := CanaryRequest(route);
    }
  }

  /** An accepted configuration serves every request on every route. */
  lemma {:induction false} ValidatedIsServed(cfg: GatewayConfig, route: Route, q: Request)
    requires Validate(cfg).None? && route in cfg.routes
    ensures Served(cfg.upstreams, SelectUpstreamName(route, q))
  {
    ValidateIff(cfg);
    var i :| 0 <= i < |cfg.routes| && cfg.routes[i] == route;
    AlwaysServedIff(route, cfg.upstreams);
  }

  // --- The canary's share ---

  /** The request carries the canary header with the configured value. */
  ghost predicate CarriesHeader(route: Route, q: Request) {
    match route.canaryHeader
    case None => false
    case Some(wanted) => q.header(wanted.name) == Some(wanted.value)
  }

  /** The header sends a request to the canary, whatever the percentage; any other value of it counts as no header. */
  lemma {:induction false} HeaderForcesCanary(route: Route, q: Request)
    requires route.canaryUpstream.Some?
    ensures CarriesHeader(route, q) ==> SelectUpstreamName(route, q) == route.canaryUpstream.value
    ensures !CarriesHeader(route, q) ==> SelectUpstreamName(route, q) == SelectUpstreamName(route, q.(header := _ => None))
  {
  }

  /** The hash of the three values that decide where a request without the header goes. */
  ghost function Digest(route: Route, q: Request): nat {
    q.hash(route.name, q.clientKey, q.requestCount)
  }

  /** How many of the first `n` requests go to the canary. */
  ghost function CanaryRequests(route: Route, requests: nat -> Request, n: nat): nat
    requires route.canaryUpstream.Some?
  {
    if n == 0 then 0
    else
      CanaryRequests(route, requests, n - 1)
      + if SelectUpstreamName(route, requests(n - 1)) == route.canaryUpstream.value then 1 else 0
  }

  /** Requests without the header, whose hashes count up from `start`. */
  ghost predicate Consecutive(route: Route, requests: nat -> Request, start: nat) {
    forall k: nat :: Digest(route, requests(k)) == start + k && !CarriesHeader(route, requests(k))
  }

  /** More than a hundred per cent are all of a hundred. */
  ghost function ShareOf(percentage: nat): nat {
    if percentage <= 100 then percentage else 100
  }

  /** How many of the hashes below `n` leave a remainder below `share` when divided by a hundred. */
  ghost function LowBelow(share: nat, n: nat): nat {
    n / 100 * share + if n % 100 <= share then n % 100 else share
  }

  lemma {:induction false} LowBelowStep(share: nat, n: nat)
    requires share <= 100
    ensures LowBelow(share, n + 1) == LowBelow(share, n) + if n % 100 < share then 1 else 0
  {
    if n % 100 == 99 {
      assert (n + 1) / 100 == n / 100 + 1 && (n + 1) % 100 == 0;
      assert (n / 100 + 1) * share == n / 100 * share + share;
    } else {
      assert (n + 1) / 100 == n / 100 && (n + 1) % 100 == n % 100 + 1;
    }
  }

  lemma {:induction false} CanaryCount(route: Route, requests: nat -> Request, start: nat, n: nat)
    requires route.canaryUpstream.Some? && route.canaryUpstream.value != route.upstream
    requires Consecutive(route, requests, start)
    ensures CanaryRequests(route, requests, n)
         == LowBelow(ShareOf(route.canaryPercentage), start + n) - LowBelow(ShareOf(route.canaryPercentage), start)
  {
    if n > 0 {
      CanaryCount(route, requests, start, n - 1);
      LowBelowStep(ShareOf(route.canaryPercentage), start + n - 1);
      assert Digest(route, requests(n - 1)) == start + (n - 1) && !CarriesHeader(route, requests(n - 1));
    }
  }

  /**
   Of any hundred consecutive hashes of route, client and count the canary gets its percentage, and of the first
   hundred it gets the lowest.
   */
  lemma {:induction false} CanaryShare(route: Route, requests: nat -> Request, start: nat, n: nat)
    requires route.canaryUpstream.Some? && route.canaryUpstream.value != route.upstream
    requires Consecutive(route, requests, start)
    ensures n == 100 ==> CanaryRequests(route, requests, n) == ShareOf(route.canaryPercentage)
    ensures start == 0 && n <= 100 ==>
              CanaryRequests(route, requests, n) == if n <= route.canaryPercentage then n else route.canaryPercentage
  {
    var share := ShareOf(route.canaryPercentage);
    CanaryCount(route, requests, start, n);
    assert (start + 100) / 100 == start / 100 + 1 && (start + 100) % 100 == start % 100;
    assert (start / 100 + 1) * share == start / 100 * share + share;
  }

  // --- Names shared by two upstreams ---

  ghost predicate DistinctNames(upstreams: seq<Upstream>) {
    forall i, j | 0 <= i < j < |upstreams| :: upstreams[i].name != upstreams[j].name
  }

  ghost predicate FirstOf(upstreams: seq<Upstream>, i: nat, name: string) {
    i < |upstreams| && upstreams[i].name == name && forall j | 0 <= j < i :: upstreams[j].name != name
  }

  ghost predicate LastOf(upstreams: seq<Upstream>, i: nat, name: string) {
    i < |upstreams| && upstreams[i].name == name && forall j | i < j < |upstreams| :: upstreams[j].name != name
  }

  lemma {:induction false} FindsFirst(upstreams: seq<Upstream>, i: nat, name: string)
    requires FirstOf(upstreams, i, name)
    ensures FindUpstream(upstreams, name) == Some(upstreams[i])
  {
    if i > 0 {
      assert upstreams[0].name != name;
      assert FirstOf(upstreams[1..], i - 1, name) by {
        assert forall j | 0 <= j < i - 1 :: upstreams[1..][j] == upstreams[j + 1];
      }
      FindsFirst(upstreams[1..], i - 1, name);
    }
  }

  lemma {:induction false} RegistersLast(upstreams: seq<Upstream>, i: nat, name: string)
    requires LastOf(upstreams, i, name)
    ensures name in BuildRuntimeRegistry(upstreams) && BuildRuntimeRegistry(upstreams)[name] == upstreams[i].thresholds
  {
    var n := |upstreams| - 1;
    if i < n {
      assert LastOf(upstreams[..n], i, name);
      RegistersLast(upstreams[..n], i, name);
    }
  }

  /** The upstream that serves a name is held to its own thresholds. */
  ghost predicate Agrees(upstreams: seq<Upstream>, name: string) {
    && Served(upstreams, name)
    && BuildRuntimeRegistry(upstreams)[name] == FindUpstream(upstreams, name).value.thresholds
  }

  /** Look-up and registry agree on a name exactly when its first and its last upstream have equal thresholds. */
  lemma {:induction false} AgreesIff(upstreams: seq<Upstream>, name: string, i: nat, j: nat)
    requires FirstOf(upstreams, i, name) && LastOf(upstreams, j, name)
    ensures FindUpstream(upstreams, name) == Some(upstreams[i])
    ensures name in BuildRuntimeRegistry(upstreams) && BuildRuntimeRegistry(upstreams)[name] == upstreams[j].thresholds
    ensures Agrees(upstreams, name) <==> upstreams[i].thresholds == upstreams[j].thresholds
  {
    FindsFirst(upstreams, i, name);
    RegistersLast(upstreams, j, name);
  }

  /** Where names do not repeat, every upstream is held to its own thresholds. */
  lemma {:induction false} RegistryMatches(upstreams: seq<Upstream>, i: nat)
    requires DistinctNames(upstreams) && i < |upstreams|
    ensures FindUpstream(upstreams, upstreams[i].name) == Some(upstreams[i]) && Agrees(upstreams, upstreams[i].name)
  {
    AgreesIff(upstreams, upstreams[i].name, i, i);
  }

  /**
   `validate` accepts two upstreams of one name; requests then go to the first under the thresholds of the
   second, which shows whenever these differ.
   */
  lemma {:induction false} SharedNameSplits(first: Upstream, second: Upstream)
    requires first.name == second.name && first.targets != [] && second.targets != []
    ensures var cfg := GatewayConfig([Route("r", first.name, None, 0, None, 100, None)], [first, second]);
            && Validate(cfg).None?
            && FindUpstream(cfg.upstreams, first.name) == Some(first)
            && first.name in BuildRuntimeRegistry(cfg.upstreams)
            && BuildRuntimeRegistry(cfg.upstreams)[first.name] == second.thresholds
            && (Agrees(cfg.upstreams, first.name) <==> first.thresholds == second.thresholds)
  {
    var cfg := GatewayConfig([Route("r", first.name, None, 0, None, 100, None)], [first, second]);
    assert first in cfg.upstreams;
    ValidateIff(cfg);
    AgreesIff(cfg.upstreams, first.name, 0, 1);
  }
}
