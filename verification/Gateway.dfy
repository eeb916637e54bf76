/** Choosing a target and the retry loop of gateway-core-rust/src/main.rs, one request at a time. */
module Gateway {
  import opened Wrappers
  import opened Clock
  import opened Balancer
  import opened Resilience

  /** `activeChecks` is the switch of the active health checks, off by default. */
  datatype Upstream = Upstream(
    name: string,
    strategy: Strategy,
    targets: seq<Target>,
    thresholds: Thresholds,
    activeChecks: bool)

  function TargetKey(upstream: string, id: string): string {
    upstream + ":" + id
  }

  function KeyOf(up: Upstream, target: Target): string {
    TargetKey(up.name, target.id)
  }

  // --- pick_target ---

  datatype Scan = Scan(available: seq<Target>, states: Resilience.Targets)

  /** The filter over the first `n` targets; target `i` is asked at `clock[i]`. */
  ghost function Scanned(up: Upstream, states: Resilience.Targets, clock: seq<Instant>, n: nat): Scan
    requires n <= |up.targets| == |clock|
  {
    if n == 0 then Scan([], states)
    else
      var before := Scanned(up, states, clock, n - 1);
      var target := up.targets[n - 1];
      Scan(
        if Ask(up.thresholds, Lookup(before.states, KeyOf(up, target)), clock[n - 1]).available
        then before.available + [target] else before.available,
        Asked(up.thresholds, before.states, KeyOf(up, target), clock[n - 1]))
  }

  ghost function Chosen(
    up: Upstream, available: seq<Target>, requestKey: string, requestCount: nat, hash: string -> nat): (r: Option<Target>)
    ensures r.Some? ==> r.value in available
  {
    if available == [] then None
    else
      match Selection(up.strategy, available, Some(requestKey), requestCount, hash)
      case None => None
      case Some(i) => Some(available[i])
  }

  /** Lines 448-472. */
  method PickTarget(
    up: Upstream, runtime: RuntimeRegistry, requestKey: string, requestCount: nat, hash: string -> nat,
    clock: seq<Instant>)
    returns (picked: Option<Target>)
    requires runtime.Valid() && runtime.cfg == up.thresholds && |clock| == |up.targets|
    modifies runtime`targets, runtime.targets.Values
    ensures runtime.Valid()
    ensures var scan := Scanned(up, old(runtime.View()), clock, |up.targets|);
            && runtime.View() == scan.states
            && picked == Chosen(up, scan.available, requestKey, requestCount, hash)
    ensures picked.Some? ==> picked.value.weight > 0
    ensures forall t | t in runtime.targets.Values :: t in old(runtime.targets.Values) || fresh(t)
  {
    var available: seq<Target> := [];
    for i := 0 to |up.targets|
      invariant runtime.Valid()
      invariant Scan(available, runtime.View()) == Scanned(up, old(runtime.View()), clock, i)
      invariant forall t | t in runtime.targets.Values :: t in old(runtime.targets.Values) || fresh(t)
    {
      var isUp := runtime.IsAvailable(KeyOf(up, up.targets[i]), clock[i]);
      if isUp {
        available := available + [up.targets[i]];
      }
    }
    if available == [] {
      return None;
    }
    var selected := SelectTarget(up.strategy, available, Some(requestKey), requestCount, hash);
    picked := match selected case None => None case Some(i) => Some(available[i]);
  }

  ghost predicate DistinctIds(up: Upstream) {
    forall i, j | 0 <= i < j < |up.targets| :: up.targets[i].id != up.targets[j].id
  }

  lemma {:induction false} KeysDiffer(up: Upstream, t: Target, u: Target)
    requires KeyOf(up, t) == KeyOf(up, u)
    ensures t.id == u.id
  {
    assert KeyOf(up, t)[|up.name| + 1..] == t.id && KeyOf(up, u)[|up.name| + 1..] == u.id;
  }

  lemma {:induction false} KeysOfIndices(up: Upstream, i: nat, j: nat)
    requires DistinctIds(up) && i < |up.targets| && j < |up.targets| && i != j
    ensures KeyOf(up, up.targets[i]) != KeyOf(up, up.targets[j])
  {
    if KeyOf(up, up.targets[i]) == KeyOf(up, up.targets[j]) {
      KeysDiffer(up, up.targets[i], up.targets[j]);
    }
  }

  /** The answer of target `i` in the registry as it was before the scan. */
  ghost function AnswerOf(up: Upstream, states: Resilience.Targets, clock: seq<Instant>, i: nat): Answer
    requires i < |up.targets| == |clock|
  {
    Ask(up.thresholds, Lookup(states, KeyOf(up, up.targets[i])), clock[i])
  }

  /** The targets that would say yes, each asked on its own. */
  ghost function Willing(up: Upstream, states: Resilience.Targets, clock: seq<Instant>, n: nat): seq<Target>
    requires n <= |up.targets| == |clock|
  {
    if n == 0 then []
    else
      Willing(up, states, clock, n - 1)
      + if AnswerOf(up, states, clock, n - 1).available then [up.targets[n - 1]] else []
  }

  lemma {:induction false} ScanMovesEach(up: Upstream, states: Resilience.Targets, clock: seq<Instant>, n: nat, i: nat)
    requires DistinctIds(up) && n <= |up.targets| == |clock| && i < |up.targets|
    ensures Lookup(Scanned(up, states, clock, n).states, KeyOf(up, up.targets[i]))
         == if i < n then AnswerOf(up, states, clock, i).next else Lookup(states, KeyOf(up, up.targets[i]))
    decreases n
  {
    if n > 0 {
      ScanMovesEach(up, states, clock, n - 1, i);
      if i != n - 1 {
        KeysOfIndices(up, i, n - 1);
      }
    }
  }

  /**
   With distinct ids a scan asks each target once, undisturbed by the others: the willing ones are kept in
   order, and every target asked, chosen later or not, moves on by its own answer.
   */
  lemma {:induction false} ScanIsFair(up: Upstream, states: Resilience.Targets, clock: seq<Instant>, n: nat)
    requires DistinctIds(up) && n <= |up.targets| == |clock|
    ensures Scanned(up, states, clock, n).available == Willing(up, states, clock, n)
    ensures forall i: nat | i < |up.targets| ::
              Lookup(Scanned(up, states, clock, n).states, KeyOf(up, up.targets[i]))
              == if i < n then AnswerOf(up, states, clock, i).next else Lookup(states, KeyOf(up, up.targets[i]))
    decreases n
  {
    if n > 0 {
      ScanIsFair(up, states, clock, n - 1);
      var before := Scanned(up, states, clock, n - 1).available;
      assert before + [] == before;
    }
    forall i: nat | i < |up.targets|
      ensures Lookup(Scanned(up, states, clock, n).states, KeyOf(up, up.targets[i]))
           == if i < n then AnswerOf(up, states, clock, i).next else Lookup(states, KeyOf(up, up.targets[i]))
    {
      ScanMovesEach(up, states, clock, n, i);
    }
  }

  /** How many of the first `n` targets share `key`. */
  ghost function Carriers(up: Upstream, key: string, n: nat): nat
    requires n <= |up.targets|
  {
    if n == 0 then 0 else Carriers(up, key, n - 1) + if KeyOf(up, up.targets[n - 1]) == key then 1 else 0
  }

  ghost function LesserOf(a: nat, b: nat): nat {
    if a <= b then a else b
  }

  /** A half-open key pays a probe for every target that has it, as long as there are any, whoever is chosen in the end. */
  lemma {:induction false} AskedPaysProbe(up: Upstream, states: Resilience.Targets, clock: seq<Instant>, key: string, n: nat)
    requires n <= |up.targets| == |clock|
    requires var s := Lookup(states, key); s.activeHealthy && s.circuit.HalfOpen?
    ensures var s := Lookup(states, key);
            Lookup(Scanned(up, states, clock, n).states, key)
            == s.(circuit := HalfOpen(s.circuit.remaining - LesserOf(s.circuit.remaining, Carriers(up, key, n))))
    decreases n
  {
    if n > 0 {
      AskedPaysProbe(up, states, clock, key, n - 1);
    }
  }

  // --- The retry loop ---

  datatype Method = GET | HEAD | OPTIONS | TRACE | PUT | DELETE | POST | PATCH | CONNECT | Extension(name: string)

  predicate ShouldRetryMethod(m: Method, idempotentOnly: bool, retryUnsafeMethods: bool) {
    || !idempotentOnly
    || m in {GET, HEAD, OPTIONS, TRACE}
    || (retryUnsafeMethods && m in {PUT, DELETE})
  }

  predicate ShouldRetryStatus(status: nat) {
    status == 429 || status >= 500
  }

  predicate IsServerError(status: nat) {
    500 <= status <= 599
  }

  datatype RetryConfig = RetryConfig(maxAttempts: nat, idempotentOnly: bool, retryUnsafeMethods: bool)

  /** Lines 317-321. */
  function MaxAttempts(m: Method, cfg: RetryConfig): (n: nat)
    ensures n >= 1
    ensures n > 1 <==> cfg.maxAttempts > 1 && ShouldRetryMethod(m, cfg.idempotentOnly, cfg.retryUnsafeMethods)
    ensures n > 1 ==> n == cfg.maxAttempts
  {
    if ShouldRetryMethod(m, cfg.idempotentOnly, cfg.retryUnsafeMethods) && cfg.maxAttempts > 1 then cfg.maxAttempts else 1
  }

  datatype SendResult = TransportError | Response(status: nat)

  /**
   What the outside world contributes to one attempt. Other handlers and the active checks use the
   registry before the targets are asked and again while the response is awaited.
   */
  datatype Attempt = Attempt(
    timedOut: bool,
    before: seq<Operation>,
    requestCount: nat,
    clock: seq<Instant>,
    result: SendResult,
    meanwhile: seq<Operation>,
    recordedAt: Instant)

  datatype Reply = TimedOut | NoTarget | SendFailed | Forwarded(status: nat) | RetriesExhausted(last: Option<nat>)

  /** The calls made to the network and to the registry, in order. */
  datatype Call = Sent(key: string, result: SendResult) | RecordedSuccess(key: string) | RecordedFailure(key: string)

  /** The inputs fit the upstream: one clock reading per target. */
  ghost predicate Fits(up: Upstream, attempts: seq<Attempt>) {
    forall i | 0 <= i < |attempts| :: |attempts[i].clock| == |up.targets|
  }

  datatype Progress = Progress(reply: Option<Reply>, states: Resilience.Targets, calls: seq<Call>)

  ghost predicate Retries(result: SendResult, isLast: bool) {
    !isLast && (result.TransportError? || ShouldRetryStatus(result.status))
  }

  /** A failed send, a retried status and a server error are recorded as failures. */
  ghost predicate CountsAsFailure(result: SendResult, isLast: bool) {
    result.TransportError? || IsServerError(result.status) || Retries(result, isLast)
  }

  ghost function ReplyTo(result: SendResult): Reply {
    match result
    case TransportError => SendFailed
    case Response(status) => Forwarded(status)
  }

  /** One attempt from `states`. */
  ghost function AttemptOnce(
    up: Upstream, states: Resilience.Targets, requestKey: string, hash: string -> nat, attempt: Attempt, isLast: bool)
    : Progress
    requires |attempt.clock| == |up.targets|
  {
    var found := Performed(up.thresholds, states, attempt.before);
    if attempt.timedOut then Progress(Some(TimedOut), found, [])
    else
      var scan := Scanned(up, found, attempt.clock, |up.targets|);
      match Chosen(up, scan.available, requestKey, attempt.requestCount, hash)
      case None => Progress(Some(NoTarget), scan.states, [])
      case Some(target) =>
        var key := KeyOf(up, target);
        var left := Performed(up.thresholds, scan.states, attempt.meanwhile);
        Progress(
          if Retries(attempt.result, isLast) then None else Some(ReplyTo(attempt.result)),
          if CountsAsFailure(attempt.result, isLast) then Failed(up.thresholds, left, key, attempt.recordedAt)
          else Succeeded(up.thresholds, left, key),
          [Sent(key, attempt.result),
           if CountsAsFailure(attempt.result, isLast) then RecordedFailure(key) else RecordedSuccess(key)])
  }

  /** What attempt `n` does from a registry state. */
  type AttemptFn = (nat, Resilience.Targets) -> Progress

  /** The attempts of one request against what the world answers. */
  ghost function AttemptsOf(up: Upstream, requestKey: string, hash: string -> nat, attempts: seq<Attempt>): AttemptFn
    requires Fits(up, attempts)
  {
    (n: nat, states: Resilience.Targets) =>
      if 0 < n <= |attempts| then AttemptOnce(up, states, requestKey, hash, attempts[n - 1], n == |attempts|)
      else Progress(Some(NoTarget), states, [])
  }

  /** The first `n` attempts; an attempt is made only while there is no reply. */
  ghost function Loop(step: AttemptFn, start: Resilience.Targets, n: nat): Progress {
    if n == 0 then Progress(None, start, [])
    else
      var before := Loop(step, start, n - 1);
      if before.reply.Some? then before
      else
        var once := step(n, before.states);
        Progress(once.reply, once.states, before.calls + once.calls)
  }

  /** Lines 334-426. `attempts` holds what the world answers should the attempt be made. */
  method ProxyAttempts(
    up: Upstream, runtime: RuntimeRegistry, m: Method, cfg: RetryConfig, requestKey: string, hash: string -> nat,
    attempts: seq<Attempt>)
    returns (reply: Reply, calls: seq<Call>)
    requires runtime.Valid() && runtime.cfg == up.thresholds
    requires |attempts| == MaxAttempts(m, cfg) && Fits(up, attempts)
    modifies runtime`targets, runtime.targets.Values
    ensures runtime.Valid()
    ensures Progress(Some(reply), runtime.View(), calls)
         == Loop(AttemptsOf(up, requestKey, hash, attempts), old(runtime.View()), |attempts|)
    ensures !reply.RetriesExhausted?
  {
    var maxAttempts := MaxAttempts(m, cfg);
    var lastStatus: Option<nat> := None;
    ghost var step, start := AttemptsOf(up, requestKey, hash, attempts), runtime.View();
    calls := [];
    var attempt := 1;
    while attempt <= maxAttempts
      invariant 1 <= attempt <= maxAttempts
      invariant runtime.Valid()
      invariant forall t | t in runtime.targets.Values :: t in old(runtime.targets.Values) || fresh(t)
      invariant Loop(step, start, attempt - 1) == Progress(None, runtime.View(), calls)
    {
      var input := attempts[attempt - 1];
      ghost var once := step(attempt, runtime.View());
      LastAttemptReplies(up, requestKey, hash, attempts, attempt, runtime.View());
      var r, made := OneAttempt(up, runtime, requestKey, hash, input, attempt == maxAttempts);
      assert Progress(r, runtime.View(), made) == once;
      calls := calls + made;
      if r.Some? {
        LoopStops(step, start, attempt, maxAttempts);
        return r.value, calls;
      }
      if input.result.Response? {
        lastStatus := Some(input.result.status);
      }
      attempt := attempt + 1;
    }
    assert false;
  }

  /** No attempt answers that retries are exhausted, and the last one always answers. */
  lemma {:induction false} LastAttemptReplies(
    up: Upstream, requestKey: string, hash: string -> nat, attempts: seq<Attempt>, n: nat, states: Resilience.Targets)
    requires Fits(up, attempts) && 0 < n <= |attempts|
    ensures var reply := AttemptsOf(up, requestKey, hash, attempts)(n, states).reply;
            && (reply.Some? ==> !reply.value.RetriesExhausted?)
            && (n == |attempts| ==> reply.Some?)
  {
  }

  /** Once there is a reply, nothing more happens. */
  lemma {:induction false} LoopStops(step: AttemptFn, start: Resilience.Targets, n: nat, max: nat)
    requires n <= max && Loop(step, start, n).reply.Some?
    ensures Loop(step, start, max) == Loop(step, start, n)
    decreases max
  {
    if n < max {
      LoopStops(step, start, n, max - 1);
    }
  }

  /** What is recorded and replied once the outcome of the send is known, lines 365-419. */
  method Conclude(runtime: RuntimeRegistry, key: string, result: SendResult, isLast: bool, now: Instant)
    returns (reply: Option<Reply>, record: Call)
    requires runtime.Valid()
    modifies runtime`targets, runtime.targets.Values
    ensures runtime.Valid()
    ensures record
         == if result.TransportError? || 500 <= result.status <= 599
               || (!isLast && (result.status == 429 || result.status >= 600))
            then RecordedFailure(key) else RecordedSuccess(key)
    ensures runtime.View()
         == if record.RecordedFailure? then Failed(runtime.cfg, old(runtime.View()), key, now)
            else Succeeded(runtime.cfg, old(runtime.View()), key)
    ensures reply
         == match result
            case TransportError => if isLast then Some(SendFailed) else None
            case Response(status) => if !isLast && (status == 429 || status >= 500) then None else Some(Forwarded(status))
    ensures forall t | t in runtime.targets.Values :: t in old(runtime.targets.Values) || fresh(t)
  {
    match result {
      case TransportError =>
        runtime.RecordFailure(key, now);
        record := RecordedFailure(key);
        reply := if isLast then Some(SendFailed) else None;
      case Response(status) =>
        if ShouldRetryStatus(status) && !isLast {
          runtime.RecordFailure(key, now);
          return None, RecordedFailure(key);
        }
        if IsServerError(status) {
          runtime.RecordFailure(key, now);
          record := RecordedFailure(key);
        } else {
          runtime.RecordSuccess(key);
          record := RecordedSuccess(key);
        }
        reply := Some(Forwarded(status));
    }
  }

  /** The loop body, lines 337-419. */
  method OneAttempt(
    up: Upstream, runtime: RuntimeRegistry, requestKey: string, hash: string -> nat, input: Attempt, isLast: bool)
    returns (reply: Option<Reply>, calls: seq<Call>)
    requires runtime.Valid() && runtime.cfg == up.thresholds && |input.clock| == |up.targets|
    modifies runtime`targets, runtime.targets.Values
    ensures runtime.Valid()
    ensures Progress(reply, runtime.View(), calls)
         == AttemptOnce(up, old(runtime.View()), requestKey, hash, input, isLast)
    ensures forall t | t in runtime.targets.Values :: t in old(runtime.targets.Values) || fresh(t)
  {
    runtime.Perform(input.before);
    if input.timedOut {
      return Some(TimedOut), [];
    }
    var picked := PickTarget(up, runtime, requestKey, input.requestCount, hash, input.clock);
    if picked.None? {
      return Some(NoTarget), [];
    }
    var key := KeyOf(up, picked.value);
    calls := [Sent(key, input.result)];
    runtime.Perform(input.meanwhile);
    var record;
    reply, record := Conclude(runtime, key, input.result, isLast, input.recordedAt);
    calls := calls + [record];
  }
}
