/**
 What every run of the retry loop does, whatever the network answers and others do: whom it sends to, what it
 records, what it replies and what it leaves in the registry, told from the operations made on the registry.
 */
module GatewayRetry {
  import opened Wrappers
  import opened MachineInts
  import opened Clock
  import opened Balancer
  import opened Resilience
  import Breaker
  import opened Gateway

  // --- Whom a request is sent to ---

  /** The index that a strategy selects from the available targets, told from the weights and connections. */
  ghost predicate Selects(
    strategy: Strategy, available: seq<Target>, requestKey: string, requestCount: nat, hash: string -> nat, i: nat)
  {
    match strategy
    case RoundRobin => Picks(available, requestCount, i)
    case Hash => Picks(available, hash(requestKey), i)
    case LeastConnections =>
      i < |available| && available[i].weight > 0
      && exists k: nat :: AtLevel(available[i], k) && NoneBelow(available, i, k)
  }

  lemma {:induction false} SelectionIff(
    strategy: Strategy, available: seq<Target>, requestKey: string, requestCount: nat, hash: string -> nat, i: nat)
    ensures Selection(strategy, available, Some(requestKey), requestCount, hash) == Some(i)
       <==> Selects(strategy, available, requestKey, requestCount, hash, i)
  {
    match strategy
    case RoundRobin => RoundRobinIff(available, Some(requestKey), requestCount, hash, i);
    case Hash => HashIff(available, Some(requestKey), requestCount, hash, i);
    case LeastConnections => LeastConnectionsIff(available, Some(requestKey), requestCount, hash, i);
  }

  /** `t` is the target to send to; there is none exactly when nothing is selected. */
  ghost predicate IsChoice(
    up: Upstream, available: seq<Target>, requestKey: string, requestCount: nat, hash: string -> nat, t: Option<Target>)
  {
    match t
    case None => forall i: nat :: !Selects(up.strategy, available, requestKey, requestCount, hash, i)
    case Some(target) =>
      exists i: nat ::
        i < |available| && Selects(up.strategy, available, requestKey, requestCount, hash, i) && available[i] == target
  }

  lemma {:induction false} ChosenIff(
    up: Upstream, available: seq<Target>, requestKey: string, requestCount: nat, hash: string -> nat, t: Option<Target>)
    ensures Chosen(up, available, requestKey, requestCount, hash) == t
       <==> IsChoice(up, available, requestKey, requestCount, hash, t)
  {
    forall i: nat
      ensures Selection(up.strategy, available, Some(requestKey), requestCount, hash) == Some(i)
         <==> Selects(up.strategy, available, requestKey, requestCount, hash, i)
    {
      SelectionIff(up.strategy, available, requestKey, requestCount, hash, i);
    }
  }

  // --- A scan told from the operations before it ---

  /** The questions that a scan puts to the first `n` targets. */
  ghost function Questions(up: Upstream, clock: seq<Instant>, n: nat): seq<Operation>
    requires n <= |up.targets| == |clock|
  {
    seq(n, i requires 0 <= i < n => IsAvailable(KeyOf(up, up.targets[i]), clock[i]))
  }

  /** The targets that the registry admits, each asked after the ones before it. */
  ghost function Admissible(up: Upstream, past: seq<Operation>, clock: seq<Instant>, n: nat): seq<Target>
    requires n <= |up.targets| == |clock|
  {
    if n == 0 then []
    else
      var key := KeyOf(up, up.targets[n - 1]);
      Admissible(up, past, clock, n - 1)
      + if Breaker.Admits(up.thresholds, Breaker.EventsOf(past + Questions(up, clock, n - 1), key), clock[n - 1])
        then [up.targets[n - 1]] else []
  }

  lemma {:induction false} PerformedOn(cfg: Thresholds, targets: Targets, a: seq<Operation>, b: seq<Operation>)
    ensures Performed(cfg, targets, a + b) == Performed(cfg, Performed(cfg, targets, a), b)
  {
    if b == [] {
      assert a + b == a;
    } else {
      assert (a + b)[..|a + b| - 1] == a + b[..|b| - 1];
      PerformedOn(cfg, targets, a, b[..|b| - 1]);
    }
  }

  /** One question, told from the operations before it. */
  lemma {:induction false} QuestionIsPerformed(cfg: Thresholds, past: seq<Operation>, key: string, now: Instant)
    ensures Asked(cfg, Performed(cfg, map[], past), key, now) == Performed(cfg, map[], past + [IsAvailable(key, now)])
    ensures Ask(cfg, Lookup(Performed(cfg, map[], past), key), now).available
       <==> Breaker.Admits(cfg, Breaker.EventsOf(past, key), now)
  {
    Breaker.RegistryRefinesHistory(cfg, past, key, now);
    assert (past + [IsAvailable(key, now)])[..|past|] == past;
  }

  lemma {:induction false} NextQuestion(up: Upstream, past: seq<Operation>, clock: seq<Instant>, n: nat)
    requires 0 < n <= |up.targets| == |clock|
    ensures past + Questions(up, clock, n)
         == past + Questions(up, clock, n - 1) + [IsAvailable(KeyOf(up, up.targets[n - 1]), clock[n - 1])]
  {
  }

  lemma {:induction false} NextTarget(up: Upstream, states: Targets, clock: seq<Instant>, n: nat, before: Scan)
    requires 0 < n <= |up.targets| == |clock| && before == Scanned(up, states, clock, n - 1)
    ensures var key := KeyOf(up, up.targets[n - 1]);
            && Scanned(up, states, clock, n).states == Asked(up.thresholds, before.states, key, clock[n - 1])
            && Scanned(up, states, clock, n).available
               == before.available
                  + if Ask(up.thresholds, Lookup(before.states, key), clock[n - 1]).available then [up.targets[n - 1]] else []
  {
    assert before.available + [] == before.available;
  }

  /** A scan leaves the registry as its questions do. */
  lemma {:induction false} ScanIsPerformed(up: Upstream, past: seq<Operation>, clock: seq<Instant>, n: nat)
    requires n <= |up.targets| == |clock|
    ensures Scanned(up, Performed(up.thresholds, map[], past), clock, n).states
         == Performed(up.thresholds, map[], past + Questions(up, clock, n))
    decreases n
  {
    if n == 0 {
      assert past + Questions(up, clock, 0) == past;
    } else {
      var states := Performed(up.thresholds, map[], past);
      ScanIsPerformed(up, past, clock, n - 1);
      NextTarget(up, states, clock, n, Scanned(up, states, clock, n - 1));
      QuestionIsPerformed(up.thresholds, past + Questions(up, clock, n - 1), KeyOf(up, up.targets[n - 1]), clock[n - 1]);
      NextQuestion(up, past, clock, n);
    }
  }

  /** Target `k` of a scan is kept exactly when the registry admits it after the questions before. */
  ghost predicate AnswerMatches(up: Upstream, states: Targets, past: seq<Operation>, clock: seq<Instant>, k: nat)
    requires k < |up.targets| == |clock|
  {
    var key := KeyOf(up, up.targets[k]);
    Ask(up.thresholds, Lookup(Scanned(up, states, clock, k).states, key), clock[k]).available
    <==> Breaker.Admits(up.thresholds, Breaker.EventsOf(past + Questions(up, clock, k), key), clock[k])
  }

  lemma {:induction false} KeepsAdmissible(up: Upstream, states: Targets, past: seq<Operation>, clock: seq<Instant>, n: nat)
    requires n <= |up.targets| == |clock| && forall k: nat | k < n :: AnswerMatches(up, states, past, clock, k)
    ensures Scanned(up, states, clock, n).available == Admissible(up, past, clock, n)
    decreases n
  {
    if n > 0 {
      KeepsAdmissible(up, states, past, clock, n - 1);
      NextTarget(up, states, clock, n, Scanned(up, states, clock, n - 1));
      assert AnswerMatches(up, states, past, clock, n - 1);
    }
  }

  /** A scan keeps the targets that the registry admits, in order, also where ids repeat. */
  lemma {:induction false} ScanFollowsHistory(up: Upstream, past: seq<Operation>, clock: seq<Instant>, n: nat)
    requires n <= |up.targets| == |clock|
    ensures Scanned(up, Performed(up.thresholds, map[], past), clock, n).available == Admissible(up, past, clock, n)
  {
    var states := Performed(up.thresholds, map[], past);
    forall k: nat | k < n
      ensures AnswerMatches(up, states, past, clock, k)
    {
      ScanIsPerformed(up, past, clock, k);
      QuestionIsPerformed(up.thresholds, past + Questions(up, clock, k), KeyOf(up, up.targets[k]), clock[k]);
    }
    KeepsAdmissible(up, states, past, clock, n);
  }

  // --- One attempt ---

  /** One request on the wire and what came back. */
  datatype Exchange = Exchange(key: string, result: SendResult)

  /** A failed send, a 429 and every status from 500 on are worth another attempt. */
  ghost predicate WorthRetrying(result: SendResult) {
    match result
    case TransportError => true
    case Response(status) => status == 429 || status >= 500
  }

  /** A failed send and a status from 500 to 599 are failures, a 429 and higher statuses only while an attempt is left. */
  ghost predicate IsFailure(result: SendResult, attemptsLeft: bool) {
    match result
    case TransportError => true
    case Response(status) => 500 <= status <= 599 || (attemptsLeft && (status == 429 || status >= 600))
  }

  /** What is recorded depends on whether an attempt is left; so does whether the loop goes on. */
  lemma {:induction false} StatusRecords(result: SendResult, isLast: bool)
    ensures CountsAsFailure(result, isLast) <==> IsFailure(result, !isLast)
    ensures Retries(result, isLast) <==> WorthRetrying(result) && !isLast
  {
  }

  /** Everything that is done to the registry from the begin of an attempt to its end. */
  ghost function OperationsOf(up: Upstream, a: Attempt, made: Option<Exchange>, attemptsLeft: bool): seq<Operation>
    requires |a.clock| == |up.targets|
  {
    if a.timedOut then a.before
    else
      match made
      case None => a.before + Questions(up, a.clock, |up.targets|)
      case Some(e) =>
        a.before + Questions(up, a.clock, |up.targets|) + a.meanwhile
        + [if IsFailure(e.result, attemptsLeft) then RecordFailure(e.key, a.recordedAt) else RecordSuccess(e.key)]
  }

  /** Nothing is sent after a timeout or without a choice; otherwise the choice is sent to, and the network's answer comes back. */
  ghost predicate SendsRight(
    up: Upstream, past: seq<Operation>, requestKey: string, hash: string -> nat, a: Attempt, made: Option<Exchange>)
    requires |a.clock| == |up.targets|
  {
    var admissible := Admissible(up, past + a.before, a.clock, |up.targets|);
    match made
    case None => a.timedOut || IsChoice(up, admissible, requestKey, a.requestCount, hash, None)
    case Some(e) =>
      && !a.timedOut && e.result == a.result
      && exists t :: IsChoice(up, admissible, requestKey, a.requestCount, hash, Some(t)) && e.key == KeyOf(up, t)
  }

  /** Each exchange is followed at once by its record, under the key it was sent to. */
  ghost function CallsOf(made: Option<Exchange>, attemptsLeft: bool): seq<Call> {
    match made
    case None => []
    case Some(e) =>
      [Sent(e.key, e.result),
       if IsFailure(e.result, attemptsLeft) then RecordedFailure(e.key) else RecordedSuccess(e.key)]
  }

  ghost function ReplyOf(a: Attempt, made: Option<Exchange>, attemptsLeft: bool): Option<Reply> {
    match made
    case None => Some(if a.timedOut then TimedOut else NoTarget)
    case Some(e) =>
      if WorthRetrying(e.result) && attemptsLeft then None
      else
        match e.result
        case TransportError => Some(SendFailed)
        case Response(status) => Some(Forwarded(status))
  }

  /** The registry after the record of an exchange. */
  lemma {:induction false} RecordIsPerformed(
    cfg: Thresholds, asked: seq<Operation>, meanwhile: seq<Operation>, e: Exchange, attemptsLeft: bool, now: Instant)
    ensures var left := Performed(cfg, Performed(cfg, map[], asked), meanwhile);
            var record := if IsFailure(e.result, attemptsLeft) then RecordFailure(e.key, now) else RecordSuccess(e.key);
            Performed(cfg, map[], asked + meanwhile + [record])
            == if IsFailure(e.result, attemptsLeft) then Failed(cfg, left, e.key, now) else Succeeded(cfg, left, e.key)
  {
    PerformedOn(cfg, map[], asked, meanwhile);
    var before := asked + meanwhile;
    var record := if IsFailure(e.result, attemptsLeft) then RecordFailure(e.key, now) else RecordSuccess(e.key);
    assert (before + [record])[..|before|] == before;
  }

  /** What the scan of an attempt leads to, told from the operations on the registry before it. */
  lemma {:induction false} ChoiceIsTold(
    up: Upstream, past: seq<Operation>, requestKey: string, hash: string -> nat, a: Attempt) returns (chosen: Option<Target>)
    requires |a.clock| == |up.targets|
    ensures var scan := Scanned(up, Performed(up.thresholds, Performed(up.thresholds, map[], past), a.before), a.clock, |up.targets|);
            && scan.states == Performed(up.thresholds, map[], past + a.before + Questions(up, a.clock, |up.targets|))
            && chosen == Chosen(up, scan.available, requestKey, a.requestCount, hash)
    ensures !a.timedOut ==> SendsRight(up, past, requestKey, hash, a, MadeBy(up, a, chosen))
  {
    PerformedOn(up.thresholds, map[], past, a.before);
    ScanIsPerformed(up, past + a.before, a.clock, |up.targets|);
    ScanFollowsHistory(up, past + a.before, a.clock, |up.targets|);
    var admissible := Admissible(up, past + a.before, a.clock, |up.targets|);
    chosen := Chosen(up, admissible, requestKey, a.requestCount, hash);
    ChosenIff(up, admissible, requestKey, a.requestCount, hash, chosen);
  }

  /** The exchange with the chosen target. */
  ghost function MadeBy(up: Upstream, a: Attempt, chosen: Option<Target>): Option<Exchange> {
    match chosen
    case None => None
    case Some(t) => Some(Exchange(KeyOf(up, t), a.result))
  }

  /** What an attempt that is not timed out does once its target is chosen. */
  lemma {:induction false} AttemptUnfolds(
    up: Upstream, states: Targets, requestKey: string, hash: string -> nat, a: Attempt, isLast: bool, scan: Scan)
    requires |a.clock| == |up.targets| && !a.timedOut
    requires scan == Scanned(up, Performed(up.thresholds, states, a.before), a.clock, |up.targets|)
    ensures var made := MadeBy(up, a, Chosen(up, scan.available, requestKey, a.requestCount, hash));
            AttemptOnce(up, states, requestKey, hash, a, isLast)
            == Progress(
                 ReplyOf(a, made, !isLast),
                 (match made
                  case None => scan.states
                  case Some(e) =>
                    var left := Performed(up.thresholds, scan.states, a.meanwhile);
                    if IsFailure(e.result, !isLast) then Failed(up.thresholds, left, e.key, a.recordedAt)
                    else Succeeded(up.thresholds, left, e.key)),
                 CallsOf(made, !isLast))
  {
    StatusRecords(a.result, isLast);
  }

  lemma {:induction false} OperationsEnd(
    up: Upstream, past: seq<Operation>, a: Attempt, made: Option<Exchange>, attemptsLeft: bool)
    requires |a.clock| == |up.targets| && !a.timedOut
    ensures var asked := past + a.before + Questions(up, a.clock, |up.targets|);
            past + OperationsOf(up, a, made, attemptsLeft)
            == match made
               case None => asked
               case Some(e) =>
                 asked + a.meanwhile
                 + [if IsFailure(e.result, attemptsLeft) then RecordFailure(e.key, a.recordedAt) else RecordSuccess(e.key)]
  {
  }

  /** The registry once the exchange, if any, is recorded. */
  lemma {:induction false} AttemptIsPerformed(
    up: Upstream, past: seq<Operation>, a: Attempt, made: Option<Exchange>, attemptsLeft: bool)
    requires |a.clock| == |up.targets| && !a.timedOut
    ensures var asked := Performed(up.thresholds, map[], past + a.before + Questions(up, a.clock, |up.targets|));
            Performed(up.thresholds, map[], past + OperationsOf(up, a, made, attemptsLeft))
            == match made
               case None => asked
               case Some(e) =>
                 var left := Performed(up.thresholds, asked, a.meanwhile);
                 if IsFailure(e.result, attemptsLeft) then Failed(up.thresholds, left, e.key, a.recordedAt)
                 else Succeeded(up.thresholds, left, e.key)
  {
    OperationsEnd(up, past, a, made, attemptsLeft);
    if made.Some? {
      var asked := past + a.before + Questions(up, a.clock, |up.targets|);
      RecordIsPerformed(up.thresholds, asked, a.meanwhile, made.value, attemptsLeft, a.recordedAt);
    }
  }

  /** One attempt, told from the operations on the registry before it. */
  lemma {:induction false} AttemptIsTold(
    up: Upstream, past: seq<Operation>, requestKey: string, hash: string -> nat, a: Attempt, isLast: bool)
    returns (made: Option<Exchange>)
    requires |a.clock| == |up.targets|
    ensures SendsRight(up, past, requestKey, hash, a, made)
    ensures AttemptOnce(up, Performed(up.thresholds, map[], past), requestKey, hash, a, isLast)
         == Progress(ReplyOf(a, made, !isLast),
                     Performed(up.thresholds, map[], past + OperationsOf(up, a, made, !isLast)),
                     CallsOf(made, !isLast))
  {
    var states := Performed(up.thresholds, map[], past);
    if a.timedOut {
      made := None;
      PerformedOn(up.thresholds, map[], past, a.before);
    } else {
      var chosen := ChoiceIsTold(up, past, requestKey, hash, a);
      made := MadeBy(up, a, chosen);
      AttemptUnfolds(up, states, requestKey, hash, a, isLast,
                     Scanned(up, Performed(up.thresholds, states, a.before), a.clock, |up.targets|));
      AttemptIsPerformed(up, past, a, made, !isLast);
    }
  }

  // --- The loop ---

  /** What the first `n` attempts do to the registry. */
  ghost function AllOperations(up: Upstream, attempts: seq<Attempt>, made: seq<Option<Exchange>>, n: nat): seq<Operation>
    requires Fits(up, attempts) && n <= |made| <= |attempts|
  {
    if n == 0 then []
    else
      AllOperations(up, attempts, made, n - 1) + OperationsOf(up, attempts[n - 1], made[n - 1], n < |attempts|)
  }

  ghost function AllCalls(made: seq<Option<Exchange>>, max: nat, n: nat): seq<Call>
    requires n <= |made|
  {
    if n == 0 then [] else AllCalls(made, max, n - 1) + CallsOf(made[n - 1], n < max)
  }

  /** Attempt `k` sends right, given all that was done to the registry before it. */
  ghost predicate SendsRightAt(
    up: Upstream, past: seq<Operation>, requestKey: string, hash: string -> nat, attempts: seq<Attempt>,
    made: seq<Option<Exchange>>, k: nat)
    requires Fits(up, attempts) && k < |made| <= |attempts|
  {
    SendsRight(up, past + AllOperations(up, attempts, made, k), requestKey, hash, attempts[k], made[k])
  }

  ghost predicate AllSendRight(
    up: Upstream, past: seq<Operation>, requestKey: string, hash: string -> nat, attempts: seq<Attempt>,
    made: seq<Option<Exchange>>)
    requires Fits(up, attempts) && |made| <= |attempts|
  {
    forall k | 0 <= k < |made| :: SendsRightAt(up, past, requestKey, hash, attempts, made, k)
  }

  /** Every attempt before the last one that was made calls for another. */
  ghost predicate GoesOn(attempts: seq<Attempt>, made: seq<Option<Exchange>>)
    requires |made| <= |attempts|
  {
    forall k | 0 <= k < |made| - 1 :: ReplyOf(attempts[k], made[k], true).None?
  }

  /** What some attempts come to: a reply if there is one yet, and all operations and calls in order. */
  datatype Tale = Tale(reply: Option<Reply>, operations: seq<Operation>, calls: seq<Call>)

  ghost function Told(up: Upstream, attempts: seq<Attempt>, made: seq<Option<Exchange>>): Tale
    requires Fits(up, attempts) && |made| <= |attempts|
  {
    var m := |made|;
    Tale(if m == 0 then None else ReplyOf(attempts[m - 1], made[m - 1], m < |attempts|),
         AllOperations(up, attempts, made, m),
         AllCalls(made, |attempts|, m))
  }

  /** How operations leave the registry. */
  type LeaveFn = seq<Operation> -> Targets

  ghost function Leave(up: Upstream): LeaveFn {
    (operations: seq<Operation>) => Performed(up.thresholds, map[], operations)
  }

  /** The registry is left as the operations of the tale leave it after all that was done before. */
  ghost function After(leave: LeaveFn, past: seq<Operation>, tale: Tale): Progress {
    Progress(tale.reply, leave(past + tale.operations), tale.calls)
  }

  /** `made` is what the first `n` attempts do; an attempt is made only while there is no reply. */
  ghost predicate Tells(
    up: Upstream, past: seq<Operation>, requestKey: string, hash: string -> nat, attempts: seq<Attempt>,
    made: seq<Option<Exchange>>, n: nat)
    requires Fits(up, attempts) && n <= |attempts|
  {
    && |made| <= n && (|made| > 0 || n == 0)
    && AllSendRight(up, past, requestKey, hash, attempts, made) && GoesOn(attempts, made)
    && (Told(up, attempts, made).reply.None? ==> |made| == n)
  }

  lemma {:induction false} SamePrefix(
    up: Upstream, attempts: seq<Attempt>, made: seq<Option<Exchange>>, last: Option<Exchange>, n: nat)
    requires Fits(up, attempts) && n <= |made| < |attempts|
    ensures AllOperations(up, attempts, made + [last], n) == AllOperations(up, attempts, made, n)
    ensures AllCalls(made + [last], |attempts|, n) == AllCalls(made, |attempts|, n)
  {
    if n > 0 {
      SamePrefix(up, attempts, made, last, n - 1);
    }
  }

  lemma {:induction false} StillSendsRight(
    up: Upstream, past: seq<Operation>, requestKey: string, hash: string -> nat, attempts: seq<Attempt>,
    made: seq<Option<Exchange>>, last: Option<Exchange>, k: nat)
    requires Fits(up, attempts) && k < |made| < |attempts|
    requires SendsRightAt(up, past, requestKey, hash, attempts, made, k)
    ensures SendsRightAt(up, past, requestKey, hash, attempts, made + [last], k)
  {
    SamePrefix(up, attempts, made, last, k);
    assert (made + [last])[k] == made[k];
  }

  lemma {:induction false} OneMoreSendsRight(
    up: Upstream, past: seq<Operation>, requestKey: string, hash: string -> nat, attempts: seq<Attempt>,
    made: seq<Option<Exchange>>, last: Option<Exchange>)
    requires Fits(up, attempts) && |made| < |attempts|
    requires AllSendRight(up, past, requestKey, hash, attempts, made)
    requires SendsRight(up, past + AllOperations(up, attempts, made, |made|), requestKey, hash, attempts[|made|], last)
    ensures AllSendRight(up, past, requestKey, hash, attempts, made + [last])
  {
    assert SendsRightAt(up, past, requestKey, hash, attempts, made + [last], |made|) by {
      SamePrefix(up, attempts, made, last, |made|);
    }
    forall k | 0 <= k < |made|
      ensures SendsRightAt(up, past, requestKey, hash, attempts, made + [last], k)
    {
      StillSendsRight(up, past, requestKey, hash, attempts, made, last, k);
    }
  }

  lemma {:induction false} GoesOnMore(attempts: seq<Attempt>, made: seq<Option<Exchange>>, last: Option<Exchange>)
    requires |made| < |attempts| && GoesOn(attempts, made)
    requires made != [] ==> ReplyOf(attempts[|made| - 1], made[|made| - 1], true).None?
    ensures GoesOn(attempts, made + [last])
  {
    forall k | 0 <= k < |made|
      ensures ReplyOf(attempts[k], (made + [last])[k], true).None?
    {
      assert (made + [last])[k] == made[k];
    }
  }

  /** One more attempt after those told by `made`. */
  lemma {:induction false} ToldMore(up: Upstream, attempts: seq<Attempt>, made: seq<Option<Exchange>>, last: Option<Exchange>)
    requires Fits(up, attempts) && |made| < |attempts|
    ensures var left, a, before := |made| + 1 < |attempts|, attempts[|made|], Told(up, attempts, made);
            Told(up, attempts, made + [last])
            == Tale(ReplyOf(a, last, left), before.operations + OperationsOf(up, a, last, left),
                    before.calls + CallsOf(last, left))
  {
    SamePrefix(up, attempts, made, last, |made|);
    assert (made + [last])[|made|] == last;
  }

  lemma {:induction false} TellsMore(
    up: Upstream, past: seq<Operation>, requestKey: string, hash: string -> nat, attempts: seq<Attempt>,
    made: seq<Option<Exchange>>, last: Option<Exchange>)
    requires Fits(up, attempts) && |made| < |attempts|
    requires Tells(up, past, requestKey, hash, attempts, made, |made|) && Told(up, attempts, made).reply.None?
    requires SendsRight(up, past + AllOperations(up, attempts, made, |made|), requestKey, hash, attempts[|made|], last)
    ensures Tells(up, past, requestKey, hash, attempts, made + [last], |made| + 1)
  {
    OneMoreSendsRight(up, past, requestKey, hash, attempts, made, last);
    GoesOnMore(attempts, made, last);
  }

  /** Attempt `n` is told by `made`. */
  ghost predicate OneTold(
    up: Upstream, leave: LeaveFn, past: seq<Operation>, requestKey: string, hash: string -> nat, attempts: seq<Attempt>,
    n: nat, once: Progress, made: Option<Exchange>)
    requires Fits(up, attempts) && 0 < n <= |attempts|
  {
    var a := attempts[n - 1];
    && SendsRight(up, past, requestKey, hash, a, made)
    && once == Progress(ReplyOf(a, made, n < |attempts|), leave(past + OperationsOf(up, a, made, n < |attempts|)),
                        CallsOf(made, n < |attempts|))
  }

  ghost predicate CanBeTold(
    up: Upstream, leave: LeaveFn, past: seq<Operation>, requestKey: string, hash: string -> nat, attempts: seq<Attempt>,
    n: nat, once: Progress)
    requires Fits(up, attempts) && 0 < n <= |attempts|
  {
    exists made :: OneTold(up, leave, past, requestKey, hash, attempts, n, once, made)
  }

  /** Whatever was done before, every attempt can be told. */
  ghost predicate AllTold(
    up: Upstream, leave: LeaveFn, requestKey: string, hash: string -> nat, attempts: seq<Attempt>, step: AttemptFn)
    requires Fits(up, attempts)
  {
    forall n: nat, past: seq<Operation>
      {:trigger CanBeTold(up, leave, past, requestKey, hash, attempts, n, step(n, leave(past)))} | 0 < n <= |attempts| ::
      CanBeTold(up, leave, past, requestKey, hash, attempts, n, step(n, leave(past)))
  }

  lemma {:induction false} AttemptsAreTold(up: Upstream, requestKey: string, hash: string -> nat, attempts: seq<Attempt>)
    requires Fits(up, attempts)
    ensures AllTold(up, Leave(up), requestKey, hash, attempts, AttemptsOf(up, requestKey, hash, attempts))
  {
    var leave, step := Leave(up), AttemptsOf(up, requestKey, hash, attempts);
    forall n: nat, past: seq<Operation> | 0 < n <= |attempts|
      ensures CanBeTold(up, leave, past, requestKey, hash, attempts, n, step(n, leave(past)))
    {
      var made := AttemptIsTold(up, past, requestKey, hash, attempts[n - 1], n == |attempts|);
      assert OneTold(up, leave, past, requestKey, hash, attempts, n, step(n, leave(past)), made);
    }
  }

  /** The attempt after those told by `made` completes what they left. */
  lemma {:induction false} AfterMore(
    up: Upstream, leave: LeaveFn, past: seq<Operation>, requestKey: string, hash: string -> nat, attempts: seq<Attempt>,
    made: seq<Option<Exchange>>, once: Progress, last: Option<Exchange>)
    requires Fits(up, attempts) && |made| < |attempts|
    requires OneTold(up, leave, past + Told(up, attempts, made).operations, requestKey, hash, attempts, |made| + 1, once, last)
    ensures Progress(once.reply, once.states, Told(up, attempts, made).calls + once.calls)
         == After(leave, past, Told(up, attempts, made + [last]))
  {
    ToldMore(up, attempts, made, last);
    var own := OperationsOf(up, attempts[|made|], last, |made| + 1 < |attempts|);
    assert past + Told(up, attempts, made).operations + own == past + (Told(up, attempts, made).operations + own);
  }

  lemma {:induction false} OneMoreLogged(
    up: Upstream, leave: LeaveFn, past: seq<Operation>, requestKey: string, hash: string -> nat, attempts: seq<Attempt>,
    made: seq<Option<Exchange>>, once: Progress)
    returns (more: seq<Option<Exchange>>)
    requires Fits(up, attempts) && |made| < |attempts|
    requires Tells(up, past, requestKey, hash, attempts, made, |made|) && Told(up, attempts, made).reply.None?
    requires CanBeTold(up, leave, past + Told(up, attempts, made).operations, requestKey, hash, attempts, |made| + 1, once)
    ensures Tells(up, past, requestKey, hash, attempts, more, |made| + 1)
    ensures Progress(once.reply, once.states, Told(up, attempts, made).calls + once.calls)
         == After(leave, past, Told(up, attempts, more))
  {
    var found := past + Told(up, attempts, made).operations;
    var last :| OneTold(up, leave, found, requestKey, hash, attempts, |made| + 1, once, last);
    more := made + [last];
    AfterMore(up, leave, past, requestKey, hash, attempts, made, once, last);
    TellsMore(up, past, requestKey, hash, attempts, made, last);
  }

  /** `made` tells what the loop does in its first `n` attempts. */
  ghost predicate Logs(
    up: Upstream, leave: LeaveFn, step: AttemptFn, past: seq<Operation>, requestKey: string, hash: string -> nat,
    attempts: seq<Attempt>, made: seq<Option<Exchange>>, n: nat)
    requires Fits(up, attempts) && n <= |attempts|
  {
    && Tells(up, past, requestKey, hash, attempts, made, n)
    && Loop(step, leave(past), n) == After(leave, past, Told(up, attempts, made))
  }

  lemma {:induction false} LogsMore(
    up: Upstream, leave: LeaveFn, step: AttemptFn, past: seq<Operation>, requestKey: string, hash: string -> nat,
    attempts: seq<Attempt>, made: seq<Option<Exchange>>, found: Targets)
    returns (more: seq<Option<Exchange>>)
    requires Fits(up, attempts) && |made| < |attempts| && AllTold(up, leave, requestKey, hash, attempts, step)
    requires Logs(up, leave, step, past, requestKey, hash, attempts, made, |made|)
    requires Told(up, attempts, made).reply.None? && found == leave(past + Told(up, attempts, made).operations)
    ensures Logs(up, leave, step, past, requestKey, hash, attempts, more, |made| + 1)
  {
    var n := |made| + 1;
    var once := step(n, found);
    assert Loop(step, leave(past), n) == Progress(once.reply, once.states, Told(up, attempts, made).calls + once.calls);
    assert CanBeTold(up, leave, past + Told(up, attempts, made).operations, requestKey, hash, attempts, n, once);
    more := OneMoreLogged(up, leave, past, requestKey, hash, attempts, made, once);
  }

  lemma {:induction false} LogsNothing(
    up: Upstream, leave: LeaveFn, step: AttemptFn, past: seq<Operation>, requestKey: string, hash: string -> nat,
    attempts: seq<Attempt>)
    requires Fits(up, attempts)
    ensures Logs(up, leave, step, past, requestKey, hash, attempts, [], 0)
  {
    assert past + [] == past;
  }

  /** Once there is a reply, no further attempt is made. */
  lemma {:induction false} LogsStill(
    up: Upstream, leave: LeaveFn, step: AttemptFn, past: seq<Operation>, requestKey: string, hash: string -> nat,
    attempts: seq<Attempt>, made: seq<Option<Exchange>>, n: nat)
    requires Fits(up, attempts) && n < |attempts|
    requires Logs(up, leave, step, past, requestKey, hash, attempts, made, n) && Told(up, attempts, made).reply.Some?
    ensures Logs(up, leave, step, past, requestKey, hash, attempts, made, n + 1)
  {
  }

  /** The first `n` attempts of every run. */
  lemma {:induction false} LoopLog(
    up: Upstream, leave: LeaveFn, step: AttemptFn, past: seq<Operation>, requestKey: string, hash: string -> nat,
    attempts: seq<Attempt>, n: nat)
    returns (made: seq<Option<Exchange>>)
    requires Fits(up, attempts) && n <= |attempts| && AllTold(up, leave, requestKey, hash, attempts, step)
    ensures Logs(up, leave, step, past, requestKey, hash, attempts, made, n)
    decreases n
  {
    if n == 0 {
      made := [];
      LogsNothing(up, leave, step, past, requestKey, hash, attempts);
    } else {
      made := LoopLog(up, leave, step, past, requestKey, hash, attempts, n - 1);
      var tale := Told(up, attempts, made);
      if tale.reply.Some? {
        LogsStill(up, leave, step, past, requestKey, hash, attempts, made, n - 1);
      } else {
        made := LogsMore(up, leave, step, past, requestKey, hash, attempts, made, leave(past + tale.operations));
      }
    }
  }

  // --- Limits ---

  /** The idempotent methods of section 9.2.2 of RFC 9110. */
  ghost predicate Idempotent(m: Method) {
    m in {GET, HEAD, OPTIONS, TRACE, PUT, DELETE}
  }

  /** The safe methods of section 9.2.1 of RFC 9110. */
  ghost predicate Safe(m: Method) {
    m in {GET, HEAD, OPTIONS, TRACE}
  }

  /** The attempts a request has: as many as configured for a method that may be retried, and one for all others. */
  lemma {:induction false} AttemptsAllowed(m: Method, cfg: RetryConfig)
    ensures MaxAttempts(m, cfg)
         == if cfg.maxAttempts > 1 && (!cfg.idempotentOnly || Safe(m) || (cfg.retryUnsafeMethods && Idempotent(m)))
            then cfg.maxAttempts else 1
  {
  }

  /**
   A run of the loop from any registry, with any answers of the network: it ends with a reply, and one list of
   exchanges tells whom it sent to, what it recorded, what it replied and what it left behind. With `idempotent_only`
   only idempotent methods are sent twice, and only safe ones unless `retry_unsafe_methods` is set.
   */
  lemma {:induction false} RetryLimits(
    up: Upstream, past: seq<Operation>, m: Method, cfg: RetryConfig, requestKey: string, hash: string -> nat,
    attempts: seq<Attempt>)
    returns (made: seq<Option<Exchange>>)
    requires |attempts| == MaxAttempts(m, cfg) && Fits(up, attempts)
    ensures Tells(up, past, requestKey, hash, attempts, made, |attempts|)
    ensures Loop(AttemptsOf(up, requestKey, hash, attempts), Performed(up.thresholds, map[], past), |attempts|)
         == After(Leave(up), past, Told(up, attempts, made))
    ensures Told(up, attempts, made).reply.Some?
    ensures 1 <= |made| <= (if cfg.maxAttempts < 1 then 1 else cfg.maxAttempts)
    ensures |made| > 1 && cfg.idempotentOnly ==> Idempotent(m)
    ensures |made| > 1 && cfg.idempotentOnly && !cfg.retryUnsafeMethods ==> Safe(m)
  {
    AttemptsAreTold(up, requestKey, hash, attempts);
    made := LoopLog(up, Leave(up), AttemptsOf(up, requestKey, hash, attempts), past, requestKey, hash, attempts, |attempts|);
    AttemptsAllowed(m, cfg);
  }

  // --- Records follow sends ---

  /** The call at `i`, if it is a send, is followed at once by the record that its result asks for. */
  ghost predicate RecordFollows(calls: seq<Call>, i: nat, max: nat)
    requires i < |calls|
  {
    calls[i].Sent? ==>
      && i + 1 < |calls|
      && calls[i + 1]
         == match calls[i].result
            case TransportError => RecordedFailure(calls[i].key)
            case Response(status) =>
              if 500 <= status <= 599 || (i / 2 + 1 < max && (status == 429 || status >= 600))
              then RecordedFailure(calls[i].key) else RecordedSuccess(calls[i].key)
  }

  lemma {:induction false} CallsFollow(attempts: seq<Attempt>, made: seq<Option<Exchange>>, n: nat)
    requires n <= |made| <= |attempts| && GoesOn(attempts, made)
    ensures var calls := AllCalls(made, |attempts|, n);
            && |calls| == (if n > 0 && made[n - 1].None? then 2 * (n - 1) else 2 * n)
            && forall i: nat | i < |calls| :: RecordFollows(calls, i, |attempts|)
  {
    if n > 0 {
      CallsFollow(attempts, made, n - 1);
      var before, own := AllCalls(made, |attempts|, n - 1), CallsOf(made[n - 1], n < |attempts|);
      assert n > 1 ==> ReplyOf(attempts[n - 2], made[n - 2], true).None?;
      forall i: nat | i < |before + own|
        ensures RecordFollows(before + own, i, |attempts|)
      {
        if i < |before| {
          assert RecordFollows(before, i, |attempts|);
        }
      }
    }
  }

  /**
   In every run each send is followed at once by its record: a failure for a send that failed, and for a response
   exactly when its status lies in 500 to 599, or an attempt is left and it is 429 or at least 600.
   */
  lemma {:induction false} RecordsFollowSends(
    up: Upstream, past: seq<Operation>, requestKey: string, hash: string -> nat, attempts: seq<Attempt>, i: nat)
    requires Fits(up, attempts)
    requires i < |Loop(AttemptsOf(up, requestKey, hash, attempts), Performed(up.thresholds, map[], past), |attempts|).calls|
    ensures RecordFollows(Loop(AttemptsOf(up, requestKey, hash, attempts), Performed(up.thresholds, map[], past), |attempts|).calls,
                          i, |attempts|)
  {
    AttemptsAreTold(up, requestKey, hash, attempts);
    var made := LoopLog(up, Leave(up), AttemptsOf(up, requestKey, hash, attempts), past, requestKey, hash, attempts, |attempts|);
    CallsFollow(attempts, made, |made|);
  }
}
