# Gateway core: a verified model

This project models the decision logic of the Rust gateway in `gateway-core-rust` and one
parser/printer pair of the proxy-wasm test fixtures, and proves what that logic does over whole runs:
every sequence of requests, every interleaving of handlers, every configuration, every way to fail.
`dafny verify dfyconfig.toml` checks everything.

Code that works by changing fields in place (`RateLimiter`, `RuntimeRegistry`, the retry loop, the cursor
walk, the plugin manager) is modelled by classes and methods with the same branches, each proved against
a specification function on values. The results are lemmas about these functions.

## What is proved

**Rate limiter** (`RateLimit*.dfy`, `History.dfy`). The limiter keeps a refilled token count, a window
counter or a pruned deque for each key. A reference limiter keeps nothing but the list of all accept times
of the key. `LimiterRefinesHistory` shows that both answer every request of every run alike, for all three
policies and quotas, unless rules of one scope disagree about what must be kept; pairwise distinct scopes are
enough. `AnswersFollowConfiguration` says the same from the fields of the configuration as they are written and the
accepted requests of the same caller: which limit, window, refill, policy and quota apply, with scoped limits,
without them, and where the limiter is disabled. The interval bounds follow from the reference, and each is reached by some run: `limit` for sliding
windows, `2 * limit - 1` for fixed windows, the whole tokens of `limit` plus refill for token buckets.
Rules of one scope share a key, and only the last one's content is kept: `EqualScopesLoseTheFirstRule` is a
two-request example. For rules without quotas and with limits of two or more, a reordering leaves every state as
it was exactly when the last rules of each scope keep alike (`SameRunsIff`). The
bucket used without scoped limits stores its refill on rejection and the staged bucket does not; they are
indistinguishable on all runs exactly when the capacity is zero or the two refill rates are equal
(`LegacyEqualsStagedIff`).

*Late clock readings* (`RateLimitSkew.dfy`, `RateLimitLate*.dfy`). Readings are taken before the lock and can arrive
late, by up to some skew. The bounds of sliding and fixed windows survive exactly when the limit is at most one or no
reading is late (`WindowHoldsIff`, `CeilingHoldsIff`). A sliding window keeps its limit on intervals that are
shorter by the skew, and on no longer ones. A staged bucket keeps a bound on the accepts of an interval exactly when
it holds at most one token or a skew refills less than two tokens (`StaysBoundedIff`). The legacy
bucket keeps none as soon as any reading is late, unless it never refills or never holds a token
(`LegacyStaysBoundedIff`).

**Balancer** (`Balancer*.dfy`). The cursor walk never underflows and never falls out of its loop. Round robin goes by
the request count alone, hashing by the hash of the key alone, least connections by connections per weight. Over
any run of request counts that does not cross a multiple of 2^32 round robin selects a target `n / total` times its
weight, rounded down or up. Across multiples of 2^32 exactness on every period holds exactly when the total divides 2^32 or one
target has all the weight.

**Circuit breaker and health** (`Resilience.dfy`, `Breaker.dfy`). A target that keeps two counters and a circuit
answers every question as a reference does that remembers nothing but the list of recorded outcomes, checks and
questions (`BreakerRefinesHistory`), and a registry answers for each key by the operations made on that key
(`RegistryRefinesHistory`). Counters, circuit and passive ejection are told from the recorded outcomes. A closed circuit with an ejected target, which only a recorded
success can heal, is unreachable exactly when the breaker trips no later than ejection and one success heals.
The default thresholds (3 for ejection, 5 for the breaker) do not meet this condition. The call that moves an
open circuit to half-open admits a request without spending a probe, so between two records at most
`half_open_max_requests + 1` requests get through; `ProbesExact` shows that this many do.

**Concurrent handlers** (`GatewayInterleaving.dfy`, `GatewayProbes.dfy`, `GatewaySteering.dfy`,
`GatewayTraffic.dfy`, `GatewayShutting.dfy`, `GatewayLosses.dfy`, `GatewayConditions.dfy`, `GatewayHistory.dfy`). Handlers
ask the targets one by one, choose, send, and record, interleaved in any way with each other, active checks and
the clock. Everything is told from the events alone (`SystemRefinesHistory`): what each handler was granted, by the
own history of each target, what it chooses from that by its own request count and key, and the state of each
target, which is that of a breaker on its own (`KeyIsABreaker`), so all that is proved of the breaker holds here. Every available target is asked but only one is sent to, so half-open targets that
are passed over lose probes. Where every send is recorded, two exact conditions hold for every strategy:

- A half-open target always has an outcome on the way exactly when nobody who was granted a weighted target can
  choose something else: the weighted targets all have one id, no target without weight has it, and, except for
  least connections, no selection of weights adds up to a multiple of 2^32 (`AlwaysAwaitedIff`).
- No target is ever lost for good exactly when, besides, the breaker covers passive ejection or there is no
  weighted target at all (`NeverLostIff`). A lost target never comes back (`LostForever`).

Both are exact with active checks enabled, and without them, as by default, wherever somebody is always chosen
(least connections, or weights of which no selection wraps): the losing runs then consist of requests alone.
Without active checks and with weights that add up to a multiple of 2^32 nothing is ever sent and nothing is
lost (`WrappedIsIdle`). With distinct ids the first condition says that at most one target has weight. Two
targets of one id, which `validate` accepts, break it as soon as one of them has no weight (`RepeatedIdIsLost`).
With the default thresholds every upstream with a weighted target can lose one (`DefaultsCanLose`). If clients
may disconnect while they wait, nothing is recorded for them, and a target can be lost as soon as one has
weight (`NeverLostByClientsIff`).

**Retry loop** (`Gateway.dfy`, `GatewayRetry.dfy`). The loop always replies from inside: the answer after the
loop (`main.rs` lines 422-425) is dead code, and `last_status` is written but never read. One list of exchanges tells
a whole run (`RetryLimits`): whom each attempt sends to, given all that was done to the registry before, what is
recorded, what is replied, and the registry that is left behind. Each send is followed
by exactly one record on the target it went to (`RecordsFollowSends`). A 429 or a status from 600 on counts as a failure when it is
retried and as a success when it is forwarded (`StatusRecords`). Other handlers and the active checks may use the
registry between the attempts and while a response is awaited.

**Plugins, drain, routing, test configuration.** Teardowns match initialisations over all error
paths, and the first failure is the one reported; after a shutdown nobody who arrives gets a guard; in-flight work can still grow exactly while the gateway is not draining or some handler has passed the
check of the flag without its guard; every upstream chosen under an accepted configuration exists, although
`validate` accepts two upstreams of one name, and requests then go to the first one's targets under the second one's
thresholds; printing and parsing a test configuration gives it back exactly when keys and values are free of
white space and keys are free of `=`.

## Assumptions

- Clock readings are arguments. The limiter reads its clock before it takes its lock
  (`rate_limit.rs` lines 135-136), so readings need not arrive in order; results that need nondecreasing
  readings in lock order say `Nondecreasing`. Order independence, quotas and totals do not need it, and
  `RateLimitSkew.dfy` and `RateLimitLate*.dfy` say what remains without it.
- Active checks, where they are enabled, may set the health of any target at any time.
- A handler that waits records its outcome in the end, unless its client disconnects, which drops it; the results
  that need every send recorded say `Recorded`.
- Target ids may repeat within an upstream; such targets share one state. The results that need distinct ids
  (`ScanIsFair`, `DistinctIdsAreSafeIff`, `DistinctIdsNeverLostIff`) say so. Fairness of the
  balancer is stated for a total weight from 1 to 2^32 - 1 (`Summable`).
- Tokens and durations are exact reals; the source uses `f64` for tokens.
- Each call that holds a lock, and each atomic access, is one step.
- The hash of the standard library is an arbitrary function.
- The weight sum wraps at 2^32, as in a release build; a debug build would panic there.
- `limit`, `capacity`, window lengths, totals and the request counter are unbounded naturals. The seed of the
  balancer is cut to 32 bits as in the source, and the breaker's counters saturate at 2^32 - 1.

## Model

| member | source | states |
|---|---|---|
| RateLimitAnswers.AnswersFollowConfiguration | gateway-core-rust/src/rate_limit.rs:130-309 | On every run with nondecreasing clock a request passes if and only if the limiter is disabled, or, without scoped limits, the accepts of the same client leave room for one more of `capacity` under the default policy, with `refill_per_second`, `fixed_window_seconds` or `sliding_window_seconds`, or each scoped limit leaves room by its own quota, limit and window under its own or else the default policy. Asked of scoped limits: pairwise distinct scopes, or what `LimiterRefinesHistory` asks. |
| RateLimitAnswers.UnscopedAnswers | gateway-core-rust/src/rate_limit.rs:144-148 | Without scoped limits: a token bucket of `capacity` that refills by `refill_per_second`, or a fixed or sliding window of `capacity` and the configured seconds, zero counting as one, over the accepts of the client. |
| RateLimitAnswers.DisabledPasses | gateway-core-rust/src/rate_limit.rs:131-133 | A disabled limiter passes every request of every run and stores nothing. |
| RateLimitAnswers.DefaultPolicyIsImplied | gateway-core-rust/src/rate_limit.rs:164 | Writing the default policy into the limits that name none changes no answer and no stored content. |
| RateLimitRuns.LimiterRefinesHistory | gateway-core-rust/src/rate_limit.rs:130-178 | On every run with nondecreasing clock, a request passes if and only if, for each rule, the accept times of its key are fewer than the quota and the policy, judged on these times alone, allows one more. Asked of rules that share a scope: each agrees with the last of them in policy and window, and in the limit for token buckets, or both are sliding windows and the last one is no shorter. |
| RateLimitRuns.RunReplays | gateway-core-rust/src/rate_limit.rs:150-177 | In every reachable state the content stored for a key is what replaying that key's accepts alone would give: rejected requests and requests of other keys leave no trace, and all accepts were lawful for every rule that keeps like the last of its scope. |
| RateLimitRuns.DistinctScopesKeepState | gateway-core-rust/src/rate_limit.rs:153-175 | With pairwise distinct scopes every rule finds its own content again. |
| RateLimitRuns.AlikeVerdicts | gateway-core-rust/src/rate_limit.rs:245-309 | Two rules of one scope with equal policy and window, and equal limit for token buckets, leave the same content whenever both admit, whatever their quotas and other limits. |
| RateLimitRuns.RuleRefinesHistory | gateway-core-rust/src/rate_limit.rs:153-170 | A rule that keeps like the last of its scope, or is a sliding window no longer than it, judges every request as the accept times of its key do. |
| RateLimitRuns.SharedKeyIff | gateway-core-rust/src/rate_limit.rs:219-243 | Two rules applied to two requests share state if and only if scope and caller agree, where a missing consumer is the consumer "anonymous". |
| RateLimitRuns.ScopeKeyInjective | gateway-core-rust/src/rate_limit.rs:235-243 | Different scopes or values never give the same key. |
| RateLimitRuns.CommitOnKey | gateway-core-rust/src/rate_limit.rs:173-175 | An accepted request gives the key of a rule the content of the last rule of that scope if the caller matches, and leaves it alone otherwise. |
| RateLimitPolicies.ReplayDecides | gateway-core-rust/src/rate_limit.rs:245-309 | For each policy, the content reached through lawful accepts answers exactly as the list of these accepts does. |
| RateLimitPolicies.BucketFollows | gateway-core-rust/src/rate_limit.rs:253-273 | A bucket always holds the least allowance over all stretches of its accepts, so it admits if and only if every stretch that ends now stays within capacity plus refill. |
| RateLimitPolicies.FixedFollows | gateway-core-rust/src/rate_limit.rs:274-290 | Window start and count are determined by the accepts: the start is the accept that opened the current window and the count the accepts since. |
| RateLimitPolicies.OpenerOpens | gateway-core-rust/src/rate_limit.rs:275-282 | Consecutive window starts of a key are at least one window apart. |
| RateLimitPolicies.WindowCountBound | gateway-core-rust/src/rate_limit.rs:284-289 | A window never accepts more than the limit. |
| RateLimitPolicies.SlidingFollows | gateway-core-rust/src/rate_limit.rs:291-307 | The pruned deque and the full history give the same answer: fewer than the limit of all accepts are younger than one window. |
| RateLimitPolicies.SlidingSees | gateway-core-rust/src/rate_limit.rs:291-307 | A deque pruned by a longer window gives this answer for a shorter one as well. |
| RateLimitBounds.SlidingBound | gateway-core-rust/src/rate_limit.rs:291-307 | On every run, every half-open interval of one window holds at most `limit` accepts of a key. |
| RateLimitBounds.FixedBound | gateway-core-rust/src/rate_limit.rs:274-290 | On every run, every half-open interval of one window holds at most `2 * limit - 1` accepts of a key. |
| RateLimitSharp.FixedBoundIsSharp | gateway-core-rust/src/rate_limit.rs:274-290 | For every positive limit some run has an interval of one window with exactly `2 * limit - 1` accepts. |
| RateLimitSharp.SlidingBoundIsSharp | gateway-core-rust/src/rate_limit.rs:291-307 | For every limit some run has an interval of one window with exactly `limit` accepts. |
| RateLimitSharp.TokenBoundIsSharp | gateway-core-rust/src/rate_limit.rs:253-273 | For every limit and every length some run has a closed interval of that length with as many accepts as limit plus refill has whole tokens. |
| RateLimitSkew.SkewedSlidingBound | gateway-core-rust/src/rate_limit.rs:135-142 | When readings in lock order lie at most some skew before earlier ones, every half-open interval shorter than a window by the skew holds at most `limit` accepts of a key. |
| RateLimitSkew.LateReadingBreaksTheWindow | gateway-core-rust/src/rate_limit.rs:135-142 | For every limit of two or more and every skew up to a window, one run overfills all intervals from its start that are longer than the window without the skew. |
| RateLimitSkew.WindowHoldsIff | gateway-core-rust/src/rate_limit.rs:291-307 | For one rule without quota, every window of every run with this skew holds at most `limit` accepts of every key, if and only if the limit is at most one or the skew is zero. |
| RateLimitSkew.AloneBound | gateway-core-rust/src/rate_limit.rs:291-307 | A limit of at most one holds on every window under any clock. |
| RateLimitLateFixed.CeilingHoldsIff | gateway-core-rust/src/rate_limit.rs:274-290 | For one rule without quota, every window length of every run with this skew holds at most `2 * limit - 1` accepts, if and only if the limit is at most one or the skew is zero. |
| RateLimitLateFixed.LateReadingsFillThreeWindows | gateway-core-rust/src/rate_limit.rs:274-290 | For every positive limit and skew some run has `3 * limit - 2` accepts within one window length. |
| RateLimitLate.LateTokenBound | gateway-core-rust/src/rate_limit.rs:253-273 | With readings late by a skew, a closed interval holds at most (limit + rate * length) / (1 - rate * skew / 2) accepts of a key while rate * skew is below two; for a limit of one the skew does not matter. |
| RateLimitLate.StaysBoundedIff | gateway-core-rust/src/rate_limit.rs:253-273 | For one rule without quota, intervals of every length have a bound on the accepts over all runs with this skew, if and only if the limit is at most one or rate * skew is below two. |
| RateLimitLateLegacy.LegacyStaysBoundedIff | gateway-core-rust/src/rate_limit.rs:180-199 | For the bucket without scoped limits there are such bounds if and only if the capacity, the refill rate or the skew is zero. |
| RateLimitBounds.TokenBound | gateway-core-rust/src/rate_limit.rs:253-273 | On every run, every closed interval holds at most `limit` plus rate times length accepts of a key. |
| RateLimitBounds.TokensInRange | gateway-core-rust/src/rate_limit.rs:261-269 | In every reachable state the stored tokens lie between zero and the limit. |
| RateLimitBounds.UnscopedBound | gateway-core-rust/src/rate_limit.rs:201-217 | Without scoped limits each client is held to `capacity` by the window of the default policy, a window of zero seconds counting as one. |
| RateLimitBounds.TotalCountsAccepts | gateway-core-rust/src/rate_limit.rs:169-175 | `accepted_total` of a key is the number of accepted requests that touched it, on every run with any clock, however many rules share the key. |
| RateLimitBounds.QuotaBound | gateway-core-rust/src/rate_limit.rs:158-162 | A rule with a quota never lets more requests than that through for one key, on any run with any clock. |
| RateLimitBounds.LawfulIsReachable | gateway-core-rust/src/rate_limit.rs:150-177 | Every lawful list of accept times is the history of some run, so the reference limiter allows nothing the code refuses. |
| RateLimitOrder.RunIgnoresOrder | gateway-core-rust/src/rate_limit.rs:150-177 | Reordering `scoped_limits` changes no answer and no stored content on any run as long as the rules that come last in each scope agree in policy and window, and in the limit for token buckets. |
| RateLimitOrderExact.SameRunsIff | gateway-core-rust/src/rate_limit.rs:150-177 | For rules without quotas and with limits of two or more, a reordering leaves every stored content on every run as it was if and only if they do. |
| RateLimitOrder.PermutationIsHarmless | gateway-core-rust/src/rate_limit.rs:150-177 | With pairwise distinct scopes every permutation of the rules gives the same answers and the same map on every run. |
| RateLimitOrder.EqualScopesLoseTheFirstRule | gateway-core-rust/src/rate_limit.rs:150-175 | Two rules of one scope: the one-hit rule placed first lets two requests through at one instant; placed last it holds. |
| RateLimitLegacy.LegacyRefinesHistory | gateway-core-rust/src/rate_limit.rs:144-148 | The bucket used without scoped limits, which does store rejected refills, answers every request of every run from the accepts of the client alone. |
| RateLimitLegacy.RejectionIsInvisible | gateway-core-rust/src/rate_limit.rs:186-198 | Storing the refill of a rejected request changes the token level at no later time. |
| RateLimitLegacy.LegacyTokenBound | gateway-core-rust/src/rate_limit.rs:180-199 | Its accepts in any closed interval are at most capacity plus refill. |
| RateLimitLegacy.LegacyEqualsStagedIff | gateway-core-rust/src/rate_limit.rs:180-199 | Legacy and staged bucket give the same answers on all runs if and only if the capacity is zero or refill per second times the window, counted as at least one second, is the capacity. |
| RateLimitLegacy.DisagreeSomewhere | gateway-core-rust/src/rate_limit.rs:253-273 | Whenever that condition fails, a run exists on which the two buckets differ. |
| RateLimit.RateLimiter.CheckWithContext | gateway-core-rust/src/rate_limit.rs:130-178 | Answer and whole new state map of one call, for the disabled limiter, the legacy bucket and the staged rules. |
| RateLimit.RateLimiter.CheckStaged | gateway-core-rust/src/rate_limit.rs:150-177 | A request passes if and only if every rule admits it against the state before the request; then all rules are committed, otherwise the map is unchanged. |
| RateLimit.RateLimiter.StageAll | gateway-core-rust/src/rate_limit.rs:150-171 | Staging ends early exactly when some rule does not admit; it works on new objects and leaves the stored ones alone. |
| RateLimit.RateLimiter.StageRule | gateway-core-rust/src/rate_limit.rs:153-170 | One rule is judged on a copy of the stored state, quota first, and an admission counts towards the total. |
| RateLimit.RateLimiter.CommitStaged | gateway-core-rust/src/rate_limit.rs:173-175 | Inserting the staged objects in rule order gives the committed map, and no two keys come to share an object. |
| RateLimit.RateLimiter.ApplyPolicy | gateway-core-rust/src/rate_limit.rs:245-309 | Answer and whole new content for each policy. |
| RateLimit.RateLimiter.ApplySlidingWindow | gateway-core-rust/src/rate_limit.rs:291-307 | The popping loop removes exactly the expired front of the deque and changes no other field. |
| RateLimit.RateLimiter.ApplyFixedWindow | gateway-core-rust/src/rate_limit.rs:274-290 | Answer and whole new content of a fixed window. |
| RateLimit.RateLimiter.TakeToken | gateway-core-rust/src/rate_limit.rs:256-272 | The first call finds a full bucket; refill is capped before a token is taken; the refill time moves on also when there is none to take. |
| RateLimit.RateLimiter.ApplyLegacyTokenBucket | gateway-core-rust/src/rate_limit.rs:180-199 | The same bucket with capacity and refill rate of the configuration. |
| GatewayConditions.NeverLostIff | gateway-core-rust/src/main.rs:336-392 | Every send recorded: no reachable interleaving loses a target, half-open without probes or closed and ejected with no outcome outstanding, if and only if nobody granted a weighted target can choose something else and, given a weighted target, the breaker trips no later than ejection and one success heals. With active checks for every upstream, without them wherever no selection of weights wraps or the strategy is least connections. |
| GatewayConditions.AlwaysAwaitedIff | gateway-core-rust/src/main.rs:448-472 | Every send recorded, same upstreams: in every reachable interleaving a half-open target has a handler that is going to record an outcome, if and only if the weighted targets all have one id, no target without weight has it, and, except for least connections, no selection of weights adds up to a positive multiple of 2^32. |
| GatewayConditions.NeverLostByClientsIff | gateway-core-rust/src/main.rs:364-379 | If clients may disconnect while they wait, so that nothing is recorded, no target is ever lost if and only if no target has weight. |
| GatewayConditions.SafeIsNeverLost | gateway-core-rust/src/main.rs:336-392 | The conditions suffice for every upstream, with active checks or without. |
| GatewayConditions.WrappedIsIdle | gateway-core-rust/src/balancer.rs:57-60 | Without active checks, weights that add up to a multiple of 2^32 under round robin or hash keep everything as it was at the start, so nothing is lost. |
| GatewayConditions.DistinctIdsNeverLostIff | gateway-core-rust/src/main.rs:336-392 | With distinct ids and some weighted target, same upstreams: always awaited if and only if at most one target has weight; never lost if and only if, besides, the breaker covers ejection. |
| GatewayConditions.DistinctIdsAreSafeIff | gateway-core-rust/src/balancer.rs:56-76 | With distinct ids a granted target cannot be passed over if and only if at most one target has weight, whatever the sum of the weights. |
| GatewayConditions.SmallTotalsAreSafeIff | gateway-core-rust/src/balancer.rs:56-76 | With weights that add up to less than 2^32 somebody is always chosen and only the ids matter. |
| GatewayConditions.RepeatedIdIsLost | gateway-core-rust/src/config.rs:405-411 | `validate` accepts two targets of one id; if one has no weight, the only weighted target can be lost, with active checks or without. |
| GatewayConditions.DefaultsCanLose | gateway-core-rust/src/config.rs:235-285 | With the default thresholds, wherever active checks are enabled or somebody is always chosen, no target is ever lost if and only if no target has weight. |
| GatewayConditions.StarvationIsReachable | gateway-core-rust/src/main.rs:454-459 | Whenever the condition of `AlwaysAwaitedIff` fails, a run of this upstream alone ends with a weighted target half-open without probes, every request answered and every send recorded. |
| GatewayLosses.LoseOneOfTwo | gateway-core-rust/src/main.rs:454-459 | Requests alone lose a target of any upstream with two weighted ids where somebody is always chosen. |
| GatewayLosses.LoseToTwin | gateway-core-rust/src/main.rs:454-459 | So they do where a target without weight has the id of the weighted ones. |
| GatewayShutting.ShutOne | gateway-core-rust/src/resilience.rs:63-81 | Requests alone take the target that is chosen out of the traffic, for every strategy: its key is half-open without probes until an outcome arrives. |
| GatewaySteering.LoseByPlan | gateway-core-rust/src/balancer.rs:57-60 | Where a selection of weights wraps to zero, active checks can direct requests so that a target of the selection is lost. |
| GatewayProbes.LostForever | gateway-core-rust/src/resilience.rs:63-81 | From any state in which a target is lost no traffic, no active check and no waiting ever makes it available again, also where ids repeat. |
| GatewayConditions.EjectionIsReachable | gateway-core-rust/src/config.rs:256-285 | Whenever ejection needs fewer failures than the breaker or healing more than one success, some run loses a weighted target for good. |
| GatewayLosses.EjectionByTraffic | gateway-core-rust/src/resilience.rs:106-114 | Requests alone eject the target that is chosen first. |
| GatewaySteering.EjectionIsReachable | gateway-core-rust/src/resilience.rs:86-90 | With active checks any given weighted target can be ejected. |
| GatewayLosses.DroppedIsLost | gateway-core-rust/src/main.rs:364-379 | Clients that disconnect lose a weighted target of any upstream where somebody is always chosen, whatever the thresholds and ids. |
| GatewayHistory.SystemRefinesHistory | gateway-core-rust/src/main.rs:336-392 | In every interleaving, told from the events alone: each handler holds the request count and key it began with, has been granted exactly those targets, in order, that the breakers admit by the questions, checks and outcomes on their keys so far, and waits for what it chooses from these; each key is in the state its own events lead to; the counter is the number of draws. |
| GatewayHistory.GrantsFollowHistory | gateway-core-rust/src/main.rs:454-459 | The next question of a handler is granted if and only if the breaker of its key admits by its own history. |
| GatewayHistory.WaitsForItsChoice | gateway-core-rust/src/main.rs:461-472 | A handler that waits was sent to what the strategy selects from the targets granted to it, by its own request count or the hash of its own key. |
| GatewayInterleaving.ReachableIsAwaited | gateway-core-rust/src/main.rs:336-392 | Every send recorded: where a granted target cannot be passed over, in every reachable state half-open targets are awaited and targets without weight stay closed and healthy. |
| GatewayInterleaving.KeyIsABreaker | gateway-core-rust/src/resilience.rs:55-122 | In every interleaving the state of a key is that of some run of the breaker alone, so the breaker's invariants hold for every target. |
| GatewayInterleaving.SafeChoice | gateway-core-rust/src/main.rs:454-472 | Under the condition of `AlwaysAwaitedIff`, whoever was granted a weighted target chooses a target of its id. |
| GatewayInterleaving.StateStep | gateway-core-rust/src/resilience.rs:55-122 | Each step of a run is to each key one step of the breaker or nothing. |
| GatewayInterleaving.LoneTargetIsChosen | gateway-core-rust/src/balancer.rs:26-76 | If one available target has all the weight it is chosen, whatever the strategy, the count and the hash. |
| Gateway.ScanIsFair | gateway-core-rust/src/main.rs:454-459 | With distinct ids each target is asked once and answers as if asked alone; the willing ones are kept in order and every one moves on, chosen or not. |
| Gateway.AskedPaysProbe | gateway-core-rust/src/main.rs:454-459 | A half-open key pays one probe for each target that has it, as long as there are any, whoever is chosen in the end. |
| GatewayRetry.ScanFollowsHistory | gateway-core-rust/src/main.rs:454-459 | A scan keeps, in order, exactly the targets that the registry admits after all earlier operations and the questions before, also where ids repeat. |
| GatewayRetry.ChosenIff | gateway-core-rust/src/main.rs:461-472 | The target chosen is the one selected by the request count under round robin, by the hash of the request key under hashing, and by connections per weight otherwise; there is none exactly when nothing is selected. |
| Gateway.PickTarget | gateway-core-rust/src/main.rs:448-472 | The target chosen is one that said yes and has positive weight, and the registry is left as the scan of all targets leaves it. |
| Gateway.ProxyAttempts | gateway-core-rust/src/main.rs:334-426 | Reply, registry and calls of the whole loop, with arbitrary use of the registry by others between the attempts and during each send; the answer after the loop is never given. |
| Gateway.OneAttempt | gateway-core-rust/src/main.rs:337-419 | What one attempt replies, sends and records, for every outcome of the send and whatever others do to the registry meanwhile. |
| Gateway.Conclude | gateway-core-rust/src/main.rs:365-419 | A failed send and a status from 500 to 599 are recorded as failures, a 429 and a status from 600 on while an attempt is left, all else as success; no reply is given exactly when an attempt is left and the send failed or the status is 429 or at least 500. |
| Gateway.MaxAttempts | gateway-core-rust/src/main.rs:317-321 | There is always at least one attempt, and there are more exactly when the method may be retried and the configuration asks for more, then as many as it asks for. |
| GatewayRetry.RetryLimits | gateway-core-rust/src/main.rs:317-425 | Every run of the loop from any registry is told by one list of at most max(1, max_attempts) attempts: each attempt but the last calls for another, each sends to the choice from the admissible targets unless it is timed out or there is none, the calls are the sends with their records, the reply is that of the last attempt, with time-out and missing target told apart, and the registry is what all operations of others, questions and records leave in turn. With `idempotent_only` a second attempt is made only for the idempotent methods of section 9.2.2 of RFC 9110, without `retry_unsafe_methods` only for the safe ones. |
| GatewayRetry.StatusRecords | gateway-core-rust/src/main.rs:381-392 | A failed send and the statuses 500 to 599 are failures, a 429 and a status from 600 on exactly while an attempt is left, all others never; a failed send, a 429 and a status from 500 on are retried while an attempt is left. |
| GatewayRetry.LoopLog | gateway-core-rust/src/main.rs:336-420 | The same list for the first n attempts: as long as there is no reply all n were made. |
| GatewayRetry.RecordsFollowSends | gateway-core-rust/src/main.rs:365-392 | In every run each send is followed at once by its record under the same key: a failure for a send that failed, and for a response if and only if its status lies in 500 to 599, or an attempt is left and it is 429 or at least 600. |
| GatewayRetry.AttemptsAllowed | gateway-core-rust/src/main.rs:317-321 | A request has `max_attempts` attempts if that is more than one and the method is safe, or idempotent with `retry_unsafe_methods`, or `idempotent_only` is off; otherwise it has one. |
| GatewayRetry.AttemptIsTold | gateway-core-rust/src/main.rs:337-419 | One attempt after any operations on the registry: send, record, reply and registry. |
| Breaker.BreakerRefinesHistory | gateway-core-rust/src/resilience.rs:55-122 | A target is available after any run if and only if its last active check did not fail and, while fewer failures than the threshold were recorded since the last success, it is not ejected, or else it has granted nothing since the last record and `open_ms` milliseconds have passed since the last failure, or it has granted at least one and at most `half_open_max_requests` since then. |
| Breaker.RegistryRefinesHistory | gateway-core-rust/src/resilience.rs:55-122 | The same for every key of a registry after any operations on any keys: only those made on the key count. |
| Breaker.RegistryRuns | gateway-core-rust/src/resilience.rs:55-122 | The state of a key is what its own operations, in order, make of a healthy target. |
| Breaker.StateFollowsStreaks | gateway-core-rust/src/resilience.rs:92-122 | In every reachable state the counters are the saturated lengths of the current streak, one of them is zero, and the circuit is closed if and only if the failure streak is shorter than the threshold, counted as at least one; an open circuit dates from the last failure. |
| Breaker.EjectionFollowsStreaks | gateway-core-rust/src/resilience.rs:99-114 | A target is passively unhealthy if and only if at some time its failure streak reached the threshold and since then no success streak reached the other. |
| Breaker.NeverEjectedWhenClosedIff | gateway-core-rust/src/resilience.rs:63-64 | Every reachable closed state is passively healthy if and only if the breaker trips no later than ejection and one success heals. |
| Breaker.EjectedStaysEjected | gateway-core-rust/src/resilience.rs:55-90 | From a closed and ejected state no sequence of questions and active checks is ever answered with yes. |
| Breaker.BudgetIsSpent | gateway-core-rust/src/resilience.rs:65-81 | Without records a circuit that is not closed stays so, and every yes-answer is paid for from its remaining budget, exactly. |
| Breaker.ProbeBound | gateway-core-rust/src/resilience.rs:65-81 | From every reachable state that is not closed, at most `half_open_max_requests + 1` questions are answered with yes before the next record. |
| Breaker.ProbesExact | gateway-core-rust/src/resilience.rs:65-81 | Once they have passed exactly that many are, or all questions if there are fewer. |
| Breaker.CoolDownHolds | gateway-core-rust/src/resilience.rs:65-74 | Without a success nothing is admitted before `open_ms` thousandths of a second have passed since the circuit opened, and failures recorded meanwhile do not shorten it. |
| Breaker.ConsistentStep | gateway-core-rust/src/resilience.rs:106-122 | The invariant is kept by every step; a failure outside the closed state reopens at once, and no record leaves the circuit half-open. |
| Resilience.RuntimeRegistry.IsAvailable | gateway-core-rust/src/resilience.rs:55-84 | Answer and whole new registry of the question, which changes the state of the one key asked; an actively unhealthy target is refused, an open one is granted if and only if `open_ms` milliseconds have passed. |
| Resilience.RuntimeRegistry.SetActiveHealth | gateway-core-rust/src/resilience.rs:86-90 | Only the active health of the one key changes. |
| Resilience.RuntimeRegistry.RecordSuccess | gateway-core-rust/src/resilience.rs:92-104 | Whole new registry after a success; other keys keep their content. |
| Resilience.RuntimeRegistry.RecordFailure | gateway-core-rust/src/resilience.rs:106-122 | Whole new registry after a failure; other keys keep their content. |
| Balancer.PickWeighted | gateway-core-rust/src/balancer.rs:56-76 | The walk returns the target whose share of the weights holds the cursor; it returns none if and only if the wrapped sum is zero; the cursor never underflows and line 75 is never reached. |
| Balancer.SelectTarget | gateway-core-rust/src/balancer.rs:26-54 | The selection of each strategy; a selected target always has positive weight. |
| Balancer.LeastLoaded | gateway-core-rust/src/balancer.rs:34-44 | The first of the weighted targets with least connections per weight, and none if and only if no target has weight. |
| Balancer.RoundRobinIff | gateway-core-rust/src/balancer.rs:33 | Round robin selects the target whose share of the weights holds the request count, cut to 32 bits, modulo the wrapped sum; key and hash do not matter. |
| Balancer.HashIff | gateway-core-rust/src/balancer.rs:45-53 | Without a key hashing selects nothing; with one, the target whose share holds the hash of the key, so one key stays with one target of the same list whatever the request count. |
| Balancer.LeastConnectionsIff | gateway-core-rust/src/balancer.rs:34-44 | Least connections selects target i if and only if, for some level k, it has at least k and less than k + 1 connections per unit of weight, no weighted target has less than k and none before it less than k + 1. |
| Balancer.TotalWeight | gateway-core-rust/src/balancer.rs:57 | The sum wraps at 2^32. |
| Balancer.FairShare | gateway-core-rust/src/balancer.rs:33-76 | For a total weight from 1 to 2^32 - 1, over any consecutive request counts not crossing a multiple of 2^32, round robin selects each target between floor and ceiling of n / total times its weight. |
| Balancer.PeriodIsExact | gateway-core-rust/src/balancer.rs:33-76 | For such a total, over one period not crossing a multiple of 2^32 round robin selects each target exactly its weight times. |
| BalancerPeriods.ExactIff | gateway-core-rust/src/balancer.rs:62 | For such a total this holds for every period, wherever it starts, if and only if the total divides 2^32 or at most one target has positive weight. |
| BalancerPeriods.SlippedPeriod | gateway-core-rust/src/balancer.rs:62 | In all other cases two neighbouring periods of request counts differ by one selection of some target. |
| Plugins.LoadBalances | gateway-core-rust/src/plugin.rs:161-195 | For every list and every way to fail, each plugin whose init succeeded is torn down exactly once in registration order and the manager ends empty; without failure nothing is torn down. |
| Plugins.DropBalances | gateway-core-rust/src/plugin.rs:236-250 | Dropping the manager of a successful load tears down every plugin exactly once, in configuration order. |
| Plugins.LoadSucceedsIff | gateway-core-rust/src/plugin.rs:161-195 | Loading succeeds if and only if names do not repeat and every plugin builds, has contract version 1 and initialises. |
| Plugins.FirstFailureIsReported | gateway-core-rust/src/plugin.rs:161-195 | The error is that of the first configuration that cannot be loaded, and says whether its name is taken, it does not build or it does not register; the plugins before it are torn down in the order in which they were initialised. |
| Plugins.InitCallsFollow | gateway-core-rust/src/plugin.rs:181-193 | `init` is called once for each configuration before the first failure, in order, and for the failing one only if its name is new and it builds a plugin of contract version 1. |
| Plugins.FromConfig | gateway-core-rust/src/plugin.rs:161-179 | Registered plugins, error and all lifecycle calls of loading, with the drop of the manager on each early return. |
| Plugins.LoadNext | gateway-core-rust/src/plugin.rs:166-175 | One configuration: the drop after an explicit rollback makes no second teardown. |
| Plugins.PluginManager.Register | gateway-core-rust/src/plugin.rs:181-195 | A plugin is kept if and only if its contract version fits and its init succeeds; a version mismatch makes no lifecycle call. |
| Plugins.PluginManager.RollbackLifecycle | gateway-core-rust/src/plugin.rs:236-243 | All plugins are torn down once, in registration order, also after a teardown that fails, and the list is emptied. |
| Drain.CanRiseIff | gateway-core-rust/src/main.rs:222-226 | Some continuation raises the in-flight counter if and only if the gateway is not draining or a handler is between the check and its guard. |
| Drain.InFlightCountsGuards | gateway-core-rust/src/main.rs:59-70 | In every reachable state the counter is the number of live guards, so it never underflows. |
| Drain.DrainingBound | gateway-core-rust/src/main.rs:644-655 | While draining, the counter never exceeds its value plus the handlers that were between check and guard, and no handler joins these. |
| Drain.DrainsIffShutDown | gateway-core-rust/src/main.rs:649-650 | In every reachable state the gateway drains if and only if there was a shutdown. |
| Drain.PassesIffNotShutDown | gateway-core-rust/src/main.rs:222-224 | A handler that checks the flag passes if and only if there was no shutdown before, and is gone otherwise. |
| Drain.ShutdownBounds | gateway-core-rust/src/main.rs:222-226 | Whatever happens after a shutdown, every live guard belongs to a handler that had one or stood between check and guard at that moment; the counter never exceeds their number, and a handler that arrives later gets no further than the check. |
| Routing.ValidatedIsServed | gateway-core-rust/src/main.rs:294-311 | Under an accepted configuration both bad-gateway branches are unreachable, for every route, header, client, count and hash. |
| Routing.AlwaysServedIff | gateway-core-rust/src/main.rs:474-500 | A route meets no missing upstream on any request if and only if each upstream that some request can reach is configured. |
| Routing.ServedIff | gateway-core-rust/src/main.rs:141-155 | Upstream and runtime registry are both found if and only if the name is configured. |
| Routing.ValidateIff | gateway-core-rust/src/config.rs:355-412 | A configuration is accepted if and only if it has routes, all references resolve, all percentages and statuses are in range and no upstream is empty. |
| Routing.ValidateReports | gateway-core-rust/src/config.rs:355-412 | A refusal names the first fault: missing routes, then the first unsound route with the first thing wrong with it, then the first upstream without targets. |
| Routing.AgreesIff | gateway-core-rust/src/main.rs:141-155 | An upstream found by name is held to its own thresholds if and only if the first and the last upstream of that name have equal thresholds. |
| Routing.RegistryMatches | gateway-core-rust/src/main.rs:141-155 | With distinct names every upstream is held to its own thresholds. |
| Routing.SharedNameSplits | gateway-core-rust/src/config.rs:405-411 | Two upstreams of one name are accepted; look-ups give the first one's targets and the second one's thresholds, which do not agree exactly when the thresholds differ. |
| Routing.CanaryShare | gateway-core-rust/src/main.rs:490-499 | Of requests without the canary header the canary gets its percentage of any hundred consecutive hashes of route name, client key and request count, and of the first hundred the lowest. |
| Routing.HeaderForcesCanary | gateway-core-rust/src/main.rs:480-488 | A request that carries the canary header with the configured value goes to the canary; any other value counts as no header. |
| Routing.FindUpstream | gateway-core-rust/src/main.rs:295-299 | The look-up fails if and only if no upstream has the name. |
| TestConfig.RoundTripIff | spec/fixtures/proxy_wasm_filters/tests/src/types.rs:8-30 | Printing and parsing gives a configuration back if and only if no key or value has white space and no key has an equals sign, for every iteration order of the map. |
| TestConfig.ParsedRoundTrip | spec/fixtures/proxy_wasm_filters/tests/src/types.rs:8-30 | Every configuration that was parsed survives printing and parsing. |
| TestConfig.DisplayIgnoresOrder | spec/fixtures/proxy_wasm_filters/tests/src/types.rs:23-29 | The printed text is the same for every iteration order of the map. |
| TestConfig.SortedIsUnique | spec/fixtures/proxy_wasm_filters/tests/src/types.rs:26 | All ways to sort the entries give the same list. |
| TestConfig.SortSorts | spec/fixtures/proxy_wasm_filters/tests/src/types.rs:26 | Sorting gives an ascending permutation. |
| TestConfig.PrecedesIff | spec/fixtures/proxy_wasm_filters/tests/src/types.rs:26 | The order of the entries is that of dictionaries by code points. |
| TestConfig.SplitJoin | spec/fixtures/proxy_wasm_filters/tests/src/types.rs:14-28 | Words joined by single spaces are split again where they were joined. |
| TestConfig.SeparatesIff | spec/fixtures/proxy_wasm_filters/tests/src/types.rs:14 | A character between two words separates them if and only if it is one of the 25 characters with the Unicode property White_Space. |
| TestConfig.JoinGrows | spec/fixtures/proxy_wasm_filters/tests/src/types.rs:28 | The joined text grows by one space and the next entry. |
| TestConfig.Display | spec/fixtures/proxy_wasm_filters/tests/src/types.rs:23-29 | The text is the joined sorted list of the entries, each key once. |
| TestConfig.LaterEntryWins | spec/fixtures/proxy_wasm_filters/tests/src/types.rs:13-17 | An entry at the end of the text replaces an earlier one of the same key and changes nothing else. |
| TestConfig.WordWithoutEqualsIsSkipped | spec/fixtures/proxy_wasm_filters/tests/src/types.rs:15 | A word without an equals sign changes nothing. |

## Left out

- Rounding of `f64` tokens and of `as_secs_f64`: the bounds and equivalences hold in exact arithmetic.
- Overflow of the 64-bit totals and of the request counter, and clock values at the end of their range.
- Poisoned locks (the source recovers the state and goes on) and weak memory orderings.
- `RateLimiter::check`, which calls `check_with_context` with fixed names, and the limiter's metrics.
- After a forwarded response: response plugin phases, header transforms and body streaming, which record nothing. The retry model ends with the reply.
- RateLimitOrderExact.SameRunsIff: not for quotas and for limits of zero and one, where a rule may never let the others decide. What `LimiterRefinesHistory` asks of rules that share a scope is sufficient only, for a rule may never decide because another one dominates it.
- RateLimitLateFixed.CeilingHoldsIff: how many accepts fixed windows hold under late readings beyond `3 * limit - 2` is not stated.
- GatewayConditions.NeverLostIff: without active checks, under round robin or hash, where some selection of weights wraps but the whole does not, the condition is shown to be sufficient only.
- Balancer.FairShare: for total weights below 2^32 only. From there on the wrapped sum decides, and targets whose cursors lie beyond it are never picked.
- Gateway.PickTarget: within one scan of the retry model nothing else touches the registry; the interleaving model of `GatewayInterleaving.dfy` lets other steps in between the questions.
- The order in which one round of active checks visits the targets, and its interval.
- GatewayRetry.RetryLimits: says nothing about when the overall timeout strikes or how long the backoff sleeps are; the timeout test of each attempt is an arbitrary input.
- TestConfig.Display: the standard library's sort is modelled by insertion on values; `SortedIsUnique` makes the choice of the sort irrelevant.
- Plugins.FromConfig: what `build_declared_plugin` checks is an arbitrary function argument; the accounting lemmas use only that a built plugin carries the name of its configuration (`plugin.rs` line 270). Error texts are reduced to their kind.
- Drain: the polling loop with its deadline, which reads the counter and changes nothing.
- Distribution of hash balancing and of canary buckets over clients; the hash is arbitrary.
- Fault injection, route matching, path rewriting, header transforms: single-pass filters.
- Authentication and authorisation: token decoding lies in a library that is not part of this model, the role checks are set membership.
- HTTP serving, active health-check probes, tracing, metrics, serialisation and configuration defaults: input and output or data.
- `run_phase` and `run_request_pipeline` of the plugin manager: first refusal wins over a list, an easy search.
