/**
 What each policy decides, told from the full list of accept times of one key, and the proof
 that the stored contents (last refill, window counter, pruned deque) decide the same.
 */
module RateLimitPolicies {
  import opened Wrappers
  import opened Clock
  import opened History
  import opened RateLimit

  // --- Decisions from the full history ---

  /** One more accept keeps every stretch of accepts within `cap` plus the refill of its duration. */
  ghost predicate BucketDecides(cap: real, rate: real, h: seq<Instant>, now: Instant) {
    && cap >= 1.0
    && forall i | 0 <= i < |h| :: (|h| - i + 1) as real <= cap + rate * (now - h[i])
  }

  /** The index of the accept that opened the window which holds accept `n`. */
  ghost function Opener(h: seq<Instant>, window: real, n: nat): (b: nat)
    requires n < |h|
    ensures b <= n
  {
    if n == 0 then 0
    else
      var b := Opener(h, window, n - 1);
      if Elapsed(h[n], h[b]) >= window then n else b
  }

  ghost predicate FixedDecides(limit: nat, window: real, h: seq<Instant>, now: Instant) {
    if h == [] then limit >= 1
    else
      var b := Opener(h, window, |h| - 1);
      if Elapsed(now, h[b]) >= window then limit >= 1 else |h| - b < limit
  }

  ghost predicate SlidingDecides(limit: nat, window: real, h: seq<Instant>, now: Instant) {
    Count(h, LiveAt(now, window)) < limit
  }

  ghost predicate Decides(policy: Policy, rule: Rule, h: seq<Instant>, now: Instant) {
    match policy
    case TokenBucket => BucketDecides(rule.limit as real, RefillRate(rule), h, now)
    case FixedWindow => FixedDecides(rule.limit, WindowSeconds(rule), h, now)
    case SlidingWindow => SlidingDecides(rule.limit, WindowSeconds(rule), h, now)
  }

  ghost predicate AllowedAt(policy: Policy, rule: Rule, h: seq<Instant>, n: nat)
    requires n < |h|
  {
    Decides(policy, rule, h[..n], h[n])
  }

  /** A list of accept times each of which the policy allows after the ones before it. */
  ghost predicate Lawful(policy: Policy, rule: Rule, h: seq<Instant>) {
    && Sorted(h)
    && forall n | 0 <= n < |h| :: AllowedAt(policy, rule, h, n)
  }

  ghost predicate NotAfter(h: seq<Instant>, now: Instant) {
    h != [] ==> h[|h| - 1] <= now
  }

  lemma {:induction false} LawfulPrefix(policy: Policy, rule: Rule, h: seq<Instant>, n: nat)
    requires Lawful(policy, rule, h) && n <= |h|
    ensures Lawful(policy, rule, h[..n])
  {
    forall m | 0 <= m < n
      ensures AllowedAt(policy, rule, h[..n], m)
    {
      assert AllowedAt(policy, rule, h, m) && h[..n][..m] == h[..m];
    }
  }

  /** The stored content after the accepts `h`. */
  ghost function Replay(policy: Policy, rule: Rule, h: seq<Instant>): LimitValue {
    if h == [] then FRESH
    else
      var next := PolicyStep(policy, rule, Replay(policy, rule, h[..|h| - 1]), h[|h| - 1]).next;
      next.(acceptedTotal := next.acceptedTotal + 1)
  }

  // --- Token bucket ---

  /** `s` holds what a bucket that accepted exactly `h` must hold: the least allowance of all stretches. */
  ghost predicate BucketHolds(cap: real, rate: real, s: LimitValue, h: seq<Instant>) {
    if h == [] then s.lastRefill == None
    else
      && s.lastRefill == Some(h[|h| - 1])
      && (forall i | 0 <= i < |h| :: s.tokens <= Allowance(cap, rate, h, i))
      && (exists i :: 0 <= i < |h| && s.tokens == Allowance(cap, rate, h, i))
  }

  /** What the stretch that starts at accept `i` leaves at the time of the last accept. */
  ghost function Allowance(cap: real, rate: real, h: seq<Instant>, i: nat): real
    requires i < |h|
  {
    cap - (|h| - i) as real + rate * (h[|h| - 1] - h[i])
  }

  lemma {:induction false} Distribute(rate: real, a: real, b: real)
    ensures rate * a + rate * b == rate * (a + b)
  {
  }

  /** A bucket in the state of `h` answers as the history does, and moves on to the state of `h + [now]`. */
  lemma {:induction false} BucketFollows(cap: real, rate: real, s: LimitValue, h: seq<Instant>, now: Instant)
    requires rate >= 0.0 && BucketHolds(cap, rate, s, h) && NotAfter(h, now)
    ensures BucketStep(cap, rate, s, now).ok <==> BucketDecides(cap, rate, h, now)
    ensures BucketStep(cap, rate, s, now).ok ==> BucketHolds(cap, rate, BucketStep(cap, rate, s, now).next, h + [now])
  {
    var h' := h + [now];
    assert Allowance(cap, rate, h', |h|) == cap - 1.0;
    if h != [] {
      var last := h[|h| - 1];
      forall i | 0 <= i < |h|
        ensures Allowance(cap, rate, h', i) == Allowance(cap, rate, h, i) + rate * (now - last) - 1.0
      {
        Distribute(rate, last - h[i], now - last);
      }
      var m :| 0 <= m < |h| && s.tokens == Allowance(cap, rate, h, m);
      assert Level(cap, rate, s, now) == Min(s.tokens + rate * (now - last), cap);
      assert Allowance(cap, rate, h', m) == s.tokens + rate * (now - last) - 1.0;
      forall i | 0 <= i < |h|
        ensures Level(cap, rate, s, now) - 1.0 <= Allowance(cap, rate, h', i)
      {
      }
      assert forall i | 0 <= i < |h| :: Allowance(cap, rate, h', i) == cap - (|h| - i + 1) as real + rate * (now - h[i]);
    }
  }

  lemma {:induction false} BucketReplay(rule: Rule, h: seq<Instant>)
    requires Lawful(TokenBucket, rule, h)
    ensures BucketHolds(rule.limit as real, RefillRate(rule), Replay(TokenBucket, rule, h), h)
  {
    if h != [] {
      var n := |h| - 1;
      assert AllowedAt(TokenBucket, rule, h, n);
      LawfulPrefix(TokenBucket, rule, h, n);
      BucketReplay(rule, h[..n]);
      assert h[..n] + [h[n]] == h;
      BucketFollows(rule.limit as real, RefillRate(rule), Replay(TokenBucket, rule, h[..n]), h[..n], h[n]);
      assert BucketHolds(rule.limit as real, RefillRate(rule),
                         PolicyStep(TokenBucket, rule, Replay(TokenBucket, rule, h[..n]), h[n]).next, h);
    }
  }

  ghost predicate BucketAllows(cap: real, rate: real, h: seq<Instant>, n: nat)
    requires n < |h|
  {
    BucketDecides(cap, rate, h[..n], h[n])
  }

  ghost predicate BucketLawful(cap: real, rate: real, h: seq<Instant>) {
    forall n | 0 <= n < |h| :: BucketAllows(cap, rate, h, n)
  }

  lemma {:induction false} LawfulIsBucketLawful(rule: Rule, h: seq<Instant>)
    requires Lawful(TokenBucket, rule, h)
    ensures BucketLawful(rule.limit as real, RefillRate(rule), h)
  {
    var cap, rate := rule.limit as real, RefillRate(rule);
    forall n | 0 <= n < |h|
      ensures BucketAllows(cap, rate, h, n)
    {
      assert AllowedAt(TokenBucket, rule, h, n);
    }
  }

  /** Any two accepts obey the stretch condition. */
  lemma {:induction false} BucketStretch(cap: real, rate: real, h: seq<Instant>, i: nat, j: nat)
    requires i <= j < |h| && BucketAllows(cap, rate, h, j)
    ensures (j - i + 1) as real <= cap + rate * (h[j] - h[i])
  {
    if i < j {
      assert h[..j][i] == h[i];
    }
  }

  lemma {:induction false} MonotoneInTime(rate: real, short: real, long: real)
    requires rate >= 0.0 && short <= long
    ensures rate * short <= rate * long
  {
  }

  lemma {:induction false} BucketStretchWithin(cap: real, rate: real, h: seq<Instant>, i: nat, j: nat, span: real)
    requires rate >= 0.0 && i <= j < |h| && BucketAllows(cap, rate, h, j)
    requires h[j] - h[i] <= span
    ensures (j - i + 1) as real <= cap + rate * span
  {
    BucketStretch(cap, rate, h, i, j);
    MonotoneInTime(rate, h[j] - h[i], span);
  }

  /**
   The token bound: any interval holds at most `cap` accepts plus the refill of its length.
   The stretch condition is applied to the first and the last accept inside.
   */
  lemma {:induction false} BucketBound(cap: real, rate: real, h: seq<Instant>, from: Instant, span: real)
    requires rate >= 0.0 && cap >= 0.0 && span >= 0.0
    requires BucketLawful(cap, rate, h)
    ensures Count(h, Closed(from, from + span)) as real <= cap + rate * span
  {
    var count := Count(h, Closed(from, from + span));
    if count > 0 {
      var i, j := CountSpan(h, Closed(from, from + span));
      BucketStretchWithin(cap, rate, h, i, j, span);
    } else {
      MonotoneInTime(rate, 0.0, span);
    }
  }

  /** The budget of a token-bucket rule for an interval of length `span`. */
  ghost function TokenBudget(rule: Rule, span: real): real {
    rule.limit as real + RefillRate(rule) * span
  }

  lemma {:induction false} TokenStretch(rule: Rule, h: seq<Instant>, from: Instant, span: real)
    requires Lawful(TokenBucket, rule, h) && span >= 0.0
    ensures Count(h, Closed(from, from + span)) as real <= TokenBudget(rule, span)
  {
    LawfulIsBucketLawful(rule, h);
    BucketBound(rule.limit as real, RefillRate(rule), h, from, span);
  }

  // --- Fixed window ---

  /** The window a state with these accepts is in, and how many accepts it has counted. */
  ghost predicate FixedHolds(window: real, s: LimitValue, h: seq<Instant>) {
    if h == [] then s.windowStart == None && s.windowCount == 0
    else
      var b := Opener(h, window, |h| - 1);
      s.windowStart == Some(h[b]) && s.windowCount == |h| - b
  }

  lemma {:induction false} OpenerPrefix(h: seq<Instant>, window: real, m: nat, n: nat)
    requires n < m <= |h|
    ensures Opener(h[..m], window, n) == Opener(h, window, n)
  {
    if n > 0 {
      OpenerPrefix(h, window, m, n - 1);
    }
  }

  lemma {:induction false} FixedFollows(limit: nat, window: real, s: LimitValue, h: seq<Instant>, now: Instant)
    requires window > 0.0 && FixedHolds(window, s, h)
    ensures FixedStep(limit, window, s, now).ok <==> FixedDecides(limit, window, h, now)
    ensures FixedStep(limit, window, s, now).ok ==> FixedHolds(window, FixedStep(limit, window, s, now).next, h + [now])
  {
    if h != [] {
      OpenerPrefix(h + [now], window, |h|, |h| - 1);
      assert (h + [now])[..|h|] == h;
    }
  }

  lemma {:induction false} FixedReplay(rule: Rule, h: seq<Instant>)
    requires Lawful(FixedWindow, rule, h)
    ensures FixedHolds(WindowSeconds(rule), Replay(FixedWindow, rule, h), h)
  {
    if h != [] {
      var n := |h| - 1;
      assert AllowedAt(FixedWindow, rule, h, n);
      LawfulPrefix(FixedWindow, rule, h, n);
      FixedReplay(rule, h[..n]);
      assert h[..n] + [h[n]] == h;
      FixedFollows(rule.limit, WindowSeconds(rule), Replay(FixedWindow, rule, h[..n]), h[..n], h[n]);
    }
  }

  /** Within a window the accepts up to `n` number at most `limit`. */
  lemma {:induction false} WindowCountBound(rule: Rule, h: seq<Instant>, n: nat)
    requires Lawful(FixedWindow, rule, h) && n < |h|
    ensures n - Opener(h, WindowSeconds(rule), n) + 1 <= rule.limit
  {
    var window := WindowSeconds(rule);
    assert AllowedAt(FixedWindow, rule, h, n);
    if n > 0 {
      OpenerPrefix(h, window, n, n - 1);
    }
  }

  /** An accept that opens a window does so at least one window after the opener before it. */
  lemma {:induction false} OpenerOpens(h: seq<Instant>, window: real, n: nat)
    requires window > 0.0 && n < |h|
    ensures var b := Opener(h, window, n);
            b > 0 ==> h[b] - h[Opener(h, window, b - 1)] >= window
  {
    if n > 0 && Opener(h, window, n) != n {
      OpenerOpens(h, window, n - 1);
    }
  }

  /** Accepts less than one window apart: at most `2 * limit - 1` of them, for an opener never shares its window length with the next opener. */
  lemma {:induction false} FixedStretch(rule: Rule, h: seq<Instant>, i: nat, j: nat)
    requires Lawful(FixedWindow, rule, h) && i <= j < |h|
    requires h[j] - h[i] < WindowSeconds(rule)
    ensures j - i + 1 <= 2 * rule.limit - 1
  {
    var window := WindowSeconds(rule);
    var second := Opener(h, window, j);
    WindowCountBound(rule, h, j);
    if i < second {
      OpenerOpens(h, window, j);
      var first := Opener(h, window, second - 1);
      WindowCountBound(rule, h, second - 1);
      assert h[i] > h[first];
      assert first < i;
    }
  }

  // --- Sliding window ---

  lemma {:induction false} DropSplit(h: seq<Instant>, window: real, now: Instant) returns (d: nat)
    requires Sorted(h)
    ensures d <= |h| && DropExpired(h, window, now) == h[d..]
    ensures forall i | 0 <= i < d :: !LiveAt(now, window)(h[i])
    ensures forall i | d <= i < |h| :: LiveAt(now, window)(h[i])
  {
    if h != [] && Elapsed(now, h[0]) >= window {
      var e := DropSplit(h[1..], window, now);
      d := e + 1;
      forall i | 0 <= i < d
        ensures !LiveAt(now, window)(h[i])
      {
        assert i > 0 ==> h[i] == h[1..][i - 1];
      }
      forall i | d <= i < |h|
        ensures LiveAt(now, window)(h[i])
      {
        assert h[i] == h[1..][i - 1];
      }
    } else {
      d := 0;
    }
  }

  lemma {:induction false} DropCounts(h: seq<Instant>, window: real, now: Instant)
    requires Sorted(h)
    ensures |DropExpired(h, window, now)| == Count(h, LiveAt(now, window))
  {
    var d := DropSplit(h, window, now);
    CountNone(h[..d], LiveAt(now, window));
    CountAll(h[d..], LiveAt(now, window));
    CountAppend(h[..d], h[d..], LiveAt(now, window));
    assert h[..d] + h[d..] == h;
  }

  /** What an earlier pruning by the same or a longer window dropped has expired anyway. */
  lemma {:induction false} DropTwice(h: seq<Instant>, longer: real, window: real, before: Instant, now: Instant)
    requires before <= now && window <= longer
    ensures DropExpired(DropExpired(h, longer, before), window, now) == DropExpired(h, window, now)
  {
    if h != [] && Elapsed(before, h[0]) >= longer {
      DropTwice(h[1..], longer, window, before, now);
    }
  }

  lemma {:induction false} DropAppend(h: seq<Instant>, window: real, now: Instant)
    requires window > 0.0
    ensures DropExpired(h + [now], window, now) == DropExpired(h, window, now) + [now]
  {
    if h != [] {
      assert (h + [now])[1..] == h[1..] + [now];
      DropAppend(h[1..], window, now);
    }
  }

  /** The deque is the full history without what had expired at the last accept. */
  ghost predicate SlidingHolds(window: real, s: LimitValue, h: seq<Instant>) {
    s.hits == if h == [] then [] else DropExpired(h, window, h[|h| - 1])
  }

  lemma {:induction false} SlidingFollows(limit: nat, window: real, s: LimitValue, h: seq<Instant>, now: Instant)
    requires window > 0.0 && Sorted(h) && NotAfter(h, now) && SlidingHolds(window, s, h)
    ensures SlidingStep(limit, window, s, now).ok <==> SlidingDecides(limit, window, h, now)
    ensures SlidingStep(limit, window, s, now).ok ==> SlidingHolds(window, SlidingStep(limit, window, s, now).next, h + [now])
  {
    SlidingSees(limit, window, window, s, h, now);
    DropAppend(h, window, now);
  }

  /** A deque that was pruned by a longer window answers for a shorter one as well. */
  lemma {:induction false} SlidingSees(limit: nat, longer: real, window: real, s: LimitValue, h: seq<Instant>, now: Instant)
    requires 0.0 < window <= longer && Sorted(h) && NotAfter(h, now) && SlidingHolds(longer, s, h)
    ensures DropExpired(s.hits, window, now) == DropExpired(h, window, now)
    ensures SlidingStep(limit, window, s, now).ok <==> SlidingDecides(limit, window, h, now)
  {
    if h != [] {
      DropTwice(h, longer, window, h[|h| - 1], now);
    }
    DropCounts(h, window, now);
  }

  lemma {:induction false} SlidingReplay(rule: Rule, h: seq<Instant>)
    requires Lawful(SlidingWindow, rule, h)
    ensures SlidingHolds(WindowSeconds(rule), Replay(SlidingWindow, rule, h), h)
  {
    if h != [] {
      var n := |h| - 1;
      assert AllowedAt(SlidingWindow, rule, h, n);
      LawfulPrefix(SlidingWindow, rule, h, n);
      SlidingReplay(rule, h[..n]);
      assert h[..n] + [h[n]] == h;
      SlidingFollows(rule.limit, WindowSeconds(rule), Replay(SlidingWindow, rule, h[..n]), h[..n], h[n]);
    }
  }

  lemma {:induction false} SlidingStretch(rule: Rule, h: seq<Instant>, i: nat, j: nat)
    requires Lawful(SlidingWindow, rule, h) && i <= j < |h|
    requires h[j] - h[i] < WindowSeconds(rule)
    ensures j - i + 1 <= rule.limit
  {
    var live := LiveAt(h[j], WindowSeconds(rule));
    assert AllowedAt(SlidingWindow, rule, h, j);
    CountAll(h[i..j], live);
    CountAppend(h[..i], h[i..j], live);
    assert h[..i] + h[i..j] == h[..j];
  }

  // --- All policies ---

  /** A state reached through lawful accepts answers exactly as their history does. */
  lemma {:induction false} ReplayDecides(policy: Policy, rule: Rule, h: seq<Instant>, now: Instant)
    requires Lawful(policy, rule, h) && NotAfter(h, now)
    ensures PolicyStep(policy, rule, Replay(policy, rule, h), now).ok <==> Decides(policy, rule, h, now)
  {
    match policy
    case TokenBucket =>
      BucketReplay(rule, h);
      BucketFollows(rule.limit as real, RefillRate(rule), Replay(policy, rule, h), h, now);
    case FixedWindow =>
      FixedReplay(rule, h);
      FixedFollows(rule.limit, WindowSeconds(rule), Replay(policy, rule, h), h, now);
    case SlidingWindow =>
      SlidingReplay(rule, h);
      SlidingFollows(rule.limit, WindowSeconds(rule), Replay(policy, rule, h), h, now);
  }
}
