/** Lists of accept times, oldest first, and how many of them meet a condition. */
module History {
  import opened Clock

  ghost predicate Sorted(h: seq<Instant>) {
    forall i, j | 0 <= i <= j < |h| :: h[i] <= h[j]
  }

  ghost function Count(h: seq<Instant>, p: Instant -> bool): nat {
    if h == [] then 0
    else Count(h[..|h| - 1], p) + if p(h[|h| - 1]) then 1 else 0
  }

  /** The half-open interval from `a` to `b`. */
  ghost function HalfOpen(a: Instant, b: Instant): Instant -> bool {
    t => a <= t < b
  }

  /** The closed interval from `a` to `b`. */
  ghost function Closed(a: Instant, b: Instant): Instant -> bool {
    t => a <= t <= b
  }

  /** The times less than one window before `now`. */
  ghost function LiveAt(now: Instant, window: real): Instant -> bool {
    t => Elapsed(now, t) < window
  }

  /** All counted entries lie between some first and some last one. */
  lemma {:induction false} CountSpan(h: seq<Instant>, p: Instant -> bool) returns (i: nat, j: nat)
    requires Count(h, p) > 0
    ensures i <= j < |h| && p(h[i]) && p(h[j])
    ensures Count(h, p) <= j - i + 1
  {
    var rest := h[..|h| - 1];
    if Count(rest, p) > 0 {
      i, j := CountSpan(rest, p);
      if p(h[|h| - 1]) {
        j := |h| - 1;
      }
    } else {
      i, j := |h| - 1, |h| - 1;
    }
  }

  /** A bound on every stretch of close entries bounds every interval of that length. */
  lemma {:induction false} IntervalBound(h: seq<Instant>, window: real, bound: nat, from: Instant)
    requires Sorted(h)
    requires forall i, j | 0 <= i <= j < |h| && h[j] - h[i] < window :: j - i + 1 <= bound
    ensures Count(h, HalfOpen(from, from + window)) <= bound
  {
    if Count(h, HalfOpen(from, from + window)) > 0 {
      var i, j := CountSpan(h, HalfOpen(from, from + window));
    }
  }

  lemma {:induction false} CountAppend(h: seq<Instant>, t: seq<Instant>, p: Instant -> bool)
    ensures Count(h + t, p) == Count(h, p) + Count(t, p)
  {
    if t == [] {
      assert h + t == h;
    } else {
      assert (h + t)[..|h + t| - 1] == h + t[..|t| - 1];
      CountAppend(h, t[..|t| - 1], p);
    }
  }

  lemma {:induction false} CountAll(h: seq<Instant>, p: Instant -> bool)
    requires forall i | 0 <= i < |h| :: p(h[i])
    ensures Count(h, p) == |h|
  {
    if h != [] {
      CountAll(h[..|h| - 1], p);
    }
  }

  lemma {:induction false} CountNone(h: seq<Instant>, p: Instant -> bool)
    requires forall i | 0 <= i < |h| :: !p(h[i])
    ensures Count(h, p) == 0
  {
    if h != [] {
      CountNone(h[..|h| - 1], p);
    }
  }
}
