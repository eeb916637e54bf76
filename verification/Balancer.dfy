/** Target selection: gateway-core-rust/src/balancer.rs. */
module Balancer {
  import opened Wrappers
  import opened MachineInts

  datatype Strategy = RoundRobin | LeastConnections | Hash

  datatype Target = Target(id: string, address: string, activeConnections: nat, weight: u32)

  /** The sum of the weights before `n`, without wrap-around. */
  ghost function Prefix(targets: seq<Target>, n: nat): nat
    requires n <= |targets|
  {
    if n == 0 then 0 else Prefix(targets, n - 1) + targets[n - 1].weight
  }

  ghost function Total(targets: seq<Target>): nat {
    Prefix(targets, |targets|)
  }

  /** The `u32` sum of a release build, which wraps. */
  method TotalWeight(targets: seq<Target>) returns (total: u32)
    ensures total == Total(targets) % TWO_32
  {
    total := 0;
    for n := 0 to |targets|
      invariant total == Prefix(targets, n) % TWO_32
    {
      total := (total + targets[n].weight) % TWO_32;
    }
  }

  /** Target `i` owns the cursors from the weights before it up to its own. */
  ghost predicate Owns(targets: seq<Target>, i: nat, cursor: nat) {
    i < |targets| && Prefix(targets, i) <= cursor < Prefix(targets, i + 1)
  }

  lemma {:induction false} PrefixMonotone(targets: seq<Target>, m: nat, n: nat)
    requires m <= n <= |targets|
    ensures Prefix(targets, m) <= Prefix(targets, n)
  {
    if m < n {
      PrefixMonotone(targets, m, n - 1);
    }
  }

  lemma {:induction false} OwnerIsUnique(targets: seq<Target>, i: nat, j: nat, cursor: nat)
    requires Owns(targets, i, cursor) && Owns(targets, j, cursor)
    ensures i == j
  {
    if i < j {
      PrefixMonotone(targets, i + 1, j);
    } else if j < i {
      PrefixMonotone(targets, j + 1, i);
    }
  }

  /** Some target owns every cursor below the total. */
  lemma {:induction false} OwnerExists(targets: seq<Target>, cursor: nat, n: nat) returns (i: nat)
    requires n <= |targets| && cursor < Prefix(targets, n)
    ensures i < n && Owns(targets, i, cursor)
  {
    if cursor < Prefix(targets, n - 1) {
      i := OwnerExists(targets, cursor, n - 1);
    } else {
      i := n - 1;
    }
  }

  /** The cursor for a seed, when the weights do not add up to a multiple of 2^32. */
  ghost function Cursor(targets: seq<Target>, seed: nat): nat
    requires Total(targets) % TWO_32 != 0
  {
    (seed % TWO_32) % (Total(targets) % TWO_32)
  }

  /** The target a seed selects: the owner of its cursor. */
  ghost predicate Picks(targets: seq<Target>, seed: nat, i: nat) {
    Total(targets) % TWO_32 != 0 && Owns(targets, i, Cursor(targets, seed))
  }

  /** The index a seed selects, if any. */
  ghost function WeightedChoice(targets: seq<Target>, seed: nat): (r: Option<nat>)
    ensures r.None? <==> Total(targets) % TWO_32 == 0
    ensures r.Some? ==> Picks(targets, seed, r.value)
  {
    if Total(targets) % TWO_32 == 0 then None
    else
      CursorBelowTotal(targets, seed);
      ghost var owner := Owner(targets, Cursor(targets, seed));
      Some(owner)
  }

  lemma {:induction false} CursorBelowTotal(targets: seq<Target>, seed: nat)
    requires Total(targets) % TWO_32 != 0
    ensures Cursor(targets, seed) < Total(targets) % TWO_32 <= Total(targets)
  {
  }

  ghost function Owner(targets: seq<Target>, cursor: nat): (i: nat)
    requires cursor < Total(targets)
    ensures Owns(targets, i, cursor)
  {
    assert exists i: nat :: Owns(targets, i, cursor) by {
      var i := OwnerExists(targets, cursor, |targets|);
    }
    var i: nat :| Owns(targets, i, cursor);
    i
  }

  /**
   The walk of lines 56-76. The cursor never goes below zero, the `None` after the loop is never
   reached, and `None` is returned exactly when the wrapped sum is zero.
   */
  method PickWeighted(targets: seq<Target>, seed: nat) returns (picked: Option<nat>)
    ensures picked == WeightedChoice(targets, seed)
    ensures picked.Some? ==> targets[picked.value].weight > 0
  {
    var total := TotalWeight(targets);
    if total == 0 {
      return None;
    }
    var cursor: u32 := (seed % TWO_32) % total;
    ghost var start := cursor;
    CursorBelowTotal(targets, seed);
    for n := 0 to |targets|
      invariant cursor + Prefix(targets, n) == start < Total(targets)
    {
      if targets[n].weight == 0 {
        continue;
      }
      if cursor < targets[n].weight {
        OwnerIsUnique(targets, n, Owner(targets, start), start);
        return Some(n);
      }
      cursor := cursor - targets[n].weight;
    }
    assert false;
  }

  /** Line 42: static connection count per unit of weight. */
  function Load(target: Target): nat
    requires target.weight > 0
  {
    target.activeConnections / target.weight
  }

  /** The first target of least load among those with positive weight (`filter` and `min_by_key`). */
  function LeastLoaded(targets: seq<Target>): (r: Option<nat>)
    ensures r.None? <==> forall i | 0 <= i < |targets| :: targets[i].weight == 0
    ensures r.Some? ==> r.value < |targets| && targets[r.value].weight > 0
    ensures r.Some? ==> forall i | 0 <= i < |targets| && targets[i].weight > 0 ::
                          if i < r.value then Load(targets[r.value]) < Load(targets[i])
                          else Load(targets[r.value]) <= Load(targets[i])
  {
    if targets == [] then None
    else
      var last := |targets| - 1;
      var best := LeastLoaded(targets[..last]);
      assert forall i | 0 <= i < last :: targets[..last][i] == targets[i];
      if targets[last].weight == 0 then best
      else if best.None? || Load(targets[last]) < Load(targets[best.value]) then Some(last)
      else best
  }

  /** Lines 26-54. The hash of the standard library is the argument `hash`. */
  ghost function Selection(
    strategy: Strategy, targets: seq<Target>, requestKey: Option<string>, requestCount: nat, hash: string -> nat)
    : Option<nat>
  {
    match strategy
    case RoundRobin => WeightedChoice(targets, requestCount)
    case LeastConnections => LeastLoaded(targets)
    case Hash =>
      if requestKey.None? then None else WeightedChoice(targets, hash(requestKey.value))
  }

  method SelectTarget(
    strategy: Strategy, targets: seq<Target>, requestKey: Option<string>, requestCount: nat, hash: string -> nat)
    returns (selected: Option<nat>)
    ensures selected == Selection(strategy, targets, requestKey, requestCount, hash)
    ensures selected.Some? ==> selected.value < |targets| && targets[selected.value].weight > 0
  {
    match strategy {
      case RoundRobin => selected := PickWeighted(targets, requestCount);
      case LeastConnections => selected := LeastLoaded(targets);
      case Hash =>
        if requestKey.None? {
          return None;
        }
        selected := PickWeighted(targets, hash(requestKey.value));
    }
  }

  // --- What is selected ---

  /** Round robin goes by the request count and nothing else. */
  lemma {:induction false} RoundRobinIff(
    targets: seq<Target>, requestKey: Option<string>, requestCount: nat, hash: string -> nat, i: nat)
    ensures Selection(RoundRobin, targets, requestKey, requestCount, hash) == Some(i) <==> Picks(targets, requestCount, i)
  {
    ChoiceIff(targets, requestCount, i);
  }

  /** Hashing needs a key and then goes by its hash and nothing else, so one key stays with one target of the same list. */
  lemma {:induction false} HashIff(
    targets: seq<Target>, requestKey: Option<string>, requestCount: nat, hash: string -> nat, i: nat)
    ensures Selection(Hash, targets, requestKey, requestCount, hash) == Some(i)
       <==> requestKey.Some? && Picks(targets, hash(requestKey.value), i)
  {
    if requestKey.Some? {
      ChoiceIff(targets, hash(requestKey.value), i);
    }
  }

  lemma {:induction false} ChoiceIff(targets: seq<Target>, seed: nat, i: nat)
    ensures WeightedChoice(targets, seed) == Some(i) <==> Picks(targets, seed, i)
  {
    if Picks(targets, seed, i) {
      OwnerIsUnique(targets, i, WeightedChoice(targets, seed).value, Cursor(targets, seed));
    }
  }

  /** The target is filled to level `k`, counted in connections per unit of weight, and no further. */
  ghost predicate AtLevel(target: Target, k: nat) {
    k * target.weight <= target.activeConnections < (k + 1) * target.weight
  }

  ghost predicate FilledTo(target: Target, k: nat) {
    k * target.weight <= target.activeConnections
  }

  /** Everything with weight is filled to level `k`, and everything before `i` beyond it. */
  ghost predicate NoneBelow(targets: seq<Target>, i: nat, k: nat) {
    forall j | 0 <= j < |targets| && targets[j].weight > 0 :: FilledTo(targets[j], if j < i then k + 1 else k)
  }

  lemma {:induction false} DivideIff(c: nat, w: nat, k: nat)
    requires w > 0
    ensures k <= c / w <==> k * w <= c
  {
    var q := c / w;
    assert c == q * w + c % w;
    assert (k - q) * w == k * w - q * w;
    MultipleOutgrows(k - q, w);
  }

  lemma {:induction false} LoadIff(target: Target, k: nat)
    requires target.weight > 0
    ensures k <= Load(target) <==> FilledTo(target, k)
    ensures Load(target) == k <==> AtLevel(target, k)
  {
    DivideIff(target.activeConnections, target.weight, k);
    DivideIff(target.activeConnections, target.weight, k + 1);
  }

  /** Least connections selects the first weighted target of the lowest level, told without division. */
  lemma {:induction false} LeastConnectionsIff(
    targets: seq<Target>, requestKey: Option<string>, requestCount: nat, hash: string -> nat, i: nat)
    ensures Selection(LeastConnections, targets, requestKey, requestCount, hash) == Some(i)
       <==> && i < |targets| && targets[i].weight > 0
            && exists k: nat :: AtLevel(targets[i], k) && NoneBelow(targets, i, k)
  {
    var r := LeastLoaded(targets);
    if r == Some(i) {
      LowestIsSelected(targets, i, Load(targets[i]));
    } else if i < |targets| && targets[i].weight > 0 {
      forall k: nat | AtLevel(targets[i], k)
        ensures !NoneBelow(targets, i, k)
      {
        LowestIsSelected(targets, i, k);
        LowestIsSelected(targets, r.value, Load(targets[r.value]));
      }
    }
  }

  lemma {:induction false} LowestIsSelected(targets: seq<Target>, i: nat, k: nat)
    requires i < |targets| && targets[i].weight > 0
    ensures AtLevel(targets[i], k) && NoneBelow(targets, i, k)
       <==> && Load(targets[i]) == k
            && forall j | 0 <= j < |targets| && targets[j].weight > 0 ::
                 if j < i then Load(targets[i]) < Load(targets[j]) else Load(targets[i]) <= Load(targets[j])
  {
    LoadIff(targets[i], k);
    forall j | 0 <= j < |targets| && targets[j].weight > 0
      ensures FilledTo(targets[j], k) <==> k <= Load(targets[j])
      ensures FilledTo(targets[j], k + 1) <==> k < Load(targets[j])
    {
      LoadIff(targets[j], k);
      LoadIff(targets[j], k + 1);
    }
  }

  // --- Fairness ---

  /** How many of the request counts from `start` on round robin answers with target `i`. */
  ghost function Served(
    targets: seq<Target>, i: nat, requestKey: Option<string>, hash: string -> nat, start: nat, n: nat): nat
  {
    if n == 0 then 0
    else
      Served(targets, i, requestKey, hash, start, n - 1)
      + if Selection(RoundRobin, targets, requestKey, start + n - 1, hash) == Some(i) then 1 else 0
  }

  lemma {:induction false} ServedIsTally(
    targets: seq<Target>, i: nat, requestKey: Option<string>, hash: string -> nat, start: nat, n: nat)
    ensures Served(targets, i, requestKey, hash, start, n) == Tally(targets, i, start, n)
  {
    if n > 0 {
      ServedIsTally(targets, i, requestKey, hash, start, n - 1);
      RoundRobinIff(targets, requestKey, start + n - 1, hash, i);
    }
  }

  /** How many of the seeds from `start` on select target `i`. */
  ghost function Tally(targets: seq<Target>, i: nat, start: nat, n: nat): nat {
    if n == 0 then 0
    else Tally(targets, i, start, n - 1) + if Picks(targets, start + n - 1, i) then 1 else 0
  }

  ghost predicate Summable(targets: seq<Target>) {
    0 < Total(targets) < TWO_32
  }

  /** No seed but the first is a multiple of 2^32. */
  predicate WithinBlock(start: nat, n: nat) {
    start % TWO_32 + n <= TWO_32
  }

  /** How much of the first `r` cursors target `i` owns. */
  ghost function Share(targets: seq<Target>, i: nat, r: nat): nat
    requires i < |targets|
  {
    var lo, hi := Prefix(targets, i), Prefix(targets, i + 1);
    if r <= lo then 0 else if r <= hi then r - lo else hi - lo
  }

  /** How many of the first `n` seeds of a block select target `i`. */
  ghost function BlockTally(targets: seq<Target>, i: nat, n: nat): nat
    requires Summable(targets)
  {
    if n == 0 then 0
    else BlockTally(targets, i, n - 1) + if Owns(targets, i, (n - 1) % Total(targets)) then 1 else 0
  }

  lemma {:induction false} MultipleOutgrows(d: int, w: nat)
    ensures d >= 1 ==> d * w >= w
    ensures d <= -1 ==> d * w + w <= 0
  {
  }

  lemma {:induction false} DivModUnique(n: nat, w: nat, q: int, r: nat)
    requires r < w && n == q * w + r
    ensures n / w == q && n % w == r
  {
    var d := n / w - q;
    assert n == n / w * w + n % w;
    assert d * w == n / w * w - q * w;
    MultipleOutgrows(d, w);
  }

  lemma {:induction false} DivModStep(n: nat, w: nat)
    requires w > 0
    ensures if n % w == w - 1
            then (n + 1) / w == n / w + 1 && (n + 1) % w == 0
            else (n + 1) / w == n / w && (n + 1) % w == n % w + 1
  {
    var q, r := n / w, n % w;
    assert n == q * w + r;
    if r == w - 1 {
      assert n + 1 == (q + 1) * w;
      DivModUnique(n + 1, w, q + 1, 0);
    } else {
      DivModUnique(n + 1, w, q, r + 1);
    }
  }

  lemma {:induction false} BlockTallyExact(targets: seq<Target>, i: nat, n: nat)
    requires Summable(targets) && i < |targets|
    ensures BlockTally(targets, i, n) == n / Total(targets) * targets[i].weight + Share(targets, i, n % Total(targets))
  {
    var w := Total(targets);
    if n == 0 {
      DivModUnique(0, w, 0, 0);
    } else {
      BlockTallyExact(targets, i, n - 1);
      DivModStep(n - 1, w);
      PrefixMonotone(targets, i + 1, |targets|);
      assert ((n - 1) / w + 1) * targets[i].weight == (n - 1) / w * targets[i].weight + targets[i].weight;
    }
  }

  lemma {:induction false} PicksInBlock(targets: seq<Target>, i: nat, block: nat, offset: nat)
    requires Summable(targets) && offset < TWO_32
    ensures Picks(targets, block * TWO_32 + offset, i) <==> Owns(targets, i, offset % Total(targets))
  {
    DivModUnique(block * TWO_32 + offset, TWO_32, block, offset);
    DivModUnique(Total(targets), TWO_32, 0, Total(targets));
  }

  /** Seeds of one block, counted by their offsets. */
  lemma {:induction false} TallyByOffset(targets: seq<Target>, i: nat, block: nat, offset: nat, n: nat)
    requires Summable(targets) && i < |targets| && offset + n <= TWO_32
    ensures Tally(targets, i, block * TWO_32 + offset, n)
         == BlockTally(targets, i, offset + n) - BlockTally(targets, i, offset)
  {
    if n > 0 {
      TallyByOffset(targets, i, block, offset, n - 1);
      PicksInBlock(targets, i, block, offset + n - 1);
    }
  }

  lemma {:induction false} ShareBounds(targets: seq<Target>, i: nat, r: nat, s: nat)
    requires i < |targets|
    ensures r <= s ==> 0 <= Share(targets, i, s) - Share(targets, i, r) <= targets[i].weight
    ensures s <= r ==> 0 <= Share(targets, i, r) - Share(targets, i, s) <= targets[i].weight
  {
  }

  function CeilDiv(n: nat, w: nat): nat
    requires w > 0
  {
    (n + w - 1) / w
  }

  /** A length whose ends differ by `k` periods and `r` cursors, rounded down and up. */
  lemma {:induction false} Rounding(n: nat, w: nat, k: int, r: int)
    requires 0 < r + w && r < w && n == k * w + r
    ensures n / w == if r >= 0 then k else k - 1
    ensures CeilDiv(n, w) == if r > 0 then k + 1 else k
  {
    assert (k - 1) * w == k * w - w && (k + 1) * w == k * w + w;
    if r > 0 {
      DivModUnique(n, w, k, r);
      DivModUnique(n + w - 1, w, k + 1, r - 1);
    } else if r == 0 {
      DivModUnique(n, w, k, 0);
      DivModUnique(n + w - 1, w, k, w - 1);
    } else {
      DivModUnique(n, w, k - 1, w + r);
      DivModUnique(n + w - 1, w, k, w + r - 1);
    }
  }

  /** `k` periods of `weight` each, corrected by the shares of the incomplete periods at both ends. */
  lemma {:induction false} SpreadBounds(n: nat, w: nat, weight: nat, k: int, r: int, correction: int)
    requires 0 < r + w && r < w && n == k * w + r
    requires r > 0 ==> 0 <= correction <= weight
    requires r == 0 ==> correction == 0
    requires r < 0 ==> correction <= 0 <= weight + correction
    ensures n / w * weight <= k * weight + correction <= CeilDiv(n, w) * weight
  {
    Rounding(n, w, k, r);
    assert (k - 1) * weight == k * weight - weight && (k + 1) * weight == k * weight + weight;
  }

  /**
   Any run of consecutive seeds inside a block spreads over the targets by weight:
   target `i` gets `n / total` times its weight, rounded down or up.
   */
  lemma {:induction false} TallyIsFair(targets: seq<Target>, i: nat, start: nat, n: nat)
    requires Summable(targets) && i < |targets| && WithinBlock(start, n)
    ensures n / Total(targets) * targets[i].weight
         <= Tally(targets, i, start, n)
         <= CeilDiv(n, Total(targets)) * targets[i].weight
  {
    var w, weight, a := Total(targets), targets[i].weight, start % TWO_32;
    assert start == start / TWO_32 * TWO_32 + a;
    TallyByOffset(targets, i, start / TWO_32, a, n);
    BlockTallyExact(targets, i, a);
    BlockTallyExact(targets, i, a + n);
    ShareBounds(targets, i, a % w, (a + n) % w);
    SpreadBetween(a, a + n, w, weight, Share(targets, i, a % w), Share(targets, i, (a + n) % w));
  }

  lemma {:induction false} SpreadBetween(a: nat, b: nat, w: nat, weight: nat, shareA: nat, shareB: nat)
    requires w > 0 && a <= b
    requires a % w <= b % w ==> 0 <= shareB - shareA <= weight
    requires b % w <= a % w ==> 0 <= shareA - shareB <= weight
    ensures (b - a) / w * weight
         <= (b / w * weight + shareB) - (a / w * weight + shareA)
         <= CeilDiv(b - a, w) * weight
  {
    var k, r := b / w - a / w, b % w - a % w;
    assert a == a / w * w + a % w && b == b / w * w + b % w;
    assert b / w * w - a / w * w == k * w;
    assert b / w * weight - a / w * weight == k * weight;
    SpreadBounds(b - a, w, weight, k, r, shareB - shareA);
  }

  lemma {:induction false} TallyOfPeriod(targets: seq<Target>, i: nat, start: nat)
    requires Summable(targets) && i < |targets| && WithinBlock(start, Total(targets))
    ensures Tally(targets, i, start, Total(targets)) == targets[i].weight
  {
    var w := Total(targets);
    TallyIsFair(targets, i, start, w);
    DivModUnique(w, w, 1, 0);
    DivModUnique(2 * w - 1, w, 1, w - 1);
  }

  /** Consecutive requests inside a block are answered with target `i` as often as its weight asks for, rounded down or up. */
  lemma {:induction false} FairShare(
    targets: seq<Target>, i: nat, requestKey: Option<string>, hash: string -> nat, start: nat, n: nat)
    requires Summable(targets) && i < |targets| && WithinBlock(start, n)
    ensures n / Total(targets) * targets[i].weight
         <= Served(targets, i, requestKey, hash, start, n)
         <= CeilDiv(n, Total(targets)) * targets[i].weight
  {
    ServedIsTally(targets, i, requestKey, hash, start, n);
    TallyIsFair(targets, i, start, n);
  }

  /** A full period inside a block is answered with every target exactly `weight` times. */
  lemma {:induction false} PeriodIsExact(
    targets: seq<Target>, i: nat, requestKey: Option<string>, hash: string -> nat, start: nat)
    requires Summable(targets) && i < |targets| && WithinBlock(start, Total(targets))
    ensures Served(targets, i, requestKey, hash, start, Total(targets)) == targets[i].weight
  {
    ServedIsTally(targets, i, requestKey, hash, start, Total(targets));
    TallyOfPeriod(targets, i, start);
  }
}
