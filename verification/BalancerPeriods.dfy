/** When weighted round robin is exact on every period, also across a multiple of 2^32. */
module BalancerPeriods {
  import opened Wrappers
  import opened MachineInts
  import opened Balancer

  /** Every target is selected exactly `weight` times on every period, wherever it starts. */
  ghost predicate ExactOnEveryPeriod(targets: seq<Target>, requestKey: Option<string>, hash: string -> nat) {
    forall i: nat, start: nat | i < |targets| ::
      Served(targets, i, requestKey, hash, start, Total(targets)) == targets[i].weight
  }

  predicate AtMostOnePositive(targets: seq<Target>) {
    forall i, j | 0 <= i < j < |targets| :: targets[i].weight == 0 || targets[j].weight == 0
  }

  // --- The total divides 2^32 ---

  lemma {:induction false} CursorWithoutWrap(targets: seq<Target>, seed: nat)
    requires Summable(targets) && TWO_32 % Total(targets) == 0
    ensures Cursor(targets, seed) == seed % Total(targets)
  {
    var w := Total(targets);
    var m, block, offset := TWO_32 / w, seed / TWO_32, seed % TWO_32;
    DivModUnique(w, TWO_32, 0, w);
    assert TWO_32 == m * w;
    assert seed == block * TWO_32 + offset;
    RegroupBlocks(block, m, w, offset);
    DivModUnique(seed, w, block * m + offset / w, offset % w);
  }

  lemma {:induction false} RegroupBlocks(block: nat, m: nat, w: nat, offset: nat)
    requires w > 0
    ensures block * (m * w) + offset == (block * m + offset / w) * w + offset % w
  {
    assert offset == offset / w * w + offset % w;
    assert block * (m * w) == block * m * w;
    assert (block * m + offset / w) * w == block * m * w + offset / w * w;
  }

  lemma {:induction false} TallyWithoutWrap(targets: seq<Target>, i: nat, start: nat, n: nat)
    requires Summable(targets) && TWO_32 % Total(targets) == 0 && i < |targets|
    ensures Tally(targets, i, start, n) == BlockTally(targets, i, start + n) - BlockTally(targets, i, start)
  {
    if n > 0 {
      TallyWithoutWrap(targets, i, start, n - 1);
      CursorWithoutWrap(targets, start + n - 1);
      DivModUnique(Total(targets), TWO_32, 0, Total(targets));
    }
  }

  lemma {:induction false} DivisorIsExact(targets: seq<Target>, i: nat, start: nat)
    requires Summable(targets) && TWO_32 % Total(targets) == 0 && i < |targets|
    ensures Tally(targets, i, start, Total(targets)) == targets[i].weight
  {
    var w := Total(targets);
    TallyWithoutWrap(targets, i, start, w);
    BlockTallyExact(targets, i, start);
    BlockTallyExact(targets, i, start + w);
    NextPeriod(start, w, targets[i].weight);
  }

  lemma {:induction false} NextPeriod(start: nat, w: nat, weight: nat)
    requires w > 0
    ensures (start + w) % w == start % w
    ensures (start + w) / w * weight == start / w * weight + weight
  {
    var q := start / w;
    assert start == q * w + start % w;
    assert start + w == (q + 1) * w + start % w;
    DivModUnique(start + w, w, q + 1, start % w);
    assert (q + 1) * weight == q * weight + weight;
  }

  // --- One target has all the weight ---

  lemma {:induction false} PrefixOfZeros(targets: seq<Target>, m: nat, n: nat)
    requires m <= n <= |targets| && forall k | m <= k < n :: targets[k].weight == 0
    ensures Prefix(targets, n) == Prefix(targets, m)
  {
    if m < n {
      PrefixOfZeros(targets, m, n - 1);
    }
  }

  lemma {:induction false} LoneTargetOwnsAll(targets: seq<Target>, i: nat, cursor: nat)
    requires AtMostOnePositive(targets) && i < |targets| && cursor < Total(targets)
    ensures Owns(targets, i, cursor) <==> targets[i].weight > 0
    ensures targets[i].weight == 0 || targets[i].weight == Total(targets)
  {
    if targets[i].weight > 0 {
      PrefixOfZeros(targets, 0, i);
      PrefixOfZeros(targets, i + 1, |targets|);
    }
  }

  lemma {:induction false} LoneTargetTally(targets: seq<Target>, i: nat, start: nat, n: nat)
    requires Summable(targets) && AtMostOnePositive(targets) && i < |targets|
    ensures Tally(targets, i, start, n) == if targets[i].weight > 0 then n else 0
  {
    if n > 0 {
      LoneTargetTally(targets, i, start, n - 1);
      DivModUnique(Total(targets), TWO_32, 0, Total(targets));
      CursorBelowTotal(targets, start + n - 1);
      LoneTargetOwnsAll(targets, i, Cursor(targets, start + n - 1));
    }
  }

  // --- Neither ---

  /** Moving a period on by one seed loses the first and gains the one after the last. */
  lemma {:induction false} TallyShift(targets: seq<Target>, i: nat, start: nat, n: nat)
    ensures Tally(targets, i, start + 1, n) + (if Picks(targets, start, i) then 1 else 0)
         == Tally(targets, i, start, n) + if Picks(targets, start + n, i) then 1 else 0
  {
    if n > 0 {
      TallyShift(targets, i, start, n - 1);
    }
  }

  /** The target that owns cursor zero owns exactly the cursors below its weight, and not all of them. */
  lemma {:induction false} FirstOwner(targets: seq<Target>) returns (a: nat)
    requires Summable(targets) && !AtMostOnePositive(targets)
    ensures a < |targets| && 0 < targets[a].weight < Total(targets)
    ensures forall cursor: nat :: Owns(targets, a, cursor) <==> cursor < targets[a].weight
  {
    a := Owner(targets, 0);
    var i, j :| 0 <= i < j < |targets| && targets[i].weight > 0 && targets[j].weight > 0;
    if i < a {
      PrefixMonotone(targets, i + 1, a);
    }
    PrefixMonotone(targets, a + 1, j);
    PrefixMonotone(targets, j + 1, |targets|);
  }

  /** Near the end of a block of 2^32 seeds the period slips by the remainder of the division. */
  lemma {:induction false} SlippedTally(targets: seq<Target>) returns (a: nat, start: nat)
    requires Summable(targets) && TWO_32 % Total(targets) != 0 && !AtMostOnePositive(targets)
    ensures a < |targets|
    ensures Tally(targets, a, start + 1, Total(targets)) == Tally(targets, a, start, Total(targets)) + 1
  {
    var w := Total(targets);
    var slip := TWO_32 % w;
    a := FirstOwner(targets);
    var weight := targets[a].weight;
    var j: nat := if slip >= weight then 0 else weight - slip;
    start := TWO_32 - w + j;
    TallyShift(targets, a, start, w);
    SlippedCursor(w, j);
    PicksInBlock(targets, a, 0, start);
    DivModUnique(j, w, 0, j);
    PicksInBlock(targets, a, 1, j);
    assert start + w == 1 * TWO_32 + j;
  }

  /** The cursor one period before `j` seeds into the next block. */
  lemma {:induction false} SlippedCursor(w: nat, j: nat)
    requires 0 < w < TWO_32 && TWO_32 % w + j < w
    ensures (TWO_32 - w + j) % w == TWO_32 % w + j
  {
    var m, slip := TWO_32 / w, TWO_32 % w;
    assert TWO_32 == m * w + slip;
    assert (m - 1) * w == m * w - w;
    DivModUnique(TWO_32 - w + j, w, m - 1, slip + j);
  }

  /** Two neighbouring periods then differ by one request. */
  lemma {:induction false} SlippedPeriod(targets: seq<Target>, requestKey: Option<string>, hash: string -> nat)
    returns (a: nat, start: nat)
    requires Summable(targets) && TWO_32 % Total(targets) != 0 && !AtMostOnePositive(targets)
    ensures a < |targets|
    ensures Served(targets, a, requestKey, hash, start + 1, Total(targets))
         == Served(targets, a, requestKey, hash, start, Total(targets)) + 1
  {
    a, start := SlippedTally(targets);
    ServedIsTally(targets, a, requestKey, hash, start, Total(targets));
    ServedIsTally(targets, a, requestKey, hash, start + 1, Total(targets));
  }

  /** Weighted round robin is exact on every period exactly when the total divides 2^32 or one target has all the weight. */
  lemma {:induction false} ExactIff(targets: seq<Target>, requestKey: Option<string>, hash: string -> nat)
    requires Summable(targets)
    ensures ExactOnEveryPeriod(targets, requestKey, hash) <==> TWO_32 % Total(targets) == 0 || AtMostOnePositive(targets)
  {
    if TWO_32 % Total(targets) == 0 || AtMostOnePositive(targets) {
      forall i: nat, start: nat | i < |targets|
        ensures Served(targets, i, requestKey, hash, start, Total(targets)) == targets[i].weight
      {
        ServedIsTally(targets, i, requestKey, hash, start, Total(targets));
        if TWO_32 % Total(targets) == 0 {
          DivisorIsExact(targets, i, start);
        } else {
          LoneTargetTally(targets, i, start, Total(targets));
          LoneTargetOwnsAll(targets, i, 0);
        }
      }
    } else {
      var a, start := SlippedPeriod(targets, requestKey, hash);
      assert Served(targets, a, requestKey, hash, start, Total(targets)) != targets[a].weight
          || Served(targets, a, requestKey, hash, start + 1, Total(targets)) != targets[a].weight;
    }
  }
}
