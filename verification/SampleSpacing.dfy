/** How far apart neighbouring samples can be: what a compaction does to the largest gap between them. */
module SampleSpacing {
  import opened Bytes
  import opened SampleCompaction

  /** Neighbours in the list differ by at most `g`. */
  ghost predicate GapsWithin(xs: seq<u64>, g: nat) {
    forall i :: 0 < i < |xs| ==> xs[i] - xs[i - 1] <= g
  }

  // ---------------------------------------------------------------------
  // Targets and nearest neighbours
  // ---------------------------------------------------------------------

  /** Interpolating over `c` steps of at most `d` moves by at most `d` from one step to the next. */
  lemma StepOfQuotients(a: nat, i: nat, c: nat, d: nat)
    requires 0 < i && c > 0 && a <= d * c
    ensures a * i / c - a * (i - 1) / c <= d
  {
    var q, r := a * (i - 1) / c, a * (i - 1) % c;
    assert a * (i - 1) == c * q + r;
    assert a * i == a * (i - 1) + a;
    QuotientBelow(a * i, c, q + d);
  }

  lemma QuotientBelow(x: nat, c: nat, q: nat)
    requires c > 0 && x < c * q + c
    ensures x / c <= q
  {
    var p := x / c;
    MulMonotone(c, q + 1, p);
    assert c * p <= x < c * (q + 1) by {
      assert x == c * p + x % c;
      assert c * (q + 1) == c * q + c;
    }
  }

  lemma TargetStep(first: u64, last: u64, i: nat, cap: nat, d: nat)
    requires first <= last && 0 < i < cap && cap >= 2 && last - first <= d * (cap - 1)
    ensures InterpolatedPosition(first, last, i, cap) - InterpolatedPosition(first, last, i - 1, cap) <= d
  {
    StepOfQuotients(last - first, i, cap - 1, d);
    InterpolatedQuotient(first, last, i, cap);
    InterpolatedQuotient(first, last, i - 1, cap);
  }

  lemma InterpolatedQuotient(first: u64, last: u64, i: nat, cap: nat)
    requires first <= last && i < cap && cap >= 2
    ensures InterpolatedPosition(first, last, i, cap) == first + (last - first) * i / (cap - 1)
  {
    if i == 0 {
      assert (last - first) * i == 0;
    } else if i == cap - 1 {
      WholeQuotient(last - first, cap - 1);
    }
  }

  lemma WholeQuotient(a: nat, c: nat)
    requires c > 0
    ensures a * c / c == a
  {
    var x := a * c;
    var p := x / c;
    MulMonotone(c, a + 1, p);
    MulMonotone(c, p + 1, a);
    assert c * p <= x < c * (p + 1) by {
      assert x == c * p + x % c;
      assert c * (p + 1) == c * p + c;
    }
    assert x == c * a && c * (a + 1) == c * a + c;
  }

  /** In a list without large gaps, something is near every target it spans. */
  lemma NearestIsClose(xs: seq<u64>, target: u64, prev: nat, n: nat, g: nat)
    requires NonDecreasing(xs) && GapsWithin(xs, g) && NearestFrom(xs, target, prev, n)
    requires xs[prev] <= target <= xs[|xs| - 1]
    ensures 2 * AbsDiff(xs[n], target) <= g
  {
    var i := prev;
    while i + 1 < |xs| && xs[i + 1] <= target
      invariant prev <= i < |xs| && xs[i] <= target
    {
      i := i + 1;
    }
    assert AbsDiff(xs[n], target) <= AbsDiff(xs[i], target);
    if i + 1 < |xs| { assert AbsDiff(xs[n], target) <= AbsDiff(xs[i + 1], target); }
  }

  // ---------------------------------------------------------------------
  // One selection
  // ---------------------------------------------------------------------

  function Target(xs: seq<u64>, i: nat, cap: nat): u64
    requires xs != [] && xs[0] <= xs[|xs| - 1] && i < cap && cap >= 2
  {
    InterpolatedPosition(xs[0], xs[|xs| - 1], i, cap)
  }

  /** Pick `i` is as far along as later picks allow, or not far below its target. */
  ghost predicate Caught(xs: seq<u64>, cap: nat, i: nat, pick: nat, g: nat)
    requires NonDecreasing(xs) && i < cap && 2 <= cap < |xs|
  {
    pick < |xs| && (pick == |xs| - (cap - i) || 2 * xs[pick] + g >= 2 * Target(xs, i, cap))
  }

  lemma PickGap(xs: seq<u64>, cap: nat, i: nat, prev: nat, pick: nat, g: nat, d: nat)
    requires NonDecreasing(xs) && GapsWithin(xs, g) && 0 < i < cap - 1 && cap < |xs|
    requires Target(xs, i, cap) - Target(xs, i - 1, cap) <= d
    requires Caught(xs, cap, i - 1, prev, g) && PickStep(xs, cap, i, prev, pick)
    ensures Caught(xs, cap, i, pick, g) && xs[pick] - xs[prev] <= g + d
  {
    var target, limit := Target(xs, i, cap), |xs| - (cap - i);
    var n: nat :| NearestFrom(xs, target, prev, n) && pick == Min(Max(n, prev + 1), limit);
    if prev + 1 == limit {
      assert pick == prev + 1 && xs[pick] - xs[pick - 1] <= g;
    } else {
      PickValue(xs, target, Target(xs, i - 1, cap), prev, n, Max(n, prev + 1), g, d);
      assert pick == limit || pick == Max(n, prev + 1);
      assert xs[pick] <= xs[Max(n, prev + 1)];
    }
  }

  /** Where the neighbour of a target lies when the previous pick is not far below its own. */
  lemma PickValue(xs: seq<u64>, target: u64, before: u64, prev: nat, n: nat, far: nat, g: nat, d: nat)
    requires NonDecreasing(xs) && GapsWithin(xs, g) && NearestFrom(xs, target, prev, n) && target <= xs[|xs| - 1]
    requires prev + 1 < |xs| && far == Max(n, prev + 1) && 2 * xs[prev] + g >= 2 * before && target - before <= d
    ensures xs[far] - xs[prev] <= g + d
    ensures 2 * xs[far] + g >= 2 * target
  {
    assert xs[prev + 1] - xs[(prev + 1) - 1] <= g;
    assert xs[prev] <= xs[n] <= xs[far];
    if xs[prev] >= target {
      assert AbsDiff(xs[n], target) <= AbsDiff(xs[prev], target);
    } else {
      NearestIsClose(xs, target, prev, n, g);
    }
  }

  lemma {:induction false} PicksCaught(xs: seq<u64>, cap: nat, picks: seq<nat>, i: nat, g: nat, d: nat)
    requires NonDecreasing(xs) && GapsWithin(xs, g) && 2 <= cap < |xs| && IsSelection(xs, cap, picks)
    requires xs[|xs| - 1] - xs[0] <= d * (cap - 1) && i < cap - 1
    ensures Caught(xs, cap, i, picks[i], g) && (i > 0 ==> xs[picks[i]] - xs[picks[i - 1]] <= g + d)
    decreases i
  {
    if i > 0 {
      PicksCaught(xs, cap, picks, i - 1, g, d);
      assert PickStep(xs, cap, i, picks[i - 1], picks[i]);
      TargetStep(xs[0], xs[|xs| - 1], i, cap, d);
      PickGap(xs, cap, i, picks[i - 1], picks[i], g, d);
    }
  }

  /** Spreading `cap` picks over the list widens its gaps by at most one share of its span. */
  lemma SelectionGap(xs: seq<u64>, cap: nat, picks: seq<nat>, i: nat, g: nat, d: nat)
    requires NonDecreasing(xs) && GapsWithin(xs, g) && 2 <= cap < |xs| && IsSelection(xs, cap, picks)
    requires xs[|xs| - 1] - xs[0] <= d * (cap - 1) && 0 < i < cap
    ensures picks[i - 1] < |xs| && picks[i] < |xs| && xs[picks[i]] - xs[picks[i - 1]] <= g + d
  {
    EndsBoundPicks(picks, |xs|);
    if i < cap - 1 {
      PicksCaught(xs, cap, picks, i, g, d);
    } else {
      PicksCaught(xs, cap, picks, i - 1, g, d);
      TargetStep(xs[0], xs[|xs| - 1], i, cap, d);
      var prev := picks[i - 1];
      if prev == |xs| - (cap - (i - 1)) { assert xs[prev + 1] - xs[prev] <= g; }
    }
  }

  // ---------------------------------------------------------------------
  // One compaction
  // ---------------------------------------------------------------------

  /** A compaction widens the byte gaps between samples by at most one share of the span they cover. */
  lemma CompactionGap(samples: seq<Sample>, cap: nat, picks: seq<nat>, g: nat, d: nat)
    requires Monotone(samples) && 2 <= cap < |samples| && IsKept(samples, cap, picks)
    requires var bytes := Positions(samples, ByteAxis);
             GapsWithin(bytes, g) && bytes[|bytes| - 1] - bytes[0] <= d * (cap - 1)
    ensures GapsWithin(Positions(Gather(samples, picks), ByteAxis), g + d)
  {
    var bytes := Positions(samples, ByteAxis);
    var kept := Positions(Gather(samples, picks), ByteAxis);
    forall i | 0 < i < |kept| ensures kept[i] - kept[i - 1] <= g + d {
      KeptGap(samples, cap, picks, bytes, i, g, d);
      assert kept[i] == bytes[picks[i]] && kept[i - 1] == bytes[picks[i - 1]];
    }
  }

  lemma KeptGap(samples: seq<Sample>, cap: nat, picks: seq<nat>, bytes: seq<u64>, i: nat, g: nat, d: nat)
    requires Monotone(samples) && 2 <= cap < |samples| && IsKept(samples, cap, picks) && 0 < i < cap
    requires bytes == Positions(samples, ByteAxis)
    requires GapsWithin(bytes, g) && bytes[|bytes| - 1] - bytes[0] <= d * (cap - 1)
    ensures bytes[picks[i]] - bytes[picks[i - 1]] <= g + d
  {
    if CompactionAxis(samples) == ByteAxis {
      var nearest := ChoiceBehind(samples, cap, picks, bytes);
      SelectionGap(bytes, cap, nearest, i, g, d);
      assert bytes[picks[i]] == bytes[nearest[i]] && bytes[picks[i - 1]] == bytes[nearest[i - 1]];
    } else {
      SpanlessGap(bytes, picks[i - 1], picks[i]);
    }
  }

  /** The nearest-neighbour choice whose byte positions the kept samples have. */
  lemma ChoiceBehind(samples: seq<Sample>, cap: nat, picks: seq<nat>, bytes: seq<u64>) returns (nearest: seq<nat>)
    requires Monotone(samples) && 2 <= cap < |samples| && IsKept(samples, cap, picks)
    requires bytes == Positions(samples, ByteAxis) && CompactionAxis(samples) == ByteAxis
    ensures IsSelection(bytes, cap, nearest) && SameValues(bytes, picks, nearest)
  {
    nearest :| IsSelection(bytes, cap, nearest) && SameValues(bytes, picks, nearest);
  }

  lemma SpanlessGap(xs: seq<u64>, a: nat, b: nat)
    requires NonDecreasing(xs) && a < |xs| && b < |xs| && xs[0] == xs[|xs| - 1]
    ensures xs[b] == xs[a]
  {
    assert xs[0] <= xs[a] <= xs[|xs| - 1] && xs[0] <= xs[b] <= xs[|xs| - 1];
  }
}
