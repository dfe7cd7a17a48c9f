/** Halving a sample buffer while keeping it evenly spread: selection, plateau spreading, in-place move. */
module SampleCompaction {
  import opened Bytes
  import opened Sorting

  datatype Axis = RankAxis | ByteAxis

  /** A retained checkpoint: the key observed at `rank`, filed under a byte position. */
  datatype Sample = Sample(rank: u64, bytePosition: u64, key: Bytes) {
    function Position(axis: Axis): u64 {
      if axis == RankAxis then rank else bytePosition
    }
  }

  ghost predicate NonDecreasing(xs: seq<int>) {
    forall i, j :: 0 <= i <= j < |xs| ==> xs[i] <= xs[j]
  }

  ghost predicate Ascending(xs: seq<int>) {
    forall i, j :: 0 <= i < j < |xs| ==> xs[i] < xs[j]
  }

  function Positions(samples: seq<Sample>, axis: Axis): (r: seq<u64>)
    ensures |r| == |samples| && forall i :: 0 <= i < |r| ==> r[i] == samples[i].Position(axis)
  {
    seq(|samples|, i requires 0 <= i < |samples| => samples[i].Position(axis))
  }

  /** Ranks strictly increase and byte positions never decrease. */
  ghost predicate Monotone(samples: seq<Sample>) {
    && Ascending(Positions(samples, RankAxis))
    && NonDecreasing(Positions(samples, ByteAxis))
  }

  lemma PositionsNonDecreasing(samples: seq<Sample>, axis: Axis)
    requires Monotone(samples)
    ensures NonDecreasing(Positions(samples, axis))
  {
  }

  /** Strictly increasing indices into a buffer of `len` samples that keep both of its ends. */
  ghost predicate KeepsEnds(picks: seq<nat>, len: nat) {
    && Ascending(picks)
    && |picks| >= 2
    && picks[0] == 0
    && picks[|picks| - 1] == len - 1
  }

  lemma {:induction false} AscendingGap(picks: seq<int>, i: nat, j: nat)
    requires Ascending(picks) && i <= j < |picks|
    ensures picks[j] - picks[i] >= j - i
    decreases j - i
  {
    if i < j { AscendingGap(picks, i, j - 1); }
  }

  lemma StepsAscend(picks: seq<int>)
    requires forall k :: 0 < k < |picks| ==> picks[k - 1] < picks[k]
    ensures Ascending(picks)
  {
    forall i, j | 0 <= i < j < |picks| ensures picks[i] < picks[j] { StepsAscendTo(picks, i, j); }
  }

  lemma {:induction false} StepsAscendTo(picks: seq<int>, i: nat, j: nat)
    requires i < j < |picks|
    requires forall k :: 0 < k < |picks| ==> picks[k - 1] < picks[k]
    ensures picks[i] < picks[j]
    decreases j
  {
    assert picks[j - 1] < picks[j];
    if i < j - 1 { StepsAscendTo(picks, i, j - 1); }
  }

  function Min(a: int, b: int): int { if a <= b then a else b }
  function Max(a: int, b: int): int { if a >= b then a else b }

  // ---------------------------------------------------------------------
  // Interpolation and nearest neighbours
  // ---------------------------------------------------------------------

  lemma MulDivBound(a: nat, i: nat, d: nat)
    requires i <= d && d > 0
    ensures 0 <= a * i / d <= a
  {
    MulMonotone(a, i, d);
    DivBound(a * i, d, a);
  }

  lemma DivBound(x: nat, d: nat, a: nat)
    requires d > 0 && x <= a * d
    ensures x / d <= a
  {
    var q := x / d;
    MulMonotone(d, a + 1, q);
    assert d * q <= x < d * (a + 1) by {
      assert x == d * q + x % d;
      assert d * (a + 1) == a * d + d;
    }
  }

  lemma MulMonotone(k: nat, x: nat, y: nat)
    ensures x <= y ==> k * x <= k * y
  {
    assert k * y == k * x + k * (y - x);
  }

  /** The ideal position of pick `idx` out of `cap` picks spread over `[first, last]`. */
  function InterpolatedPosition(first: u64, last: u64, idx: nat, cap: nat): (r: u64)
    requires first <= last && idx < cap && cap >= 2
    ensures first <= r <= last
    ensures idx == 0 ==> r == first
    ensures idx == cap - 1 ==> r == last
  {
    if idx == 0 then first
    else if idx + 1 == cap then last
    else
      MulDivBound(last - first, idx, cap - 1);
      first + (last - first) * idx / (cap - 1)
  }

  /** No element of `xs` from `lo` on is closer to `target` than element `n`. */
  ghost predicate NearestFrom(xs: seq<u64>, target: u64, lo: nat, n: nat) {
    && lo <= n < |xs|
    && forall m :: lo <= m < |xs| ==> AbsDiff(xs[n], target) <= AbsDiff(xs[m], target)
  }

  /** Binary search for the element nearest to `target`; between two neighbours equally near, the earlier one. */
  function NearestIndex(xs: seq<u64>, target: u64): (r: nat)
    requires xs != []
    ensures r < |xs|
  {
    var idx := PartitionPoint(xs, (x: u64) => x < target);
    if idx == 0 then 0
    else if idx >= |xs| then |xs| - 1
    else if AbsDiff(xs[idx - 1], target) <= AbsDiff(xs[idx], target) then idx - 1
    else idx
  }

  lemma NearestIndexIsNearest(xs: seq<u64>, target: u64)
    requires xs != [] && NonDecreasing(xs)
    ensures NearestFrom(xs, target, 0, NearestIndex(xs, target))
    ensures var r := NearestIndex(xs, target);
            forall m :: 0 <= m < r && xs[m] < xs[r] ==> AbsDiff(xs[r], target) < AbsDiff(xs[m], target)
  {
    var idx := PartitionPoint(xs, (x: u64) => x < target);
    var r := NearestIndex(xs, target);
    forall m | 0 <= m < |xs|
      ensures AbsDiff(xs[r], target) <= AbsDiff(xs[m], target)
      ensures m < r && xs[m] < xs[r] ==> AbsDiff(xs[r], target) < AbsDiff(xs[m], target)
    {
      if m < idx {
        assert xs[m] <= xs[idx - 1] < target;
      } else {
        assert target <= xs[idx] <= xs[m];
      }
    }
  }

  // ---------------------------------------------------------------------
  // First selection phase
  // ---------------------------------------------------------------------

  /** `pick` is the neighbour of `target` at or after `prev`, pushed only as far as progress and room demand. */
  ghost predicate IsPick(xs: seq<u64>, target: u64, prev: nat, maxPick: nat, pick: nat) {
    exists n: nat :: NearestFrom(xs, target, prev, n) && pick == Min(Max(n, prev + 1), maxPick)
  }

  /** Pick `i` of `cap` follows the previous pick as the first phase prescribes. */
  ghost predicate PickStep(xs: seq<u64>, cap: nat, i: nat, prev: nat, pick: nat)
    requires NonDecreasing(xs) && 0 < i < cap - 1 && cap < |xs|
  {
    && prev < pick
    && IsPick(xs, InterpolatedPosition(xs[0], xs[|xs| - 1], i, cap), prev, |xs| - (cap - i), pick)
  }

  /** The outcome of the first phase. */
  ghost predicate IsSelection(xs: seq<u64>, cap: nat, picks: seq<nat>)
    requires NonDecreasing(xs) && 2 <= cap < |xs|
  {
    && |picks| == cap
    && KeepsEnds(picks, |xs|)
    && forall i :: 0 < i < cap - 1 ==> PickStep(xs, cap, i, picks[i - 1], picks[i])
  }

  /** The neighbour of `target` reached by moving a cursor forward from the previous pick. */
  method NearestForward(xs: seq<u64>, target: u64, start: nat) returns (pick: nat)
    requires NonDecreasing(xs) && start < |xs|
    ensures NearestFrom(xs, target, start, pick)
  {
    var cursor := start;
    while cursor + 1 < |xs| && xs[cursor + 1] < target
      invariant start <= cursor < |xs|
      invariant cursor > start ==> xs[cursor] < target
    {
      cursor := cursor + 1;
    }
    pick := cursor;
    if cursor + 1 < |xs| {
      var dCurr := AbsDiff(xs[cursor], target);
      var dNext := AbsDiff(xs[cursor + 1], target);
      pick := if dNext < dCurr then cursor + 1 else cursor;
    }
    forall m | start <= m < |xs| ensures AbsDiff(xs[pick], target) <= AbsDiff(xs[m], target) {
      if m <= cursor {
        assert xs[m] <= xs[cursor];
      } else {
        assert xs[cursor] <= xs[cursor + 1] <= xs[m];
      }
    }
  }

  /** One pick: the nearest neighbour, kept after the previous pick and clear of the room for later ones. */
  method NextPick(xs: seq<u64>, target: u64, prev: nat, maxPick: nat) returns (pick: nat)
    requires NonDecreasing(xs) && prev < maxPick < |xs|
    ensures prev < pick <= maxPick
    ensures IsPick(xs, target, prev, maxPick, pick)
  {
    var nearest := NearestForward(xs, target, prev);
    pick := nearest;
    if pick <= prev { pick := prev + 1; }
    if pick > maxPick { pick := maxPick; }
    assert pick == Min(Max(nearest, prev + 1), maxPick);
  }

  /** Nearest neighbours of evenly spaced targets, always moving forward. */
  method NearestPicks(xs: seq<u64>, cap: nat) returns (picks: seq<nat>)
    requires NonDecreasing(xs) && 2 <= cap < |xs|
    ensures IsSelection(xs, cap, picks)
  {
    var len := |xs|;
    picks := [0];
    for i := 1 to cap - 1
      invariant |picks| == i && picks[0] == 0
      invariant picks[i - 1] < len - (cap - i)
      invariant forall k :: 0 < k < i ==> PickStep(xs, cap, k, picks[k - 1], picks[k])
    {
      var target := InterpolatedPosition(xs[0], xs[len - 1], i, cap);
      var remaining := cap - i - 1;
      var pick := NextPick(xs, target, picks[i - 1], len - remaining - 1);
      assert PickStep(xs, cap, i, picks[i - 1], pick);
      picks := picks + [pick];
    }
    picks := picks + [len - 1];
    forall k | 0 < k < cap ensures picks[k - 1] < picks[k] {
      if k < cap - 1 { assert PickStep(xs, cap, k, picks[k - 1], picks[k]); }
    }
    StepsAscend(picks);
  }

  // ---------------------------------------------------------------------
  // Second selection phase: spreading clusters over their plateaus
  // ---------------------------------------------------------------------

  ghost predicate Within(picks: seq<nat>, len: nat) {
    forall i :: 0 <= i < |picks| ==> picks[i] < len
  }

  lemma EndsBoundPicks(picks: seq<nat>, len: nat)
    requires KeepsEnds(picks, len)
    ensures Within(picks, len)
  {
    assert forall i :: 0 <= i < |picks| ==> picks[i] <= picks[|picks| - 1];
  }

  /** Both lists pick the same axis values, pick by pick. */
  ghost predicate SameValues(xs: seq<u64>, a: seq<nat>, b: seq<nat>) {
    && |a| == |b| && Within(a, |xs|) && Within(b, |xs|)
    && forall i :: 0 <= i < |a| ==> xs[a[i]] == xs[b[i]]
  }

  /** `picks[a..b]` is a maximal run of picks on one plateau. */
  ghost predicate IsRun(xs: seq<u64>, picks: seq<nat>, a: nat, b: nat)
    requires Within(picks, |xs|)
  {
    && a < b <= |picks|
    && (forall i :: a <= i < b ==> xs[picks[i]] == xs[picks[a]])
    && (a > 0 ==> xs[picks[a - 1]] != xs[picks[a]])
    && (b < |picks| ==> xs[picks[b]] != xs[picks[a]])
  }

  /** Indices `lo` to `hi` are all the indices with one axis value. */
  ghost predicate IsPlateau(xs: seq<u64>, lo: nat, hi: nat) {
    && lo <= hi < |xs|
    && (forall m :: lo <= m <= hi ==> xs[m] == xs[lo])
    && (lo > 0 ==> xs[lo - 1] != xs[lo])
    && (hi + 1 < |xs| ==> xs[hi + 1] != xs[lo])
  }

  /** The whole plateau under a run of picks, which its neighbouring picks leave free. */
  method PlateauExtent(xs: seq<u64>, picks: seq<nat>, runStart: nat, runEnd: nat)
    returns (effStart: nat, effEnd: nat)
    requires NonDecreasing(xs) && KeepsEnds(picks, |xs|) && Within(picks, |xs|)
    requires IsRun(xs, picks, runStart, runEnd)
    ensures IsPlateau(xs, effStart, effEnd)
    ensures effStart <= picks[runStart] && picks[runEnd - 1] <= effEnd
    ensures if runStart > 0 then picks[runStart - 1] < effStart else effStart == 0
    ensures if runEnd < |picks| then effEnd < picks[runEnd] else effEnd == |xs| - 1
  {
    var value := xs[picks[runStart]];
    var pStart := picks[runStart];
    while pStart > 0 && xs[pStart - 1] == value
      invariant 0 <= pStart <= picks[runStart]
      invariant xs[pStart] == value
    {
      pStart := pStart - 1;
    }
    var pEnd := picks[runEnd - 1];
    while pEnd + 1 < |xs| && xs[pEnd + 1] == value
      invariant picks[runEnd - 1] <= pEnd < |xs|
      invariant xs[pEnd] == value
    {
      pEnd := pEnd + 1;
    }
    assert forall m :: pStart <= m <= pEnd ==> xs[pStart] <= xs[m] <= xs[pEnd];
    var lower := if runStart > 0 then picks[runStart - 1] + 1 else 0;
    var upper := if runEnd < |picks| then picks[runEnd] - 1 else |xs| - 1;
    effStart := Max(pStart, lower);
    effEnd := Min(pEnd, upper);
  }

  /** The index in `[lo, hi]` whose rank is nearest to `target`. */
  function NearestByRank(ranks: seq<u64>, lo: nat, hi: nat, target: u64): (r: nat)
    requires Ascending(ranks) && lo <= hi < |ranks|
    ensures lo <= r <= hi
    ensures forall m :: lo <= m <= hi ==> AbsDiff(ranks[r], target) <= AbsDiff(ranks[m], target)
    ensures target == ranks[lo] ==> r == lo
    ensures target == ranks[hi] ==> r == hi
  {
    var slice := ranks[lo..hi + 1];
    NearestIndexIsNearest(slice, target);
    assert forall m :: lo <= m <= hi ==> slice[m - lo] == ranks[m];
    lo + NearestIndex(slice, target)
  }

  /** The indices nearest to evenly spaced ranks over `[effStart, effEnd]`. */
  ghost predicate AreNearest(ranks: seq<u64>, effStart: nat, effEnd: nat, near: seq<nat>)
    requires Ascending(ranks) && effStart < effEnd < |ranks|
  {
    |near| >= 2 &&
    forall j :: 0 <= j < |near| ==>
      near[j] == NearestByRank(ranks, effStart, effEnd,
                   InterpolatedPosition(ranks[effStart], ranks[effEnd], j, |near|))
  }

  method NearestRanks(ranks: seq<u64>, effStart: nat, effEnd: nat, runLen: nat) returns (near: seq<nat>)
    requires Ascending(ranks) && effStart < effEnd < |ranks| && 2 <= runLen
    ensures |near| == runLen && near[0] == effStart && near[runLen - 1] == effEnd
    ensures forall j :: 0 <= j < runLen ==> effStart <= near[j] <= effEnd
    ensures AreNearest(ranks, effStart, effEnd, near)
  {
    near := seq(runLen, j requires 0 <= j < runLen =>
      NearestByRank(ranks, effStart, effEnd,
        InterpolatedPosition(ranks[effStart], ranks[effEnd], j, runLen)));
  }

  /** `picks[j]` is the desired index, moved only to stay above its predecessor and below the room left for the rest. */
  ghost predicate IsClamped(picks: seq<nat>, desired: seq<nat>, last: nat) {
    && |picks| == |desired|
    && forall j :: 0 < j < |picks| ==> picks[j] == Min(Max(desired[j], picks[j - 1] + 1), last - (|picks| - 1 - j))
  }

  /** The same for the first picks of a longer list, the last of which leaves room for the others. */
  ghost predicate ClampedSoFar(run: seq<nat>, desired: seq<nat>, last: nat) {
    && 0 < |run| <= |desired| && run[0] == desired[0] <= run[|run| - 1] <= last - (|desired| - |run|)
    && (forall k :: 0 < k < |run| ==> run[k - 1] < run[k])
    && forall k :: 0 < k < |run| ==> run[k] == Min(Max(desired[k], run[k - 1] + 1), last - (|desired| - 1 - k))
  }

  lemma ClampOneMore(run: seq<nat>, desired: seq<nat>, last: nat, pick: int)
    requires ClampedSoFar(run, desired, last) && |run| < |desired|
    requires pick == Min(Max(desired[|run|], run[|run| - 1] + 1), last - (|desired| - 1 - |run|))
    ensures pick >= 0 && ClampedSoFar(run + [pick], desired, last)
    ensures |run| + 1 == |desired| && desired[|run|] == last ==> pick == last
  {
  }

  /** Makes a list of desired indices strictly increasing within its plateau. */
  method ClampPicks(desired: seq<nat>, lowest: nat) returns (run: seq<nat>)
    requires |desired| >= 2
    requires lowest <= desired[0] && desired[0] + |desired| - 1 <= desired[|desired| - 1]
    requires forall j :: 0 <= j < |desired| ==> desired[0] <= desired[j] <= desired[|desired| - 1]
    ensures IsClamped(run, desired, desired[|desired| - 1]) && Ascending(run)
    ensures run[0] == desired[0] && run[|run| - 1] == desired[|desired| - 1]
  {
    var runLen := |desired|;
    var last := desired[runLen - 1];
    run := [Min(Max(desired[0], lowest), last - (runLen - 1))];
    for j := 1 to runLen
      invariant |run| == j && ClampedSoFar(run, desired, last)
      invariant j == runLen ==> run[runLen - 1] == last
    {
      var pick := Min(Max(desired[j], run[j - 1] + 1), last - (runLen - 1 - j));
      ClampOneMore(run, desired, last, pick);
      run := run + [pick];
    }
    StepsAscend(run);
  }

  /** A run of picks at the indices nearest to evenly spaced ranks, moved only to stay distinct. */
  ghost predicate EvenlySpread(ranks: seq<u64>, effStart: nat, effEnd: nat, run: seq<nat>)
    requires Ascending(ranks) && effStart < effEnd < |ranks|
  {
    exists near :: AreNearest(ranks, effStart, effEnd, near) && IsClamped(run, near, effEnd)
  }

  method SpreadPicks(ranks: seq<u64>, effStart: nat, effEnd: nat, runLen: nat, lowest: nat) returns (run: seq<nat>)
    requires Ascending(ranks) && effStart <= effEnd < |ranks|
    requires 2 <= runLen <= effEnd - effStart + 1 && lowest <= effStart
    ensures |run| == runLen && Ascending(run) && run[0] == effStart && run[runLen - 1] == effEnd
    ensures EvenlySpread(ranks, effStart, effEnd, run)
  {
    var near := NearestRanks(ranks, effStart, effEnd, runLen);
    run := ClampPicks(near, lowest);
  }

  /** A cluster of picks reaches from the first to the last index of its plateau, evenly spread by rank. */
  ghost predicate IsSpread(xs: seq<u64>, ranks: seq<u64>, run: seq<nat>)
    requires Ascending(ranks) && |ranks| == |xs|
  {
    && |run| >= 2
    && run[0] < run[|run| - 1]
    && IsPlateau(xs, run[0], run[|run| - 1])
    && EvenlySpread(ranks, run[0], run[|run| - 1], run)
  }

  /** `picks` with the entries from `at` on overwritten by `run`. */
  function Splice(picks: seq<nat>, run: seq<nat>, at: nat): (r: seq<nat>)
    requires at + |run| <= |picks|
    ensures |r| == |picks|
    ensures forall i :: 0 <= i < |picks| ==> r[i] == if at <= i < at + |run| then run[i - at] else picks[i]
  {
    picks[..at] + run + picks[at + |run|..]
  }

  lemma SpliceKeepsEnds(picks: seq<nat>, run: seq<nat>, at: nat, len: nat)
    requires KeepsEnds(picks, len) && 0 < |run| && at + |run| <= |picks| && Ascending(run)
    requires if at > 0 then picks[at - 1] < run[0] else run[0] == 0
    requires if at + |run| < |picks| then run[|run| - 1] < picks[at + |run|] else run[|run| - 1] == len - 1
    ensures KeepsEnds(Splice(picks, run, at), len)
  {
    var r := Splice(picks, run, at);
    forall i, j | 0 <= i < j < |r| ensures r[i] < r[j] {
      if i < at <= j < at + |run| {
        assert picks[i] <= picks[at - 1] < run[0] <= run[j - at];
      } else if at <= i < at + |run| <= j {
        assert run[i - at] <= run[|run| - 1] < picks[at + |run|] <= picks[j];
      } else if i < at && j >= at + |run| {
        assert picks[i] < picks[j];
      }
    }
  }

  lemma SpliceSameValues(xs: seq<u64>, picks: seq<nat>, run: seq<nat>, at: nat)
    requires Within(picks, |xs|) && 0 < |run| && at + |run| <= |picks| && Ascending(run)
    requires IsRun(xs, picks, at, at + |run|)
    requires IsPlateau(xs, run[0], run[|run| - 1]) && run[0] <= picks[at] <= run[|run| - 1]
    ensures SameValues(xs, Splice(picks, run, at), picks)
  {
    var r := Splice(picks, run, at);
    forall i | 0 <= i < |r| ensures r[i] < |xs| && xs[r[i]] == xs[picks[i]] {
      if at <= i < at + |run| {
        assert run[0] <= run[i - at] <= run[|run| - 1];
      }
    }
  }

  /** Spreads one run of picks over its plateau by rank. */
  method SpreadRun(xs: seq<u64>, ranks: seq<u64>, picks: seq<nat>, runStart: nat, runEnd: nat)
    returns (spread: seq<nat>)
    requires NonDecreasing(xs) && Ascending(ranks) && |ranks| == |xs|
    requires KeepsEnds(picks, |xs|) && Within(picks, |xs|) && IsRun(xs, picks, runStart, runEnd)
    ensures KeepsEnds(spread, |xs|) && SameValues(xs, spread, picks)
    ensures spread[..runStart] == picks[..runStart]
    ensures runEnd - runStart >= 2 ==> IsSpread(xs, ranks, spread[runStart..runEnd])
  {
    spread := picks;
    var runLen := runEnd - runStart;
    if runLen < 2 { return; }
    var effStart, effEnd := PlateauExtent(xs, picks, runStart, runEnd);
    AscendingGap(picks, runStart, runEnd - 1);
    assert effEnd >= effStart && effEnd - effStart + 1 >= runLen;
    var lowest := if runStart > 0 then picks[runStart - 1] + 1 else 0;
    spread := ReplaceRun(xs, ranks, picks, runStart, runEnd, effStart, effEnd, lowest);
  }

  method ReplaceRun(xs: seq<u64>, ranks: seq<u64>, picks: seq<nat>, runStart: nat, runEnd: nat,
                    effStart: nat, effEnd: nat, lowest: nat)
    returns (spread: seq<nat>)
    requires Ascending(ranks) && |ranks| == |xs| && KeepsEnds(picks, |xs|) && Within(picks, |xs|)
    requires runStart + 2 <= runEnd && IsRun(xs, picks, runStart, runEnd)
    requires IsPlateau(xs, effStart, effEnd) && effStart <= picks[runStart] <= effEnd
    requires runEnd - runStart <= effEnd - effStart + 1 && lowest <= effStart
    requires if runStart > 0 then picks[runStart - 1] < effStart else effStart == 0
    requires if runEnd < |picks| then effEnd < picks[runEnd] else effEnd == |xs| - 1
    ensures KeepsEnds(spread, |xs|) && SameValues(xs, spread, picks)
    ensures spread[..runStart] == picks[..runStart]
    ensures IsSpread(xs, ranks, spread[runStart..runEnd])
  {
    var run := SpreadPicks(ranks, effStart, effEnd, runEnd - runStart, lowest);
    SpliceFacts(xs, picks, run, runStart, effStart, effEnd);
    spread := Splice(picks, run, runStart);
    SpreadSlice(xs, ranks, effStart, effEnd, run, spread, runStart);
  }

  lemma SpliceFacts(xs: seq<u64>, picks: seq<nat>, run: seq<nat>, at: nat, effStart: nat, effEnd: nat)
    requires KeepsEnds(picks, |xs|) && Within(picks, |xs|) && |run| >= 2 && Ascending(run)
    requires at + |run| <= |picks| && IsRun(xs, picks, at, at + |run|)
    requires run[0] == effStart && run[|run| - 1] == effEnd && IsPlateau(xs, effStart, effEnd)
    requires effStart <= picks[at] <= effEnd
    requires if at > 0 then picks[at - 1] < effStart else effStart == 0
    requires if at + |run| < |picks| then effEnd < picks[at + |run|] else effEnd == |xs| - 1
    ensures var spread := Splice(picks, run, at);
            && KeepsEnds(spread, |xs|) && SameValues(xs, spread, picks) && spread[..at] == picks[..at]
            && forall i :: 0 <= i < |run| ==> spread[at + i] == run[i]
  {
    SpliceKeepsEnds(picks, run, at, |xs|);
    SpliceSameValues(xs, picks, run, at);
    assert Splice(picks, run, at)[..at] == picks[..at];
  }

  lemma SpreadSlice(xs: seq<u64>, ranks: seq<u64>, effStart: nat, effEnd: nat, run: seq<nat>, spread: seq<nat>, at: nat)
    requires Ascending(ranks) && |ranks| == |xs| && effStart < effEnd < |ranks| && IsPlateau(xs, effStart, effEnd)
    requires |run| >= 2 && run[0] == effStart && run[|run| - 1] == effEnd && EvenlySpread(ranks, effStart, effEnd, run)
    requires at + |run| <= |spread| && forall i :: 0 <= i < |run| ==> spread[at + i] == run[i]
    ensures IsSpread(xs, ranks, spread[at..at + |run|])
  {
    assert spread[at..at + |run|] == run;
  }

  /** Every cluster among the first `n` picks is spread over its whole plateau. */
  ghost predicate ClustersSpread(xs: seq<u64>, ranks: seq<u64>, picks: seq<nat>, n: nat)
    requires Ascending(ranks) && |ranks| == |xs| && Within(picks, |xs|) && n <= |picks|
  {
    forall a: nat, b: nat :: b <= n && a + 2 <= b && IsRun(xs, picks, a, b) ==> IsSpread(xs, ranks, picks[a..b])
  }

  lemma RunsAgree(xs: seq<u64>, picks: seq<nat>, a: nat, b: nat, n: nat, m: nat)
    requires Within(picks, |xs|)
    requires IsRun(xs, picks, a, b) && IsRun(xs, picks, n, m) && n < b <= m
    ensures a == n && b == m
  {
    assert xs[picks[b - 1]] == xs[picks[n]] == xs[picks[a]];
  }

  /** Runs survive a change of picks that keeps their values; a new one can only end at the new boundary. */
  lemma ClustersExtend(xs: seq<u64>, ranks: seq<u64>, picks: seq<nat>, spread: seq<nat>, n: nat, m: nat)
    requires Ascending(ranks) && |ranks| == |xs| && SameValues(xs, spread, picks)
    requires n < m <= |picks| && spread[..n] == picks[..n]
    requires ClustersSpread(xs, ranks, picks, n) && IsRun(xs, picks, n, m)
    requires m - n >= 2 ==> IsSpread(xs, ranks, spread[n..m])
    ensures ClustersSpread(xs, ranks, spread, m)
  {
    forall a: nat, b: nat | b <= m && a + 2 <= b && IsRun(xs, spread, a, b)
      ensures IsSpread(xs, ranks, spread[a..b])
    {
      RunTransfers(xs, spread, picks, a, b);
      if b <= n {
        SliceAgrees(spread, picks, n, a, b);
      } else {
        RunsAgree(xs, picks, a, b, n, m);
      }
    }
  }

  lemma RunTransfers(xs: seq<u64>, from: seq<nat>, to: seq<nat>, a: nat, b: nat)
    requires SameValues(xs, from, to) && IsRun(xs, from, a, b)
    ensures IsRun(xs, to, a, b)
  {
  }

  lemma SliceAgrees(s: seq<nat>, t: seq<nat>, n: nat, a: nat, b: nat)
    requires n <= |s| && n <= |t| && s[..n] == t[..n] && a <= b <= n
    ensures s[a..b] == t[a..b]
  {
    assert s[a..b] == s[..n][a..b] && t[a..b] == t[..n][a..b];
  }

  /** Every cluster of picks ends up spread over its whole plateau, and no pick changes its axis value. */
  method RedistributePlateauPicks(xs: seq<u64>, ranks: seq<u64>, picks: seq<nat>) returns (spread: seq<nat>)
    requires NonDecreasing(xs) && Ascending(ranks) && |ranks| == |xs|
    requires KeepsEnds(picks, |xs|) && xs[0] < xs[|xs| - 1]
    ensures KeepsEnds(spread, |xs|) && SameValues(xs, spread, picks)
    ensures ClustersSpread(xs, ranks, spread, |spread|)
  {
    EndsBoundPicks(picks, |xs|);
    spread := picks;
    if |picks| < 3 { return; }
    var runStart := 0;
    while runStart < |picks|
      invariant 0 <= runStart <= |picks|
      invariant KeepsEnds(spread, |xs|) && SameValues(xs, spread, picks)
      invariant 0 < runStart < |picks| ==> xs[spread[runStart - 1]] != xs[spread[runStart]]
      invariant ClustersSpread(xs, ranks, spread, runStart)
      decreases |picks| - runStart
    {
      spread, runStart := SpreadFrom(xs, ranks, picks, spread, runStart);
    }
  }

  /** Where the run that starts at `runStart` ends. */
  method RunEnd(xs: seq<u64>, picks: seq<nat>, runStart: nat) returns (runEnd: nat)
    requires Within(picks, |xs|) && runStart < |picks|
    requires runStart > 0 ==> xs[picks[runStart - 1]] != xs[picks[runStart]]
    ensures IsRun(xs, picks, runStart, runEnd)
  {
    var value := xs[picks[runStart]];
    runEnd := runStart + 1;
    while runEnd < |picks| && xs[picks[runEnd]] == value
      invariant runStart < runEnd <= |picks|
      invariant forall i :: runStart <= i < runEnd ==> xs[picks[i]] == value
    {
      runEnd := runEnd + 1;
    }
  }

  /** Spreads the run that starts at `runStart` and moves on to the next one. */
  method SpreadFrom(xs: seq<u64>, ranks: seq<u64>, ghost picks: seq<nat>, before: seq<nat>, runStart: nat)
    returns (spread: seq<nat>, runEnd: nat)
    requires NonDecreasing(xs) && Ascending(ranks) && |ranks| == |xs|
    requires KeepsEnds(before, |xs|) && SameValues(xs, before, picks) && runStart < |picks|
    requires runStart > 0 ==> xs[before[runStart - 1]] != xs[before[runStart]]
    requires ClustersSpread(xs, ranks, before, runStart)
    ensures runStart < runEnd <= |picks| && KeepsEnds(spread, |xs|) && SameValues(xs, spread, picks)
    ensures runEnd < |picks| ==> xs[spread[runEnd - 1]] != xs[spread[runEnd]]
    ensures ClustersSpread(xs, ranks, spread, runEnd)
  {
    runEnd := RunEnd(xs, before, runStart);
    spread := SpreadRun(xs, ranks, before, runStart, runEnd);
    ClustersExtend(xs, ranks, before, spread, runStart, runEnd);
    RunTransfers(xs, before, spread, runStart, runEnd);
    SameValuesChain(xs, spread, before, picks);
  }

  lemma SameValuesChain(xs: seq<u64>, a: seq<nat>, b: seq<nat>, c: seq<nat>)
    requires SameValues(xs, a, b) && SameValues(xs, b, c)
    ensures SameValues(xs, a, c)
  {
  }

  // ---------------------------------------------------------------------
  // Compaction
  // ---------------------------------------------------------------------

  /** Byte positions when they span a range, ranks otherwise. */
  function CompactionAxis(samples: seq<Sample>): Axis
    requires samples != []
  {
    if samples[0].bytePosition != samples[|samples| - 1].bytePosition then ByteAxis else RankAxis
  }

  /** The compaction axis always spans a range, so evenly spaced targets are well defined. */
  lemma CompactionAxisSpansRange(samples: seq<Sample>)
    requires Monotone(samples) && |samples| >= 2
    ensures var xs := Positions(samples, CompactionAxis(samples));
            NonDecreasing(xs) && xs[0] < xs[|xs| - 1]
  {
    PositionsNonDecreasing(samples, CompactionAxis(samples));
    var ranks := Positions(samples, RankAxis);
    assert ranks[0] < ranks[|ranks| - 1];
  }

  /**
   * The indices that survive a compaction: `cap` of them, strictly increasing, with both ends kept.
   * Each has the axis value of a nearest-neighbour choice, and clusters are spread over their plateaus.
   */
  ghost predicate IsKept(samples: seq<Sample>, cap: nat, picks: seq<nat>)
    requires Monotone(samples) && cap < |samples|
  {
    && |picks| == cap && Ascending(picks) && Within(picks, |samples|)
    && (cap == 1 ==> picks[0] == |samples| - 1)
    && (cap >= 2 ==>
          var xs := Positions(samples, CompactionAxis(samples));
          PositionsNonDecreasing(samples, CompactionAxis(samples));
          && KeepsEnds(picks, |samples|)
          && ClustersSpread(xs, Positions(samples, RankAxis), picks, cap)
          && exists nearest :: IsSelection(xs, cap, nearest) && SameValues(xs, picks, nearest))
  }

  method SelectedSampleIndices(samples: seq<Sample>, cap: nat) returns (picks: seq<nat>)
    requires Monotone(samples) && cap < |samples|
    ensures IsKept(samples, cap, picks)
  {
    if cap == 0 { return []; }
    if cap == 1 { return [|samples| - 1]; }
    CompactionAxisSpansRange(samples);
    var xs, ranks := Positions(samples, CompactionAxis(samples)), Positions(samples, RankAxis);
    var nearest := NearestPicks(xs, cap);
    picks := RedistributePlateauPicks(xs, ranks, nearest);
  }

  ghost function Gather(samples: seq<Sample>, picks: seq<nat>): seq<Sample>
    requires Within(picks, |samples|)
  {
    seq(|picks|, i requires 0 <= i < |picks| => samples[picks[i]])
  }

  /** Swapping the samples at strictly increasing indices to the front equals copying them out in order. */
  method SwapToFront(samples: seq<Sample>, keep: seq<nat>) returns (kept: seq<Sample>)
    requires Ascending(keep) && Within(keep, |samples|)
    ensures kept == Gather(samples, keep)
  {
    kept := samples;
    var write := 0;
    ghost var frontier := -1;
    while write < |keep|
      invariant 0 <= write <= |keep| && write <= |samples| == |kept|
      invariant frontier == if write == 0 then -1 else keep[write - 1]
      invariant forall i :: 0 <= i < write ==> kept[i] == samples[keep[i]]
      invariant forall m :: frontier < m < |samples| ==> kept[m] == samples[m]
    {
      var src := keep[write];
      AscendingGap(keep, 0, write);
      assert write <= src;
      if write != src {
        kept := kept[write := kept[src]][src := kept[write]];
      }
      frontier := src;
      write := write + 1;
    }
    kept := kept[..write];
  }

  /** Reduces the buffer to at most `cap` samples in place. */
  method CompactSamples(samples: seq<Sample>, cap: nat) returns (kept: seq<Sample>)
    requires Monotone(samples)
    ensures |samples| <= cap ==> kept == samples
    ensures |samples| > cap ==> exists picks :: IsKept(samples, cap, picks) && kept == Gather(samples, picks)
  {
    if |samples| <= cap { return samples; }
    var keep := SelectedSampleIndices(samples, cap);
    kept := SwapToFront(samples, keep);
  }
}
