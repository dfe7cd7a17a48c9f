/** How far the estimated split key lies from the byte midpoint of its stream. */
module SplitAccuracy {
  import opened Bytes
  import opened SampleCompaction
  import opened SampleSpacing
  import opened SplitEstimator

  /** What spacing says of the byte positions `xs` of a buffer whose stream weighs `total`. */
  ghost predicate Covers(xs: seq<u64>, total: u64, gap: nat) {
    && xs != [] && NonDecreasing(xs) && xs[0] == 0 && GapsWithin(xs, gap)
    && total <= xs[|xs| - 1] + gap && gap >= 1
  }

  lemma SpacedCovers(st: State, m: nat)
    requires st.Valid() && st.Spaced() && SizesWithin(st.history, m) && st.samples != []
    ensures Covers(Positions(st.samples, ByteAxis), st.total, WidestGap(m, st.compactions))
  {
    GapCoversStride(m, st.compactions);
    assert st.SpacedWithin(m);
  }

  /** Some sample is within half a gap of the midpoint. */
  lemma MidpointIsNear(xs: seq<u64>, total: u64, gap: nat)
    requires Covers(xs, total, gap)
    ensures 2 * AbsDiff(xs[NearestIndex(xs, total / 2)], total / 2) <= gap
  {
    var target := total / 2;
    var n := NearestIndex(xs, target);
    NearestIndexIsNearest(xs, target);
    if target <= xs[|xs| - 1] {
      NearestIsClose(xs, target, 0, n, gap);
    } else {
      assert AbsDiff(xs[n], target) <= AbsDiff(xs[|xs| - 1], target);
    }
  }

  /** In a stream much heavier than the gaps, that sample is neither the first nor the last. */
  lemma MidpointIsInner(xs: seq<u64>, total: u64, gap: nat)
    requires Covers(xs, total, gap) && total > 3 * gap
    ensures 0 < NearestIndex(xs, total / 2) < |xs| - 1
  {
    MidpointIsNear(xs, total, gap);
  }

  /** The recorded position of a sample is inside its observation. */
  lemma PositionIsInside(history: seq<Observation>, s: Sample, m: nat)
    requires SampleOf(history, s) && SizesWithin(history, m)
    ensures BytesBefore(history, s.rank) <= s.bytePosition <= BytesBefore(history, s.rank) + m
  {
  }

  /**
   * For strictly increasing keys and files of at most `m` bytes, however often the buffer was compacted:
   * once the stream outweighs three of the widest gaps, the bytes before the estimated split key differ
   * from half of all bytes by at most half a gap and one file.
   */
  lemma EstimateIsNearMidpoint(st: State, m: nat) returns (r: nat)
    requires st.Valid() && st.Spaced() && SizesWithin(st.history, m) && KeysIncrease(st.history)
    requires st.total > 3 * WidestGap(m, st.compactions)
    ensures r < |st.history| && Estimate(st.samples, st.count, st.total, st.first) == Some(st.history[r].key)
    ensures 2 * AbsDiff(BytesBefore(st.history, r), st.total / 2) <= WidestGap(m, st.compactions) + 2 * m
  {
    var n := NearMidpoint(st, m);
    InnerKeyIsTaken(st, n);
    r := st.samples[n].rank;
    PositionIsInside(st.history, st.samples[n], m);
    CloseEnough(BytesBefore(st.history, r), st.samples[n].bytePosition, st.total / 2, WidestGap(m, st.compactions), m);
  }

  lemma CloseEnough(a: nat, b: nat, t: nat, gap: nat, m: nat)
    requires a <= b <= a + m && 2 * AbsDiff(b, t) <= gap
    ensures 2 * AbsDiff(a, t) <= gap + 2 * m
  {
  }

  lemma NearMidpoint(st: State, m: nat) returns (n: nat)
    requires st.Valid() && st.Spaced() && SizesWithin(st.history, m) && st.total > 3 * WidestGap(m, st.compactions)
    ensures st.samples != [] && n == NearestIndex(Positions(st.samples, ByteAxis), st.total / 2)
    ensures 0 < n < |st.samples| - 1
    ensures 2 * AbsDiff(st.samples[n].bytePosition, st.total / 2) <= WidestGap(m, st.compactions)
  {
    HeavyHasSamples(st);
    SpacedCovers(st, m);
    n := MidpointSample(st.samples, st.total, WidestGap(m, st.compactions));
  }

  lemma HeavyHasSamples(st: State)
    requires st.Consistent() && st.total > 0
    ensures st.samples != []
  {
  }

  /** The sample nearest to the midpoint, among samples that cover a heavy stream. */
  lemma MidpointSample(samples: seq<Sample>, total: u64, gap: nat) returns (n: nat)
    requires samples != [] && Covers(Positions(samples, ByteAxis), total, gap) && total > 3 * gap
    ensures n == NearestIndex(Positions(samples, ByteAxis), total / 2) && 0 < n < |samples| - 1
    ensures 2 * AbsDiff(samples[n].bytePosition, total / 2) <= gap
  {
    var xs := Positions(samples, ByteAxis);
    MidpointIsNear(xs, total, gap);
    MidpointIsInner(xs, total, gap);
    n := NearestIndex(xs, total / 2);
  }

  /** A byte-nearest sample strictly inside the buffer is what the estimate returns. */
  lemma InnerKeyIsTaken(st: State, n: nat)
    requires st.Valid() && KeysIncrease(st.history) && st.samples != [] && st.total > 0
    requires n == NearestIndex(Positions(st.samples, ByteAxis), st.total / 2) && 0 < n < |st.samples| - 1
    ensures SampleOf(st.history, st.samples[n])
    ensures Estimate(st.samples, st.count, st.total, st.first) == Some(st.history[st.samples[n].rank].key)
  {
    CountersOf(st);
    InnerKeyOf(st.history, st.samples, st.total, n);
  }

  lemma CountersOf(st: State)
    requires st.Valid() && st.samples != []
    ensures SamplesOf(st.history, st.samples) && st.history != []
    ensures st.count == |st.history| && st.first == Some(st.history[0].key)
  {
    SamplesNoMoreThanKeys(st.history, st.samples);
  }

  lemma InnerKeyOf(history: seq<Observation>, samples: seq<Sample>, total: u64, n: nat)
    requires SamplesOf(history, samples) && KeysIncrease(history) && 0 < |history| <= U64_MAX && samples != [] && total > 0
    requires n == NearestIndex(Positions(samples, ByteAxis), total / 2) && 0 < n < |samples| - 1
    ensures SampleOf(history, samples[n])
    ensures Estimate(samples, |history|, total, Some(history[0].key)) == Some(history[samples[n].rank].key)
  {
    InnerKey(history, samples, n);
    NearestKeyIsTaken(samples, |history|, total, history[0].key, n);
  }

  /** A sample strictly inside the buffer has a key of its own. */
  lemma InnerKey(history: seq<Observation>, samples: seq<Sample>, n: nat)
    requires SamplesOf(history, samples) && KeysIncrease(history) && history != [] && 0 < n < |samples| - 1
    ensures |history| >= 2 && SampleOf(history, samples[n]) && samples[n].key == history[samples[n].rank].key
    ensures samples[n].key != history[0].key && samples[n].key != samples[|samples| - 1].key
  {
    SamplesNoMoreThanKeys(history, samples);
    InnerKeyDiffers(history, samples, 0, n);
    InnerKeyDiffers(history, samples, n, |samples| - 1);
  }

  lemma NearestKeyIsTaken(samples: seq<Sample>, count: u64, total: u64, first: Bytes, n: nat)
    requires samples != [] && count >= 2 && total > 0 && n == NearestIndex(Positions(samples, ByteAxis), total / 2)
    requires samples[n].key != first && samples[n].key != samples[|samples| - 1].key
    ensures Estimate(samples, count, total, Some(first)) == Some(samples[n].key)
  {
  }

  lemma InnerKeyDiffers(history: seq<Observation>, samples: seq<Sample>, i: nat, j: nat)
    requires SamplesOf(history, samples) && KeysIncrease(history) && i < j < |samples|
    ensures samples[i].key != samples[j].key && SampleOf(history, samples[i]) && SampleOf(history, samples[j])
  {
    assert SampleOf(history, samples[i]) && SampleOf(history, samples[j]);
    assert Positions(samples, RankAxis)[i] < Positions(samples, RankAxis)[j];
    LessIrreflexive(samples[i].key);
  }
}
