/** Streaming, bounded-memory estimation of a byte-weighted split key. */
module SplitEstimator {
  import opened Bytes
  import opened SampleCompaction
  import opened SampleSpacing

  const MIN_SAMPLE_CAP: nat := 128

  datatype Observation = Observation(key: Bytes, size: u64)

  /** Total size of the first `i` observations. */
  ghost function SumSizes(history: seq<Observation>, i: nat): nat
    requires i <= |history|
  {
    if i == 0 then 0 else SumSizes(history, i - 1) + history[i - 1].size
  }

  /** Byte offset at which observation `i` starts, as a saturating counter records it. */
  ghost function BytesBefore(history: seq<Observation>, i: nat): u64
    requires i <= |history|
  {
    Clamp(SumSizes(history, i))
  }

  lemma {:induction false} SumSizesPrefix(history: seq<Observation>, o: Observation, i: nat)
    requires i <= |history|
    ensures SumSizes(history + [o], i) == SumSizes(history, i)
    decreases i
  {
    if i > 0 { SumSizesPrefix(history, o, i - 1); }
  }

  lemma {:induction false} SumSizesMonotone(history: seq<Observation>, i: nat, j: nat)
    requires i <= j <= |history|
    ensures SumSizes(history, i) <= SumSizes(history, j)
    decreases j
  {
    if i < j { SumSizesMonotone(history, i, j - 1); }
  }

  // ---------------------------------------------------------------------
  // Stride grid
  // ---------------------------------------------------------------------

  function Pow2(k: nat): (r: nat)
    ensures r >= 1
  {
    if k == 0 then 1 else 2 * Pow2(k - 1)
  }

  /** `x` is a multiple of `stride`. */
  ghost predicate OnGrid(x: nat, stride: nat)
    requires stride >= 1
  {
    x == 0 || (x >= stride && OnGrid(x - stride, stride))
  }

  lemma {:induction false} GridPointAbove(value: nat, stride: nat) returns (r: nat)
    requires stride >= 1
    ensures value <= r < value + stride && OnGrid(r, stride)
    decreases value
  {
    if value == 0 {
      r := 0;
    } else if value <= stride {
      r := stride;
    } else {
      r := GridPointAbove(value - stride, stride);
      r := r + stride;
    }
  }

  /** The least grid point at or above `value`. */
  ghost function AlignUp(value: nat, stride: nat): (r: nat)
    requires stride >= 1
    ensures value <= r < value + stride && OnGrid(r, stride)
  {
    assert exists r: nat :: value <= r < value + stride && OnGrid(r, stride) by {
      var r := GridPointAbove(value, stride);
    }
    var r: nat :| value <= r < value + stride && OnGrid(r, stride);
    r
  }

  lemma AlignUpUnique(value: nat, stride: nat, r: nat)
    requires stride >= 1 && value <= r < value + stride && OnGrid(r, stride)
    ensures r == AlignUp(value, stride)
  {
    var q := AlignUp(value, stride);
    if q < r { GridGap(q, r, stride); }
    if r < q { GridGap(r, q, stride); }
  }

  lemma {:induction false} GridGap(a: nat, b: nat, stride: nat)
    requires stride >= 1 && OnGrid(a, stride) && OnGrid(b, stride) && a < b
    ensures a + stride <= b
    decreases a
  {
    if a > 0 { GridGap(a - stride, b - stride, stride); }
  }

  /** Advancing a counter past its mark moves the mark to the next grid point, or further. */
  lemma MarkAdvances(before: nat, after: nat, stride: nat)
    requires stride >= 1 && before <= after
    ensures AlignUp(before, stride) < after ==> AlignUp(before, stride) + stride <= AlignUp(after, stride)
    ensures AlignUp(before, stride) < after <= AlignUp(before, stride) + stride ==>
              AlignUp(after, stride) == AlignUp(before, stride) + stride
    ensures after <= AlignUp(before, stride) ==> AlignUp(after, stride) == AlignUp(before, stride)
  {
    var q, r := AlignUp(before, stride), AlignUp(after, stride);
    assert OnGrid(q + stride, stride);
    if q < r { GridGap(q, r, stride); }
    if r < q { GridGap(r, q, stride); }
    if q + stride < r { GridGap(q + stride, r, stride); }
  }

  function AlignToStride(value: u64, stride: u64): u64 {
    var stride := if stride >= 1 then stride else 1;
    if value == U64_MAX then value
    else if value % stride == 0 then value
    else SatAdd(value, stride - value % stride)
  }

  /** Rounding up by remainder finds the least grid point, up to saturation. */
  lemma AlignToStrideIsAlignUp(value: u64, stride: u64)
    requires stride >= 1
    ensures AlignToStride(value, stride) == Clamp(AlignUp(value, stride))
  {
    AlignUpByRemainder(value, stride);
  }

  lemma AlignUpByRemainder(value: nat, stride: nat)
    requires stride >= 1
    ensures 0 <= value % stride < stride
    ensures AlignUp(value, stride) == if value % stride == 0 then value else value + (stride - value % stride)
  {
    var r := value % stride;
    RoundedDownOnGrid(value, stride);
    if r == 0 {
      AlignUpUnique(value, stride, value);
    } else {
      assert OnGrid(value - r + stride, stride);
      AlignUpUnique(value, stride, value - r + stride);
    }
  }

  lemma {:induction false} RoundedDownOnGrid(value: nat, stride: nat)
    requires stride >= 1
    ensures value % stride <= value && OnGrid(value - value % stride, stride)
    decreases value
  {
    if value < stride {
      RemainderOfSmall(value, stride);
    } else {
      RemainderShift(value, stride);
      RoundedDownOnGrid(value - stride, stride);
    }
  }

  lemma RemainderOfSmall(value: nat, stride: nat)
    requires stride >= 1
    ensures value < stride ==> value % stride == value
  {
  }

  lemma RemainderShift(value: nat, stride: nat)
    requires 1 <= stride <= value
    ensures (value - stride) % stride == value % stride
  {
    var d := value / stride - 1 - (value - stride) / stride;
    assert d * stride == (value - stride) % stride - value % stride by {
      assert value / stride * stride + value % stride == value;
      assert (value - stride) / stride * stride + (value - stride) % stride == value - stride;
    }
    MulAtLeast(d, stride);
  }

  lemma MulAtLeast(d: int, s: nat)
    ensures d >= 1 ==> d * s >= s
    ensures d <= -1 ==> d * s + s <= 0
  {
    if d >= 1 { assert (d - 1) * s >= 0; }
    if d <= -1 { assert (-d - 1) * s >= 0; }
  }

  // ---------------------------------------------------------------------
  // Invariants
  // ---------------------------------------------------------------------

  /** A sample names an observed key and a byte position inside, or at the start of, that observation. */
  ghost predicate SampleOf(history: seq<Observation>, s: Sample) {
    && s.rank < |history|
    && s.key == history[s.rank].key
    && BytesBefore(history, s.rank) <= s.bytePosition
    && (s.bytePosition == BytesBefore(history, s.rank) || s.bytePosition < BytesBefore(history, s.rank + 1))
  }

  ghost predicate SamplesOf(history: seq<Observation>, samples: seq<Sample>) {
    && Monotone(samples)
    && (forall i :: 0 <= i < |samples| ==> SampleOf(history, samples[i]))
    && (history != [] ==> samples != [] && samples[0].rank == 0)
  }

  /** Before any compaction, every observation is a sample at its exact start. */
  ghost predicate IsComplete(history: seq<Observation>, samples: seq<Sample>) {
    && |samples| == |history| <= U64_MAX
    && forall i :: 0 <= i < |samples| ==> samples[i] == Sample(i, BytesBefore(history, i), history[i].key)
  }

  /** Each mark is the least grid point its counter has not passed. */
  ghost predicate MarksAligned(count: u64, total: u64, stride: nat, nextRank: u64, nextByte: u64)
    requires stride >= 1
  {
    && nextRank == Clamp(AlignUp(count, stride))
    && nextByte == Clamp(AlignUp(total, stride))
  }

  function DownsampleTarget(cap: nat): nat {
    (cap + 1) / 2
  }

  /** Samples left by the last of `compactions` compactions. */
  ghost function KeptAfter(compactions: nat, cap: nat): nat {
    if compactions == 0 then 0 else DownsampleTarget(cap)
  }

  ghost function Times(a: nat, n: nat): nat {
    if n == 0 then 0 else a + Times(a, n - 1)
  }

  lemma {:induction false} TimesIsProduct(a: nat, n: nat)
    ensures Times(a, n) == a * n
    decreases n
  {
    if n > 0 {
      TimesIsProduct(a, n - 1);
      assert a * n == a * (n - 1) + a;
    }
  }

  /** The count plus bytes a stream must reach before it can have caused `k` compactions. */
  ghost function StreamWeight(cap: nat, k: nat): nat
    requires cap >= 2
  {
    if k == 0 then 0 else 2 * StreamWeight(cap, k - 1) + (cap / 2 - 1)
  }

  lemma {:induction false} StreamWeightClosedForm(cap: nat, k: nat)
    requires cap >= 2
    ensures StreamWeight(cap, k) == (cap / 2 - 1) * (Pow2(k) - 1)
    decreases k
  {
    if k > 0 {
      StreamWeightClosedForm(cap, k - 1);
      var h, p := cap / 2 - 1, Pow2(k - 1);
      assert h * (2 * p - 1) == 2 * (h * (p - 1)) + h;
    }
  }

  /**
   * `base` is what the marks summed to after the last compaction. Each of the `taken` samples stored
   * since then moved a mark by at least one stride.
   */
  ghost predicate Amortized(weight: nat, stride: nat, taken: nat, count: nat, total: nat, base: nat)
    requires stride >= 1
  {
    && weight <= base
    && weight <= count + total
    && Times(stride, taken) <= AlignUp(count, stride) + AlignUp(total, stride) - base
  }

  lemma HalfRemains(cap: nat, kept: nat)
    requires kept <= DownsampleTarget(cap)
    ensures kept <= cap && cap / 2 <= cap - kept
  {
  }

  /** Strides never saturate. */
  lemma StrideBound(cap: nat, k: nat)
    requires cap >= MIN_SAMPLE_CAP && StreamWeight(cap, k) <= 2 * U64_MAX
    ensures 2 * Pow2(k) <= U64_MAX
  {
    StreamWeightClosedForm(cap, k);
    MulLowerBound(cap / 2 - 1, 63, Pow2(k) - 1);
  }

  lemma MulLowerBound(a: nat, b: nat, n: nat)
    requires a >= b
    ensures a * n >= b * n
  {
  }

  lemma AmortizedStep(weight: nat, stride: nat, taken: nat, count: nat, total: nat, base: nat,
                      end: nat, sampled: bool)
    requires stride >= 1 && total <= end && Amortized(weight, stride, taken, count, total, base)
    requires sampled ==> count == AlignUp(count, stride) || AlignUp(total, stride) < end
    ensures Amortized(weight, stride, if sampled then taken + 1 else taken, count + 1, end, base)
  {
    MarkAdvances(count, count + 1, stride);
    MarkAdvances(total, end, stride);
  }

  /** A buffer full of new samples has paid for doubling the strides. */
  lemma AmortizedCompaction(cap: nat, k: nat, taken: nat, count: nat, total: nat, base: nat, end: nat)
    requires cap >= MIN_SAMPLE_CAP && cap / 2 <= taken && total <= end
    requires Amortized(StreamWeight(cap, k), Pow2(k), taken, count, total, base)
    requires count == AlignUp(count, Pow2(k)) || AlignUp(total, Pow2(k)) < end
    ensures StreamWeight(cap, k + 1) <= count + 1 + end
  {
    var stride := Pow2(k);
    TimesIsProduct(stride, taken);
    StreamWeightClosedForm(cap, k);
    StreamWeightClosedForm(cap, k + 1);
    CompactionWeight(cap / 2, stride, taken, AlignUp(count, stride) + AlignUp(total, stride), base, count + 1 + end);
  }

  lemma CompactionWeight(half: nat, stride: nat, taken: nat, marks: nat, base: nat, weight: nat)
    requires stride >= 1 && half <= taken && 1 <= half
    requires (half - 1) * (stride - 1) <= base
    requires stride * taken <= marks - base
    requires marks < weight + stride
    ensures (half - 1) * (2 * stride - 1) <= weight
  {
    assert stride * taken == stride * half + stride * (taken - half);
    var p := stride * half;
    assert (half - 1) * (stride - 1) == p - half - stride + 1;
    assert (half - 1) * (2 * stride - 1) == 2 * p - half - 2 * stride + 1;
  }

  // ---------------------------------------------------------------------
  // Sample bookkeeping lemmas
  // ---------------------------------------------------------------------

  lemma SampleOfExtends(history: seq<Observation>, o: Observation, s: Sample)
    requires SampleOf(history, s)
    ensures SampleOf(history + [o], s)
  {
    SumSizesPrefix(history, o, s.rank);
    SumSizesPrefix(history, o, s.rank + 1);
  }

  lemma SamplesExtend(history: seq<Observation>, o: Observation, samples: seq<Sample>)
    requires SamplesOf(history, samples) && history != []
    ensures SamplesOf(history + [o], samples)
  {
    forall i | 0 <= i < |samples| ensures SampleOf(history + [o], samples[i]) {
      SampleOfExtends(history, o, samples[i]);
    }
  }

  /** The sample taken for a new observation fits after all earlier ones. */
  lemma SamplesPush(history: seq<Observation>, o: Observation, samples: seq<Sample>, position: u64)
    requires SamplesOf(history, samples) && |history| < U64_MAX
    requires BytesBefore(history, |history|) <= position
    requires position == BytesBefore(history, |history|) || position < SatAdd(BytesBefore(history, |history|), o.size)
    ensures SamplesOf(history + [o], samples + [Sample(|history|, position, o.key)])
  {
    var extended := history + [o];
    var sample := Sample(|history|, position, o.key);
    var pushed := samples + [sample];
    SumSizesPrefix(history, o, |history|);
    assert SampleOf(extended, sample);
    forall i | 0 <= i < |samples| ensures SampleOf(extended, samples[i]) && samples[i].bytePosition <= position {
      SampleOfExtends(history, o, samples[i]);
      SumSizesMonotone(history, samples[i].rank, |history|);
      SumSizesMonotone(history, samples[i].rank + 1, |history|);
    }
    var ranks, bytes := Positions(pushed, RankAxis), Positions(pushed, ByteAxis);
    assert Positions(samples, RankAxis) == ranks[..|samples|];
    assert Positions(samples, ByteAxis) == bytes[..|samples|];
  }

  /** What one observation does to the sample buffer, before any compaction. */
  lemma SamplesAfter(history: seq<Observation>, o: Observation, samples: seq<Sample>, next: seq<Sample>,
                     sampled: bool, position: u64)
    requires SamplesOf(history, samples) && |history| < U64_MAX
    requires next == if sampled then samples + [Sample(|history|, position, o.key)] else samples
    requires if sampled
             then
               && BytesBefore(history, |history|) <= position
               && (|| position == BytesBefore(history, |history|)
                   || position < SatAdd(BytesBefore(history, |history|), o.size))
             else history != []
    ensures SamplesOf(history + [o], next)
    ensures IsComplete(history, samples) && sampled && position == BytesBefore(history, |history|) ==>
              IsComplete(history + [o], next)
  {
    if sampled {
      SamplesPush(history, o, samples, position);
      forall i | 0 <= i <= |history| ensures BytesBefore(history + [o], i) == BytesBefore(history, i) {
        SumSizesPrefix(history, o, i);
      }
    } else {
      SamplesExtend(history, o, samples);
    }
  }

  /** The byte mark after an observation that straddled it. */
  lemma ByteMarkStep(total: u64, end: u64, stride: u64)
    requires stride >= 1 && AlignUp(total, stride) < end
    ensures var moved := SatAdd(AlignUp(total, stride), stride);
            (if moved < end then AlignToStride(end, stride) else moved) == Clamp(AlignUp(end, stride))
  {
    MarkAdvances(total, end, stride);
    AlignToStrideIsAlignUp(end, stride);
  }

  /** The two cadence tests ask whether the counter sits on, or the observation passes, the next grid point. */
  lemma CadenceMeaning(count: u64, total: u64, size: u64, stride: nat, nextRank: u64, nextByte: u64)
    requires stride >= 1 && count < U64_MAX && MarksAligned(count, total, stride, nextRank, nextByte)
    ensures count >= nextRank <==> count == AlignUp(count, stride)
    ensures size > 0 && total <= nextByte && nextByte < SatAdd(total, size)
            <==> AlignUp(total, stride) < SatAdd(total, size)
    ensures AlignUp(total, stride) < SatAdd(total, size) ==> nextByte == AlignUp(total, stride)
  {
  }

  /** Picking samples at increasing indices, the first one included, keeps a sample buffer well formed. */
  lemma SamplesGather(history: seq<Observation>, samples: seq<Sample>, picks: seq<nat>)
    requires SamplesOf(history, samples) && history != []
    requires Within(picks, |samples|) && KeepsEnds(picks, |samples|)
    ensures SamplesOf(history, Gather(samples, picks))
  {
    var kept := Gather(samples, picks);
    var ranks, bytes := Positions(samples, RankAxis), Positions(samples, ByteAxis);
    var keptRanks, keptBytes := Positions(kept, RankAxis), Positions(kept, ByteAxis);
    forall i, j | 0 <= i < j < |kept|
      ensures keptRanks[i] < keptRanks[j] && keptBytes[i] <= keptBytes[j]
    {
      assert ranks[picks[i]] < ranks[picks[j]] && bytes[picks[i]] <= bytes[picks[j]];
    }
  }

  /** These samples are what a compaction to `cap` keeps of the buffer. */
  ghost predicate Survive(samples: seq<Sample>, cap: nat, kept: seq<Sample>) {
    && Monotone(samples) && cap < |samples|
    && exists picks :: IsKept(samples, cap, picks) && kept == Gather(samples, picks)
  }

  /** Compaction keeps the buffer a subsequence of the stream that starts with its first key. */
  method CompactTo(samples: seq<Sample>, cap: nat, ghost history: seq<Observation>) returns (kept: seq<Sample>)
    requires SamplesOf(history, samples) && history != [] && 2 <= cap < |samples|
    ensures |kept| == cap && SamplesOf(history, kept)
    ensures Survive(samples, cap, kept)
  {
    kept := CompactSamples(samples, cap);
    ghost var picks :| IsKept(samples, cap, picks) && kept == Gather(samples, picks);
    SamplesGather(history, samples, picks);
  }

  // ---------------------------------------------------------------------
  // Estimator states
  // ---------------------------------------------------------------------

  /** The fields of an estimator, with the stream it has seen and how often it compacted. */
  datatype State = State(
    cap: nat, samples: seq<Sample>, rankStride: u64, byteStride: u64, nextRank: u64, nextByte: u64,
    total: u64, count: u64, first: Option<Bytes>,
    history: seq<Observation>, compactions: nat, base: nat)
  {
    ghost function Kept(): nat { KeptAfter(compactions, cap) }

    /** How many samples have been added since the last compaction. */
    ghost function Taken(): nat { if Kept() <= |samples| then |samples| - Kept() else 0 }

    /** Samples, counters and strides agree with the stream seen so far. */
    ghost predicate Consistent() {
      && cap >= MIN_SAMPLE_CAP
      && count == |history|
      && total == BytesBefore(history, |history|)
      && first == (if history == [] then None else Some(history[0].key))
      && Kept() <= |samples|
      && SamplesOf(history, samples)
      && (compactions == 0 ==> IsComplete(history, samples))
      && rankStride == byteStride == Pow2(compactions)
    }

    ghost predicate Valid() {
      && Consistent()
      && |samples| <= cap
      && MarksAligned(count, total, rankStride, nextRank, nextByte)
      && Amortized(StreamWeight(cap, compactions), rankStride, |samples| - Kept(), count, total, base)
    }

    /** An observation is counted, and sampled if a cadence fired, but the marks still lag behind it. */
    ghost predicate Pending(rank: u64, bytes: u64, taken: nat, sampleRank: bool, sampleBytes: bool) {
      && Consistent()
      && count == rank + 1 && bytes <= total
      && (sampleRank <==> rank == AlignUp(rank, rankStride))
      && (sampleBytes <==> AlignUp(bytes, rankStride) < total)
      && MarksAligned(rank, bytes, rankStride, nextRank, nextByte)
      && Amortized(StreamWeight(cap, compactions), rankStride, taken, rank, bytes, base)
      && taken + Kept() <= cap
      && |samples| == taken + Kept() + if sampleRank || sampleBytes then 1 else 0
    }

    /** The samples are spaced as files of at most `m` bytes and so many compactions allow. */
    ghost predicate SpacedWithin(m: nat) {
      samples != [] ==>
        SpacedFor(samples, total, Pow2(compactions), Taken(), m, WidestGap(m, compactions), Reach(cap, m, compactions))
    }

    ghost predicate Spaced() {
      forall m: nat :: SizesWithin(history, m) ==> SpacedWithin(m)
    }

    /** The buffer with `o` appended if its rank is on the grid or its bytes cover a grid point. */
    ghost function Fed(o: Observation): seq<Sample>
      requires rankStride >= 1
    {
      var mark := AlignUp(total, rankStride);
      if mark < SatAdd(total, o.size) then samples + [Sample(count, mark, o.key)]
      else if count == AlignUp(count, rankStride) then samples + [Sample(count, total, o.key)]
      else samples
    }

    /** The state after compacting to `kept`: strides double and the amortisation starts afresh. */
    ghost function Compacted(kept: seq<Sample>, rankMark: u64, byteMark: u64): State
      requires 1 <= rankStride && 2 * rankStride <= U64_MAX
    {
      this.(samples := kept, rankStride := 2 * rankStride, byteStride := 2 * rankStride, nextRank := rankMark,
            nextByte := byteMark, compactions := compactions + 1,
            base := AlignUp(count, 2 * rankStride) + AlignUp(total, 2 * rankStride))
    }

    /** The state after counting `o`, with `next` as the sample buffer. */
    ghost function Counted(o: Observation, next: seq<Sample>): State
      requires count < U64_MAX
    {
      this.(samples := next, history := history + [o], count := count + 1,
            total := SatAdd(total, o.size), first := if first.None? then Some(o.key) else first)
    }
  }

  // ---------------------------------------------------------------------
  // Spacing of the samples
  // ---------------------------------------------------------------------

  ghost predicate SizesWithin(history: seq<Observation>, m: nat) {
    forall i :: 0 <= i < |history| ==> history[i].size <= m
  }

  /** What one compaction, the `k`-th, can add to the widest gap. */
  ghost function Share(m: nat, k: nat): nat { 3 * (k * m + Pow2(k)) }

  /** The widest gap between neighbouring samples after `k` compactions, for files of at most `m` bytes. */
  ghost function WidestGap(m: nat, k: nat): nat {
    if k == 0 then m + 1 else WidestGap(m, k - 1) + Share(m, k)
  }

  ghost function Triangle(k: nat): nat { if k == 0 then 0 else Triangle(k - 1) + k }

  /** Six strides, plus the largest file a number of times that grows with the square of the compactions. */
  lemma {:induction false} WidestGapClosedForm(m: nat, k: nat)
    ensures WidestGap(m, k) == 6 * Pow2(k) - 5 + (1 + 3 * Triangle(k)) * m
    ensures 2 * Triangle(k) == k * (k + 1)
    decreases k
  {
    if k > 0 {
      WidestGapClosedForm(m, k - 1);
      Distribute(1 + 3 * Triangle(k - 1), k, m);
      assert k * (k + 1) == (k - 1) * k + 2 * k;
    }
  }

  lemma Distribute(a: nat, k: nat, m: nat)
    ensures (a + 3 * k) * m == a * m + 3 * (k * m)
  {
  }

  /** How far the samples can reach right after the `k`-th compaction. */
  ghost function Reach(cap: nat, m: nat, k: nat): nat {
    if k == 0 then 0 else Reach(cap, m, k - 1) + Times(m + Pow2(k - 1), cap + 1)
  }

  lemma {:induction false} ReachClosedForm(cap: nat, m: nat, k: nat)
    ensures Reach(cap, m, k) == (cap + 1) * (k * m + Pow2(k) - 1)
    decreases k
  {
    if k > 0 {
      ReachClosedForm(cap, m, k - 1);
      TimesIsProduct(m + Pow2(k - 1), cap + 1);
      assert k * m == (k - 1) * m + m;
      Collect(cap + 1, (k - 1) * m + Pow2(k - 1) - 1, m + Pow2(k - 1));
    }
  }

  lemma Collect(c: nat, x: nat, y: nat)
    ensures c * x + y * c == c * (x + y)
  {
  }

  /** A share, taken once for each gap that is left, covers everything the samples reach. */
  lemma ShareCoversReach(cap: nat, m: nat, k: nat)
    requires cap >= MIN_SAMPLE_CAP
    ensures Reach(cap, m, k) <= Share(m, k) * (DownsampleTarget(cap) - 1)
  {
    ReachClosedForm(cap, m, k);
    ThirdsCover(cap + 1, k * m + Pow2(k), DownsampleTarget(cap) - 1);
  }

  lemma ThirdsCover(c: nat, x: nat, h: nat)
    requires c <= 3 * h && x >= 1
    ensures c * (x - 1) <= (3 * x) * h
  {
    MulMonotone(c, x - 1, x);
    MulMonotone(x, c, 3 * h);
    Regroup(x, h);
    assert c * x == x * c;
  }

  lemma Regroup(x: nat, h: nat)
    ensures x * (3 * h) == (3 * x) * h
  {
  }

  lemma {:induction false} GapCoversStride(m: nat, k: nat)
    ensures m + Pow2(k) <= WidestGap(m, k)
    decreases k
  {
    if k > 0 { assert k * m >= m by { MulMonotone(m, 1, k); } }
  }

  lemma {:induction false} TimesMonotone(a: nat, n: nat, b: nat)
    requires n <= b
    ensures Times(a, n) <= Times(a, b)
    decreases b
  {
    if n < b { TimesMonotone(a, n, b - 1); }
  }

  /**
   * The samples start at zero, no gap is wider than `gap`, each of the `taken` new ones went at most
   * `m + stride` further, and the next mark is that close to the last one.
   */
  ghost predicate SpacedFor(samples: seq<Sample>, total: u64, stride: nat, taken: nat, m: nat, gap: nat, reach: nat)
    requires stride >= 1 && samples != []
  {
    var last := samples[|samples| - 1].bytePosition;
    && samples[0].bytePosition == 0
    && GapsWithin(Positions(samples, ByteAxis), gap)
    && last <= reach + Times(m + stride, taken)
    && AlignUp(total, stride) <= last + m + stride
  }

  lemma PushSpaced(samples: seq<Sample>, s: Sample, total: u64, end: u64, stride: nat, taken: nat, m: nat, gap: nat, reach: nat)
    requires stride >= 1 && total <= end <= total + m && m + stride <= gap
    requires if samples == [] then total == 0 else SpacedFor(samples, total, stride, taken, m, gap, reach)
    requires samples != [] ==> samples[|samples| - 1].bytePosition <= s.bytePosition
    requires s.bytePosition == (if AlignUp(total, stride) < end then AlignUp(total, stride) else total)
    ensures SpacedFor(samples + [s], end, stride, taken + 1, m, gap, reach) && end <= s.bytePosition + m
  {
    var pushed := samples + [s];
    MarkAdvances(total, end, stride);
    assert samples == [] ==> AlignUp(total, stride) == 0 by { AlignUpUnique(0, stride, 0); }
    var xs := Positions(pushed, ByteAxis);
    forall i | 0 < i < |xs| ensures xs[i] - xs[i - 1] <= gap {
      if i < |samples| {
        assert xs[i] == Positions(samples, ByteAxis)[i] && xs[i - 1] == Positions(samples, ByteAxis)[i - 1];
      }
    }
  }

  /** One more observation, before any compaction. */
  lemma FeedSpaced(samples: seq<Sample>, fed: seq<Sample>, count: u64, key: Bytes, total: u64, end: u64, stride: nat,
                   taken: nat, m: nat, gap: nat, reach: nat)
    requires stride >= 1 && total <= end <= total + m && m + stride <= gap
    requires if samples == [] then total == 0 && |fed| == 1
             else && SpacedFor(samples, total, stride, taken, m, gap, reach)
                  && samples[|samples| - 1].bytePosition <= total
    requires var mark := AlignUp(total, stride);
             fed == if mark < end then samples + [Sample(count, mark, key)]
                    else if count == AlignUp(count, stride) then samples + [Sample(count, total, key)]
                    else samples
    ensures fed != [] && SpacedFor(fed, end, stride, taken + |fed| - |samples|, m, gap, reach)
    ensures |fed| > |samples| ==> end <= fed[|fed| - 1].bytePosition + m
  {
    if |fed| > |samples| {
      PushSpaced(samples, fed[|fed| - 1], total, end, stride, taken, m, gap, reach);
      assert fed == samples + [fed[|fed| - 1]];
    } else {
      MarkAdvances(total, end, stride);
    }
  }

  lemma LastIsBehind(history: seq<Observation>, samples: seq<Sample>, total: u64)
    requires SamplesOf(history, samples) && samples != [] && total == BytesBefore(history, |history|)
    ensures samples[|samples| - 1].bytePosition <= total
  {
    var s := samples[|samples| - 1];
    assert SampleOf(history, s);
    SumSizesMonotone(history, s.rank, |history|);
    SumSizesMonotone(history, s.rank + 1, |history|);
  }

  lemma LastWithinReach(cap: nat, k: nat, taken: nat, m: nat, last: nat)
    requires taken <= cap + 1 && last <= Reach(cap, m, k) + Times(m + Pow2(k), taken)
    ensures last <= Reach(cap, m, k + 1)
  {
    TimesMonotone(m + Pow2(k), taken, cap + 1);
  }

  /** A compaction after that observation. */
  lemma CompactedSpaced(fed: seq<Sample>, kept: seq<Sample>, end: u64, cap: nat, k: nat, taken: nat, m: nat)
    requires cap >= MIN_SAMPLE_CAP && |fed| == cap + 1 && taken <= cap + 1
    requires SpacedFor(fed, end, Pow2(k), taken, m, WidestGap(m, k), Reach(cap, m, k))
    requires end <= fed[|fed| - 1].bytePosition + m && Survive(fed, DownsampleTarget(cap), kept)
    ensures kept != [] && SpacedFor(kept, end, Pow2(k + 1), 0, m, WidestGap(m, k + 1), Reach(cap, m, k + 1))
  {
    var h, last := DownsampleTarget(cap), fed[|fed| - 1].bytePosition;
    LastWithinReach(cap, k, taken, m, last);
    ShareCoversReach(cap, m, k + 1);
    SurvivorsSpaced(fed, h, kept, WidestGap(m, k), Share(m, k + 1));
  }

  lemma SurvivorsSpaced(fed: seq<Sample>, h: nat, kept: seq<Sample>, gap: nat, share: nat)
    requires 2 <= h < |fed| && Survive(fed, h, kept) && fed[0].bytePosition == 0
    requires GapsWithin(Positions(fed, ByteAxis), gap) && fed[|fed| - 1].bytePosition <= share * (h - 1)
    ensures |kept| == h && kept[0] == fed[0] && kept[h - 1] == fed[|fed| - 1]
    ensures GapsWithin(Positions(kept, ByteAxis), gap + share)
  {
    var picks :| IsKept(fed, h, picks) && kept == Gather(fed, picks);
    CompactionGap(fed, h, picks, gap, share);
    EndsSurvive(fed, h, picks);
  }

  lemma EndsSurvive(samples: seq<Sample>, cap: nat, picks: seq<nat>)
    requires Monotone(samples) && 2 <= cap < |samples| && IsKept(samples, cap, picks)
    ensures var kept := Gather(samples, picks);
            |kept| == cap && kept[0] == samples[0] && kept[cap - 1] == samples[|samples| - 1]
  {
  }

  lemma SizesWithinPrefix(history: seq<Observation>, o: Observation, m: nat)
    requires SizesWithin(history + [o], m)
    ensures SizesWithin(history, m) && o.size <= m
  {
    var all := history + [o];
    assert all[|history|] == o && forall i :: 0 <= i < |history| ==> all[i] == history[i];
  }

  /** What spacing needs to know about a state before an observation. */
  ghost predicate Ready(st: State, o: Observation) {
    && st.cap >= MIN_SAMPLE_CAP && st.rankStride == Pow2(st.compactions) && st.Kept() <= |st.samples| <= st.cap
    && if st.samples == [] then st.total == 0 && |st.Fed(o)| == 1
       else st.samples[|st.samples| - 1].bytePosition <= st.total
  }

  lemma ValidIsReady(st: State, o: Observation)
    requires st.Valid()
    ensures Ready(st, o)
  {
    if st.samples == [] {
      AlignUpUnique(0, st.rankStride, 0);
    } else {
      LastIsBehind(st.history, st.samples, st.total);
    }
  }

  /** The buffer and the total after an observation. */
  ghost predicate Follows(st: State, o: Observation, next: State) {
    && st.rankStride >= 1 && next.cap == st.cap && next.total == SatAdd(st.total, o.size)
    && var fed := st.Fed(o);
       if |fed| <= st.cap then next.samples == fed && next.compactions == st.compactions
       else next.compactions == st.compactions + 1 && Survive(fed, DownsampleTarget(st.cap), next.samples)
  }

  /** A buffer that has just been fed is spaced; a sample it gained lies within one file of the end. */
  ghost predicate FedWell(fed: seq<Sample>, end: u64, cap: nat, k: nat, taken: nat, m: nat, gained: bool) {
    && fed != [] && |fed| <= cap + 1 && taken <= |fed|
    && SpacedFor(fed, end, Pow2(k), taken, m, WidestGap(m, k), Reach(cap, m, k))
    && (gained ==> end <= fed[|fed| - 1].bytePosition + m)
  }

  lemma SpacedWhenFed(st: State, o: Observation, m: nat)
    requires Ready(st, o) && st.SpacedWithin(m) && o.size <= m
    ensures var fed := st.Fed(o);
            && |st.samples| <= |fed|
            && FedWell(fed, SatAdd(st.total, o.size), st.cap, st.compactions, |fed| - st.Kept(), m, |fed| > |st.samples|)
  {
    var k := st.compactions;
    GapCoversStride(m, k);
    FeedSpaced(st.samples, st.Fed(o), st.count, o.key, st.total, SatAdd(st.total, o.size), Pow2(k), st.Taken(), m,
               WidestGap(m, k), Reach(st.cap, m, k));
  }

  /** Spacing survives an observation, compaction included. */
  lemma SpacedStep(st: State, o: Observation, next: State, m: nat)
    requires Ready(st, o) && Follows(st, o, next) && st.SpacedWithin(m) && o.size <= m
    ensures next.SpacedWithin(m)
  {
    SpacedWhenFed(st, o, m);
    SpacedWhenSettled(st.Fed(o), |st.samples|, st.Kept(), st.cap, st.compactions, next, m);
  }

  lemma SpacedWhenSettled(fed: seq<Sample>, had: nat, keptBefore: nat, cap: nat, k: nat, next: State, m: nat)
    requires cap >= MIN_SAMPLE_CAP && next.cap == cap && keptBefore == KeptAfter(k, cap) <= had <= cap && had <= |fed|
    requires FedWell(fed, next.total, cap, k, |fed| - keptBefore, m, |fed| > had)
    requires if |fed| <= cap then next.samples == fed && next.compactions == k
             else next.compactions == k + 1 && Survive(fed, DownsampleTarget(cap), next.samples)
    ensures next.SpacedWithin(m)
  {
    if |fed| > cap {
      SpacedWhenCompacted(fed, next, k, |fed| - keptBefore, m);
    } else {
      SpacedWhenKept(fed, next, k, |fed| - keptBefore, m, |fed| > had);
    }
  }

  lemma SpacedWhenKept(fed: seq<Sample>, next: State, k: nat, taken: nat, m: nat, gained: bool)
    requires FedWell(fed, next.total, next.cap, k, taken, m, gained)
    requires next.samples == fed && next.compactions == k && taken == next.Taken()
    ensures next.SpacedWithin(m)
  {
  }

  lemma SpacedWhenCompacted(fed: seq<Sample>, next: State, k: nat, taken: nat, m: nat)
    requires next.cap >= MIN_SAMPLE_CAP && |fed| == next.cap + 1 && next.compactions == k + 1
    requires FedWell(fed, next.total, next.cap, k, taken, m, true)
    requires Survive(fed, DownsampleTarget(next.cap), next.samples)
    ensures next.SpacedWithin(m)
  {
    CompactedSpaced(fed, next.samples, next.total, next.cap, k, taken, m);
    SurvivorCount(fed, DownsampleTarget(next.cap), next.samples);
    assert next.Taken() == 0;
  }

  lemma SurvivorCount(fed: seq<Sample>, h: nat, kept: seq<Sample>)
    requires Survive(fed, h, kept)
    ensures |kept| == h
  {
  }

  lemma SpacedOnward(st: State, o: Observation, next: State)
    requires st.Valid() && st.Spaced() && next.Valid() && next.cap == st.cap && next.history == st.history + [o]
    requires var fed := st.Fed(o);
             if |fed| <= st.cap then next.samples == fed && next.compactions == st.compactions
             else next.compactions == st.compactions + 1 && Survive(fed, DownsampleTarget(st.cap), next.samples)
    ensures next.Spaced()
  {
    TotalAfter(st, o, next);
    ValidIsReady(st, o);
    SpacedFromReady(st, o, next);
  }

  lemma SpacedFromReady(st: State, o: Observation, next: State)
    requires Ready(st, o) && st.Spaced() && Follows(st, o, next) && next.history == st.history + [o]
    ensures next.Spaced()
  {
    forall m: nat | SizesWithin(next.history, m) ensures next.SpacedWithin(m) {
      SizesWithinPrefix(st.history, o, m);
      SpacedStep(st, o, next, m);
    }
  }

  lemma TotalAfter(st: State, o: Observation, next: State)
    requires st.Consistent() && next.Consistent() && next.history == st.history + [o]
    ensures next.total == SatAdd(st.total, o.size)
  {
    SumSizesPrefix(st.history, o, |st.history|);
  }

  lemma CountedIsPending(st: State, o: Observation, next: seq<Sample>, sampleRank: bool, sampleBytes: bool)
    requires st.Valid() && st.count < U64_MAX
    requires sampleRank <==> st.count == AlignUp(st.count, st.rankStride)
    requires sampleBytes <==> AlignUp(st.total, st.rankStride) < SatAdd(st.total, o.size)
    requires |next| == |st.samples| + if sampleRank || sampleBytes then 1 else 0
    requires SamplesOf(st.history + [o], next)
    requires st.compactions == 0 ==> IsComplete(st.history + [o], next)
    ensures st.Counted(o, next).Pending(st.count, st.total, |st.samples| - st.Kept(), sampleRank, sampleBytes)
  {
    SumSizesPrefix(st.history, o, |st.history|);
  }

  /** Moving the marks to the new counters completes an observation that needs no compaction. */
  lemma SettledIsValid(st: State, rank: u64, bytes: u64, taken: nat, sampleRank: bool, sampleBytes: bool, settled: State)
    requires st.Pending(rank, bytes, taken, sampleRank, sampleBytes) && |st.samples| <= st.cap
    requires settled == st.(nextRank := settled.nextRank, nextByte := settled.nextByte)
    requires MarksAligned(st.count, st.total, st.rankStride, settled.nextRank, settled.nextByte)
    ensures settled.Valid()
  {
    AmortizedStep(StreamWeight(st.cap, st.compactions), st.rankStride, taken, rank, bytes, st.base, st.total,
                  sampleRank || sampleBytes);
  }

  /** An overfull buffer has paid for its compaction, and the doubled strides do not saturate. */
  lemma OverflowIsPaid(st: State, rank: u64, bytes: u64, taken: nat, sampleRank: bool, sampleBytes: bool)
    requires st.Pending(rank, bytes, taken, sampleRank, sampleBytes) && |st.samples| > st.cap
    ensures 2 * st.rankStride <= U64_MAX
    ensures StreamWeight(st.cap, st.compactions + 1) <= st.count + st.total
    ensures |st.samples| == st.cap + 1
  {
    HalfRemains(st.cap, st.Kept());
    StrideBound(st.cap, st.compactions);
    AmortizedCompaction(st.cap, st.compactions, taken, rank, bytes, st.base, st.total);
  }

  lemma CompactedIsValid(st: State, kept: seq<Sample>, nextRank: u64, nextByte: u64)
    requires st.Consistent() && st.history != [] && 2 * st.rankStride <= U64_MAX
    requires StreamWeight(st.cap, st.compactions + 1) <= st.count + st.total
    requires |kept| == DownsampleTarget(st.cap) && SamplesOf(st.history, kept)
    requires MarksAligned(st.count, st.total, 2 * st.rankStride, nextRank, nextByte)
    ensures st.Compacted(kept, nextRank, nextByte).Valid()
  {
  }

  // ---------------------------------------------------------------------
  // The estimator
  // ---------------------------------------------------------------------

  class StreamingSplitEstimator {
    const sampleCap: nat
    var samples: seq<Sample>
    var rankStride: u64
    var byteStride: u64
    var nextRankSample: u64
    var nextByteMark: u64
    var totalBytes: u64
    var count: u64
    var firstObservedKey: Option<Bytes>

    ghost var history: seq<Observation>
    ghost var compactions: nat
    ghost var base: nat

    ghost function View(): State
      reads this
    {
      State(sampleCap, samples, rankStride, byteStride, nextRankSample, nextByteMark,
            totalBytes, count, firstObservedKey, history, compactions, base)
    }

    ghost predicate Sound()
      reads this
    {
      View().Valid()
    }

    ghost predicate Valid()
      reads this
    {
      Sound() && View().Spaced()
    }

    constructor (cap: nat)
      ensures Valid() && history == [] && compactions == 0
      ensures sampleCap == if cap >= MIN_SAMPLE_CAP then cap else MIN_SAMPLE_CAP
    {
      sampleCap := if cap >= MIN_SAMPLE_CAP then cap else MIN_SAMPLE_CAP;
      samples := [];
      rankStride, byteStride := 1, 1;
      nextRankSample, nextByteMark := 0, 0;
      totalBytes, count := 0, 0;
      firstObservedKey := None;
      history, compactions, base := [], 0, 0;
    }

    /** Records one observation of the stream. */
    method Observe(key: Bytes, fileSize: u64)
      requires Valid() && count < U64_MAX
      modifies this
      ensures Valid() && history == old(history) + [Observation(key, fileSize)]
      ensures old(|samples|) < sampleCap ==> compactions == old(compactions)
      ensures var fed := old(View()).Fed(Observation(key, fileSize));
              if |fed| <= sampleCap then samples == fed && compactions == old(compactions)
              else && compactions == old(compactions) + 1 && |samples| == DownsampleTarget(sampleCap)
                   && Survive(fed, DownsampleTarget(sampleCap), samples)
    {
      ghost var was, o := View(), Observation(key, fileSize);
      ghost var taken := |samples| - was.Kept();
      var sampleRank, sampleBytes := Count(key, fileSize);
      Absorb(was.count, was.total, taken, sampleRank, sampleBytes);
      SpacedOnward(was, o, View());
    }

    /** Completes a counted observation by moving the marks, after a compaction if the buffer is overfull. */
    method Absorb(ghost rank: u64, ghost bytes: u64, ghost taken: nat, sampleRank: bool, sampleBytes: bool)
      requires View().Pending(rank, bytes, taken, sampleRank, sampleBytes)
      modifies this`samples, this`rankStride, this`byteStride, this`nextRankSample, this`nextByteMark,
               this`compactions, this`base
      ensures Sound()
      ensures if old(|samples|) <= sampleCap then samples == old(samples) && compactions == old(compactions)
              else && compactions == old(compactions) + 1 && |samples| == DownsampleTarget(sampleCap)
                   && Survive(old(samples), DownsampleTarget(sampleCap), samples)
    {
      if |samples| > sampleCap {
        Overflow(rank, bytes, taken, sampleRank, sampleBytes);
      } else {
        Settle(rank, bytes, taken, sampleRank, sampleBytes);
      }
    }

    /** A buffer that outgrew the cap is compacted before the marks move. */
    method Overflow(ghost rank: u64, ghost bytes: u64, ghost taken: nat, sampleRank: bool, sampleBytes: bool)
      requires View().Pending(rank, bytes, taken, sampleRank, sampleBytes) && |samples| > sampleCap
      modifies this`samples, this`rankStride, this`byteStride, this`nextRankSample, this`nextByteMark,
               this`compactions, this`base
      ensures Sound() && compactions == old(compactions) + 1
      ensures |samples| == DownsampleTarget(sampleCap) && Survive(old(samples), DownsampleTarget(sampleCap), samples)
    {
      OverflowIsPaid(View(), rank, bytes, taken, sampleRank, sampleBytes);
      GrowStridesAndCompact();
    }

    method Settle(ghost rank: u64, ghost bytes: u64, ghost taken: nat, sampleRank: bool, sampleBytes: bool)
      requires View().Pending(rank, bytes, taken, sampleRank, sampleBytes) && |samples| <= sampleCap
      modifies this`nextRankSample, this`nextByteMark
      ensures Sound()
    {
      ghost var pending := View();
      AdvanceMarks(sampleRank, sampleBytes, rank, bytes);
      SettledIsValid(pending, rank, bytes, taken, sampleRank, sampleBytes, View());
    }

    /** Samples an observation if a cadence fires, and counts it. */
    method Count(key: Bytes, fileSize: u64) returns (sampleRank: bool, sampleBytes: bool)
      requires Sound() && count < U64_MAX
      modifies this`samples, this`count, this`totalBytes, this`firstObservedKey, this`history
      ensures history == old(history) + [Observation(key, fileSize)]
      ensures View().Pending(old(count), old(totalBytes), old(|samples| - View().Kept()), sampleRank, sampleBytes)
      ensures samples == old(View()).Fed(Observation(key, fileSize))
    {
      ghost var was, o := View(), Observation(key, fileSize);
      var next: seq<Sample>;
      sampleRank, sampleBytes, next := Sampled(key, fileSize);
      CountedIsPending(was, o, next, sampleRank, sampleBytes);
      Record(key, fileSize, next);
    }

    /** Updates the buffer and the counters. */
    method Record(key: Bytes, fileSize: u64, next: seq<Sample>)
      requires count < U64_MAX
      modifies this`samples, this`count, this`totalBytes, this`firstObservedKey, this`history
      ensures View() == old(View()).Counted(Observation(key, fileSize), next)
    {
      if firstObservedKey.None? { firstObservedKey := Some(key); }
      samples := next;
      count := SatAdd(count, 1);
      totalBytes := SatAdd(totalBytes, fileSize);
      history := history + [Observation(key, fileSize)];
    }

    /** Decides whether a cadence fires, and what the buffer becomes. */
    method Sampled(key: Bytes, fileSize: u64) returns (sampleRank: bool, sampleBytes: bool, next: seq<Sample>)
      requires Sound() && count < U64_MAX
      ensures sampleRank <==> count == AlignUp(count, rankStride)
      ensures sampleBytes <==> AlignUp(totalBytes, rankStride) < SatAdd(totalBytes, fileSize)
      ensures next == View().Fed(Observation(key, fileSize))
      ensures |next| == |samples| + if sampleRank || sampleBytes then 1 else 0
      ensures SamplesOf(history + [Observation(key, fileSize)], next)
      ensures compactions == 0 ==> IsComplete(history + [Observation(key, fileSize)], next)
    {
      var rank := count;
      var recordedBytePosition := totalBytes;
      var endBytes := SatAdd(totalBytes, fileSize);
      sampleRank := rank >= nextRankSample;
      sampleBytes := fileSize > 0 && recordedBytePosition <= nextByteMark && nextByteMark < endBytes;
      CadenceMeaning(count, totalBytes, fileSize, rankStride, nextRankSample, nextByteMark);
      var sampled := sampleRank || sampleBytes;
      var bytePosition := if sampleBytes then nextByteMark else recordedBytePosition;
      next := if sampled then samples + [Sample(rank, bytePosition, key)] else samples;
      SamplesAfter(history, Observation(key, fileSize), samples, next, sampled, bytePosition);
    }

    /** Each mark that fired moves to its next grid point. */
    method AdvanceMarks(sampleRank: bool, sampleBytes: bool, ghost rank: u64, ghost bytes: u64)
      requires rankStride == byteStride >= 1 && count == rank + 1 && bytes <= totalBytes
      requires MarksAligned(rank, bytes, rankStride, nextRankSample, nextByteMark)
      requires sampleRank <==> rank == AlignUp(rank, rankStride)
      requires sampleBytes <==> AlignUp(bytes, rankStride) < totalBytes
      modifies this`nextRankSample, this`nextByteMark
      ensures MarksAligned(count, totalBytes, rankStride, nextRankSample, nextByteMark)
    {
      MarkAdvances(rank, count, rankStride);
      MarkAdvances(bytes, totalBytes, rankStride);
      if sampleRank {
        nextRankSample := SatAdd(count - 1, rankStride);
      }
      if sampleBytes {
        ByteMarkStep(bytes, totalBytes, byteStride);
        var moved := SatAdd(nextByteMark, byteStride);
        nextByteMark := if moved < totalBytes then AlignToStride(totalBytes, byteStride) else moved;
      }
      if count == U64_MAX || totalBytes == U64_MAX {
        RealignSampleMarks();
      }
    }

    /** Snaps both marks to the current stride grid. */
    method RealignSampleMarks()
      requires rankStride == byteStride >= 1
      modifies this`nextRankSample, this`nextByteMark
      ensures MarksAligned(count, totalBytes, rankStride, nextRankSample, nextByteMark)
    {
      AlignToStrideIsAlignUp(count, rankStride);
      AlignToStrideIsAlignUp(totalBytes, byteStride);
      nextRankSample := AlignToStride(count, rankStride);
      nextByteMark := AlignToStride(totalBytes, byteStride);
    }

    /** Halves the buffer and doubles both strides. */
    method GrowStridesAndCompact()
      requires View().Consistent() && history != [] && |samples| == sampleCap + 1
      requires 2 * rankStride <= U64_MAX
      requires StreamWeight(sampleCap, compactions + 1) <= count + totalBytes
      modifies this`samples, this`rankStride, this`byteStride, this`nextRankSample, this`nextByteMark,
               this`compactions, this`base
      ensures Sound() && compactions == old(compactions) + 1
      ensures |samples| == DownsampleTarget(sampleCap) && rankStride == 2 * old(rankStride)
      ensures Survive(old(samples), DownsampleTarget(sampleCap), samples)
    {
      ghost var was := View();
      var kept := CompactTo(samples, DownsampleTarget(sampleCap), history);
      DoubleStrides(kept);
      CompactedIsValid(was, kept, nextRankSample, nextByteMark);
    }

    /** Installs the kept samples and moves both marks to the coarser grid. */
    method DoubleStrides(kept: seq<Sample>)
      requires rankStride == byteStride >= 1 && 2 * rankStride <= U64_MAX
      modifies this`samples, this`rankStride, this`byteStride, this`nextRankSample, this`nextByteMark,
               this`compactions, this`base
      ensures MarksAligned(count, totalBytes, 2 * old(rankStride), nextRankSample, nextByteMark)
      ensures View() == old(View()).Compacted(kept, nextRankSample, nextByteMark)
    {
      samples := kept;
      rankStride := SatAdd(rankStride, rankStride);
      byteStride := SatAdd(byteStride, byteStride);
      RealignSampleMarks();
      compactions := compactions + 1;
      base := AlignUp(count, rankStride) + AlignUp(totalBytes, rankStride);
    }

    /** The retained key nearest to half the byte weight, unless that would leave one side empty. */
    function EstimateSplitKey(): Option<Bytes>
      reads this
    {
      Estimate(samples, count, totalBytes, firstObservedKey)
    }
  }

  // ---------------------------------------------------------------------
  // Estimation
  // ---------------------------------------------------------------------

  function NearestSample(samples: seq<Sample>, axis: Axis, target: u64): Option<Bytes> {
    if samples == [] then None else Some(samples[NearestIndex(Positions(samples, axis), target)].key)
  }

  /** The middle rank, kept off both ends. */
  function RankTarget(count: u64): u64
    requires count >= 2
  {
    Max(1, Min(count / 2, count - 1))
  }

  function Estimate(samples: seq<Sample>, count: u64, total: u64, first: Option<Bytes>): Option<Bytes> {
    if count < 2 then None
    else
      var byRank := NearestSample(samples, RankAxis, RankTarget(count));
      if total == 0 then byRank
      else
        var byBytes := NearestSample(samples, ByteAxis, total / 2);
        var candidate := if byBytes.Some? then byBytes else byRank;
        if candidate.None? then None
        else if first.Some? && candidate.value == first.value then byRank
        else if samples != [] && candidate.value == samples[|samples| - 1].key then byRank
        else candidate
  }

  ghost predicate KeysIncrease(history: seq<Observation>) {
    forall i, j :: 0 <= i < j < |history| ==> Less(history[i].key, history[j].key)
  }

  /** A sample strictly between the two ends of the stream exists and wins the search by rank. */
  lemma RankFallbackIsInner(history: seq<Observation>, samples: seq<Sample>, i: nat)
    requires SamplesOf(history, samples) && 3 <= |history| <= U64_MAX
    requires i < |samples| && 0 < samples[i].rank < |history| - 1
    ensures var r := NearestIndex(Positions(samples, RankAxis), RankTarget(|history|));
            0 < samples[r].rank < |history| - 1
  {
    var ranks, target := Positions(samples, RankAxis), RankTarget(|history|);
    var r := NearestIndex(ranks, target);
    assert Ascending(ranks);
    assert NonDecreasing(ranks);
    NearestIndexIsNearest(ranks, target);
    assert SampleOf(history, samples[r]) && SampleOf(history, samples[i]);
    assert AbsDiff(ranks[r], target) <= AbsDiff(ranks[i], target);
    if i < r { assert AbsDiff(ranks[r], target) < AbsDiff(ranks[i], target); }
  }

  /**
   * For three or more strictly increasing keys, whatever their sizes and however often the buffer was
   * compacted, the estimate is an observed key strictly between the first and the last observed key.
   */
  lemma EstimateIsInner(st: State) returns (r: nat)
    requires st.Valid() && KeysIncrease(st.history) && |st.history| >= 3
    ensures 0 < r < |st.history| - 1
    ensures Estimate(st.samples, st.count, st.total, st.first) == Some(st.history[r].key)
    ensures Less(st.history[0].key, st.history[r].key)
    ensures Less(st.history[r].key, st.history[|st.history| - 1].key)
  {
    InnerSample(st);
    RankFallbackIsInner(st.history, st.samples, 1);
    var i := EstimateIndex(st.samples, st.count, st.total, st.history);
    EstimateAtIndex(st.samples, st.count, st.total, st.history);
    r := st.samples[i].rank;
    assert SampleOf(st.history, st.samples[i]);
  }

  /** Which sample the estimate comes from. */
  ghost function EstimateIndex(samples: seq<Sample>, count: u64, total: u64, history: seq<Observation>): nat
    requires samples != [] && history != [] && count >= 2
  {
    var byRank := NearestIndex(Positions(samples, RankAxis), RankTarget(count));
    var byBytes := NearestIndex(Positions(samples, ByteAxis), total / 2);
    if total == 0 || samples[byBytes].key == history[0].key || samples[byBytes].key == samples[|samples| - 1].key
    then byRank else byBytes
  }

  lemma EstimateAtIndex(samples: seq<Sample>, count: u64, total: u64, history: seq<Observation>)
    requires SamplesOf(history, samples) && history != [] && count >= 2
    ensures var i := EstimateIndex(samples, count, total, history);
            var byRank := NearestIndex(Positions(samples, RankAxis), RankTarget(count));
            && i < |samples|
            && Estimate(samples, count, total, Some(history[0].key)) == Some(samples[i].key)
            && (i == byRank || 0 < samples[i].rank < |history| - 1)
  {
    var i, n := EstimateIndex(samples, count, total, history), |samples|;
    assert SampleOf(history, samples[0]);
    if i != NearestIndex(Positions(samples, RankAxis), RankTarget(count)) {
      assert 0 < i < n - 1;
      InnerRank(history, samples, i);
    }
  }

  lemma InnerRank(history: seq<Observation>, samples: seq<Sample>, i: nat)
    requires SamplesOf(history, samples) && 0 < i < |samples| - 1
    ensures 0 < samples[i].rank < |history| - 1
  {
    var ranks, n := Positions(samples, RankAxis), |samples|;
    assert SampleOf(history, samples[n - 1]);
    assert ranks[0] < ranks[i] < ranks[n - 1];
  }

  /** The second sample of three or more is neither the first nor the last observation. */
  lemma InnerSample(st: State)
    requires st.Valid() && |st.history| >= 3
    ensures |st.samples| >= 3 && 0 < st.samples[1].rank < |st.history| - 1
  {
    var ranks := Positions(st.samples, RankAxis);
    assert |st.samples| >= 3;
    assert ranks[0] < ranks[1] < ranks[2];
    assert SampleOf(st.history, st.samples[2]);
  }

  /** Two distinct keys split at the second; fewer than two never split. */
  lemma EstimateOfFewKeys(st: State)
    requires st.Valid() && |st.history| <= 2
    ensures |st.history| < 2 ==> Estimate(st.samples, st.count, st.total, st.first) == None
    ensures |st.history| == 2 && KeysIncrease(st.history) ==>
              Estimate(st.samples, st.count, st.total, st.first) == Some(st.history[1].key)
  {
    if |st.history| == 2 {
      var ranks := Positions(st.samples, RankAxis);
      FewSamples(st);
      assert ranks == [0, 1];
      NearestIndexIsNearest(ranks, 1);
      assert AbsDiff(ranks[1], 1) == 0;
    }
  }

  lemma FewSamples(st: State)
    requires st.Valid() && |st.history| == 2
    ensures st.samples == [Sample(0, 0, st.history[0].key), Sample(1, BytesBefore(st.history, 1), st.history[1].key)]
  {
    SamplesNoMoreThanKeys(st.history, st.samples);
  }

  lemma SamplesNoMoreThanKeys(history: seq<Observation>, samples: seq<Sample>)
    requires SamplesOf(history, samples)
    ensures |samples| <= |history|
  {
    var n := |samples|;
    if n > 0 {
      assert SampleOf(history, samples[n - 1]);
      AscendingGap(Positions(samples, RankAxis), 0, n - 1);
    }
  }

  // ---------------------------------------------------------------------
  // Logarithmic compaction
  // ---------------------------------------------------------------------

  /** After `k` compactions the stream's count plus bytes is at least `(cap/2 - 1) * (2^k - 1)`. */
  lemma CompactionsAreLogarithmic(st: State)
    requires st.Valid()
    ensures (st.cap / 2 - 1) * (Pow2(st.compactions) - 1) <= st.count + st.total
    ensures 2 * Pow2(st.compactions) <= U64_MAX
  {
    StreamWeightClosedForm(st.cap, st.compactions);
    StrideBound(st.cap, st.compactions);
  }
}
