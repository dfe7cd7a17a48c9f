/** Split points over a sorted in-memory item list: bound resolution, resume position, exact estimation. */
module BatchSplit {
  import opened Bytes
  import opened KeyRange
  import opened Sorting
  import opened SampleCompaction
  import opened SplitEstimator

  type Payload = b: Bytes | |b| <= U64_MAX

  datatype MemItem = MemItem(key: Bytes, bytes: Payload)

  datatype SplitResult = Split(key: Bytes) | NoSplit | BoundsInverted

  function Key(item: MemItem): Bytes { item.key }

  // ---------------------------------------------------------------------
  // Binary searches
  // ---------------------------------------------------------------------

  /** The first index whose key is at or above `key`. */
  function LowerBound(items: seq<MemItem>, key: Bytes): nat {
    PartitionPoint(items, (item: MemItem) => Less(item.key, key))
  }

  /** The first index whose key is above `key`. */
  function UpperBound(items: seq<MemItem>, key: Bytes): nat {
    PartitionPoint(items, (item: MemItem) => LessEq(item.key, key))
  }

  lemma LowerBoundSplits(items: seq<MemItem>, key: Bytes, i: nat)
    requires StrictBy(items, Key) && i < |items|
    ensures i < LowerBound(items, key) <==> Less(items[i].key, key)
  {
    var k := LowerBound(items, key);
    if i >= k {
      LessOrNot(items[k].key, key);
      if k < i { assert Less(Key(items[k]), Key(items[i])); }
      LessEqTransitive(key, items[k].key, items[i].key);
      LessOrNot(key, items[i].key);
    }
  }

  lemma UpperBoundSplits(items: seq<MemItem>, key: Bytes, i: nat)
    requires StrictBy(items, Key) && i < |items|
    ensures i < UpperBound(items, key) <==> LessEq(items[i].key, key)
  {
    var k := UpperBound(items, key);
    if i >= k {
      LessOrNot(items[k].key, key);
      if k < i { assert Less(Key(items[k]), Key(items[i])); }
      LessEqTransitive(key, items[k].key, items[i].key);
      LessOrNot(key, items[i].key);
    }
  }

  datatype ResolvedBounds = ResolvedBounds(rangeStart: nat, rangeEnd: nat)

  /** Index bounds of a key range; absent when the range is inverted. */
  function ResolveBounds(items: seq<MemItem>, start: Option<Bytes>, end: Option<Bytes>): Option<ResolvedBounds> {
    if start.Some? && end.Some? && Less(end.value, start.value) then None
    else
      Some(ResolvedBounds(
        if start.Some? then LowerBound(items, start.value) else 0,
        if end.Some? then LowerBound(items, end.value) else |items|))
  }

  /** The first index at or after `rangeStart` whose key is past the cursor. */
  function KeyResumeStart(items: seq<MemItem>, cursor: Option<Bytes>, rangeStart: nat): nat {
    if cursor.None? then rangeStart else Max(UpperBound(items, cursor.value), rangeStart)
  }

  /** Bound resolution and resume position cut out exactly the items in range. */
  lemma BoundsCutSelection(items: seq<MemItem>, w: Range)
    requires StrictBy(items, Key)
    requires ResolveBounds(items, w.start, w.end).Some?
    ensures var b := ResolveBounds(items, w.start, w.end).value;
            var from := KeyResumeStart(items, w.resumeAfter, b.rangeStart);
            && b.rangeEnd <= |items|
            && Select(w, items, Key) == if from < b.rangeEnd then items[from..b.rangeEnd] else []
  {
    var b := ResolveBounds(items, w.start, w.end).value;
    var from := KeyResumeStart(items, w.resumeAfter, b.rangeStart);
    forall i | 0 <= i < |items| ensures InRange(w, Key(items[i])) <==> from <= i < b.rangeEnd {
      var key := items[i].key;
      if w.start.Some? { LowerBoundSplits(items, w.start.value, i); LessOrNot(w.start.value, key); }
      if w.end.Some? { LowerBoundSplits(items, w.end.value, i); }
      if w.resumeAfter.Some? { UpperBoundSplits(items, w.resumeAfter.value, i); LessOrNot(w.resumeAfter.value, key); }
    }
    SelectSlice(w, items, Key, from, b.rangeEnd);
  }

  // ---------------------------------------------------------------------
  // Exact estimation
  // ---------------------------------------------------------------------

  /** The estimator has seen these of `n` entries, without a compaction if all of them fit. */
  ghost predicate HasSeen(est: StreamingSplitEstimator, cap: nat, n: nat, seen: seq<Observation>)
    reads est
  {
    est.Valid() && est.history == seen && est.sampleCap >= cap && (n <= cap ==> est.compactions == 0)
  }

  /** Feeds a whole sorted list to a fresh estimator; with room for all of it, nothing is ever discarded. */
  method FromSortedEntries(cap: nat, entries: seq<Observation>) returns (est: StreamingSplitEstimator)
    requires |entries| <= U64_MAX
    ensures est.Valid() && est.history == entries
    ensures |entries| <= cap ==> est.compactions == 0
  {
    est := new StreamingSplitEstimator(cap);
    assert HasSeen(est, cap, |entries|, entries[..0]);
    for i := 0 to |entries|
      invariant fresh(est) && HasSeen(est, cap, |entries|, entries[..i])
    {
      Feed(est, entries[i], cap, |entries|, entries[..i]);
      assert entries[..i + 1] == entries[..i] + [entries[i]];
    }
    assert entries[..|entries|] == entries;
  }

  /** One observation; while fewer keys were seen than samples fit, it does not compact. */
  method Feed(est: StreamingSplitEstimator, o: Observation, ghost cap: nat, ghost n: nat, ghost seen: seq<Observation>)
    requires HasSeen(est, cap, n, seen) && |seen| < n <= U64_MAX
    modifies est
    ensures HasSeen(est, cap, n, seen + [o])
  {
    SamplesAreFew(est.View());
    est.Observe(o.key, o.size);
  }

  lemma SamplesAreFew(st: State)
    requires st.Valid()
    ensures |st.samples| <= |st.history| == st.count
  {
    SamplesNoMoreThanKeys(st.history, st.samples);
  }

  ghost function PrefixSums(entries: seq<Observation>): (r: seq<u64>)
    ensures |r| == |entries| && forall i :: 0 <= i < |r| ==> r[i] == BytesBefore(entries, i)
  {
    seq(|entries|, i requires 0 <= i < |entries| => BytesBefore(entries, i))
  }

  /** No item's prefix sum is nearer to half the total than that of item `k`. */
  ghost predicate IsBalanced(entries: seq<Observation>, k: nat) {
    NearestFrom(PrefixSums(entries), BytesBefore(entries, |entries|) / 2, 0, k)
  }

  /** A balanced item, or the middle item if an end is balanced instead. */
  ghost function BalancedIndex(entries: seq<Observation>): (k: nat)
    requires |entries| >= 2
    ensures 0 < k < |entries|
    ensures IsBalanced(entries, k) || (k == |entries| / 2 && (IsBalanced(entries, 0) || IsBalanced(entries, |entries| - 1)))
  {
    var n, sums := |entries|, PrefixSums(entries);
    var nearest := NearestIndex(sums, BytesBefore(entries, n) / 2);
    SumsNonDecreasing(entries);
    NearestIndexIsNearest(sums, BytesBefore(entries, n) / 2);
    if 0 < nearest < n - 1 then nearest else n / 2
  }

  lemma SumsNonDecreasing(entries: seq<Observation>)
    ensures NonDecreasing(PrefixSums(entries))
  {
    forall i, j | 0 <= i <= j < |entries| ensures BytesBefore(entries, i) <= BytesBefore(entries, j) {
      SumSizesMonotone(entries, i, j);
    }
  }

  /** An estimator that never compacted splits at the balanced item. */
  lemma ExactEstimate(st: State)
    requires st.Valid() && st.compactions == 0 && KeysIncrease(st.history) && |st.history| >= 2
    ensures Estimate(st.samples, st.count, st.total, st.first) == Some(st.history[BalancedIndex(st.history)].key)
  {
    CompleteEstimate(st.history, st.samples, st.total);
  }

  lemma CompleteEstimate(h: seq<Observation>, samples: seq<Sample>, total: u64)
    requires IsComplete(h, samples) && KeysIncrease(h) && |h| >= 2
    requires total == BytesBefore(h, |h|)
    ensures Estimate(samples, |h|, total, Some(h[0].key)) == Some(h[BalancedIndex(h)].key)
  {
    var c, estimate := CompleteCases(h, samples, total);
    AvoidEnds(h, c, total, estimate);
  }

  lemma CompleteCases(h: seq<Observation>, samples: seq<Sample>, total: u64) returns (c: nat, estimate: Option<Bytes>)
    requires IsComplete(h, samples) && |h| >= 2
    ensures c == NearestIndex(PrefixSums(h), total / 2) && c < |h| && (total == 0 ==> c == 0)
    ensures estimate == Estimate(samples, |h|, total, Some(h[0].key))
    ensures estimate == Some(if total == 0 || h[c].key == h[0].key || h[c].key == h[|h| - 1].key
                             then h[|h| / 2].key else h[c].key)
  {
    c := NearestIndex(PrefixSums(h), total / 2);
    NoWeight(PrefixSums(h));
    CompleteByRank(h, samples);
    CompleteByBytes(h, samples, total / 2);
    estimate := CompleteCandidates(h, samples, total, h[|h| / 2].key, h[c].key);
  }

  /** The estimate of a complete sample list before the ends are avoided. */
  lemma CompleteCandidates(h: seq<Observation>, samples: seq<Sample>, total: u64, byRank: Bytes, byBytes: Bytes)
      returns (estimate: Option<Bytes>)
    requires IsComplete(h, samples) && |h| >= 2
    requires NearestSample(samples, RankAxis, RankTarget(|h|)) == Some(byRank)
    requires NearestSample(samples, ByteAxis, total / 2) == Some(byBytes)
    ensures estimate == Estimate(samples, |h|, total, Some(h[0].key))
    ensures estimate == Some(if total == 0 || byBytes == h[0].key || byBytes == h[|h| - 1].key then byRank else byBytes)
  {
    LastSampleKey(h, samples);
    EstimateCases(samples, |h|, total, h[0].key, h[|h| - 1].key, byRank, byBytes);
    estimate := Estimate(samples, |h|, total, Some(h[0].key));
  }

  lemma LastSampleKey(h: seq<Observation>, samples: seq<Sample>)
    requires IsComplete(h, samples) && h != []
    ensures |samples| == |h| && samples[|samples| - 1].key == h[|h| - 1].key
  {
  }

  lemma AvoidEnds(h: seq<Observation>, c: nat, total: u64, estimate: Option<Bytes>)
    requires KeysIncrease(h) && c < |h| && |h| >= 2 && (total == 0 ==> c == 0)
    requires estimate == Some(if total == 0 || h[c].key == h[0].key || h[c].key == h[|h| - 1].key
                              then h[|h| / 2].key else h[c].key)
    ensures estimate == Some(h[if 0 < c < |h| - 1 then c else |h| / 2].key)
  {
    KeysDiffer(h, 0, c);
    KeysDiffer(h, c, |h| - 1);
  }

  lemma EstimateCases(samples: seq<Sample>, count: u64, total: u64, first: Bytes, last: Bytes, byRank: Bytes, byBytes: Bytes)
    requires count >= 2 && samples != [] && samples[|samples| - 1].key == last
    requires NearestSample(samples, RankAxis, RankTarget(count)) == Some(byRank)
    requires NearestSample(samples, ByteAxis, total / 2) == Some(byBytes)
    ensures Estimate(samples, count, total, Some(first)) ==
            Some(if total == 0 || byBytes == first || byBytes == last then byRank else byBytes)
  {
  }

  lemma CompleteByRank(h: seq<Observation>, samples: seq<Sample>)
    requires IsComplete(h, samples) && |h| >= 2
    ensures NearestSample(samples, RankAxis, RankTarget(|h|)) == Some(h[|h| / 2].key)
  {
    var ranks := Positions(samples, RankAxis);
    forall i | 0 <= i < |ranks| ensures ranks[i] == i {}
    AllRanks(ranks, |h| / 2);
  }

  lemma CompleteByBytes(h: seq<Observation>, samples: seq<Sample>, target: u64)
    requires IsComplete(h, samples) && h != []
    ensures NearestSample(samples, ByteAxis, target) == Some(h[NearestIndex(PrefixSums(h), target)].key)
  {
    assert Positions(samples, ByteAxis) == PrefixSums(h);
  }

  lemma KeysDiffer(h: seq<Observation>, i: nat, j: nat)
    requires KeysIncrease(h) && i <= j < |h|
    ensures h[i].key == h[j].key <==> i == j
  {
    if i < j { LessAsymmetric(h[i].key, h[j].key); }
  }

  lemma AllRanks(ranks: seq<u64>, target: u64)
    requires target < |ranks| && forall i :: 0 <= i < |ranks| ==> ranks[i] == i
    ensures NearestIndex(ranks, target) == target
  {
    NearestIndexIsNearest(ranks, target);
    assert AbsDiff(ranks[target], target) == 0;
  }

  lemma NoWeight(positions: seq<u64>)
    requires positions != []
    ensures NearestIndex(positions, 0) == 0
  {
  }

  function ToObservation(item: MemItem): Observation {
    Observation(item.key, |item.bytes|)
  }

  function Observations(items: seq<MemItem>): (r: seq<Observation>)
    ensures |r| == |items| && forall i :: 0 <= i < |r| ==> r[i] == ToObservation(items[i])
  {
    seq(|items|, i requires 0 <= i < |items| => ToObservation(items[i]))
  }

  // ---------------------------------------------------------------------
  // The connector
  // ---------------------------------------------------------------------

  /** A candidate must lie past the cursor and below the end bound. */
  predicate IsValidSplitCandidate(candidate: Bytes, cursor: Option<Bytes>, end: Option<Bytes>) {
    (cursor.Some? ==> Less(cursor.value, candidate)) && (end.Some? ==> Less(candidate, end.value))
  }

  /** Neighbours up to position `i` are strictly ordered. */
  ghost predicate StrictUpTo(sorted: seq<MemItem>, i: int) {
    forall j :: 0 < j <= i && j < |sorted| ==> Less(Key(sorted[j - 1]), Key(sorted[j]))
  }

  /** In a sorted list, neighbours have equal keys or are strictly ordered; equal ones rule out strictness. */
  lemma NeighbourOrder(sorted: seq<MemItem>, i: nat)
    requires SortedBy(sorted, Key) && i + 1 < |sorted|
    ensures sorted[i].key == sorted[i + 1].key ==> !StrictBy(sorted, Key)
    ensures sorted[i].key != sorted[i + 1].key ==> Less(Key(sorted[i]), Key(sorted[i + 1]))
  {
    LessIrreflexive(sorted[i].key);
    assert LessEq(Key(sorted[i]), Key(sorted[i + 1]));
  }

  class InMemoryConnector {
    const items: seq<MemItem>

    ghost predicate Valid() {
      StrictBy(items, Key) && |items| <= U64_MAX
    }

    constructor (sorted: seq<MemItem>)
      ensures items == sorted
    {
      items := sorted;
    }

    /** Sorts the items; two items with one key are refused. */
    static method Create(unsorted: seq<MemItem>) returns (r: InMemoryConnector?)
      requires |unsorted| <= U64_MAX
      ensures r != null <==> DistinctBy(unsorted, Key)
      ensures r != null ==> r.Valid() && multiset(r.items) == multiset(unsorted)
    {
      var sorted := Sort(unsorted, Key);
      SortSorts(unsorted, Key);
      SortStrictIffDistinct(unsorted, Key);
      var i := 0;
      while i + 1 < |sorted|
        invariant 0 <= i && (i < |sorted| || sorted == [])
        invariant StrictUpTo(sorted, i)
      {
        NeighbourOrder(sorted, i);
        if sorted[i].key == sorted[i + 1].key { return null; }
        i := i + 1;
      }
      AdjacentStrict(sorted);
      r := new InMemoryConnector(sorted);
    }

    /** A split exists exactly when two items remain, and falls on the balanced one. */
    method ChooseSplitPoint(w: Range) returns (r: SplitResult)
      requires Valid()
      ensures r.BoundsInverted? <==> w.start.Some? && w.end.Some? && Less(w.end.value, w.start.value)
      ensures var left := Select(w, items, Key);
              && (!r.BoundsInverted? ==> (r.Split? <==> |left| >= 2))
              && (r.Split? ==>
                    && r.key == left[BalancedIndex(Observations(left))].key
                    && Less(left[0].key, r.key) && InRange(w, r.key))
    {
      var bounds := ResolveBounds(items, w.start, w.end);
      if bounds.None? { return BoundsInverted; }
      BoundsCutSelection(items, w);
      var startIdx := KeyResumeStart(items, w.resumeAfter, bounds.value.rangeStart);
      if startIdx >= bounds.value.rangeEnd { return NoSplit; }
      var range := items[startIdx..bounds.value.rangeEnd];
      assert range == Select(w, items, Key);
      var entries := Observations(range);
      var est := FromSortedEntries(|range|, entries);
      ObservationsIncrease(items, startIdx, bounds.value.rangeEnd);
      if |range| < 2 { EstimateOfFewKeys(est.View()); } else { ExactEstimate(est.View()); }
      var key := est.EstimateSplitKey();
      if key.None? { return NoSplit; }
      SelectMember(w, items, Key, range[BalancedIndex(entries)]);
      if !IsValidSplitCandidate(key.value, w.resumeAfter, w.end) { return NoSplit; }
      return Split(key.value);
    }
  }

  lemma AdjacentStrict(sorted: seq<MemItem>)
    requires forall j :: 0 < j < |sorted| ==> Less(Key(sorted[j - 1]), Key(sorted[j]))
    ensures StrictBy(sorted, Key)
  {
    forall i, j | 0 <= i < j < |sorted| ensures Less(Key(sorted[i]), Key(sorted[j])) {
      AdjacentStrictTo(sorted, i, j);
    }
  }

  lemma {:induction false} AdjacentStrictTo(sorted: seq<MemItem>, i: nat, j: nat)
    requires i < j < |sorted|
    requires forall j :: 0 < j < |sorted| ==> Less(Key(sorted[j - 1]), Key(sorted[j]))
    ensures Less(Key(sorted[i]), Key(sorted[j]))
    decreases j
  {
    assert Less(Key(sorted[j - 1]), Key(sorted[j]));
    if i < j - 1 {
      AdjacentStrictTo(sorted, i, j - 1);
      LessTransitive(Key(sorted[i]), Key(sorted[j - 1]), Key(sorted[j]));
    }
  }

  lemma ObservationsIncrease(items: seq<MemItem>, lo: nat, hi: nat)
    requires StrictBy(items, Key) && lo <= hi <= |items|
    ensures KeysIncrease(Observations(items[lo..hi]))
  {
    var o := Observations(items[lo..hi]);
    forall i, j | 0 <= i < j < |o| ensures Less(o[i].key, o[j].key) {
      assert Less(Key(items[lo + i]), Key(items[lo + j]));
    }
  }
}
