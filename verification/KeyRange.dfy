/** Ranges of keys, and the items of a list whose keys lie in one. */
module KeyRange {
  import opened Bytes

  /** Inclusive start, exclusive resume point and exclusive end of an enumeration. */
  datatype Range = Range(start: Option<Bytes>, resumeAfter: Option<Bytes>, end: Option<Bytes>)

  predicate InRange(range: Range, p: Bytes) {
    && (range.start.Some? ==> LessEq(range.start.value, p))
    && (range.resumeAfter.Some? ==> Less(range.resumeAfter.value, p))
    && (range.end.Some? ==> Less(p, range.end.value))
  }

  /** The items in range, in the order given. */
  ghost function Select<T>(range: Range, items: seq<T>, key: T -> Bytes): seq<T> {
    if items == [] then []
    else (if InRange(range, key(items[0])) then [items[0]] else []) + Select(range, items[1..], key)
  }

  lemma {:induction false} SelectConcat<T>(range: Range, a: seq<T>, b: seq<T>, key: T -> Bytes)
    ensures Select(range, a + b, key) == Select(range, a, key) + Select(range, b, key)
    decreases |a|
  {
    if a == [] {
      assert a + b == b;
    } else {
      assert (a + b)[1..] == a[1..] + b;
      SelectConcat(range, a[1..], b, key);
    }
  }

  lemma {:induction false} SelectMember<T>(range: Range, items: seq<T>, key: T -> Bytes, item: T)
    ensures item in Select(range, items, key) <==> item in items && InRange(range, key(item))
    decreases |items|
  {
    if items != [] { SelectMember(range, items[1..], key, item); }
  }

  /** If the items in range are those at positions `lo` up to `hi`, they are selected. */
  lemma {:induction false} SelectSlice<T>(range: Range, items: seq<T>, key: T -> Bytes, lo: nat, hi: nat)
    requires hi <= |items|
    requires forall i :: 0 <= i < |items| ==> (InRange(range, key(items[i])) <==> lo <= i < hi)
    ensures Select(range, items, key) == if lo < hi then items[lo..hi] else []
    decreases |items|
  {
    if items != [] {
      var lo', hi' := if lo > 0 then lo - 1 else 0, if hi > 0 then hi - 1 else 0;
      forall i | 0 <= i < |items[1..]| ensures InRange(range, key(items[1..][i])) <==> lo' <= i < hi' {
        assert items[1..][i] == items[i + 1];
      }
      SelectSlice(range, items[1..], key, lo', hi');
      assert InRange(range, key(items[0])) <==> lo <= 0 < hi;
    }
  }

  lemma SelectEmpty<T>(range: Range, items: seq<T>, key: T -> Bytes)
    requires forall i :: 0 <= i < |items| ==> !InRange(range, key(items[i]))
    ensures Select(range, items, key) == []
  {
    SelectSlice(range, items, key, 0, 0);
  }
}
