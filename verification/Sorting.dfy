/** Sorting by a byte-string key, the order every connector imposes on its items. */
module Sorting {
  import opened Bytes

  ghost predicate SortedBy<T>(s: seq<T>, key: T -> Bytes) {
    forall i, j :: 0 <= i < j < |s| ==> LessEq(key(s[i]), key(s[j]))
  }

  ghost predicate StrictBy<T>(s: seq<T>, key: T -> Bytes) {
    forall i, j :: 0 <= i < j < |s| ==> Less(key(s[i]), key(s[j]))
  }

  ghost predicate DistinctBy<T>(s: seq<T>, key: T -> Bytes) {
    forall i, j :: 0 <= i < j < |s| ==> key(s[i]) != key(s[j])
  }

  function Insert<T>(x: T, s: seq<T>, key: T -> Bytes): (r: seq<T>)
    ensures multiset(r) == multiset{x} + multiset(s)
  {
    if s == [] then [x]
    else if LessEq(key(x), key(s[0])) then [x] + s
    else
      assert s == [s[0]] + s[1..];
      [s[0]] + Insert(x, s[1..], key)
  }

  function Sort<T>(s: seq<T>, key: T -> Bytes): (r: seq<T>)
    ensures multiset(r) == multiset(s)
    ensures |r| == |s|
  {
    if s == [] then []
    else
      assert s == [s[0]] + s[1..];
      var r := Insert(s[0], Sort(s[1..], key), key);
      assert |r| == |multiset(r)| && |s| == |multiset(s)|;
      r
  }

  lemma SameElements<T>(s: seq<T>, r: seq<T>, x: T)
    requires multiset(s) == multiset(r)
    ensures x in s <==> x in r
  {
    assert x in s <==> x in multiset(s);
    assert x in r <==> x in multiset(r);
  }

  lemma {:induction false} InsertSorted<T>(x: T, s: seq<T>, key: T -> Bytes)
    requires SortedBy(s, key)
    ensures SortedBy(Insert(x, s, key), key)
    decreases |s|
  {
    if s != [] {
      if LessEq(key(x), key(s[0])) {
        forall j | 0 <= j < |s|
          ensures LessEq(key(x), key(s[j]))
        {
          LessEqTransitive(key(x), key(s[0]), key(s[j]));
        }
      } else {
        LessTotal(key(x), key(s[0]));
        var t := Insert(x, s[1..], key);
        InsertSorted(x, s[1..], key);
        forall j | 0 <= j < |t|
          ensures LessEq(key(s[0]), key(t[j]))
        {
          assert t[j] in multiset(t);
          assert t[j] == x || t[j] in s[1..];
        }
      }
    }
  }

  lemma {:induction false} SortSorts<T>(s: seq<T>, key: T -> Bytes)
    ensures SortedBy(Sort(s, key), key)
    decreases |s|
  {
    if s != [] {
      SortSorts(s[1..], key);
      InsertSorted(s[0], Sort(s[1..], key), key);
    }
  }

  /** The keys of a sorted sequence are strictly increasing exactly when its source had no two equal keys. */
  lemma SortStrictIffDistinct<T>(s: seq<T>, key: T -> Bytes)
    ensures StrictBy(Sort(s, key), key) <==> DistinctBy(s, key)
  {
    var r := Sort(s, key);
    SortSorts(s, key);
    if DistinctBy(s, key) {
      PermutationDistinct(s, r, key);
    } else {
      var i, j :| 0 <= i < j < |s| && key(s[i]) == key(s[j]);
      if StrictBy(r, key) {
        forall a, b | 0 <= a < b < |r| ensures key(r[a]) != key(r[b]) {
          LessAsymmetric(key(r[a]), key(r[b]));
        }
        assert DistinctBy(r, key);
        PermutationDistinct(r, s, key);
        assert false;
      }
    }
  }

  lemma PermutationDistinct<T>(s: seq<T>, r: seq<T>, key: T -> Bytes)
    requires multiset(s) == multiset(r)
    requires DistinctBy(s, key)
    ensures DistinctBy(r, key)
  {
    forall i, j | 0 <= i < j < |r|
      ensures key(r[i]) != key(r[j])
    {
      SameElements(s, r, r[i]);
      SameElements(s, r, r[j]);
      assert r[i] in r && r[j] in r;
      var a :| 0 <= a < |s| && s[a] == r[i];
      var b :| 0 <= b < |s| && s[b] == r[j];
      if key(r[i]) == key(r[j]) {
        assert a == b;
        CountOne(s, a, key);
        CountTwo(r, i, j);
        assert false;
      }
    }
  }

  lemma CountOne<T>(s: seq<T>, a: nat, key: T -> Bytes)
    requires DistinctBy(s, key) && a < |s|
    ensures multiset(s)[s[a]] == 1
  {
    assert s == s[..a] + [s[a]] + s[a + 1..];
    assert s[a] !in s[..a] && s[a] !in s[a + 1..];
  }

  lemma CountTwo<T>(r: seq<T>, i: nat, j: nat)
    requires i < j < |r| && r[i] == r[j]
    ensures multiset(r)[r[i]] >= 2
  {
    assert r == r[..i] + [r[i]] + r[i + 1..j] + [r[j]] + r[j + 1..];
  }

  // ---------------------------------------------------------------------
  // Partition points
  // ---------------------------------------------------------------------

  /** The first index whose element is not below the boundary. */
  function PartitionPoint<T>(s: seq<T>, below: T -> bool): (k: nat)
    ensures k <= |s|
    ensures forall i :: 0 <= i < k ==> below(s[i])
    ensures k < |s| ==> !below(s[k])
  {
    if s == [] || !below(s[0]) then 0
    else
      var k := PartitionPoint(s[1..], below);
      assert forall i :: 1 <= i <= k ==> s[i] == s[1..][i - 1];
      1 + k
  }
}
