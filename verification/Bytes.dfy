/** Byte strings, their lexicographic order, and saturating 64-bit arithmetic. */
module Bytes {

  type byte = b: int | 0 <= b < 256
  type Bytes = seq<byte>

  const U64_MAX: int := 0xFFFF_FFFF_FFFF_FFFF

  type u64 = n: int | 0 <= n <= U64_MAX

  const SLASH: byte := 47

  datatype Option<+T> = None | Some(value: T)

  /** A value or an error of the caller's choice. */
  datatype Fallible<+T, +E> = Ok(value: T) | Err(error: E) {
    predicate IsFailure() { Err? }
    function PropagateFailure<U>(): Fallible<U, E> requires Err? { Err(error) }
    function Extract(): T requires Ok? { value }
  }

  function SatAdd(a: u64, b: u64): (r: u64) {
    if a + b > U64_MAX then U64_MAX else a + b
  }

  /** Where a saturating 64-bit counter ends up. */
  function Clamp(n: nat): u64 {
    if n > U64_MAX then U64_MAX else n
  }

  function AbsDiff(a: int, b: int): nat {
    if a <= b then b - a else a - b
  }

  // ---------------------------------------------------------------------
  // Lexicographic order
  // ---------------------------------------------------------------------

  predicate Less(a: Bytes, b: Bytes)
    decreases |a|
  {
    b != [] && (a == [] || a[0] < b[0] || (a[0] == b[0] && Less(a[1..], b[1..])))
  }

  predicate LessEq(a: Bytes, b: Bytes) {
    a == b || Less(a, b)
  }

  lemma {:induction false} LessIrreflexive(a: Bytes)
    ensures !Less(a, a)
    decreases |a|
  {
    if a != [] { LessIrreflexive(a[1..]); }
  }

  lemma {:induction false} LessTransitive(a: Bytes, b: Bytes, c: Bytes)
    requires Less(a, b) && Less(b, c)
    ensures Less(a, c)
    decreases |a|
  {
    if a != [] && a[0] == b[0] == c[0] {
      LessTransitive(a[1..], b[1..], c[1..]);
    }
  }

  lemma {:induction false} LessTotal(a: Bytes, b: Bytes)
    ensures Less(a, b) || a == b || Less(b, a)
    decreases |a|
  {
    if a != [] && b != [] && a[0] == b[0] {
      LessTotal(a[1..], b[1..]);
      assert a == [a[0]] + a[1..] && b == [b[0]] + b[1..];
    }
  }

  lemma LessAsymmetric(a: Bytes, b: Bytes)
    requires Less(a, b)
    ensures !Less(b, a) && a != b
  {
    LessIrreflexive(a);
    if Less(b, a) { LessTransitive(a, b, a); }
  }

  lemma LessOrNot(a: Bytes, b: Bytes)
    ensures Less(b, a) <==> !LessEq(a, b)
    ensures LessEq(b, a) <==> !Less(a, b)
  {
    LessTotal(a, b);
    LessIrreflexive(a);
    if Less(a, b) { LessAsymmetric(a, b); }
    if Less(b, a) { LessAsymmetric(b, a); }
  }

  lemma LessEqTransitive(a: Bytes, b: Bytes, c: Bytes)
    requires LessEq(a, b) && LessEq(b, c)
    ensures LessEq(a, c)
    ensures Less(a, b) || Less(b, c) ==> Less(a, c)
  {
    if a != b && b != c { LessTransitive(a, b, c); }
  }

  /** A common prefix does not influence the order. */
  lemma {:induction false} LessCommonPrefix(p: Bytes, a: Bytes, b: Bytes)
    ensures Less(p + a, p + b) <==> Less(a, b)
    decreases |p|
  {
    if p == [] {
      assert p + a == a && p + b == b;
    } else {
      assert (p + a)[1..] == p[1..] + a && (p + b)[1..] == p[1..] + b;
      LessCommonPrefix(p[1..], a, b);
    }
  }

  /** A strict order between strings of equal length survives any continuation. */
  lemma {:induction false} LessExtend(a: Bytes, b: Bytes, x: Bytes, y: Bytes)
    requires |a| == |b|
    ensures Less(a, b) ==> Less(a + x, b + y)
    decreases |a|
  {
    if a != [] && Less(a, b) {
      assert (a + x)[1..] == a[1..] + x && (b + y)[1..] == b[1..] + y;
      LessExtend(a[1..], b[1..], x, y);
    }
  }

  lemma PrefixLessEq(p: Bytes, s: Bytes)
    requires p <= s
    ensures LessEq(p, s)
  {
    if p != s {
      LessCommonPrefix(p, [], s[|p|..]);
      assert p + [] == p && p + s[|p|..] == s;
    }
  }

  // ---------------------------------------------------------------------
  // Prefix successor
  // ---------------------------------------------------------------------

  /** Least string above every string with prefix `p`; absent when `p` is all 0xFF. */
  ghost function Successor(p: Bytes): Option<Bytes>
    decreases |p|
  {
    if p == [] then None
    else if p[|p| - 1] != 255 then Some(p[..|p| - 1] + [p[|p| - 1] + 1])
    else Successor(p[..|p| - 1])
  }

  ghost predicate BelowSuccessor(p: Bytes, s: Bytes) { Successor(p).None? || Less(s, Successor(p).value) }

  /** The half-open interval from `p` to its successor holds exactly the strings with prefix `p`. */
  lemma SuccessorBoundsPrefix(p: Bytes, s: Bytes)
    ensures p <= s <==> LessEq(p, s) && BelowSuccessor(p, s)
  {
    if p <= s {
      PrefixLessEq(p, s);
      PrefixIsBelow(p, s);
    } else if LessEq(p, s) && BelowSuccessor(p, s) {
      BelowIsPrefix(p, s);
    }
  }

  lemma {:induction false} PrefixIsBelow(p: Bytes, s: Bytes)
    requires p <= s
    ensures BelowSuccessor(p, s)
    decreases |p|
  {
    if p != [] {
      var n := |p| - 1;
      if p[n] == 255 {
        PrefixIsBelow(p[..n], s);
      } else {
        assert s == p[..n] + s[n..];
        LessCommonPrefix(p[..n], s[n..], [p[n] + 1]);
      }
    }
  }

  lemma {:induction false} BelowIsPrefix(p: Bytes, s: Bytes)
    requires LessEq(p, s) && BelowSuccessor(p, s)
    ensures p <= s
    decreases |p|
  {
    if p != [] {
      var n := |p| - 1;
      var q := p[..n];
      assert p == q + [p[n]];
      PrefixLessEq(q, p);
      LessEqTransitive(q, p, s);
      if p[n] == 255 {
        BelowIsPrefix(q, s);
      } else {
        NotAboveIsPrefix(q, s, [p[n] + 1]);
      }
      LastByteMatches(q, p[n], s);
    }
  }

  lemma NotAboveIsPrefix(q: Bytes, s: Bytes, x: Bytes)
    requires LessEq(q, s) && Less(s, q + x)
    ensures q <= s
  {
    if !(q <= s) {
      LessAboveNonPrefix(q, s, x);
      assert false;
    }
  }

  /** A string that extends `q`, is at least `q` with `b`, and below what follows, continues with `b`. */
  lemma LastByteMatches(q: Bytes, b: byte, s: Bytes)
    requires q <= s && LessEq(q + [b], s) && (b < 255 ==> Less(s, q + [b + 1]))
    ensures q + [b] <= s
  {
    var t := s[|q|..];
    assert s == q + t;
    LessCommonPrefix(q, [b], t);
    if b < 255 { LessCommonPrefix(q, t, [b + 1]); }
    assert q + [b] == s ==> t == [b];
    assert t != [] && t[0] == b;
    assert s == (q + [b]) + t[1..];
  }

  /** A string above `q` that does not extend `q` is above every extension of `q`. */
  lemma {:induction false} LessAboveNonPrefix(q: Bytes, s: Bytes, x: Bytes)
    requires Less(q, s) && !(q <= s)
    ensures Less(q + x, s)
    ensures !Less(s, q + x)
    decreases |q|
  {
    if q != [] && s != [] && q[0] == s[0] {
      assert (q + x)[1..] == q[1..] + x;
      assert q == [q[0]] + q[1..] && s == [s[0]] + s[1..];
      LessAboveNonPrefix(q[1..], s[1..], x);
    }
    LessAsymmetric(q + x, s);
  }

  // ---------------------------------------------------------------------
  // Strictly increasing sequences of keys
  // ---------------------------------------------------------------------

  predicate Increasing(keys: seq<Bytes>) {
    forall i, j :: 0 <= i < j < |keys| ==> Less(keys[i], keys[j])
  }

  /** Strictly increasing sequences with the same elements are the same sequence. */
  lemma {:induction false} IncreasingUnique(a: seq<Bytes>, b: seq<Bytes>)
    requires Increasing(a) && Increasing(b)
    requires forall k :: k in a <==> k in b
    ensures a == b
    decreases |a|
  {
    assert b != [] ==> b[0] in b;
    if a != [] {
      assert a[0] in b;
      assert b[0] in a;
      var i :| 0 <= i < |b| && b[i] == a[0];
      var j :| 0 <= j < |a| && a[j] == b[0];
      if i > 0 {
        if j > 0 { LessAsymmetric(a[0], a[j]); } else { LessIrreflexive(a[0]); }
      }
      assert a[0] == b[0];
      forall k | k in a[1..] || k in b[1..]
        ensures k in a[1..] <==> k in b[1..]
      {
        TailMember(a, k);
        TailMember(b, k);
      }
      IncreasingUnique(a[1..], b[1..]);
      assert a == [a[0]] + a[1..] && b == [b[0]] + b[1..];
    }
  }

  lemma TailMember(a: seq<Bytes>, k: Bytes)
    requires Increasing(a) && a != []
    ensures k in a[1..] <==> k in a && k != a[0]
  {
    if k in a[1..] {
      var i :| 0 <= i < |a| - 1 && a[1..][i] == k;
      assert a[i + 1] == k;
      LessAsymmetric(a[0], k);
    }
  }

  /** Regrouping a concatenation of three parts. */
  lemma Associate(a: Bytes, b: Bytes, c: Bytes)
    ensures (a + b) + c == a + (b + c)
  {
  }
}
