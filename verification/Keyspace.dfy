/** The layout of coordination keys: builders, parsers, and why they never interfere. */
module Keyspace {
  import opened Bytes
  import opened Wire

  // ---------------------------------------------------------------------
  // Lowercase hexadecimal
  // ---------------------------------------------------------------------

  predicate IsHexDigit(b: byte) { 48 <= b <= 57 || 97 <= b <= 102 }

  function Digit(v: nat): (b: byte)
    requires v < 16
    ensures IsHexDigit(b) && DigitValue(b) == v
  {
    if v < 10 then 48 + v else 87 + v
  }

  function DigitValue(b: byte): nat
    requires IsHexDigit(b)
  {
    if b <= 57 then b - 48 else b - 87
  }

  predicate AllHex(s: Bytes) { forall i :: 0 <= i < |s| ==> IsHexDigit(s[i]) }

  function Pow16(k: nat): nat { if k == 0 then 1 else 16 * Pow16(k - 1) }

  /** Zero-padded digits, most significant first. */
  function ToHex(n: nat, width: nat): (s: Bytes)
    ensures |s| == width && AllHex(s)
    decreases width
  {
    if width == 0 then [] else ToHex(n / 16, width - 1) + [Digit(n % 16)]
  }

  function FromHex(s: Bytes): (n: nat)
    requires AllHex(s)
    ensures n < Pow16(|s|)
    decreases |s|
  {
    if s == [] then 0 else FromHex(s[..|s| - 1]) * 16 + DigitValue(s[|s| - 1])
  }

  lemma {:induction false} HexRoundTrip(n: nat, width: nat)
    requires n < Pow16(width)
    ensures FromHex(ToHex(n, width)) == n
    decreases width
  {
    if width > 0 {
      HexRoundTrip(n / 16, width - 1);
      assert ToHex(n, width)[..width - 1] == ToHex(n / 16, width - 1);
    }
  }

  lemma {:induction false} HexIsCanonical(s: Bytes)
    requires AllHex(s)
    ensures ToHex(FromHex(s), |s|) == s
    decreases |s|
  {
    if s != [] {
      var n := |s| - 1;
      HexIsCanonical(s[..n]);
      LastDigit(FromHex(s[..n]), DigitValue(s[n]));
      assert s == s[..n] + [s[n]];
    }
  }

  lemma LastDigit(high: nat, low: nat)
    requires low < 16
    ensures (high * 16 + low) / 16 == high && (high * 16 + low) % 16 == low
  {
  }

  lemma Pow16Of16()
    ensures Pow16(16) == U64_MAX + 1
  {
    assert Pow16(4) == 0x1_0000;
    assert Pow16(8) == 0x1_0000_0000;
    assert Pow16(12) == 0x1_0000_0000_0000;
  }

  function Hex16(n: u64): (s: Bytes)
    ensures |s| == 16 && AllHex(s)
  {
    ToHex(n, 16)
  }

  function ParseHex16(s: Bytes): (r: Option<u64>)
    ensures r.Some? ==> s == Hex16(r.value)
    ensures forall n: u64 :: s == Hex16(n) ==> r == Some(n)
  {
    if |s| != 16 || !AllHex(s) then None
    else
      Pow16Of16();
      HexIsCanonical(s);
      assert forall n: u64 :: s == Hex16(n) ==> FromHex(s) == n by {
        forall n: u64 | s == Hex16(n) ensures FromHex(s) == n { HexRoundTrip(n, 16); }
      }
      Some(FromHex(s))
  }

  /** Two digits for each byte. */
  function HexBytes(bs: Bytes): (s: Bytes)
    ensures |s| == 2 * |bs| && AllHex(s)
  {
    if bs == [] then [] else HexByte(bs[0]) + HexBytes(bs[1..])
  }

  function HexByte(b: byte): (s: Bytes)
    ensures |s| == 2 && AllHex(s)
  {
    [Digit(b / 16), Digit(b % 16)]
  }

  method EncodeHexInto(buf: Bytes, bytes: Bytes) returns (out: Bytes)
    ensures out == buf + HexBytes(bytes)
  {
    out := buf;
    for i := 0 to |bytes|
      invariant out + HexBytes(bytes[i..]) == buf + HexBytes(bytes)
    {
      assert bytes[i..][1..] == bytes[i + 1..];
      ghost var rest := HexBytes(bytes[i + 1..]);
      assert (out + [Digit(bytes[i] / 16)] + [Digit(bytes[i] % 16)]) + rest == out + (HexByte(bytes[i]) + rest);
      out := out + [Digit(bytes[i] / 16)];
      out := out + [Digit(bytes[i] % 16)];
    }
  }

  // ---------------------------------------------------------------------
  // Order of fixed-width strings
  // ---------------------------------------------------------------------

  /** Comparing strings that start with equally long parts compares those parts first. */
  lemma LessSplit(a: Bytes, b: Bytes, x: Bytes, y: Bytes)
    requires |a| == |b|
    ensures Less(a + x, b + y) <==> Less(a, b) || (a == b && Less(x, y))
  {
    LessTotal(a, b);
    if a == b { LessCommonPrefix(a, x, y); LessIrreflexive(a); }
    else if Less(a, b) { LessExtend(a, b, x, y); }
    else {
      LessExtend(b, a, y, x);
      LessAsymmetric(b + y, a + x);
      LessAsymmetric(b, a);
    }
  }

  lemma DigitOrder(v: nat, w: nat)
    requires v < 16 && w < 16
    ensures Less([Digit(v)], [Digit(w)]) <==> v < w
  {
  }

  lemma QuotientThenRemainder(a: nat, b: nat)
    ensures a < b <==> a / 16 < b / 16 || (a / 16 == b / 16 && a % 16 < b % 16)
  {
  }

  lemma HexStep(x: Bytes, y: Bytes, qa: nat, qb: nat, ra: nat, rb: nat)
    requires |x| == |y| && (Less(x, y) <==> qa < qb) && (x == y <==> qa == qb) && ra < 16 && rb < 16
    ensures Less(x + [Digit(ra)], y + [Digit(rb)]) <==> qa < qb || (qa == qb && ra < rb)
  {
    LessSplit(x, y, [Digit(ra)], [Digit(rb)]);
    DigitOrder(ra, rb);
  }

  lemma HexEqual(a: nat, b: nat, width: nat)
    requires a < Pow16(width) && b < Pow16(width)
    ensures ToHex(a, width) == ToHex(b, width) <==> a == b
  {
    HexRoundTrip(a, width);
    HexRoundTrip(b, width);
  }

  lemma QuotientFits(a: nat, width: nat)
    requires width > 0 && a < Pow16(width)
    ensures a / 16 < Pow16(width - 1)
  {
  }

  lemma {:induction false} HexOrder(a: nat, b: nat, width: nat)
    requires a < Pow16(width) && b < Pow16(width)
    ensures Less(ToHex(a, width), ToHex(b, width)) <==> a < b
    decreases width
  {
    if width > 0 {
      QuotientFits(a, width);
      QuotientFits(b, width);
      HexOrder(a / 16, b / 16, width - 1);
      HexEqual(a / 16, b / 16, width - 1);
      HexStep(ToHex(a / 16, width - 1), ToHex(b / 16, width - 1), a / 16, b / 16, a % 16, b % 16);
      QuotientThenRemainder(a, b);
    }
  }

  lemma HexByteOrder(a: byte, b: byte)
    ensures Less(HexByte(a), HexByte(b)) <==> a < b
    ensures HexByte(a) == HexByte(b) <==> a == b
  {
    LessSplit([Digit(a / 16)], [Digit(b / 16)], [Digit(a % 16)], [Digit(b % 16)]);
    DigitOrder(a / 16, b / 16);
    DigitOrder(a % 16, b % 16);
    assert HexByte(a) == [Digit(a / 16)] + [Digit(a % 16)];
    assert HexByte(b) == [Digit(b / 16)] + [Digit(b % 16)];
    if HexByte(a) == HexByte(b) {
      assert HexByte(a)[0] == HexByte(b)[0] && HexByte(a)[1] == HexByte(b)[1];
      assert DigitValue(HexByte(a)[0]) == a / 16 && DigitValue(HexByte(a)[1]) == a % 16;
    }
  }

  lemma {:induction false} HexBytesOrder(a: Bytes, b: Bytes)
    requires |a| == |b|
    ensures Less(HexBytes(a), HexBytes(b)) <==> Less(a, b)
    ensures HexBytes(a) == HexBytes(b) <==> a == b
    decreases |a|
  {
    if a != [] {
      HexBytesOrder(a[1..], b[1..]);
      HexByteOrder(a[0], b[0]);
      LessSplit(HexByte(a[0]), HexByte(b[0]), HexBytes(a[1..]), HexBytes(b[1..]));
      assert a == [a[0]] + a[1..] && b == [b[0]] + b[1..];
      assert HexBytes(a)[..2] == HexByte(a[0]) && HexBytes(b)[..2] == HexByte(b[0]);
      assert HexBytes(a)[2..] == HexBytes(a[1..]) && HexBytes(b)[2..] == HexBytes(b[1..]);
    }
  }

  // ---------------------------------------------------------------------
  // Keys
  // ---------------------------------------------------------------------

  const TENANTS: Bytes := [47, 116, 101, 110, 97, 110, 116, 115, 47]                                  // /tenants/
  const SHARD_COUNT: Bytes := [47, 115, 104, 97, 114, 100, 95, 99, 111, 117, 110, 116]                // /shard_count
  const RUNS: Bytes := [47, 114, 117, 110, 115, 47]                                                   // /runs/
  const SHARDS: Bytes := [47, 115, 104, 97, 114, 100, 115, 47]                                        // /shards/
  const OWNER: Bytes := [47, 111, 119, 110, 101, 114]                                                 // /owner
  const RUNS_ACTIVE: Bytes := [47, 114, 117, 110, 115, 95, 97, 99, 116, 105, 118, 101, 47]            // /runs_active/
  const SHARDS_ACTIVE: Bytes := [47, 115, 104, 97, 114, 100, 115, 95, 97, 99, 116, 105, 118, 101, 47] // /shards_active/

  /** The identity behind a key. */
  datatype KeyId =
    | ShardCount(tenant: Tenant)
    | RunRecord(tenant: Tenant, run: u64)
    | ShardRecord(tenant: Tenant, run: u64, shard: u64)
    | ShardOwner(tenant: Tenant, run: u64, shard: u64)
    | RunActive(tenant: Tenant, run: u64)
    | ShardActive(tenant: Tenant, run: u64, shard: u64)

  function NamespaceRoot(ns: Bytes): Bytes { if ns == [SLASH] then [] else ns }

  function TenantRoot(ns: Bytes, tenant: Tenant): (s: Bytes)
    ensures |s| == |NamespaceRoot(ns)| + 9 + 64
  {
    (NamespaceRoot(ns) + TENANTS) + HexBytes(tenant)
  }

  /** What follows the tenant's root. */
  function Below(id: KeyId): Bytes {
    match id
    case ShardCount(_) => SHARD_COUNT
    case RunRecord(_, run) => RUNS + Hex16(run)
    case ShardRecord(_, run, shard) => RUNS + (Hex16(run) + (SHARDS + Hex16(shard)))
    case ShardOwner(_, run, shard) => RUNS + (Hex16(run) + (SHARDS + (Hex16(shard) + OWNER)))
    case RunActive(_, run) => RUNS_ACTIVE + Hex16(run)
    case ShardActive(_, run, shard) => RUNS + (Hex16(run) + (SHARDS_ACTIVE + Hex16(shard)))
  }

  function Key(ns: Bytes, id: KeyId): Bytes { TenantRoot(ns, id.tenant) + Below(id) }

  function RunScanPrefix(ns: Bytes, tenant: Tenant): Bytes { TenantRoot(ns, tenant) + RUNS }

  function ShardScanPrefix(ns: Bytes, tenant: Tenant, run: u64): Bytes {
    TenantRoot(ns, tenant) + (RUNS + (Hex16(run) + SHARDS))
  }

  function RunActiveScanPrefix(ns: Bytes, tenant: Tenant): Bytes { TenantRoot(ns, tenant) + RUNS_ACTIVE }

  function ShardActiveScanPrefix(ns: Bytes, tenant: Tenant, run: u64): Bytes {
    TenantRoot(ns, tenant) + (RUNS + (Hex16(run) + SHARDS_ACTIVE))
  }

  // ---------------------------------------------------------------------
  // Different identities have different keys
  // ---------------------------------------------------------------------

  lemma SplitEqual(a: Bytes, b: Bytes, x: Bytes, y: Bytes)
    requires |a| == |b|
    ensures a + x == b + y <==> a == b && x == y
  {
    if a + x == b + y {
      assert a == (a + x)[..|a|] && b == (b + y)[..|a|];
      assert x == (a + x)[|a|..] && y == (b + y)[|a|..];
    }
  }

  lemma Hex16Injective(a: u64, b: u64)
    ensures Hex16(a) == Hex16(b) <==> a == b
  {
    Pow16Of16();
    HexEqual(a, b, 16);
  }

  lemma TenantRootInjective(ns: Bytes, a: Tenant, b: Tenant)
    ensures TenantRoot(ns, a) == TenantRoot(ns, b) <==> a == b
  {
    var root := NamespaceRoot(ns) + TENANTS;
    SplitEqual(root, root, HexBytes(a), HexBytes(b));
    HexBytesOrder(a, b);
  }

  /** The kinds have keys of different lengths. */
  lemma KindByLength(id: KeyId)
    ensures |Below(id)| == match id
              case ShardCount(_) => 12
              case RunRecord(_, _) => 22
              case ShardRecord(_, _, _) => 46
              case ShardOwner(_, _, _) => 52
              case RunActive(_, _) => 29
              case ShardActive(_, _, _) => 53
  {
  }

  function RunOf(id: KeyId): Option<u64> { if id.ShardCount? then None else Some(id.run) }

  function ShardOf(id: KeyId): Option<u64> {
    if id.ShardRecord? || id.ShardOwner? || id.ShardActive? then Some(id.shard) else None
  }

  predicate SameKind(a: KeyId, b: KeyId) {
    match a
    case ShardCount(_) => b.ShardCount?
    case RunRecord(_, _) => b.RunRecord?
    case ShardRecord(_, _, _) => b.ShardRecord?
    case ShardOwner(_, _, _) => b.ShardOwner?
    case RunActive(_, _) => b.RunActive?
    case ShardActive(_, _, _) => b.ShardActive?
  }

  lemma BelowInjective(a: KeyId, b: KeyId)
    requires Below(a) == Below(b)
    ensures SameKind(a, b) && RunOf(a) == RunOf(b) && ShardOf(a) == ShardOf(b)
  {
    KindByLength(a);
    KindByLength(b);
    BelowOrder(a, b);
  }

  /** Equal ids give equal parts below the tenant, and the order of the parts is that of the ids. */
  ghost predicate Ordered(a: KeyId, b: KeyId)
    requires SameKind(a, b)
  {
    && (Below(a) == Below(b) <==> RunOf(a) == RunOf(b) && ShardOf(a) == ShardOf(b))
    && (Less(Below(a), Below(b)) <==> IdsLess(a, b))
  }

  lemma BelowOrder(a: KeyId, b: KeyId)
    requires SameKind(a, b)
    ensures Ordered(a, b)
  {
    match a
    case ShardCount(_) => LessIrreflexive(SHARD_COUNT);
    case RunRecord(_, _) => RunKindOrder(a, b);
    case RunActive(_, _) => RunKindOrder(a, b);
    case ShardRecord(_, _, _) => ShardRecordOrder(a, b);
    case ShardActive(_, _, _) => ShardActiveOrder(a, b);
    case ShardOwner(_, _, _) => ShardOwnerOrder(a, b);
  }

  lemma RunKindOrder(a: KeyId, b: KeyId)
    requires (a.RunRecord? && b.RunRecord?) || (a.RunActive? && b.RunActive?)
    ensures Ordered(a, b)
  {
    RunPartOrder(if a.RunRecord? then RUNS else RUNS_ACTIVE, a.run, b.run);
  }

  lemma ShardRecordOrder(a: KeyId, b: KeyId)
    requires a.ShardRecord? && b.ShardRecord?
    ensures Ordered(a, b)
  {
    ShardPartOrder(SHARDS, a.run, b.run, a.shard, b.shard);
  }

  lemma ShardActiveOrder(a: KeyId, b: KeyId)
    requires a.ShardActive? && b.ShardActive?
    ensures Ordered(a, b)
  {
    ShardPartOrder(SHARDS_ACTIVE, a.run, b.run, a.shard, b.shard);
  }

  lemma ShardOwnerOrder(a: KeyId, b: KeyId)
    requires a.ShardOwner? && b.ShardOwner?
    ensures Ordered(a, b)
  {
    OwnerPartOrder(a.run, b.run, a.shard, b.shard);
  }

  lemma RunPartOrder(head: Bytes, run: u64, run': u64)
    ensures head + Hex16(run) == head + Hex16(run') <==> run == run'
    ensures Less(head + Hex16(run), head + Hex16(run')) <==> run < run'
  {
    Hex16Facts(run, run');
    TwoParts(head, Hex16(run), Hex16(run'));
  }

  lemma ShardPartOrder(middle: Bytes, run: u64, run': u64, shard: u64, shard': u64)
    ensures var x, y := RUNS + (Hex16(run) + (middle + Hex16(shard))), RUNS + (Hex16(run') + (middle + Hex16(shard')));
            && (x == y <==> run == run' && shard == shard')
            && (Less(x, y) <==> run < run' || (run == run' && shard < shard'))
  {
    Hex16Facts(shard, shard');
    FourParts(middle, run, run', Hex16(shard), Hex16(shard'));
  }

  lemma OwnerPartOrder(run: u64, run': u64, shard: u64, shard': u64)
    ensures var x := RUNS + (Hex16(run) + (SHARDS + (Hex16(shard) + OWNER)));
            var y := RUNS + (Hex16(run') + (SHARDS + (Hex16(shard') + OWNER)));
            && (x == y <==> run == run' && shard == shard')
            && (Less(x, y) <==> run < run' || (run == run' && shard < shard'))
  {
    Hex16Facts(shard, shard');
    SplitEqual(Hex16(shard), Hex16(shard'), OWNER, OWNER);
    LessSplit(Hex16(shard), Hex16(shard'), OWNER, OWNER);
    LessIrreflexive(OWNER);
    FourParts(SHARDS, run, run', Hex16(shard) + OWNER, Hex16(shard') + OWNER);
  }

  /** Run first, then shard. */
  predicate IdsLess(a: KeyId, b: KeyId)
    requires SameKind(a, b)
  {
    && !a.ShardCount?
    && (a.run < b.run || (a.run == b.run && ShardOf(a).Some? && ShardOf(a).value < ShardOf(b).value))
  }

  lemma Hex16Facts(a: u64, b: u64)
    ensures Hex16(a) == Hex16(b) <==> a == b
    ensures Less(Hex16(a), Hex16(b)) <==> a < b
  {
    Hex16Injective(a, b);
    Pow16Of16();
    HexOrder(a, b, 16);
  }

  lemma TwoParts(head: Bytes, x: Bytes, y: Bytes)
    ensures head + x == head + y <==> x == y
    ensures Less(head + x, head + y) <==> Less(x, y)
  {
    SplitEqual(head, head, x, y);
    LessCommonPrefix(head, x, y);
  }

  lemma FourParts(middle: Bytes, run: u64, run': u64, x: Bytes, y: Bytes)
    ensures RUNS + (Hex16(run) + (middle + x)) == RUNS + (Hex16(run') + (middle + y)) <==> run == run' && x == y
    ensures Less(RUNS + (Hex16(run) + (middle + x)), RUNS + (Hex16(run') + (middle + y))) <==>
            run < run' || (run == run' && Less(x, y))
  {
    Hex16Facts(run, run');
    TwoParts(middle, x, y);
    SplitEqual(Hex16(run), Hex16(run'), middle + x, middle + y);
    LessSplit(Hex16(run), Hex16(run'), middle + x, middle + y);
    TwoParts(RUNS, Hex16(run) + (middle + x), Hex16(run') + (middle + y));
  }

  /** Any two different identities, of the same or of different kinds, have different keys. */
  lemma KeysAreDistinct(ns: Bytes, a: KeyId, b: KeyId)
    ensures Key(ns, a) == Key(ns, b) <==> a == b
  {
    SplitEqual(TenantRoot(ns, a.tenant), TenantRoot(ns, b.tenant), Below(a), Below(b));
    TenantRootInjective(ns, a.tenant, b.tenant);
    if Below(a) == Below(b) {
      BelowInjective(a, b);
      SameParts(a, b);
    }
  }

  lemma SameParts(a: KeyId, b: KeyId)
    requires SameKind(a, b) && RunOf(a) == RunOf(b) && ShardOf(a) == ShardOf(b)
    ensures a.tenant == b.tenant ==> a == b
  {
  }

  /** Within a kind, byte order of keys is the order of tenant bytes, then run, then shard number. */
  lemma KeyOrderIsIdOrder(ns: Bytes, a: KeyId, b: KeyId)
    requires SameKind(a, b)
    ensures Less(Key(ns, a), Key(ns, b)) <==> Less(a.tenant, b.tenant) || (a.tenant == b.tenant && IdsLess(a, b))
  {
    LessSplit(TenantRoot(ns, a.tenant), TenantRoot(ns, b.tenant), Below(a), Below(b));
    TenantRootInjective(ns, a.tenant, b.tenant);
    var root := NamespaceRoot(ns) + TENANTS;
    LessCommonPrefix(root, HexBytes(a.tenant), HexBytes(b.tenant));
    HexBytesOrder(a.tenant, b.tenant);
    BelowOrder(a, b);
  }

  // ---------------------------------------------------------------------
  // Scans see their own keys only
  // ---------------------------------------------------------------------

  lemma PrefixSplit(a: Bytes, b: Bytes, x: Bytes, y: Bytes)
    requires |a| == |b|
    ensures a + x <= b + y <==> a == b && x <= y
  {
    if a + x <= b + y {
      assert (b + y)[..|a|] == (a + x)[..|a|];
      assert a == (a + x)[..|a|] && b == (b + y)[..|a|];
      assert x == (a + x)[|a|..] && y[..|x|] == (b + y)[|a|..|a| + |x|];
    }
    if a == b && x <= y {
      assert b + y == (a + x) + y[|x|..];
    }
  }

  /** A shard scan sees exactly that run's shard records and owner keys. */
  lemma ShardScanIsIsolated(ns: Bytes, tenant: Tenant, run: u64, id: KeyId)
    ensures ShardScanPrefix(ns, tenant, run) <= Key(ns, id) <==>
            (id.ShardRecord? || id.ShardOwner?) && id.tenant == tenant && id.run == run
  {
    var p := RUNS + (Hex16(run) + SHARDS);
    PrefixSplit(TenantRoot(ns, tenant), TenantRoot(ns, id.tenant), p, Below(id));
    TenantRootInjective(ns, tenant, id.tenant);
    ShardScanBelow(run, id);
  }

  lemma ShardScanBelow(run: u64, id: KeyId)
    ensures RUNS + (Hex16(run) + SHARDS) <= Below(id) <==> (id.ShardRecord? || id.ShardOwner?) && id.run == run
  {
    KindByLength(id);
    if id.ShardRecord? || id.ShardOwner? || id.ShardActive? {
      var middle := if id.ShardActive? then SHARDS_ACTIVE else SHARDS;
      var tail := if id.ShardOwner? then Hex16(id.shard) + OWNER else Hex16(id.shard);
      ShardScanMiddle(run, id.run, middle, tail);
    }
  }

  lemma ShardScanMiddle(run: u64, run': u64, middle: Bytes, tail: Bytes)
    requires middle == SHARDS || middle == SHARDS_ACTIVE
    ensures RUNS + (Hex16(run) + SHARDS) <= RUNS + (Hex16(run') + (middle + tail)) <==> run == run' && middle == SHARDS
  {
    PrefixSplit(RUNS, RUNS, Hex16(run) + SHARDS, Hex16(run') + (middle + tail));
    PrefixSplit(Hex16(run), Hex16(run'), SHARDS, middle + tail);
    Hex16Injective(run, run');
    assert middle[7] == (middle + tail)[7];
    assert middle == SHARDS ==> SHARDS <= middle + tail;
  }

  /** A run scan sees the run records and everything below them, but no active-run entry or counter. */
  lemma RunScanIsIsolated(ns: Bytes, tenant: Tenant, id: KeyId)
    ensures RunScanPrefix(ns, tenant) <= Key(ns, id) <==> id.tenant == tenant && !id.ShardCount? && !id.RunActive?
  {
    PrefixSplit(TenantRoot(ns, tenant), TenantRoot(ns, id.tenant), RUNS, Below(id));
    TenantRootInjective(ns, tenant, id.tenant);
    match id
    case ShardCount(_) => assert Below(id)[1] == 115;
    case RunActive(_, _) => assert Below(id)[5] == 95;
    case _ => assert RUNS <= Below(id);
  }

  /** The scan prefixes of the active indexes end without a slash. */
  function RunsActivePrefix(ns: Bytes, tenant: Tenant): Bytes { TenantRoot(ns, tenant) + RUNS_ACTIVE[..12] }

  function ShardsActivePrefix(ns: Bytes, tenant: Tenant, run: u64): Bytes {
    TenantRoot(ns, tenant) + (RUNS + (Hex16(run) + SHARDS_ACTIVE[..14]))
  }

  /** Even so, a scan of the active runs sees exactly the tenant's active-run entries. */
  lemma RunsActiveScanIsIsolated(ns: Bytes, tenant: Tenant, id: KeyId)
    ensures RunsActivePrefix(ns, tenant) <= Key(ns, id) <==> id.RunActive? && id.tenant == tenant
  {
    PrefixSplit(TenantRoot(ns, tenant), TenantRoot(ns, id.tenant), RUNS_ACTIVE[..12], Below(id));
    TenantRootInjective(ns, tenant, id.tenant);
    match id
    case ShardCount(_) => assert Below(id)[1] == 115;
    case RunActive(_, _) => assert RUNS_ACTIVE[..12] <= Below(id);
    case _ => assert Below(id)[5] == SLASH;
  }

  /** And a scan of a run's active shards, which the capacity count is taken from, exactly that run's entries. */
  lemma ShardsActiveScanIsIsolated(ns: Bytes, tenant: Tenant, run: u64, id: KeyId)
    ensures ShardsActivePrefix(ns, tenant, run) <= Key(ns, id) <==> id.ShardActive? && id.tenant == tenant && id.run == run
  {
    var p := RUNS + (Hex16(run) + SHARDS_ACTIVE[..14]);
    PrefixSplit(TenantRoot(ns, tenant), TenantRoot(ns, id.tenant), p, Below(id));
    TenantRootInjective(ns, tenant, id.tenant);
    ShardsActiveScanBelow(run, id);
  }

  lemma ShardsActiveScanBelow(run: u64, id: KeyId)
    ensures RUNS + (Hex16(run) + SHARDS_ACTIVE[..14]) <= Below(id) <==> id.ShardActive? && id.run == run
  {
    KindByLength(id);
    if id.ShardRecord? || id.ShardOwner? || id.ShardActive? {
      var middle := if id.ShardActive? then SHARDS_ACTIVE else SHARDS;
      var tail := if id.ShardOwner? then Hex16(id.shard) + OWNER else Hex16(id.shard);
      ShardsActiveScanMiddle(run, id.run, middle, tail);
    }
  }

  lemma ShardsActiveScanMiddle(run: u64, run': u64, middle: Bytes, tail: Bytes)
    requires middle == SHARDS || middle == SHARDS_ACTIVE
    ensures RUNS + (Hex16(run) + SHARDS_ACTIVE[..14]) <= RUNS + (Hex16(run') + (middle + tail))
            <==> run == run' && middle == SHARDS_ACTIVE
  {
    PrefixSplit(RUNS, RUNS, Hex16(run) + SHARDS_ACTIVE[..14], Hex16(run') + (middle + tail));
    PrefixSplit(Hex16(run), Hex16(run'), SHARDS_ACTIVE[..14], middle + tail);
    Hex16Injective(run, run');
    assert middle[7] == (middle + tail)[7];
    assert middle == SHARDS_ACTIVE ==> SHARDS_ACTIVE[..14] <= middle + tail;
  }

  /** Without its trailing slash the run prefix would also match the active-run entries. */
  lemma RunPrefixNeedsItsSlash(ns: Bytes, tenant: Tenant, run: u64)
    ensures TenantRoot(ns, tenant) + RUNS[..5] <= Key(ns, RunActive(tenant, run))
  {
    assert RUNS[..5] <= RUNS_ACTIVE;
    assert RUNS_ACTIVE <= Below(RunActive(tenant, run));
    PrefixSplit(TenantRoot(ns, tenant), TenantRoot(ns, tenant), RUNS[..5], Below(RunActive(tenant, run)));
  }
}
