/** Reading identities back out of keys, and which namespaces are accepted. */
module KeyParsing {
  import opened Bytes
  import opened Wire
  import opened Keyspace

  // ---------------------------------------------------------------------
  // Direct children and owner keys
  // ---------------------------------------------------------------------

  function StripPrefix(p: Bytes, s: Bytes): (r: Option<Bytes>)
    ensures r.Some? ==> s == p + r.value
    ensures p <= s <==> r.Some?
  {
    if p <= s then Some(s[|p|..]) else None
  }

  function StripSuffix(s: Bytes, q: Bytes): (r: Option<Bytes>)
    ensures r.Some? ==> s == r.value + q
  {
    if |q| <= |s| && s[|s| - |q|..] == q then Some(s[..|s| - |q|]) else None
  }

  lemma StripBack(x: Bytes, q: Bytes)
    ensures StripPrefix(x, x + q) == Some(q) && StripSuffix(x + q, q) == Some(x)
  {
    assert (x + q)[|x|..] == q && (x + q)[..|x|] == x;
  }

  /** The id of a direct child of a scan prefix: runs, active runs and active shards. */
  function ParseDirectChild(prefix: Bytes, key: Bytes): Option<u64> {
    var rest := StripPrefix(prefix, key);
    if rest.None? then None else ParseHex16(rest.value)
  }

  function ParseOwnedShard(prefix: Bytes, key: Bytes): Option<u64> {
    var rest := StripPrefix(prefix, key);
    if rest.None? then None
    else
      var hex := StripSuffix(rest.value, OWNER);
      if hex.None? then None else ParseHex16(hex.value)
  }

  /** Exactly the keys made of the prefix and an id parse, and they parse to that id. */
  lemma DirectChildExact(prefix: Bytes, key: Bytes, n: u64)
    ensures ParseDirectChild(prefix, key) == Some(n) <==> key == prefix + Hex16(n)
  {
    StripBack(prefix, Hex16(n));
  }

  lemma OwnedShardExact(prefix: Bytes, key: Bytes, n: u64)
    ensures ParseOwnedShard(prefix, key) == Some(n) <==> key == prefix + (Hex16(n) + OWNER)
  {
    StripBack(prefix, Hex16(n) + OWNER);
    StripBack(Hex16(n), OWNER);
  }

  lemma Regroup(root: Bytes, run: u64, middle: Bytes, tail: Bytes)
    ensures (root + (RUNS + (Hex16(run) + middle))) + tail == root + (RUNS + (Hex16(run) + (middle + tail)))
  {
  }

  /** Among generated keys, a run scan parses exactly the tenant's run records. */
  lemma RunScanParses(ns: Bytes, tenant: Tenant, id: KeyId, run: u64)
    ensures ParseDirectChild(RunScanPrefix(ns, tenant), Key(ns, id)) == Some(run) <==> id == RunRecord(tenant, run)
  {
    DirectChildExact(RunScanPrefix(ns, tenant), Key(ns, id), run);
    Associate(TenantRoot(ns, tenant), RUNS, Hex16(run));
    KeysAreDistinct(ns, id, RunRecord(tenant, run));
  }

  lemma RunActiveScanParses(ns: Bytes, tenant: Tenant, id: KeyId, run: u64)
    ensures ParseDirectChild(RunActiveScanPrefix(ns, tenant), Key(ns, id)) == Some(run) <==> id == RunActive(tenant, run)
  {
    DirectChildExact(RunActiveScanPrefix(ns, tenant), Key(ns, id), run);
    Associate(TenantRoot(ns, tenant), RUNS_ACTIVE, Hex16(run));
    KeysAreDistinct(ns, id, RunActive(tenant, run));
  }

  lemma ShardActiveScanParses(ns: Bytes, tenant: Tenant, run: u64, id: KeyId, shard: u64)
    ensures ParseDirectChild(ShardActiveScanPrefix(ns, tenant, run), Key(ns, id)) == Some(shard) <==>
            id == ShardActive(tenant, run, shard)
  {
    DirectChildExact(ShardActiveScanPrefix(ns, tenant, run), Key(ns, id), shard);
    Regroup(TenantRoot(ns, tenant), run, SHARDS_ACTIVE, Hex16(shard));
    KeysAreDistinct(ns, id, ShardActive(tenant, run, shard));
  }

  /** Among generated keys, the owner parser accepts exactly the run's owner keys. */
  lemma OwnerScanParses(ns: Bytes, tenant: Tenant, run: u64, id: KeyId, shard: u64)
    ensures ParseOwnedShard(ShardScanPrefix(ns, tenant, run), Key(ns, id)) == Some(shard) <==>
            id == ShardOwner(tenant, run, shard)
  {
    OwnedShardExact(ShardScanPrefix(ns, tenant, run), Key(ns, id), shard);
    Regroup(TenantRoot(ns, tenant), run, SHARDS, Hex16(shard) + OWNER);
    KeysAreDistinct(ns, id, ShardOwner(tenant, run, shard));
  }

  // ---------------------------------------------------------------------
  // Classification by the last `/shards/` segment
  // ---------------------------------------------------------------------

  datatype SubtreeKey = Record | Owner

  predicate SegmentAt(key: Bytes, i: nat) { i + 8 <= |key| && key[i..i + 8] == SHARDS }

  /** The last position below `n` at which the segment occurs. */
  function LastSegment(key: Bytes, n: nat): (r: Option<nat>)
    ensures r.Some? ==> r.value < n && SegmentAt(key, r.value)
    ensures forall i :: (if r.Some? then r.value + 1 else 0) <= i < n ==> !SegmentAt(key, i)
  {
    if n == 0 then None else if SegmentAt(key, n - 1) then Some(n - 1) else LastSegment(key, n - 1)
  }

  function Classify(key: Bytes): Option<SubtreeKey> {
    var at := LastSegment(key, |key|);
    if at.None? then None
    else
      var suffix := key[at.value + 8..];
      if ParseHex16(suffix).Some? then Some(Record)
      else
        var hex := StripSuffix(suffix, OWNER);
        if hex.Some? && ParseHex16(hex.value).Some? then Some(Owner) else None
  }

  /** No later occurrence hides inside the id or the owner suffix, whatever comes before. */
  lemma SegmentIsLast(pre: Bytes, n: u64, tail: Bytes)
    requires tail == [] || tail == OWNER
    ensures var key := pre + (SHARDS + (Hex16(n) + tail));
            && LastSegment(key, |key|) == Some(|pre|)
            && key[|pre| + 8..] == Hex16(n) + tail
  {
    var key := pre + (SHARDS + (Hex16(n) + tail));
    SegmentSplits(pre, Hex16(n) + tail);
    forall i | |pre| < i < |key| ensures !SegmentAt(key, i) {
      LaterIsNoSegment(pre, n, tail, i);
    }
  }

  lemma SegmentSplits(pre: Bytes, rest: Bytes)
    ensures var key := pre + (SHARDS + rest); SegmentAt(key, |pre|) && key[|pre| + 8..] == rest
  {
    var key := pre + (SHARDS + rest);
    assert key[|pre|..|pre| + 8] == SHARDS;
  }

  lemma LaterIsNoSegment(pre: Bytes, n: u64, tail: Bytes, i: nat)
    requires (tail == [] || tail == OWNER) && |pre| < i
    ensures !SegmentAt(pre + (SHARDS + (Hex16(n) + tail)), i)
  {
    var key := pre + (SHARDS + (Hex16(n) + tail));
    if i + 8 <= |key| {
      var window := key[i..i + 8];
      var at := i - |pre|;
      if at < 8 {
        assert window[0] == SHARDS[at];
        if at == 7 { assert window[1] == Hex16(n)[0]; }
      } else {
        assert window[0] == Hex16(n)[at - 8];
      }
    }
  }

  lemma ClassifiesRecord(pre: Bytes, n: u64)
    ensures Classify(pre + (SHARDS + Hex16(n))) == Some(Record)
  {
    SegmentIsLast(pre, n, []);
    assert Hex16(n) + [] == Hex16(n);
  }

  lemma ClassifiesOwner(pre: Bytes, n: u64)
    ensures Classify(pre + (SHARDS + (Hex16(n) + OWNER))) == Some(Owner)
  {
    SegmentIsLast(pre, n, OWNER);
    StripBack(Hex16(n), OWNER);
  }

  /** What a classified key looks like. */
  lemma ClassifiedShape(key: Bytes) returns (pre: Bytes, n: u64)
    requires Classify(key).Some?
    ensures key == pre + (SHARDS + (if Classify(key) == Some(Record) then Hex16(n) else Hex16(n) + OWNER))
  {
    var at := LastSegment(key, |key|).value;
    pre := key[..at];
    var suffix := key[at + 8..];
    Cut(key, at);
    n := if ParseHex16(suffix).Some? then ParseHex16(suffix).value else ParseHex16(StripSuffix(suffix, OWNER).value).value;
  }

  lemma Cut(key: Bytes, at: nat)
    requires SegmentAt(key, at)
    ensures key == key[..at] + (SHARDS + key[at + 8..])
  {
  }

  ghost predicate EndsInRecord(key: Bytes) { exists pre, n :: key == pre + (SHARDS + Hex16(n)) }

  ghost predicate EndsInOwner(key: Bytes) { exists pre, n :: key == pre + (SHARDS + (Hex16(n) + OWNER)) }

  /** A key is classified exactly when it ends in the segment and an id, with or without the owner suffix. */
  lemma ClassifyExact(key: Bytes)
    ensures Classify(key) == Some(Record) <==> EndsInRecord(key)
    ensures Classify(key) == Some(Owner) <==> EndsInOwner(key)
  {
    if Classify(key).Some? { ClassifiedEndsIn(key); }
    if EndsInRecord(key) {
      var pre, n :| key == pre + (SHARDS + Hex16(n));
      ClassifiesRecord(pre, n);
    } else if EndsInOwner(key) {
      var pre, n :| key == pre + (SHARDS + (Hex16(n) + OWNER));
      ClassifiesOwner(pre, n);
    }
  }

  lemma ClassifiedEndsIn(key: Bytes)
    requires Classify(key).Some?
    ensures if Classify(key) == Some(Record) then EndsInRecord(key) && !EndsInOwner(key)
            else EndsInOwner(key) && !EndsInRecord(key)
  {
    var pre, n := ClassifiedShape(key);
    if Classify(key) == Some(Record) {
      if EndsInOwner(key) {
        var pre', n' :| key == pre' + (SHARDS + (Hex16(n') + OWNER));
        ClassifiesOwner(pre', n');
      }
    } else if EndsInRecord(key) {
      var pre', n' :| key == pre' + (SHARDS + Hex16(n'));
      ClassifiesRecord(pre', n');
    }
  }

  /** Generated keys classify by their kind, for every namespace, even one that contains the segment. */
  lemma ClassifyGenerated(ns: Bytes, id: KeyId)
    ensures Classify(Key(ns, id)) == if id.ShardRecord? then Some(Record) else if id.ShardOwner? then Some(Owner) else None
  {
    if id.ShardRecord? {
      RegroupShard(TenantRoot(ns, id.tenant), id.run, Hex16(id.shard));
      ClassifiesRecord(TenantRoot(ns, id.tenant) + (RUNS + Hex16(id.run)), id.shard);
    } else if id.ShardOwner? {
      RegroupShard(TenantRoot(ns, id.tenant), id.run, Hex16(id.shard) + OWNER);
      ClassifiesOwner(TenantRoot(ns, id.tenant) + (RUNS + Hex16(id.run)), id.shard);
    } else {
      OthersAreUnclassified(ns, id);
    }
  }

  lemma RegroupShard(root: Bytes, run: u64, tail: Bytes)
    ensures (root + (RUNS + Hex16(run))) + (SHARDS + tail) == root + (RUNS + (Hex16(run) + (SHARDS + tail)))
  {
  }

  /** The bytes a classified key must have near its end. */
  lemma ClassifiedEnds(key: Bytes)
    ensures Classify(key) == Some(Record) ==>
              |key| >= 24 && IsHexDigit(key[|key| - 1]) && key[|key| - 18] == 115 && key[|key| - 19] == 100
    ensures Classify(key) == Some(Owner) ==> |key| >= 30 && key[|key| - 1] == 114
  {
    if Classify(key).Some? {
      var pre, n := ClassifiedShape(key);
      if Classify(key) == Some(Record) { RecordEnds(pre, n); } else { OwnerEnds(pre, n); }
    }
  }

  lemma RecordEnds(pre: Bytes, n: u64)
    ensures var key := pre + (SHARDS + Hex16(n));
            |key| >= 24 && IsHexDigit(key[|key| - 1]) && key[|key| - 18] == 115 && key[|key| - 19] == 100
  {
    var key := pre + (SHARDS + Hex16(n));
    assert key[|pre| + 6] == SHARDS[6] && key[|pre| + 5] == SHARDS[5] && key[|key| - 1] == Hex16(n)[15];
  }

  lemma OwnerEnds(pre: Bytes, n: u64)
    ensures var key := pre + (SHARDS + (Hex16(n) + OWNER)); |key| >= 30 && key[|key| - 1] == 114
  {
  }

  lemma OthersAreUnclassified(ns: Bytes, id: KeyId)
    requires !id.ShardRecord? && !id.ShardOwner?
    ensures Classify(Key(ns, id)) == None
  {
    var key := Key(ns, id);
    var root := TenantRoot(ns, id.tenant);
    ClassifiedEnds(key);
    KindByLength(id);
    assert key[|key| - 1] == Below(id)[|Below(id)| - 1];
    if id.ShardCount? {
      assert Below(id)[11] == 116;
    } else {
      assert key[|key| - 18] == Below(id)[|Below(id)| - 18] && key[|key| - 19] == Below(id)[|Below(id)| - 19];
      UnshardedEnds(id);
    }
  }

  lemma UnshardedEnds(id: KeyId)
    requires id.RunRecord? || id.RunActive? || id.ShardActive?
    ensures var b := Below(id); |b| >= 19 && IsHexDigit(b[|b| - 1]) && (b[|b| - 18] != 115 || b[|b| - 19] != 100)
  {
    match id
    case RunRecord(_, run) => assert Below(id)[3] == 110 && Below(id)[21] == Hex16(run)[15];
    case RunActive(_, run) => assert Below(id)[11] == 101 && Below(id)[28] == Hex16(run)[15];
    case ShardActive(_, run, shard) => assert Below(id)[35] == SHARDS_ACTIVE[13] && Below(id)[52] == Hex16(shard)[15];
  }

  // ---------------------------------------------------------------------
  // Namespaces
  // ---------------------------------------------------------------------

  predicate NoDoubleSlash(s: Bytes) { forall i :: 0 <= i < |s| - 1 ==> !(s[i] == SLASH && s[i + 1] == SLASH) }

  datatype NamespaceError = EmptyPrefix | MustStartWithSlash | MustNotEndWithSlash | ContainsDoubleSlash

  /** Checks a trimmed namespace prefix; nothing but these four faults is an error. */
  function CheckNamespace(prefix: Bytes): Option<NamespaceError> {
    if prefix == [] then Some(EmptyPrefix)
    else if prefix[0] != SLASH then Some(MustStartWithSlash)
    else if prefix[|prefix| - 1] == SLASH && |prefix| > 1 then Some(MustNotEndWithSlash)
    else if !NoDoubleSlash(prefix) then Some(ContainsDoubleSlash)
    else None
  }

  lemma NoDoubleSlashConcat(a: Bytes, b: Bytes)
    requires NoDoubleSlash(a) && NoDoubleSlash(b)
    requires a == [] || b == [] || a[|a| - 1] != SLASH || b[0] != SLASH
    ensures NoDoubleSlash(a + b)
  {
    forall i | 0 <= i < |a + b| - 1 ensures !((a + b)[i] == SLASH && (a + b)[i + 1] == SLASH) {
      if i + 1 < |a| {
        assert (a + b)[i] == a[i] && (a + b)[i + 1] == a[i + 1];
      } else if i >= |a| {
        assert (a + b)[i] == b[i - |a|] && (a + b)[i + 1] == b[i - |a| + 1];
      } else {
        assert (a + b)[i] == a[|a| - 1] && (a + b)[i + 1] == b[0];
      }
    }
  }

  /** A piece that neither has a double slash nor could make one at its seams. */
  ghost predicate CleanBefore(s: Bytes) { NoDoubleSlash(s) && s != [] && s[|s| - 1] != SLASH }

  lemma HexIsClean(s: Bytes)
    requires AllHex(s) && s != []
    ensures CleanBefore(s) && s[0] != SLASH
  {
  }

  /** Appending a segment that ends in a slash, and then an id. */
  lemma SegmentAndId(a: Bytes, segment: Bytes, id: Bytes)
    requires CleanBefore(a) && NoDoubleSlash(segment) && segment != [] && AllHex(id) && id != []
    ensures CleanBefore(a + (segment + id))
  {
    HexIsClean(id);
    NoDoubleSlashConcat(segment, id);
    NoDoubleSlashConcat(a, segment + id);
  }

  lemma TenantRootIsClean(ns: Bytes, tenant: Tenant)
    requires CheckNamespace(ns).None?
    ensures CleanBefore(TenantRoot(ns, tenant)) && TenantRoot(ns, tenant)[0] == SLASH
  {
    var root := NamespaceRoot(ns);
    HexIsClean(HexBytes(tenant));
    NoDoubleSlashConcat(root, TENANTS);
    NoDoubleSlashConcat(root + TENANTS, HexBytes(tenant));
  }

  ghost predicate IsCleanPath(s: Bytes) { NoDoubleSlash(s) && s != [] && s[0] == SLASH }

  /** Every generated key is an absolute path without empty segments. */
  lemma KeysAreCleanPaths(ns: Bytes, id: KeyId)
    requires CheckNamespace(ns).None?
    ensures IsCleanPath(Key(ns, id))
  {
    var root := TenantRoot(ns, id.tenant);
    TenantRootIsClean(ns, id.tenant);
    match id
    case ShardCount(_) => NoDoubleSlashConcat(root, SHARD_COUNT);
    case RunRecord(_, run) => SegmentAndId(root, RUNS, Hex16(run));
    case RunActive(_, run) => SegmentAndId(root, RUNS_ACTIVE, Hex16(run));
    case _ => ShardKeysAreCleanPaths(ns, id);
  }

  lemma ShardKeysAreCleanPaths(ns: Bytes, id: KeyId)
    requires CheckNamespace(ns).None? && (id.ShardRecord? || id.ShardActive? || id.ShardOwner?)
    ensures IsCleanPath(Key(ns, id))
  {
    var root := TenantRoot(ns, id.tenant);
    TenantRootIsClean(ns, id.tenant);
    match id
    case ShardRecord(_, run, shard) => ShardPathIsClean(root, run, SHARDS, shard);
    case ShardActive(_, run, shard) => ShardPathIsClean(root, run, SHARDS_ACTIVE, shard);
    case ShardOwner(_, run, shard) => OwnerPathIsClean(root, run, shard);
  }

  lemma ShardPathIsClean(root: Bytes, run: u64, middle: Bytes, shard: u64)
    requires CleanBefore(root) && NoDoubleSlash(middle) && middle != []
    ensures CleanBefore(root + (RUNS + (Hex16(run) + (middle + Hex16(shard)))))
  {
    SegmentAndId(root, RUNS, Hex16(run));
    SegmentAndId(root + (RUNS + Hex16(run)), middle, Hex16(shard));
    Associate(root, RUNS + Hex16(run), middle + Hex16(shard));
    Associate(RUNS, Hex16(run), middle + Hex16(shard));
  }

  lemma OwnerPathIsClean(root: Bytes, run: u64, shard: u64)
    requires CleanBefore(root)
    ensures NoDoubleSlash(root + (RUNS + (Hex16(run) + (SHARDS + (Hex16(shard) + OWNER)))))
  {
    ShardPathIsClean(root, run, SHARDS, shard);
    var record := root + (RUNS + (Hex16(run) + (SHARDS + Hex16(shard))));
    OwnerAppended(record);
    Associate(root, RUNS + (Hex16(run) + (SHARDS + Hex16(shard))), OWNER);
    Associate(RUNS, Hex16(run) + (SHARDS + Hex16(shard)), OWNER);
    Associate(Hex16(run), SHARDS + Hex16(shard), OWNER);
    Associate(SHARDS, Hex16(shard), OWNER);
  }

  lemma OwnerAppended(record: Bytes)
    requires CleanBefore(record)
    ensures NoDoubleSlash(record + OWNER)
  {
    NoDoubleSlashConcat(record, OWNER);
  }
}
