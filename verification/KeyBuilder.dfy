/** Keys built by appending segments to a reusable buffer. */
module KeyBuilder {
  import opened Bytes
  import opened Wire
  import opened Keyspace

  class KeyBuffer {
    var buf: Bytes
    const ns: Bytes

    constructor (ns: Bytes)
      ensures buf == [] && this.ns == ns
    {
      buf := [];
      this.ns := ns;
    }

    /** Joins namespace and first segment without doubling the slash of the root namespace. */
    method JoinNamespace()
      modifies this`buf
      ensures buf == old(buf) + (NamespaceRoot(ns) + TENANTS[..8])
    {
      if ns == [SLASH] {
        buf := buf + [SLASH];
      } else {
        buf := buf + ns;
        buf := buf + [SLASH];
      }
      buf := buf + TENANTS[1..8];
      assert TENANTS[..8] == [SLASH] + TENANTS[1..8];
    }

    method TenantPrefix(tenant: Tenant)
      modifies this`buf
      ensures buf == old(buf) + TenantRoot(ns, tenant)
    {
      JoinNamespace();
      buf := buf + [SLASH];
      assert TENANTS == TENANTS[..8] + [SLASH];
      assert buf == old(buf) + (NamespaceRoot(ns) + TENANTS);
      buf := EncodeHexInto(buf, tenant);
      Associate(old(buf), NamespaceRoot(ns) + TENANTS, HexBytes(tenant));
    }

    method ShardCountKey(tenant: Tenant)
      modifies this`buf
      ensures buf == old(buf) + Key(ns, ShardCount(tenant))
    {
      TenantPrefix(tenant);
      buf := buf + SHARD_COUNT;
      Associate(old(buf), TenantRoot(ns, tenant), SHARD_COUNT);
    }

    method RunRecordKey(tenant: Tenant, run: u64)
      modifies this`buf
      ensures buf == old(buf) + Key(ns, RunRecord(tenant, run))
    {
      TenantPrefix(tenant);
      buf := buf + RUNS + Hex16(run);
      Associate(old(buf) + TenantRoot(ns, tenant), RUNS, Hex16(run));
      Associate(old(buf), TenantRoot(ns, tenant), RUNS + Hex16(run));
    }

    method RunActiveIndexKey(tenant: Tenant, run: u64)
      modifies this`buf
      ensures buf == old(buf) + Key(ns, RunActive(tenant, run))
    {
      TenantPrefix(tenant);
      buf := buf + RUNS_ACTIVE + Hex16(run);
      Associate(old(buf) + TenantRoot(ns, tenant), RUNS_ACTIVE, Hex16(run));
      Associate(old(buf), TenantRoot(ns, tenant), RUNS_ACTIVE + Hex16(run));
    }

    method ShardScanPrefixKey(tenant: Tenant, run: u64)
      modifies this`buf
      ensures buf == old(buf) + ShardScanPrefix(ns, tenant, run)
    {
      RunRecordKey(tenant, run);
      buf := buf + SHARDS;
      Extend(old(buf), TenantRoot(ns, tenant), run, SHARDS);
    }

    method ShardRecordKey(tenant: Tenant, run: u64, shard: u64)
      modifies this`buf
      ensures buf == old(buf) + Key(ns, ShardRecord(tenant, run, shard))
    {
      RunRecordKey(tenant, run);
      ghost var record := buf;
      buf := buf + SHARDS + Hex16(shard);
      Associate(record, SHARDS, Hex16(shard));
      Extend(old(buf), TenantRoot(ns, tenant), run, SHARDS + Hex16(shard));
    }

    method ShardOwnerKey(tenant: Tenant, run: u64, shard: u64)
      modifies this`buf
      ensures buf == old(buf) + Key(ns, ShardOwner(tenant, run, shard))
    {
      ShardRecordKey(tenant, run, shard);
      ghost var record := Key(ns, ShardRecord(tenant, run, shard));
      buf := buf + OWNER;
      Associate(old(buf), record, OWNER);
      OwnerExtendsRecord(ns, tenant, run, shard);
    }

    method ShardActiveIndexKey(tenant: Tenant, run: u64, shard: u64)
      modifies this`buf
      ensures buf == old(buf) + Key(ns, ShardActive(tenant, run, shard))
    {
      RunRecordKey(tenant, run);
      ghost var record := buf;
      buf := buf + SHARDS_ACTIVE + Hex16(shard);
      Associate(record, SHARDS_ACTIVE, Hex16(shard));
      Extend(old(buf), TenantRoot(ns, tenant), run, SHARDS_ACTIVE + Hex16(shard));
    }
  }

  lemma Extend(buf: Bytes, root: Bytes, run: u64, tail: Bytes)
    ensures buf + (root + (RUNS + Hex16(run))) + tail == buf + (root + (RUNS + (Hex16(run) + tail)))
  {
    Associate(RUNS, Hex16(run), tail);
    Associate(root, RUNS + Hex16(run), tail);
    Associate(buf, root + (RUNS + Hex16(run)), tail);
  }

  /** An owner key is its shard's record key with a suffix. */
  lemma OwnerExtendsRecord(ns: Bytes, tenant: Tenant, run: u64, shard: u64)
    ensures Key(ns, ShardRecord(tenant, run, shard)) + OWNER == Key(ns, ShardOwner(tenant, run, shard))
  {
    var hex := Hex16(shard);
    Associate(SHARDS, hex, OWNER);
    Associate(Hex16(run), SHARDS + hex, OWNER);
    Associate(RUNS, Hex16(run) + (SHARDS + hex), OWNER);
    Associate(TenantRoot(ns, tenant), RUNS + (Hex16(run) + (SHARDS + hex)), OWNER);
  }
}
