/** The encoders as they run: fields appended to a buffer, from an owned record or straight from the slab. */
module RecordWriter {
  import opened Bytes
  import opened Wire
  import opened ShardCodec
  import opened RecordSlab
  import RunCodec
  import RecordReader

  /**
   * An output buffer. Each method takes, for specification only, the bytes `rest` that the caller is
   * going to append later; the printer then says what buffer and rest make up together.
   */
  class Buffer {
    var out: Bytes

    constructor ()
      ensures out == []
    {
      out := [];
    }

    method Append(bytes: Bytes, ghost rest: Bytes)
      modifies this
      ensures out + rest == old(out) + (bytes + rest)
    {
      out := out + bytes;
      assert out + rest == old(out) + (bytes + rest);
    }

    method AddU8(v: byte, ghost rest: Bytes)
      modifies this
      ensures out + rest == old(out) + PutU8(v, rest)
    {
      Append([v], rest);
    }

    method AddBool(v: bool, ghost rest: Bytes)
      modifies this
      ensures out + rest == old(out) + PutBool(v, rest)
    {
      AddU8(if v then 1 else 0, rest);
    }

    method AddU32(v: u32, ghost rest: Bytes)
      modifies this
      ensures out + rest == old(out) + PutU32(v, rest)
    {
      Append(ToLe(v, 4), rest);
    }

    method AddU64(v: u64, ghost rest: Bytes)
      modifies this
      ensures out + rest == old(out) + PutU64(v, rest)
    {
      Append(ToLe(v, 8), rest);
    }

    method AddTenant(v: Tenant, ghost rest: Bytes)
      modifies this
      ensures out + rest == old(out) + PutTenant(v, rest)
    {
      Append(v, rest);
    }

    method AddBytes(v: Blob, ghost rest: Bytes)
      modifies this
      ensures out + rest == old(out) + PutBytes(v, rest)
    {
      AddU32(|v|, v + rest);
      Append(v, rest);
    }

    method AddOptBytes(v: Option<Blob>, ghost rest: Bytes)
      modifies this
      ensures out + rest == old(out) + PutOptBytes(v, rest)
    {
      if v.Some? {
        AddBool(true, PutBytes(v.value, rest));
        AddBytes(v.value, rest);
      } else {
        AddBool(false, rest);
      }
    }

    method AddOptU64(v: Option<u64>, ghost rest: Bytes)
      modifies this
      ensures out + rest == old(out) + PutOptU64(v, rest)
    {
      if v.Some? {
        AddBool(true, PutU64(v.value, rest));
        AddU64(v.value, rest);
      } else {
        AddBool(false, rest);
      }
    }

    method AddOptU32(v: Option<u32>, ghost rest: Bytes)
      modifies this
      ensures out + rest == old(out) + PutOptU32(v, rest)
    {
      if v.Some? {
        AddBool(true, PutU32(v.value, rest));
        AddU32(v.value, rest);
      } else {
        AddBool(false, rest);
      }
    }

    method AddOptU8(v: Option<byte>, ghost rest: Bytes)
      modifies this
      ensures out + rest == old(out) + PutOptU8(v, rest)
    {
      if v.Some? {
        AddBool(true, PutU8(v.value, rest));
        AddU8(v.value, rest);
      } else {
        AddBool(false, rest);
      }
    }

    method AddHeader(kind: BlobKind, ghost rest: Bytes)
      modifies this
      ensures out + rest == old(out) + PutHeader(kind, rest)
    {
      Append(VERSION_PREFIX, PutU8(KindTag(kind), rest));
      AddU8(KindTag(kind), rest);
    }

    method AddIds(ids: Ids, ghost rest: Bytes)
      modifies this
      ensures out + rest == old(out) + PutIds(ids, rest)
    {
      AddU32(|ids|, PutEach(ids, rest));
      ghost var start := out;
      for i := 0 to |ids|
        invariant out + PutEach(ids[i..], rest) == start + PutEach(ids, rest)
      {
        PutAllFront(PutU64, ids[i..], rest);
        assert ids[i..][1..] == ids[i + 1..];
        AddU64(ids[i], PutEach(ids[i + 1..], rest));
      }
    }

    // -------------------------------------------------------------------
    // Run records
    // -------------------------------------------------------------------

    method AddRunOp(op: RunCodec.RunOp, ghost rest: Bytes)
      modifies this
      ensures out + rest == old(out) + RunCodec.PutOp(op, rest)
    {
      ghost var s3 := RunCodec.PutResult(op.result, rest);
      ghost var s2 := PutU64(op.executedAt, s3);
      ghost var s1 := PutU64(op.payloadHash, s2);
      AddU64(op.opId, PutU8(op.kind.AsU8(), s1));
      AddU8(op.kind.AsU8(), s1);
      AddU64(op.payloadHash, s2);
      AddU64(op.executedAt, s3);
      match op.result
      case RegisteredShards(ids) =>
        AddU8(1, PutIds(ids, rest));
        AddIds(ids, rest);
      case Ack => AddU8(2, rest);
    }

    method AddRunRecord(r: RunCodec.RunRecord, ghost rest: Bytes)
      modifies this
      ensures out + rest == old(out) + RunCodec.PutRecord(r, rest)
    {
      ghost var log := RunCodec.PutLog(r.opLog, rest);
      ghost var roots := PutIds(r.rootShards, log);
      ghost var completed := PutOptU64(r.completedAt, roots);
      ghost var created := PutU64(r.createdAt, completed);
      ghost var status := PutU8(r.status.AsU8(), created);
      ghost var retries := PutOptU32(r.config.maxShardRetries, status);
      ghost var duration := PutU64(r.config.leaseDuration, retries);
      ghost var semantics := PutU8(r.config.cursorSemantics.AsU8(), duration);
      AddTenant(r.tenant, PutU64(r.run, semantics));
      AddU64(r.run, semantics);
      AddU8(r.config.cursorSemantics.AsU8(), duration);
      AddU64(r.config.leaseDuration, retries);
      AddOptU32(r.config.maxShardRetries, status);
      AddU8(r.status.AsU8(), created);
      AddU64(r.createdAt, completed);
      AddOptU64(r.completedAt, roots);
      AddIds(r.rootShards, log);
      AddRunLog(r.opLog, rest);
    }

    method AddRunLog(ops: RunCodec.OpLog, ghost rest: Bytes)
      modifies this
      ensures out + rest == old(out) + RunCodec.PutLog(ops, rest)
    {
      AddU32(|ops|, RunCodec.PutOps(ops, rest));
      ghost var start := out;
      for i := 0 to |ops|
        invariant out + RunCodec.PutOps(ops[i..], rest) == start + RunCodec.PutOps(ops, rest)
      {
        PutAllFront(RunCodec.PutOp, ops[i..], rest);
        assert ops[i..][1..] == ops[i + 1..];
        AddRunOp(ops[i], RunCodec.PutOps(ops[i + 1..], rest));
      }
    }

    // -------------------------------------------------------------------
    // Shard records
    // -------------------------------------------------------------------

    method AddShardLog(ops: OpLog, ghost rest: Bytes)
      modifies this
      ensures out + rest == old(out) + PutLog(ops, rest)
    {
      AddU32(|ops|, PutOps(ops, rest));
      ghost var start := out;
      for i := 0 to |ops|
        invariant out + PutOps(ops[i..], rest) == start + PutOps(ops, rest)
      {
        PutAllFront(PutOp, ops[i..], rest);
        assert ops[i..][1..] == ops[i + 1..];
        AddShardOp(ops[i], PutOps(ops[i + 1..], rest));
      }
    }

    method AddShardOp(op: ShardOp, ghost rest: Bytes)
      modifies this
      ensures out + rest == old(out) + PutOp(op, rest)
    {
      ghost var s3 := PutU64(op.executedAt, rest);
      ghost var s2 := PutU64(op.payloadHash, s3);
      ghost var s1 := PutU8(op.result.AsU8(), s2);
      AddU64(op.opId, PutU8(op.kind.AsU8(), s1));
      AddU8(op.kind.AsU8(), s1);
      AddU8(op.result.AsU8(), s2);
      AddU64(op.payloadHash, s3);
      AddU64(op.executedAt, rest);
    }

    method AddStatus(status: ShardStatus, reason: Option<ParkReason>, ghost rest: Bytes)
      modifies this
      ensures out + rest == old(out) + PutStatus(status, reason, rest)
    {
      var raw := if reason.Some? then Some(reason.value.AsU8()) else None;
      AddU8(status.AsU8(), PutOptU8(raw, rest));
      AddOptU8(raw, rest);
    }

    method AddSpec(start: Blob, end: Blob, metadata: Blob, ghost rest: Bytes)
      modifies this
      ensures out + rest == old(out) + PutSpec(Spec(start, end, metadata), rest)
    {
      AddBytes(start, PutBytes(end, PutBytes(metadata, rest)));
      AddBytes(end, PutBytes(metadata, rest));
      AddBytes(metadata, rest);
    }

    method AddCursor(lastKey: Option<Blob>, token: Option<Blob>, ghost rest: Bytes)
      modifies this
      ensures out + rest == old(out) + PutCursor(Cursor(lastKey, token), rest)
    {
      AddOptBytes(lastKey, PutOptBytes(token, rest));
      AddOptBytes(token, rest);
    }

    method AddLease(owner: u64, deadline: u64, ghost rest: Bytes)
      modifies this
      ensures out + rest == old(out) + PutLease(Some(owner), Some(deadline), rest)
    {
      AddBool(true, PutU64(owner, PutU64(deadline, rest)));
      AddU64(owner, PutU64(deadline, rest));
      AddU64(deadline, rest);
    }

    method AddIdentity(tenant: Tenant, run: u64, shard: u64, status: ShardStatus, reason: Option<ParkReason>,
                       ghost rest: Bytes)
      modifies this
      ensures out + rest == old(out) + PutTenant(tenant, PutU64(run, PutU64(shard, PutStatus(status, reason, rest))))
    {
      ghost var s := PutStatus(status, reason, rest);
      AddTenant(tenant, PutU64(run, PutU64(shard, s)));
      AddU64(run, PutU64(shard, s));
      AddU64(shard, s);
      AddStatus(status, reason, rest);
    }

    /** The owned-record encoder; it refuses a lease with only an owner or only a deadline. */
    method AddOwned(r: OwnedShardRecord, ghost rest: Bytes) returns (done: Result<()>)
      modifies this
      ensures done == if r.JointLease() then Ok(()) else Err(InvariantViolation)
      ensures r.JointLease() ==> out + rest == old(out) + PutRecord(r, rest)
    {
      ghost var tail := if r.JointLease() then PutTail(r, rest) else [];
      ghost var cursor := PutCursor(r.cursor, tail);
      AddIdentity(r.tenant, r.run, r.shard, r.status, r.parkReason, PutSpec(r.spec, cursor));
      AddSpec(r.spec.start, r.spec.end, r.spec.metadata, cursor);
      AddCursor(r.cursor.lastKey, r.cursor.token, tail);
      done := AddOwnedTail(r, rest);
    }

    method AddOwnedTail(r: OwnedShardRecord, ghost rest: Bytes) returns (done: Result<()>)
      modifies this
      ensures done == if r.JointLease() then Ok(()) else Err(InvariantViolation)
      ensures r.JointLease() ==> out + rest == old(out) + PutTail(r, rest)
    {
      ghost var log := PutLog(r.opLog, rest);
      ghost var spawned := PutIds(r.spawned, log);
      ghost var parent := PutOptU64(r.parent, spawned);
      ghost var fence := PutU64(r.fence, parent);
      AddU8(r.cursorSemantics.AsU8(), if r.JointLease() then PutLease(r.leaseOwner, r.leaseDeadline, fence) else []);
      if r.leaseOwner.Some? && r.leaseDeadline.Some? {
        AddLease(r.leaseOwner.value, r.leaseDeadline.value, fence);
      } else if r.leaseOwner.None? && r.leaseDeadline.None? {
        AddBool(false, fence);
      } else {
        return Err(InvariantViolation);
      }
      AddU64(r.fence, parent);
      AddOptU64(r.parent, spawned);
      AddIds(r.spawned, log);
      AddShardLog(r.opLog, rest);
      return Ok(());
    }

    /** The direct encoder: pooled fields are read from the slab as they are written. */
    method AddPooled(r: ShardRecord, slab: ByteSlab, ghost rest: Bytes)
      requires Backed(slab.live, r)
      modifies this
      ensures out + rest == old(out) + PutRecord(FromRecord(slab.live, r), rest)
    {
      ghost var o := FromRecord(slab.live, r);
      ghost var tail := PutTail(o, rest);
      ghost var cursor := PutCursor(o.cursor, tail);
      AddIdentity(r.tenant, r.run, r.shard, r.status, r.parkReason, PutSpec(o.spec, cursor));
      assert SpecSlots(r.spec)[0] == r.spec.start && SpecSlots(r.spec)[1] == r.spec.end;
      assert SpecSlots(r.spec)[2] == r.spec.metadata;
      AddSpec(Content(slab.live, r.spec.start), Content(slab.live, r.spec.end), Content(slab.live, r.spec.metadata), cursor);
      assert Holds(slab.live, CursorSlots(r.cursor)[0]) && Holds(slab.live, CursorSlots(r.cursor)[1]);
      AddCursor(if r.cursor.lastKey.Some? then Some(Content(slab.live, r.cursor.lastKey.value)) else None,
                if r.cursor.token.Some? then Some(Content(slab.live, r.cursor.token.value)) else None, tail);
      AddPooledTail(r, slab, rest);
    }

    method AddPooledTail(r: ShardRecord, slab: ByteSlab, ghost rest: Bytes)
      requires Backed(slab.live, r)
      modifies this
      ensures out + rest == old(out) + PutTail(FromRecord(slab.live, r), rest)
    {
      ghost var o := FromRecord(slab.live, r);
      ghost var log := PutLog(r.opLog, rest);
      ghost var spawned := PutIds(o.spawned, log);
      ghost var parent := PutOptU64(r.parent, spawned);
      ghost var fence := PutU64(r.fence, parent);
      AddU8(r.cursorSemantics.AsU8(), PutLease(o.leaseOwner, o.leaseDeadline, fence));
      if r.lease.Some? {
        AddLease(r.lease.value.owner, r.lease.value.deadline, fence);
      } else {
        AddBool(false, fence);
      }
      AddU64(r.fence, parent);
      AddOptU64(r.parent, spawned);
      AddPacked(r.spawned, slab, log);
      AddShardLog(r.opLog, rest);
    }

    /** The count comes from the record, the ids from the slot. */
    method AddPacked(v: PooledSpawned, slab: ByteSlab, ghost rest: Bytes)
      requires Holds(slab.live, v.slot) && |UnpackIds(Content(slab.live, v.slot))| == v.len
      modifies this
      ensures out + rest == old(out) + PutIds(UnpackIds(Content(slab.live, v.slot)), rest)
    {
      var ids := UnpackIds(Content(slab.live, v.slot));
      AddU32(v.len, PutEach(ids, rest));
      ghost var start := out;
      for i := 0 to |ids|
        invariant out + PutEach(ids[i..], rest) == start + PutEach(ids, rest)
      {
        PutAllFront(PutU64, ids[i..], rest);
        assert ids[i..][1..] == ids[i + 1..];
        AddU64(ids[i], PutEach(ids[i + 1..], rest));
      }
    }
  }

  // ---------------------------------------------------------------------
  // Whole blobs
  // ---------------------------------------------------------------------

  method EncodeRunRecord(r: RunCodec.RunRecord) returns (blob: Bytes)
    ensures blob == RunCodec.Encode(r)
  {
    var buffer := new Buffer();
    buffer.AddHeader(RunBlob, RunCodec.PutRecord(r, []));
    buffer.AddRunRecord(r, []);
    blob := buffer.out;
    assert blob + [] == blob;
  }

  method EncodeOwned(o: OwnedShardRecord) returns (blob: Result<Bytes>)
    ensures blob == Encode(o)
  {
    var buffer := new Buffer();
    ghost var body := if o.JointLease() then PutRecord(o, []) else [];
    buffer.AddHeader(ShardBlob, body);
    var _ :- buffer.AddOwned(o, []);
    Filled(buffer.out, PutHeader(ShardBlob, body));
    return Ok(buffer.out);
  }

  method EncodeShardRecord(r: ShardRecord, slab: ByteSlab) returns (blob: Result<Bytes>)
    requires Backed(slab.live, r)
    ensures blob.Ok? && blob == Encode(FromRecord(slab.live, r))
  {
    blob := EncodeOwned(FromRecord(slab.live, r));
  }

  /** Clears the caller's buffer and fills it with the same bytes as the owned-record encoder. */
  method EncodeShardRecordInto(r: ShardRecord, slab: ByteSlab, buffer: Buffer)
    requires Backed(slab.live, r)
    modifies buffer
    ensures Encode(FromRecord(slab.live, r)) == Ok(buffer.out)
  {
    buffer.out := [];
    ghost var body := PutRecord(FromRecord(slab.live, r), []);
    buffer.AddHeader(ShardBlob, body);
    buffer.AddPooled(r, slab, []);
    Filled(buffer.out, PutHeader(ShardBlob, body));
  }

  lemma Filled(out: Bytes, blob: Bytes)
    requires out + [] == [] + blob
    ensures out == blob
  {
    assert out + [] == out && [] + blob == blob;
  }

  method EncodeOwnerValue(o: Owner) returns (bytes: Bytes)
    ensures bytes == EncodeOwner(o)
  {
    var buffer := new Buffer();
    buffer.AddHeader(OwnerBlob, PutU64(o.worker, PutU64(o.fence, [])));
    buffer.AddU64(o.worker, PutU64(o.fence, []));
    buffer.AddU64(o.fence, []);
    bytes := buffer.out;
    assert bytes + [] == bytes;
  }

  /** Parses a blob and materialises the record; on any failure the slab is as it was. */
  method DecodeShardRecord(blob: Bytes, slab: ByteSlab) returns (r: Result<ShardRecord>)
    requires slab.Valid()
    modifies slab
    ensures slab.Valid()
    ensures r.Err? ==> slab.live == old(slab.live)
    ensures Decode(blob).Err? ==> r == Err(Decode(blob).error)
    ensures Decode(blob).Ok? && r.Err? ==> FailureExplained(Decode(blob).value, slab.RanOut(old(slab.attempts)), r.error)
    ensures r.Ok? ==> && Decode(blob).Ok?
                      && Added(old(slab.live), slab.live, IdsOf(RecordSlots(r.value))) && Backed(slab.live, r.value)
                      && FromRecord(slab.live, r.value) == Normalized(Decode(blob).value)
                      && Storable(FromRecord(slab.live, r.value))
  {
    var o :- RecordReader.DecodeOwnedShardRecord(blob);
    r := IntoRecord(o, slab);
  }

  // ---------------------------------------------------------------------
  // Records the slab can hold survive
  // ---------------------------------------------------------------------

  /** The slab's input limits are tighter than the decoder's, so what the slab accepts decodes back. */
  lemma AcceptedSurvives(o: OwnedShardRecord)
    requires o.Valid() && SpecAccepted(o.spec) && CursorAccepted(o.cursor)
    ensures Encode(o).Ok? && Decode(Encode(o).value) == Ok(o)
  {
    AcceptedIsWithinLimits(o);
    DecodeEncode(o);
  }

  lemma AcceptedIsWithinLimits(o: OwnedShardRecord)
    requires SpecAccepted(o.spec) && CursorAccepted(o.cursor)
    ensures WithinLimits(o)
  {
  }

  /**
   * Writing a stored record out and reading it into another slab gives the same record again; only
   * a lack of room can prevent it, and then the other slab is as it was.
   */
  method Reload(r: ShardRecord, slab: ByteSlab, other: ByteSlab) returns (copy: Result<ShardRecord>)
    requires slab != other && slab.Valid() && other.Valid()
    requires Backed(slab.live, r) && Storable(FromRecord(slab.live, r))
    modifies other
    ensures other.Valid()
    ensures copy.Err? ==> copy.error == SlabFull && other.RanOut(old(other.attempts)) && other.live == old(other.live)
    ensures copy.Ok? ==> && Added(old(other.live), other.live, IdsOf(RecordSlots(copy.value)))
                         && Backed(other.live, copy.value)
                         && FromRecord(other.live, copy.value) == FromRecord(slab.live, r)
  {
    var blob := EncodeShardRecord(r, slab);
    AcceptedSurvives(FromRecord(slab.live, r));
    copy := DecodeShardRecord(blob.value, other);
  }

  // ---------------------------------------------------------------------
  // Re-encoding what was decoded
  // ---------------------------------------------------------------------

  /** Valid records within the limits have different encodings. */
  lemma EncodeInjective(a: OwnedShardRecord, b: OwnedShardRecord)
    requires a.Valid() && b.Valid() && WithinLimits(a) && WithinLimits(b) && Encode(a) == Encode(b)
    ensures a == b
  {
    DecodeEncode(a);
    DecodeEncode(b);
  }

  /**
   * A record decoded into the slab re-encodes to the blob it came from exactly when the blob's cursor
   * token is not present and empty; such a token is dropped on the way in.
   */
  lemma ReencodeExact(blob: Bytes)
    requires Decode(blob).Ok?
    ensures Encode(Normalized(Decode(blob).value)) == Ok(blob) <==> Decode(blob).value.cursor.token != Some([])
  {
    var o := Decode(blob).value;
    if Encode(Normalized(o)) == Ok(blob) { EncodeInjective(o, Normalized(o)); }
  }

  /** A blob that decodes but does not survive: a cursor whose token is present and empty. */
  lemma EmptyTokenIsLost()
    ensures var spec := Spec([], [], []);
            var o := OwnedShardRecord(seq(32, _ => 0), 1, 1, Active, None, spec, Cursor(Some([1]), Some([])),
                                      RunCodec.CursorSemantics.Completed, None, None, 1, None, [], []);
            && Encode(o).Ok? && Decode(Encode(o).value) == Ok(o) && SpecAccepted(o.spec) && CursorAccepted(o.cursor)
            && Encode(Normalized(o)) != Encode(o)
  {
    var o := OwnedShardRecord(seq(32, _ => 0), 1, 1, Active, None, Spec([], [], []), Cursor(Some([1]), Some([])),
                              RunCodec.CursorSemantics.Completed, None, None, 1, None, [], []);
    DecodeEncode(o);
    ReencodeExact(Encode(o).value);
  }
}
