/** The decoder as it runs: a cursor over the blob, advanced by each read. */
module RecordReader {
  import opened Bytes
  import opened Wire
  import RunCodec
  import ShardCodec

  /** A read returned what the parser says and left the rest of the input unread. */
  ghost predicate Reads<T(!new)>(parsed: Result<Parsed<T>>, r: Result<T>, rest: Bytes) {
    if parsed.Ok? then r == Ok(parsed.value.value) && rest == parsed.value.rest else r == Err(parsed.error)
  }

  class Decoder {
    const bytes: Bytes
    var offset: nat

    ghost predicate Valid()
      reads this
    {
      offset <= |bytes|
    }

    ghost function Rest(): Bytes
      requires Valid()
      reads this
    {
      bytes[offset..]
    }

    constructor (bytes: Bytes)
      ensures Valid() && this.bytes == bytes && Rest() == bytes
    {
      this.bytes := bytes;
      offset := 0;
    }

    method ReadExact(len: nat) returns (r: Result<Bytes>)
      requires Valid()
      modifies this
      ensures Valid() && Reads(Take(old(Rest()), len), r, Rest())
    {
      var remaining := |bytes| - offset;
      if remaining < len { return Err(Truncated(len, remaining)); }
      var start := offset;
      offset := offset + len;
      assert bytes[start..][..len] == bytes[start..start + len] && bytes[start..][len..] == bytes[offset..];
      return Ok(bytes[start..start + len]);
    }

    method ReadU8() returns (r: Result<byte>)
      requires Valid()
      modifies this
      ensures Valid() && Reads(GetU8(old(Rest())), r, Rest())
    {
      var raw :- ReadExact(1);
      return Ok(raw[0]);
    }

    method ReadBool() returns (r: Result<bool>)
      requires Valid()
      modifies this
      ensures Valid() && Reads(GetBool(old(Rest())), r, Rest())
    {
      var tag :- ReadU8();
      match tag
      case 0 => return Ok(false);
      case 1 => return Ok(true);
      case _ => return Err(InvalidBool(tag));
    }

    method ReadU32() returns (r: Result<u32>)
      requires Valid()
      modifies this
      ensures Valid() && Reads(GetU32(old(Rest())), r, Rest())
    {
      var raw :- ReadExact(4);
      WidthBounds();
      return Ok(FromLe(raw));
    }

    method ReadU64() returns (r: Result<u64>)
      requires Valid()
      modifies this
      ensures Valid() && Reads(GetU64(old(Rest())), r, Rest())
    {
      var raw :- ReadExact(8);
      WidthBounds();
      return Ok(FromLe(raw));
    }

    method ReadTenant() returns (r: Result<Tenant>)
      requires Valid()
      modifies this
      ensures Valid() && Reads(GetTenant(old(Rest())), r, Rest())
    {
      var raw :- ReadExact(TENANT_SIZE);
      return Ok(raw);
    }

    method ReadVec() returns (r: Result<Blob>)
      requires Valid()
      modifies this
      ensures Valid() && Reads(GetBytes(old(Rest())), r, Rest())
    {
      var len :- ReadU32();
      if len > MAX_FIELD_SIZE { return Err(FieldTooLarge(len, MAX_FIELD_SIZE)); }
      var raw :- ReadExact(len);
      return Ok(raw);
    }

    method ReadOptVec() returns (r: Result<Option<Blob>>)
      requires Valid()
      modifies this
      ensures Valid() && Reads(GetOptBytes(old(Rest())), r, Rest())
    {
      var present :- ReadBool();
      if !present { return Ok(None); }
      var v :- ReadVec();
      return Ok(Some(v));
    }

    method ReadOptU64() returns (r: Result<Option<u64>>)
      requires Valid()
      modifies this
      ensures Valid() && Reads(GetOptU64(old(Rest())), r, Rest())
    {
      var present :- ReadBool();
      if !present { return Ok(None); }
      var v :- ReadU64();
      return Ok(Some(v));
    }

    method ReadOptU32() returns (r: Result<Option<u32>>)
      requires Valid()
      modifies this
      ensures Valid() && Reads(GetOptU32(old(Rest())), r, Rest())
    {
      var present :- ReadBool();
      if !present { return Ok(None); }
      var v :- ReadU32();
      return Ok(Some(v));
    }

    method ReadOptU8() returns (r: Result<Option<byte>>)
      requires Valid()
      modifies this
      ensures Valid() && Reads(GetOptU8(old(Rest())), r, Rest())
    {
      var present :- ReadBool();
      if !present { return Ok(None); }
      var v :- ReadU8();
      return Ok(Some(v));
    }

    method ExpectHeader(kind: BlobKind) returns (r: Result<()>)
      requires Valid()
      modifies this
      ensures Valid()
      ensures var header := GetHeader(old(Rest()), kind);
              if header.Ok? then r == Ok(()) && Rest() == header.value else r == Err(header.error)
    {
      var prefix :- ReadExact(2);
      if prefix != VERSION_PREFIX { return Err(InvalidVersionPrefix); }
      var tag :- ReadU8();
      if tag == 0 || tag > 3 { return Err(InvalidBlobKind(tag)); }
      if tag != KindTag(kind) { return Err(UnexpectedBlobKind(tag)); }
      return Ok(());
    }

    method Finish() returns (r: Result<()>)
      requires Valid()
      ensures r == if Rest() == [] then Ok(()) else Err(TrailingBytes(|Rest()|))
    {
      var remaining := |bytes| - offset;
      if remaining == 0 { return Ok(()); }
      return Err(TrailingBytes(remaining));
    }

    /** Reads `n` ids one after the other. */
    method ReadEach(n: nat) returns (r: Result<seq<u64>>)
      requires Valid()
      modifies this
      ensures Valid() && Reads(GetEach(old(Rest()), n), r, Rest())
    {
      ghost var s := Rest();
      var ids: seq<u64> := [];
      for i := 0 to n
        invariant Valid() && GetEach(s, i) == Ok(Parsed(ids, Rest()))
      {
        var one := ReadU64();
        if one.Err? {
          GetAllFails(GetU64, s, i + 1, n, one.error);
          return Err(one.error);
        }
        ids := ids + [one.value];
      }
      return Ok(ids);
    }

    method ReadRunOps(n: nat) returns (r: Result<seq<RunCodec.RunOp>>)
      requires Valid()
      modifies this
      ensures Valid() && Reads(RunCodec.GetOps(old(Rest()), n), r, Rest())
    {
      ghost var s := Rest();
      var ops: seq<RunCodec.RunOp> := [];
      for i := 0 to n
        invariant Valid() && RunCodec.GetOps(s, i) == Ok(Parsed(ops, Rest()))
      {
        var one := ReadRunOp();
        if one.Err? {
          GetAllFails(RunCodec.GetOp, s, i + 1, n, one.error);
          return Err(one.error);
        }
        ops := ops + [one.value];
      }
      return Ok(ops);
    }

    method ReadShardOps(n: nat) returns (r: Result<seq<ShardCodec.ShardOp>>)
      requires Valid()
      modifies this
      ensures Valid() && Reads(ShardCodec.GetOps(old(Rest()), n), r, Rest())
    {
      ghost var s := Rest();
      var ops: seq<ShardCodec.ShardOp> := [];
      for i := 0 to n
        invariant Valid() && ShardCodec.GetOps(s, i) == Ok(Parsed(ops, Rest()))
      {
        var one := ReadShardOp();
        if one.Err? {
          GetAllFails(ShardCodec.GetOp, s, i + 1, n, one.error);
          return Err(one.error);
        }
        ops := ops + [one.value];
      }
      return Ok(ops);
    }

    // -------------------------------------------------------------------
    // Run records
    // -------------------------------------------------------------------

    method ReadIdsUpTo(max: nat) returns (r: Result<Ids>)
      requires Valid()
      modifies this
      ensures Valid() && Reads(RunCodec.GetIdsUpTo(old(Rest()), max), r, Rest())
    {
      var len :- ReadU32();
      if len > max { return Err(FieldTooLarge(len, max)); }
      if len > (|bytes| - offset) / 8 { return Err(InvariantViolation); }
      var ids :- ReadEach(len);
      return Ok(ids);
    }

    method ReadRunResult() returns (r: Result<RunCodec.RunOpResult>)
      requires Valid()
      modifies this
      ensures Valid() && Reads(RunCodec.GetResult(old(Rest())), r, Rest())
    {
      var tag :- ReadU8();
      match tag
      case 1 =>
        var ids :- ReadIdsUpTo(RunCodec.MAX_REGISTERED_SHARDS);
        return Ok(RunCodec.RegisteredShards(ids));
      case 2 => return Ok(RunCodec.Ack);
      case _ => return Err(InvalidEnum(tag));
    }

    method ReadRunOp() returns (r: Result<RunCodec.RunOp>)
      requires Valid()
      modifies this
      ensures Valid() && Reads(RunCodec.GetOp(old(Rest())), r, Rest())
    {
      var opId :- ReadU64();
      var kindTag :- ReadU8();
      var kind :- RunCodec.RunOpKindFromU8(kindTag);
      var payloadHash :- ReadU64();
      var executedAt :- ReadU64();
      var result :- ReadRunResult();
      var op := RunCodec.RunOp(opId, kind, payloadHash, executedAt, result);
      if !op.Valid() { return Err(InvariantViolation); }
      return Ok(op);
    }

    method ReadRunLog() returns (r: Result<RunCodec.OpLog>)
      requires Valid()
      modifies this
      ensures Valid() && Reads(RunCodec.GetLog(old(Rest())), r, Rest())
    {
      var len :- ReadU32();
      if len > RunCodec.RUN_OP_LOG_CAP { return Err(InvariantViolation); }
      var ops :- ReadRunOps(len);
      return Ok(ops);
    }

    method ReadRunConfig() returns (r: Result<RunCodec.RunConfig>)
      requires Valid()
      modifies this
      ensures Valid() && Reads(RunCodec.GetConfig(old(Rest())), r, Rest())
    {
      var tag :- ReadU8();
      var semantics :- RunCodec.CursorSemanticsFromU8(tag);
      var leaseDuration :- ReadU64();
      var retries :- ReadOptU32();
      return Ok(RunCodec.RunConfig(semantics, leaseDuration, retries));
    }

    method ReadRunProgress() returns (r: Result<RunCodec.Progress>)
      requires Valid()
      modifies this
      ensures Valid() && Reads(RunCodec.GetProgress(old(Rest())), r, Rest())
    {
      var tag :- ReadU8();
      var status :- RunCodec.RunStatusFromU8(tag);
      var createdAt :- ReadU64();
      var completedAt :- ReadOptU64();
      return Ok(RunCodec.Progress(status, createdAt, completedAt));
    }

    method ReadRunRecord() returns (r: Result<RunCodec.RunRecord>)
      requires Valid()
      modifies this
      ensures Valid() && Reads(RunCodec.GetRecord(old(Rest())), r, Rest())
    {
      var tenant :- ReadTenant();
      var run :- ReadU64();
      var config :- ReadRunConfig();
      var p :- ReadRunProgress();
      var roots :- ReadIdsUpTo(RunCodec.MAX_ROOT_SHARDS);
      var log :- ReadRunLog();
      var record := RunCodec.RunRecord(tenant, run, config, p.status, p.createdAt, p.completedAt, roots, log);
      if !record.Valid() { return Err(InvariantViolation); }
      return Ok(record);
    }

    // -------------------------------------------------------------------
    // Shard records
    // -------------------------------------------------------------------

    method ReadShardOp() returns (r: Result<ShardCodec.ShardOp>)
      requires Valid()
      modifies this
      ensures Valid() && Reads(ShardCodec.GetOp(old(Rest())), r, Rest())
    {
      var opId :- ReadU64();
      var kindTag :- ReadU8();
      var kind :- ShardCodec.OpKindFromU8(kindTag);
      var resultTag :- ReadU8();
      var result :- ShardCodec.OpResultFromU8(resultTag);
      var payloadHash :- ReadU64();
      var executedAt :- ReadU64();
      var op := ShardCodec.ShardOp(opId, kind, result, payloadHash, executedAt);
      if !op.Valid() { return Err(InvariantViolation); }
      return Ok(op);
    }

    method ReadStatus() returns (r: Result<(ShardCodec.ShardStatus, Option<ShardCodec.ParkReason>)>)
      requires Valid()
      modifies this
      ensures Valid() && Reads(ShardCodec.GetStatus(old(Rest())), r, Rest())
    {
      var tag :- ReadU8();
      var status :- ShardCodec.ShardStatusFromU8(tag);
      var raw :- ReadOptU8();
      if raw.None? { return Ok((status, None)); }
      var reason :- ShardCodec.ParkReasonFromU8(raw.value);
      return Ok((status, Some(reason)));
    }

    method ReadShardHead() returns (r: Result<ShardCodec.Head>)
      requires Valid()
      modifies this
      ensures Valid() && Reads(ShardCodec.GetHead(old(Rest())), r, Rest())
    {
      var tenant :- ReadTenant();
      var run :- ReadU64();
      var shard :- ReadU64();
      var status :- ReadStatus();
      var start :- ReadVec();
      var end :- ReadVec();
      var metadata :- ReadVec();
      var lastKey :- ReadOptVec();
      var token :- ReadOptVec();
      return Ok(ShardCodec.Head(tenant, run, shard, status.0, status.1, ShardCodec.Spec(start, end, metadata),
                                ShardCodec.Cursor(lastKey, token)));
    }

    method ReadLease() returns (r: Result<(Option<u64>, Option<u64>)>)
      requires Valid()
      modifies this
      ensures Valid() && Reads(ShardCodec.GetLease(old(Rest())), r, Rest())
    {
      var has :- ReadBool();
      if !has { return Ok((None, None)); }
      var owner :- ReadU64();
      var deadline :- ReadU64();
      return Ok((Some(owner), Some(deadline)));
    }

    method ReadSpawned() returns (r: Result<Ids>)
      requires Valid()
      modifies this
      ensures Valid() && Reads(ShardCodec.GetSpawned(old(Rest())), r, Rest())
    {
      var len :- ReadU32();
      if len > ShardCodec.MAX_SPAWNED_PER_SHARD { return Err(InvariantViolation); }
      var ids :- ReadEach(len);
      return Ok(ids);
    }

    method ReadShardLog() returns (r: Result<ShardCodec.OpLog>)
      requires Valid()
      modifies this
      ensures Valid() && Reads(ShardCodec.GetLog(old(Rest())), r, Rest())
    {
      var len :- ReadU32();
      if len > ShardCodec.SHARD_OP_LOG_CAP { return Err(InvariantViolation); }
      var ops :- ReadShardOps(len);
      return Ok(ops);
    }

    method ReadShardRecord() returns (r: Result<ShardCodec.OwnedShardRecord>)
      requires Valid()
      modifies this
      ensures Valid() && Reads(ShardCodec.GetRecord(old(Rest())), r, Rest())
    {
      var h :- ReadShardHead();
      var tag :- ReadU8();
      var semantics :- RunCodec.CursorSemanticsFromU8(tag);
      var lease :- ReadLease();
      var fence :- ReadU64();
      var parent :- ReadOptU64();
      var spawned :- ReadSpawned();
      var log :- ReadShardLog();
      var record := ShardCodec.OwnedShardRecord(h.tenant, h.run, h.shard, h.status, h.parkReason, h.spec, h.cursor,
                                                semantics, lease.0, lease.1, fence, parent, spawned, log);
      if !record.Valid() { return Err(InvariantViolation); }
      return Ok(record);
    }
  }

  // ---------------------------------------------------------------------
  // Whole blobs
  // ---------------------------------------------------------------------

  method DecodeRunRecord(blob: Bytes) returns (r: Result<RunCodec.RunRecord>)
    ensures r == RunCodec.Decode(blob)
  {
    var d := new Decoder(blob);
    var _ :- d.ExpectHeader(RunBlob);
    var record :- d.ReadRunRecord();
    var _ :- d.Finish();
    return Ok(record);
  }

  method DecodeOwnedShardRecord(blob: Bytes) returns (r: Result<ShardCodec.OwnedShardRecord>)
    ensures r == ShardCodec.Decode(blob)
  {
    var d := new Decoder(blob);
    var _ :- d.ExpectHeader(ShardBlob);
    var record :- d.ReadShardRecord();
    var _ :- d.Finish();
    return Ok(record);
  }

  method DecodeOwnerValue(bytes: Bytes) returns (r: Result<ShardCodec.Owner>)
    ensures r == ShardCodec.DecodeOwner(bytes)
  {
    var d := new Decoder(bytes);
    var _ :- d.ExpectHeader(OwnerBlob);
    var worker :- d.ReadU64();
    var fence :- d.ReadU64();
    if fence < ShardCodec.INITIAL_FENCE { return Err(InvariantViolation); }
    var _ :- d.Finish();
    return Ok(ShardCodec.Owner(worker, fence));
  }
}
