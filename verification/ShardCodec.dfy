/** Shard records and owner values on the wire: printing, parsing, validation, and their inverse laws. */
module ShardCodec {
  import opened Bytes
  import opened Wire
  import RunCodec

  const SHARD_OP_LOG_CAP: nat := 16
  const MAX_SPAWNED_PER_SHARD: nat := 1024
  const INITIAL_FENCE: u64 := 1
  const DERIVED_BIT: u64 := 0x8000_0000_0000_0000

  predicate IsDerived(shard: u64) { shard >= DERIVED_BIT }

  datatype ShardStatus = Active | Done | Split | Parked {
    function AsU8(): byte { match this case Active => 0 case Done => 1 case Split => 2 case Parked => 3 }
    predicate IsTerminal() { !Active? }
  }

  function ShardStatusFromU8(b: byte): (r: Result<ShardStatus>)
    ensures r.Ok? ==> r.value.AsU8() == b
    ensures forall v: ShardStatus :: v.AsU8() == b ==> r == Ok(v)
  {
    match b case 0 => Ok(Active) case 1 => Ok(Done) case 2 => Ok(Split) case 3 => Ok(Parked) case _ => Err(InvalidEnum(b))
  }

  datatype ParkReason = PermissionDenied | NotFound | Poisoned | TooManyErrors | Other {
    function AsU8(): byte {
      match this case PermissionDenied => 0 case NotFound => 1 case Poisoned => 2 case TooManyErrors => 3 case Other => 4
    }
  }

  function ParkReasonFromU8(b: byte): (r: Result<ParkReason>)
    ensures r.Ok? ==> r.value.AsU8() == b
    ensures forall v: ParkReason :: v.AsU8() == b ==> r == Ok(v)
  {
    match b
    case 0 => Ok(PermissionDenied)
    case 1 => Ok(NotFound)
    case 2 => Ok(Poisoned)
    case 3 => Ok(TooManyErrors)
    case 4 => Ok(Other)
    case _ => Err(InvalidEnum(b))
  }

  datatype OpKind = Checkpoint | Complete | Park | SplitReplace | SplitResidual | Unpark {
    function AsU8(): byte {
      match this
      case Checkpoint => 0
      case Complete => 1
      case Park => 2
      case SplitReplace => 3
      case SplitResidual => 4
      case Unpark => 5
    }
  }

  function OpKindFromU8(b: byte): (r: Result<OpKind>)
    ensures r.Ok? ==> r.value.AsU8() == b
    ensures forall v: OpKind :: v.AsU8() == b ==> r == Ok(v)
  {
    match b
    case 0 => Ok(Checkpoint)
    case 1 => Ok(Complete)
    case 2 => Ok(Park)
    case 3 => Ok(SplitReplace)
    case 4 => Ok(SplitResidual)
    case 5 => Ok(Unpark)
    case _ => Err(InvalidEnum(b))
  }

  datatype OpResult = Completed | Error | Superseded {
    function AsU8(): byte { match this case Completed => 0 case Error => 1 case Superseded => 2 }
  }

  function OpResultFromU8(b: byte): (r: Result<OpResult>)
    ensures r.Ok? ==> r.value.AsU8() == b
    ensures forall v: OpResult :: v.AsU8() == b ==> r == Ok(v)
  {
    match b case 0 => Ok(Completed) case 1 => Ok(Error) case 2 => Ok(Superseded) case _ => Err(InvalidEnum(b))
  }

  datatype ShardOp = ShardOp(opId: u64, kind: OpKind, result: OpResult, payloadHash: u64, executedAt: u64) {
    predicate Valid() { payloadHash != 0 && executedAt > 0 }
  }

  type OpLog = ops: seq<ShardOp> | |ops| <= SHARD_OP_LOG_CAP

  datatype Spec = Spec(start: Blob, end: Blob, metadata: Blob)
  datatype Cursor = Cursor(lastKey: Option<Blob>, token: Option<Blob>)

  datatype OwnedShardRecord = OwnedShardRecord(
    tenant: Tenant,
    run: u64,
    shard: u64,
    status: ShardStatus,
    parkReason: Option<ParkReason>,
    spec: Spec,
    cursor: Cursor,
    cursorSemantics: RunCodec.CursorSemantics,
    leaseOwner: Option<u64>,
    leaseDeadline: Option<u64>,
    fence: u64,
    parent: Option<u64>,
    spawned: Ids,
    opLog: OpLog)
  {
    predicate JointLease() { leaseOwner.Some? <==> leaseDeadline.Some? }

    /** The structural invariants that decoding enforces. */
    predicate Valid() {
      && (status.Parked? <==> parkReason.Some?)
      && (status.IsTerminal() ==> leaseOwner.None?)
      && JointLease()
      && (leaseDeadline.Some? ==> leaseDeadline.value > 0)
      && fence >= INITIAL_FENCE
      && (cursor.token.Some? ==> cursor.lastKey.Some?)
      && (status.Split? ==> spawned != [])
      && (parent.Some? <==> IsDerived(shard))
      && |spawned| <= MAX_SPAWNED_PER_SHARD
      && (forall i :: 0 <= i < |spawned| ==> IsDerived(spawned[i]))
      && (forall i, j :: 0 <= i < j < |spawned| ==> spawned[i] != spawned[j])
      && (forall i, j :: 0 <= i < j < |opLog| ==> opLog[i].opId != opLog[j].opId)
      && (forall i :: 0 < i < |opLog| ==> opLog[i - 1].executedAt <= opLog[i].executedAt)
      && OpsValid(opLog)
    }
  }

  predicate OpValid(op: ShardOp) { op.Valid() }

  predicate OpsValid(ops: seq<ShardOp>) { forall i :: 0 <= i < |ops| ==> OpValid(ops[i]) }

  /** The field sizes a decoder accepts; encoding does not check them. */
  predicate WithinLimits(r: OwnedShardRecord) {
    && |r.spec.start| <= MAX_FIELD_SIZE && |r.spec.end| <= MAX_FIELD_SIZE && |r.spec.metadata| <= MAX_FIELD_SIZE
    && FitsField(r.cursor.lastKey) && FitsField(r.cursor.token)
  }

  // ---------------------------------------------------------------------
  // Operation log
  // ---------------------------------------------------------------------

  function PutOp(op: ShardOp, rest: Bytes): Bytes {
    PutU64(op.opId, PutU8(op.kind.AsU8(), PutU8(op.result.AsU8(), PutU64(op.payloadHash, PutU64(op.executedAt, rest)))))
  }

  function GetOp(s: Bytes): (r: Result<Parsed<ShardOp>>)
    ensures r.Ok? ==> r.value.value.Valid() && s == PutOp(r.value.value, r.value.rest)
  {
    var opId :- GetU64(s);
    var kindTag :- GetU8(opId.rest);
    var kind :- OpKindFromU8(kindTag.value);
    var resultTag :- GetU8(kindTag.rest);
    var result :- OpResultFromU8(resultTag.value);
    var payloadHash :- GetU64(resultTag.rest);
    var executedAt :- GetU64(payloadHash.rest);
    var op := ShardOp(opId.value, kind, result, payloadHash.value, executedAt.value);
    if op.Valid() then Ok(Parsed(op, executedAt.rest)) else Err(InvariantViolation)
  }

  lemma OpComplete(op: ShardOp, rest: Bytes)
    requires op.Valid()
    ensures GetOp(PutOp(op, rest)) == Ok(Parsed(op, rest))
  {
    var s4 := PutU64(op.executedAt, rest);
    var s3 := PutU64(op.payloadHash, s4);
    var s2 := PutU8(op.result.AsU8(), s3);
    U64Complete(op.executedAt, rest);
    U64Complete(op.payloadHash, s4);
    U8Complete(op.result.AsU8(), s3);
    U8Complete(op.kind.AsU8(), s2);
    U64Complete(op.opId, PutU8(op.kind.AsU8(), s2));
  }

  function PutOps(ops: seq<ShardOp>, rest: Bytes): Bytes { PutAll(PutOp, ops, rest) }

  function GetOps(s: Bytes, n: nat): (r: Result<Parsed<seq<ShardOp>>>)
    ensures r.Ok? ==> |r.value.value| == n && s == PutOps(r.value.value, r.value.rest) && OpsValid(r.value.value)
  {
    GetAllSound(PutOp, GetOp, OpValid, s, n);
    GetAll(GetOp, s, n)
  }

  lemma OpsComplete(ops: seq<ShardOp>, rest: Bytes)
    requires OpsValid(ops)
    ensures GetOps(PutOps(ops, rest), |ops|) == Ok(Parsed(ops, rest))
  {
    forall op, r | OpValid(op) ensures GetOp(PutOp(op, r)) == Ok(Parsed(op, r)) { OpComplete(op, r); }
    GetAllComplete(PutOp, GetOp, OpValid, ops, rest);
  }

  function PutLog(ops: OpLog, rest: Bytes): Bytes { PutU32(|ops|, PutOps(ops, rest)) }

  function GetLog(s: Bytes): (r: Result<Parsed<OpLog>>)
    ensures r.Ok? ==> OpsValid(r.value.value) && s == PutLog(r.value.value, r.value.rest)
  {
    var n :- GetU32(s);
    if n.value > SHARD_OP_LOG_CAP then Err(InvariantViolation)
    else
      var ops :- GetOps(n.rest, n.value);
      Ok(Parsed(ops.value, ops.rest))
  }

  lemma LogComplete(ops: OpLog, rest: Bytes)
    requires OpsValid(ops)
    ensures GetLog(PutLog(ops, rest)) == Ok(Parsed(ops, rest))
  {
    U32Complete(|ops|, PutOps(ops, rest));
    OpsComplete(ops, rest);
  }

  // ---------------------------------------------------------------------
  // Groups of fields, in wire order
  // ---------------------------------------------------------------------

  function PutStatus(status: ShardStatus, reason: Option<ParkReason>, rest: Bytes): Bytes {
    PutU8(status.AsU8(), PutOptU8(if reason.Some? then Some(reason.value.AsU8()) else None, rest))
  }

  function GetStatus(s: Bytes): (r: Result<Parsed<(ShardStatus, Option<ParkReason>)>>)
    ensures r.Ok? ==> s == PutStatus(r.value.value.0, r.value.value.1, r.value.rest)
  {
    var tag :- GetU8(s);
    var status :- ShardStatusFromU8(tag.value);
    var raw :- GetOptU8(tag.rest);
    if raw.value.None? then Ok(Parsed((status, None), raw.rest))
    else
      var reason :- ParkReasonFromU8(raw.value.value);
      Ok(Parsed((status, Some(reason)), raw.rest))
  }

  lemma StatusComplete(status: ShardStatus, reason: Option<ParkReason>, rest: Bytes)
    ensures GetStatus(PutStatus(status, reason, rest)) == Ok(Parsed((status, reason), rest))
  {
    var raw := if reason.Some? then Some(reason.value.AsU8()) else None;
    U8Complete(status.AsU8(), PutOptU8(raw, rest));
    OptU8Complete(raw, rest);
  }

  function PutSpec(v: Spec, rest: Bytes): Bytes { PutBytes(v.start, PutBytes(v.end, PutBytes(v.metadata, rest))) }

  function GetSpec(s: Bytes): (r: Result<Parsed<Spec>>)
    ensures r.Ok? ==> SpecFits(r.value.value) && s == PutSpec(r.value.value, r.value.rest)
  {
    var start :- GetBytes(s);
    var end :- GetBytes(start.rest);
    var metadata :- GetBytes(end.rest);
    Ok(Parsed(Spec(start.value, end.value, metadata.value), metadata.rest))
  }

  predicate SpecFits(v: Spec) {
    |v.start| <= MAX_FIELD_SIZE && |v.end| <= MAX_FIELD_SIZE && |v.metadata| <= MAX_FIELD_SIZE
  }

  lemma SpecComplete(v: Spec, rest: Bytes)
    requires SpecFits(v)
    ensures GetSpec(PutSpec(v, rest)) == Ok(Parsed(v, rest))
  {
    BytesComplete(v.metadata, rest);
    BytesComplete(v.end, PutBytes(v.metadata, rest));
    BytesComplete(v.start, PutBytes(v.end, PutBytes(v.metadata, rest)));
  }

  function PutCursor(v: Cursor, rest: Bytes): Bytes { PutOptBytes(v.lastKey, PutOptBytes(v.token, rest)) }

  function GetCursor(s: Bytes): (r: Result<Parsed<Cursor>>)
    ensures r.Ok? ==> FitsField(r.value.value.lastKey) && FitsField(r.value.value.token)
    ensures r.Ok? ==> s == PutCursor(r.value.value, r.value.rest)
  {
    var lastKey :- GetOptBytes(s);
    var token :- GetOptBytes(lastKey.rest);
    Ok(Parsed(Cursor(lastKey.value, token.value), token.rest))
  }

  lemma CursorComplete(v: Cursor, rest: Bytes)
    requires FitsField(v.lastKey) && FitsField(v.token)
    ensures GetCursor(PutCursor(v, rest)) == Ok(Parsed(v, rest))
  {
    OptBytesComplete(v.token, rest);
    OptBytesComplete(v.lastKey, PutOptBytes(v.token, rest));
  }

  /** One presence flag covers owner and deadline. */
  function PutLease(owner: Option<u64>, deadline: Option<u64>, rest: Bytes): Bytes
    requires owner.Some? <==> deadline.Some?
  {
    if owner.Some? then PutBool(true, PutU64(owner.value, PutU64(deadline.value, rest))) else PutBool(false, rest)
  }

  function GetLease(s: Bytes): (r: Result<Parsed<(Option<u64>, Option<u64>)>>)
    ensures r.Ok? ==> var v := r.value.value; (v.0.Some? <==> v.1.Some?) && s == PutLease(v.0, v.1, r.value.rest)
  {
    var has :- GetBool(s);
    if !has.value then Ok(Parsed((None, None), has.rest))
    else
      var owner :- GetU64(has.rest);
      var deadline :- GetU64(owner.rest);
      Ok(Parsed((Some(owner.value), Some(deadline.value)), deadline.rest))
  }

  lemma LeaseComplete(owner: Option<u64>, deadline: Option<u64>, rest: Bytes)
    requires owner.Some? <==> deadline.Some?
    ensures GetLease(PutLease(owner, deadline, rest)) == Ok(Parsed((owner, deadline), rest))
  {
    if owner.Some? {
      BoolComplete(true, PutU64(owner.value, PutU64(deadline.value, rest)));
      U64Complete(owner.value, PutU64(deadline.value, rest));
      U64Complete(deadline.value, rest);
    } else {
      BoolComplete(false, rest);
    }
  }

  function GetSpawned(s: Bytes): (r: Result<Parsed<Ids>>)
    ensures r.Ok? ==> |r.value.value| <= MAX_SPAWNED_PER_SHARD && s == PutIds(r.value.value, r.value.rest)
  {
    var n :- GetU32(s);
    if n.value > MAX_SPAWNED_PER_SHARD then Err(InvariantViolation)
    else
      var ids :- GetEach(n.rest, n.value);
      Ok(Parsed(ids.value, ids.rest))
  }

  lemma SpawnedComplete(ids: Ids, rest: Bytes)
    requires |ids| <= MAX_SPAWNED_PER_SHARD
    ensures GetSpawned(PutIds(ids, rest)) == Ok(Parsed(ids, rest))
  {
    U32Complete(|ids|, PutEach(ids, rest));
    EachComplete(ids, rest);
  }

  // ---------------------------------------------------------------------
  // Records
  // ---------------------------------------------------------------------

  /** Everything from the cursor semantics on. */
  function PutTail(r: OwnedShardRecord, rest: Bytes): Bytes
    requires r.JointLease()
  {
    PutU8(r.cursorSemantics.AsU8(), PutLease(r.leaseOwner, r.leaseDeadline,
      PutU64(r.fence, PutOptU64(r.parent, PutIds(r.spawned, PutLog(r.opLog, rest))))))
  }

  function PutRecord(r: OwnedShardRecord, rest: Bytes): Bytes
    requires r.JointLease()
  {
    PutTenant(r.tenant, PutU64(r.run, PutU64(r.shard,
      PutStatus(r.status, r.parkReason, PutSpec(r.spec, PutCursor(r.cursor, PutTail(r, rest)))))))
  }

  /** The fields up to the cursor. */
  datatype Head = Head(tenant: Tenant, run: u64, shard: u64, status: ShardStatus, parkReason: Option<ParkReason>,
                       spec: Spec, cursor: Cursor)

  function GetHead(s: Bytes): (r: Result<Parsed<Head>>)
    ensures r.Ok? ==>
      var h := r.value.value;
      && SpecFits(h.spec) && FitsField(h.cursor.lastKey) && FitsField(h.cursor.token)
      && s == PutTenant(h.tenant, PutU64(h.run, PutU64(h.shard,
                PutStatus(h.status, h.parkReason, PutSpec(h.spec, PutCursor(h.cursor, r.value.rest))))))
  {
    var tenant :- GetTenant(s);
    var run :- GetU64(tenant.rest);
    var shard :- GetU64(run.rest);
    var status :- GetStatus(shard.rest);
    var spec :- GetSpec(status.rest);
    var cursor :- GetCursor(spec.rest);
    Ok(Parsed(Head(tenant.value, run.value, shard.value, status.value.0, status.value.1, spec.value, cursor.value),
              cursor.rest))
  }

  function GetRecord(s: Bytes): (r: Result<Parsed<OwnedShardRecord>>)
    ensures r.Ok? ==> r.value.value.Valid() && WithinLimits(r.value.value)
    ensures r.Ok? ==> s == PutRecord(r.value.value, r.value.rest)
  {
    var head :- GetHead(s);
    var h := head.value;
    var tag :- GetU8(head.rest);
    var semantics :- RunCodec.CursorSemanticsFromU8(tag.value);
    var lease :- GetLease(tag.rest);
    var fence :- GetU64(lease.rest);
    var parent :- GetOptU64(fence.rest);
    var spawned :- GetSpawned(parent.rest);
    var log :- GetLog(spawned.rest);
    var record := OwnedShardRecord(h.tenant, h.run, h.shard, h.status, h.parkReason, h.spec, h.cursor, semantics,
                                   lease.value.0, lease.value.1, fence.value, parent.value, spawned.value, log.value);
    if record.Valid() then Ok(Parsed(record, log.rest)) else Err(InvariantViolation)
  }

  function Encode(r: OwnedShardRecord): Result<Bytes> {
    if r.JointLease() then Ok(PutHeader(ShardBlob, PutRecord(r, []))) else Err(InvariantViolation)
  }

  /** Any accepted blob is exactly the encoding of the record it yields. */
  function Decode(blob: Bytes): (r: Result<OwnedShardRecord>)
    ensures r.Ok? ==> r.value.Valid() && WithinLimits(r.value) && Encode(r.value) == Ok(blob)
  {
    var body :- GetHeader(blob, ShardBlob);
    var p :- GetRecord(body);
    if p.rest != [] then Err(TrailingBytes(|p.rest|)) else Ok(p.value)
  }

  function HeadOf(r: OwnedShardRecord): Head {
    Head(r.tenant, r.run, r.shard, r.status, r.parkReason, r.spec, r.cursor)
  }

  lemma HeadComplete(r: OwnedShardRecord, rest: Bytes)
    requires r.JointLease() && WithinLimits(r)
    ensures GetHead(PutRecord(r, rest)) == Ok(Parsed(HeadOf(r), PutTail(r, rest)))
  {
    var s5 := PutCursor(r.cursor, PutTail(r, rest));
    var s4 := PutSpec(r.spec, s5);
    var s3 := PutStatus(r.status, r.parkReason, s4);
    var s2 := PutU64(r.shard, s3);
    CursorComplete(r.cursor, PutTail(r, rest));
    SpecComplete(r.spec, s5);
    StatusComplete(r.status, r.parkReason, s4);
    U64Complete(r.shard, s3);
    U64Complete(r.run, s2);
    TenantComplete(r.tenant, PutU64(r.run, s2));
  }

  lemma RecordComplete(r: OwnedShardRecord, rest: Bytes)
    requires r.Valid() && WithinLimits(r)
    ensures GetRecord(PutRecord(r, rest)) == Ok(Parsed(r, rest))
  {
    HeadComplete(r, rest);
    var s5 := PutLog(r.opLog, rest);
    var s4 := PutIds(r.spawned, s5);
    var s3 := PutOptU64(r.parent, s4);
    var s2 := PutU64(r.fence, s3);
    var s1 := PutLease(r.leaseOwner, r.leaseDeadline, s2);
    LogComplete(r.opLog, rest);
    SpawnedComplete(r.spawned, s5);
    OptU64Complete(r.parent, s4);
    U64Complete(r.fence, s3);
    LeaseComplete(r.leaseOwner, r.leaseDeadline, s2);
    U8Complete(r.cursorSemantics.AsU8(), s1);
  }

  /** A valid record survives encoding and decoding exactly when its byte fields are within the cap. */
  lemma DecodeEncode(r: OwnedShardRecord)
    requires r.Valid()
    ensures Encode(r).Ok?
    ensures Decode(Encode(r).value) == Ok(r) <==> WithinLimits(r)
  {
    if WithinLimits(r) {
      HeaderComplete(ShardBlob, PutRecord(r, []));
      RecordComplete(r, []);
    }
  }

  // ---------------------------------------------------------------------
  // Owner values
  // ---------------------------------------------------------------------

  datatype Owner = Owner(worker: u64, fence: u64)

  function EncodeOwner(o: Owner): Bytes { PutHeader(OwnerBlob, PutU64(o.worker, PutU64(o.fence, []))) }

  function DecodeOwner(bytes: Bytes): (r: Result<Owner>)
    ensures r.Ok? ==> r.value.fence >= INITIAL_FENCE && EncodeOwner(r.value) == bytes
  {
    var body :- GetHeader(bytes, OwnerBlob);
    var worker :- GetU64(body);
    var fence :- GetU64(worker.rest);
    if fence.value < INITIAL_FENCE then Err(InvariantViolation)
    else if fence.rest != [] then Err(TrailingBytes(|fence.rest|))
    else Ok(Owner(worker.value, fence.value))
  }

  lemma OwnerRoundTrip(o: Owner)
    ensures DecodeOwner(EncodeOwner(o)) == Ok(o) <==> o.fence >= INITIAL_FENCE
  {
    HeaderComplete(OwnerBlob, PutU64(o.worker, PutU64(o.fence, [])));
    U64Complete(o.worker, PutU64(o.fence, []));
    U64Complete(o.fence, []);
  }
}
