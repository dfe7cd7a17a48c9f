/** Run records on the wire: printing, parsing, validation, and their inverse laws. */
module RunCodec {
  import opened Bytes
  import opened Wire

  const RUN_OP_LOG_CAP: nat := 8
  const MAX_ROOT_SHARDS: nat := 10_000
  const MAX_REGISTERED_SHARDS: nat := MAX_ROOT_SHARDS

  datatype CursorSemantics = Completed | Dispatched {
    function AsU8(): byte { if Completed? then 0 else 1 }
  }

  function CursorSemanticsFromU8(b: byte): (r: Result<CursorSemantics>)
    ensures r.Ok? ==> r.value.AsU8() == b
    ensures forall v: CursorSemantics :: v.AsU8() == b ==> r == Ok(v)
  {
    match b case 0 => Ok(Completed) case 1 => Ok(Dispatched) case _ => Err(InvalidEnum(b))
  }

  datatype RunStatus = Initializing | Active | Done | Failed | Cancelled {
    function AsU8(): byte {
      match this case Initializing => 0 case Active => 1 case Done => 2 case Failed => 3 case Cancelled => 4
    }
    predicate IsTerminal() { Done? || Failed? || Cancelled? }
  }

  function RunStatusFromU8(b: byte): (r: Result<RunStatus>)
    ensures r.Ok? ==> r.value.AsU8() == b
    ensures forall v: RunStatus :: v.AsU8() == b ==> r == Ok(v)
  {
    match b
    case 0 => Ok(Initializing)
    case 1 => Ok(Active)
    case 2 => Ok(Done)
    case 3 => Ok(Failed)
    case 4 => Ok(Cancelled)
    case _ => Err(InvalidEnum(b))
  }

  datatype RunOpKind = RegisterShards | CompleteRun | FailRun | CancelRun {
    function AsU8(): byte {
      match this case RegisterShards => 0 case CompleteRun => 1 case FailRun => 2 case CancelRun => 3
    }
  }

  function RunOpKindFromU8(b: byte): (r: Result<RunOpKind>)
    ensures r.Ok? ==> r.value.AsU8() == b
    ensures forall v: RunOpKind :: v.AsU8() == b ==> r == Ok(v)
  {
    match b
    case 0 => Ok(RegisterShards)
    case 1 => Ok(CompleteRun)
    case 2 => Ok(FailRun)
    case 3 => Ok(CancelRun)
    case _ => Err(InvalidEnum(b))
  }

  datatype RunOpResult = RegisteredShards(shardIds: Ids) | Ack

  datatype RunOp = RunOp(opId: u64, kind: RunOpKind, payloadHash: u64, executedAt: u64, result: RunOpResult) {
    predicate Valid() {
      payloadHash != 0 && executedAt > 0 && (kind.RegisterShards? <==> result.RegisteredShards?)
    }
  }

  datatype RunConfig = RunConfig(cursorSemantics: CursorSemantics, leaseDuration: u64, maxShardRetries: Option<u32>)

  datatype RunRecord = RunRecord(
    tenant: Tenant,
    run: u64,
    config: RunConfig,
    status: RunStatus,
    createdAt: u64,
    completedAt: Option<u64>,
    rootShards: Ids,
    opLog: OpLog)
  {
    /** The structural invariants that decoding enforces. */
    predicate Valid() {
      && createdAt > 0
      && config.leaseDuration != 0
      && (status.Active? ==> rootShards != [])
      && (status.Initializing? ==> rootShards == [])
      && (status.IsTerminal() <==> completedAt.Some?)
      && (completedAt.Some? ==> completedAt.value >= createdAt)
      && (forall i, j :: 0 <= i < j < |rootShards| ==> rootShards[i] != rootShards[j])
      && (forall i, j :: 0 <= i < j < |opLog| ==> opLog[i].opId != opLog[j].opId)
      && (forall i :: 0 < i < |opLog| ==> opLog[i - 1].executedAt <= opLog[i].executedAt)
      && (forall i :: 0 <= i < |opLog| ==> opLog[i].Valid())
    }
  }

  /** The sizes a decoder accepts; encoding does not check them. */
  predicate OpWithinLimits(op: RunOp) {
    op.result.RegisteredShards? ==> |op.result.shardIds| <= MAX_REGISTERED_SHARDS
  }

  predicate OpFits(op: RunOp) { op.Valid() && OpWithinLimits(op) }

  predicate WithinLimits(r: RunRecord) {
    |r.rootShards| <= MAX_ROOT_SHARDS && forall i :: 0 <= i < |r.opLog| ==> OpWithinLimits(r.opLog[i])
  }

  // ---------------------------------------------------------------------
  // Operation log entries
  // ---------------------------------------------------------------------

  /** A list of ids behind a count that is checked against a cap and against the input left. */
  function GetIdsUpTo(s: Bytes, max: nat): (r: Result<Parsed<Ids>>)
    ensures r.Ok? ==> |r.value.value| <= max && s == PutIds(r.value.value, r.value.rest)
  {
    var n :- GetU32(s);
    if n.value > max then Err(FieldTooLarge(n.value, max))
    else if n.value > |n.rest| / 8 then Err(InvariantViolation)
    else
      var ids :- GetEach(n.rest, n.value);
      Ok(Parsed(ids.value, ids.rest))
  }

  lemma IdsUpToComplete(ids: Ids, rest: Bytes, max: nat)
    requires |ids| <= max
    ensures GetIdsUpTo(PutIds(ids, rest), max) == Ok(Parsed(ids, rest))
  {
    U32Complete(|ids|, PutEach(ids, rest));
    EachComplete(ids, rest);
    EachLength(ids, rest);
  }

  function PutResult(v: RunOpResult, rest: Bytes): Bytes {
    match v
    case RegisteredShards(ids) => PutU8(1, PutIds(ids, rest))
    case Ack => PutU8(2, rest)
  }

  function GetResult(s: Bytes): (r: Result<Parsed<RunOpResult>>)
    ensures r.Ok? ==> s == PutResult(r.value.value, r.value.rest)
    ensures r.Ok? && r.value.value.RegisteredShards? ==> |r.value.value.shardIds| <= MAX_REGISTERED_SHARDS
  {
    var tag :- GetU8(s);
    match tag.value
    case 1 =>
      var ids :- GetIdsUpTo(tag.rest, MAX_REGISTERED_SHARDS);
      Ok(Parsed(RegisteredShards(ids.value), ids.rest))
    case 2 => Ok(Parsed(Ack, tag.rest))
    case _ => Err(InvalidEnum(tag.value))
  }

  function PutOp(op: RunOp, rest: Bytes): Bytes {
    PutU64(op.opId, PutU8(op.kind.AsU8(), PutU64(op.payloadHash, PutU64(op.executedAt, PutResult(op.result, rest)))))
  }

  function GetOp(s: Bytes): (r: Result<Parsed<RunOp>>)
    ensures r.Ok? ==> r.value.value.Valid() && OpWithinLimits(r.value.value)
    ensures r.Ok? ==> s == PutOp(r.value.value, r.value.rest)
  {
    var opId :- GetU64(s);
    var kindTag :- GetU8(opId.rest);
    var kind :- RunOpKindFromU8(kindTag.value);
    var payloadHash :- GetU64(kindTag.rest);
    var executedAt :- GetU64(payloadHash.rest);
    var result :- GetResult(executedAt.rest);
    var op := RunOp(opId.value, kind, payloadHash.value, executedAt.value, result.value);
    if op.Valid() then Ok(Parsed(op, result.rest)) else Err(InvariantViolation)
  }

  lemma ResultComplete(v: RunOpResult, rest: Bytes)
    requires v.RegisteredShards? ==> |v.shardIds| <= MAX_REGISTERED_SHARDS
    ensures GetResult(PutResult(v, rest)) == Ok(Parsed(v, rest))
  {
    match v
    case RegisteredShards(ids) =>
      U8Complete(1, PutIds(ids, rest));
      IdsUpToComplete(ids, rest, MAX_REGISTERED_SHARDS);
    case Ack => U8Complete(2, rest);
  }

  lemma OpComplete(op: RunOp, rest: Bytes)
    requires op.Valid() && OpWithinLimits(op)
    ensures GetOp(PutOp(op, rest)) == Ok(Parsed(op, rest))
  {
    var s4 := PutResult(op.result, rest);
    var s3 := PutU64(op.executedAt, s4);
    var s2 := PutU64(op.payloadHash, s3);
    U64Complete(op.opId, PutU8(op.kind.AsU8(), s2));
    U8Complete(op.kind.AsU8(), s2);
    U64Complete(op.payloadHash, s3);
    U64Complete(op.executedAt, s4);
    ResultComplete(op.result, rest);
  }

  function PutOps(ops: seq<RunOp>, rest: Bytes): Bytes { PutAll(PutOp, ops, rest) }

  function GetOps(s: Bytes, n: nat): (r: Result<Parsed<seq<RunOp>>>)
    ensures r.Ok? ==> |r.value.value| == n && s == PutOps(r.value.value, r.value.rest) && OpsFit(r.value.value)
  {
    GetAllSound(PutOp, GetOp, OpFits, s, n);
    GetAll(GetOp, s, n)
  }

  lemma OpsComplete(ops: seq<RunOp>, rest: Bytes)
    requires OpsFit(ops)
    ensures GetOps(PutOps(ops, rest), |ops|) == Ok(Parsed(ops, rest))
  {
    forall op, r | OpFits(op) ensures GetOp(PutOp(op, r)) == Ok(Parsed(op, r)) { OpComplete(op, r); }
    GetAllComplete(PutOp, GetOp, OpFits, ops, rest);
  }

  // ---------------------------------------------------------------------
  // Records
  // ---------------------------------------------------------------------

  function PutConfig(c: RunConfig, rest: Bytes): Bytes {
    PutU8(c.cursorSemantics.AsU8(), PutU64(c.leaseDuration, PutOptU32(c.maxShardRetries, rest)))
  }

  function GetConfig(s: Bytes): (r: Result<Parsed<RunConfig>>)
    ensures r.Ok? ==> s == PutConfig(r.value.value, r.value.rest)
  {
    var tag :- GetU8(s);
    var semantics :- CursorSemanticsFromU8(tag.value);
    var leaseDuration :- GetU64(tag.rest);
    var retries :- GetOptU32(leaseDuration.rest);
    Ok(Parsed(RunConfig(semantics, leaseDuration.value, retries.value), retries.rest))
  }

  lemma ConfigComplete(c: RunConfig, rest: Bytes)
    ensures GetConfig(PutConfig(c, rest)) == Ok(Parsed(c, rest))
  {
    var s2 := PutOptU32(c.maxShardRetries, rest);
    var s1 := PutU64(c.leaseDuration, s2);
    OptU32Complete(c.maxShardRetries, rest);
    U64Complete(c.leaseDuration, s2);
    U8Complete(c.cursorSemantics.AsU8(), s1);
  }

  /** The status and the two times. */
  datatype Progress = Progress(status: RunStatus, createdAt: u64, completedAt: Option<u64>)

  function PutProgress(p: Progress, rest: Bytes): Bytes {
    PutU8(p.status.AsU8(), PutU64(p.createdAt, PutOptU64(p.completedAt, rest)))
  }

  function GetProgress(s: Bytes): (r: Result<Parsed<Progress>>)
    ensures r.Ok? ==> s == PutProgress(r.value.value, r.value.rest)
  {
    var tag :- GetU8(s);
    var status :- RunStatusFromU8(tag.value);
    var createdAt :- GetU64(tag.rest);
    var completedAt :- GetOptU64(createdAt.rest);
    Ok(Parsed(Progress(status, createdAt.value, completedAt.value), completedAt.rest))
  }

  lemma ProgressComplete(p: Progress, rest: Bytes)
    ensures GetProgress(PutProgress(p, rest)) == Ok(Parsed(p, rest))
  {
    var s2 := PutOptU64(p.completedAt, rest);
    var s1 := PutU64(p.createdAt, s2);
    OptU64Complete(p.completedAt, rest);
    U64Complete(p.createdAt, s2);
    U8Complete(p.status.AsU8(), s1);
  }

  type OpLog = ops: seq<RunOp> | |ops| <= RUN_OP_LOG_CAP

  predicate OpsFit(ops: seq<RunOp>) { forall i :: 0 <= i < |ops| ==> OpFits(ops[i]) }

  function PutLog(ops: OpLog, rest: Bytes): Bytes { PutU32(|ops|, PutOps(ops, rest)) }

  function GetLog(s: Bytes): (r: Result<Parsed<OpLog>>)
    ensures r.Ok? ==> OpsFit(r.value.value) && s == PutLog(r.value.value, r.value.rest)
  {
    var n :- GetU32(s);
    if n.value > RUN_OP_LOG_CAP then Err(InvariantViolation)
    else
      var ops :- GetOps(n.rest, n.value);
      Ok(Parsed(ops.value, ops.rest))
  }

  lemma LogComplete(ops: OpLog, rest: Bytes)
    requires OpsFit(ops)
    ensures GetLog(PutLog(ops, rest)) == Ok(Parsed(ops, rest))
  {
    U32Complete(|ops|, PutOps(ops, rest));
    OpsComplete(ops, rest);
  }

  function PutRecord(r: RunRecord, rest: Bytes): Bytes {
    PutTenant(r.tenant, PutU64(r.run, PutConfig(r.config,
      PutProgress(Progress(r.status, r.createdAt, r.completedAt), PutIds(r.rootShards, PutLog(r.opLog, rest))))))
  }

  function GetRecord(s: Bytes): (r: Result<Parsed<RunRecord>>)
    ensures r.Ok? ==> r.value.value.Valid() && WithinLimits(r.value.value)
    ensures r.Ok? ==> s == PutRecord(r.value.value, r.value.rest)
  {
    var tenant :- GetTenant(s);
    var run :- GetU64(tenant.rest);
    var config :- GetConfig(run.rest);
    var progress :- GetProgress(config.rest);
    var roots :- GetIdsUpTo(progress.rest, MAX_ROOT_SHARDS);
    var log :- GetLog(roots.rest);
    var p := progress.value;
    var record := RunRecord(tenant.value, run.value, config.value, p.status, p.createdAt, p.completedAt,
                            roots.value, log.value);
    if record.Valid() then Ok(Parsed(record, log.rest)) else Err(InvariantViolation)
  }

  function Encode(r: RunRecord): Bytes { PutHeader(RunBlob, PutRecord(r, [])) }

  /** Any accepted blob is exactly the encoding of the record it yields. */
  function Decode(blob: Bytes): (r: Result<RunRecord>)
    ensures r.Ok? ==> r.value.Valid() && WithinLimits(r.value) && Encode(r.value) == blob
  {
    var body :- GetHeader(blob, RunBlob);
    var p :- GetRecord(body);
    if p.rest != [] then Err(TrailingBytes(|p.rest|)) else Ok(p.value)
  }

  lemma RecordComplete(r: RunRecord, rest: Bytes)
    requires r.Valid() && WithinLimits(r)
    ensures GetRecord(PutRecord(r, rest)) == Ok(Parsed(r, rest))
  {
    var p := Progress(r.status, r.createdAt, r.completedAt);
    var s4 := PutLog(r.opLog, rest);
    var s3 := PutIds(r.rootShards, s4);
    var s2 := PutProgress(p, s3);
    var s1 := PutConfig(r.config, s2);
    LogComplete(r.opLog, rest);
    IdsUpToComplete(r.rootShards, s4, MAX_ROOT_SHARDS);
    ProgressComplete(p, s3);
    ConfigComplete(r.config, s2);
    U64Complete(r.run, s1);
    TenantComplete(r.tenant, PutU64(r.run, s1));
  }

  /**
   * A valid record survives encoding and decoding exactly when its lists are within the decoder's
   * caps; encoding checks neither cap.
   */
  lemma DecodeEncode(r: RunRecord)
    requires r.Valid()
    ensures Decode(Encode(r)) == Ok(r) <==> WithinLimits(r)
  {
    if WithinLimits(r) {
      HeaderComplete(RunBlob, PutRecord(r, []));
      RecordComplete(r, []);
    }
  }

  /** An active run whose root shards are these. */
  function RunOver(roots: Ids): RunRecord {
    RunRecord(seq(32, _ => 0), 1, RunConfig(Completed, 1, None), Active, 1, None, roots, [])
  }

  /** A valid record whose own encoding the decoder refuses: one root shard too many. */
  lemma CrowdedRunIsLost() returns (r: RunRecord)
    ensures r.Valid() && |r.rootShards| == MAX_ROOT_SHARDS + 1 && Decode(Encode(r)) != Ok(r)
  {
    var roots := DistinctIds(MAX_ROOT_SHARDS + 1);
    r := RunOver(roots);
    DecodeEncode(r);
  }

  lemma DistinctIds(n: u32) returns (ids: Ids)
    ensures |ids| == n && forall i, j :: 0 <= i < j < n ==> ids[i] != ids[j]
  {
    ids := seq(n, (i: nat) requires i < n => i);
  }
}
