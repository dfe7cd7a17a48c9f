/** Shard records whose byte fields live in a slab: allocation with rollback and materialisation. */
module RecordSlab {
  import opened Bytes
  import opened Wire
  import opened ShardCodec
  import RunCodec

  const MAX_KEY_SIZE: nat := 4_096
  const MAX_METADATA_SIZE: nat := 16_384
  const MAX_TOKEN_SIZE: nat := 16_384

  /** A handle; empty byte strings share the empty handle and occupy nothing. */
  datatype Slot = EmptySlot | Slot(id: nat)

  function IdsOf(slots: seq<Slot>): set<nat> {
    set i | 0 <= i < |slots| && slots[i].Slot? :: slots[i].id
  }

  predicate Holds(live: map<nat, Blob>, slot: Slot) { slot.Slot? ==> slot.id in live }

  function Content(live: map<nat, Blob>, slot: Slot): Blob
    requires Holds(live, slot)
  {
    if slot.EmptySlot? then [] else live[slot.id]
  }

  /** `after` is `before` plus exactly the given live slots. */
  ghost predicate Added(before: map<nat, Blob>, after: map<nat, Blob>, ids: set<nat>) {
    ids <= after.Keys && after - ids == before
  }

  lemma AddedTwice(a: map<nat, Blob>, b: map<nat, Blob>, c: map<nat, Blob>, first: set<nat>, second: set<nat>)
    requires Added(a, b, first) && Added(b, c, second)
    ensures Added(a, c, first + second)
  {
    assert c - (first + second) == (c - second) - first;
  }

  /** Contents of slots that were live before an addition stay as they were. */
  lemma AddedKeeps(before: map<nat, Blob>, after: map<nat, Blob>, ids: set<nat>, slot: Slot)
    requires Added(before, after, ids) && Holds(before, slot)
    ensures Holds(after, slot) && Content(after, slot) == Content(before, slot)
  {
    if slot.Slot? { assert slot.id in (after - ids); }
  }

  class ByteSlab {
    var live: map<nat, Blob>
    var next: nat
    var attempts: nat
    /** Whether the n-th allocation finds no room; any schedule of failures is possible. */
    const full: nat -> bool

    ghost predicate Valid()
      reads this
    {
      forall id :: id in live ==> id < next
    }

    /** The latest allocation, made after the first `before` ones, found no room. */
    ghost predicate RanOut(before: nat)
      reads this
    {
      before < attempts && full(attempts)
    }

    constructor (full: nat -> bool)
      ensures Valid() && live == map[] && this.full == full
    {
      live, next, attempts := map[], 0, 0;
      this.full := full;
    }

    method Allocate(data: Blob) returns (r: Result<Slot>)
      requires Valid()
      modifies this
      ensures Valid()
      ensures r.Err? ==> r.error == SlabFull && live == old(live) && RanOut(old(attempts))
      ensures attempts >= old(attempts)
      ensures r.Ok? ==> Added(old(live), live, IdsOf([r.value])) && StoredAt(live, r.value, data)
    {
      if data == [] {
        assert IdsOf([EmptySlot]) == {};
        return Ok(EmptySlot);
      }
      attempts := attempts + 1;
      if full(attempts) { return Err(SlabFull); }
      var id := next;
      next := next + 1;
      live := live[id := data];
      assert [Slot(id)][0] == Slot(id);
      assert IdsOf([Slot(id)]) == {id};
      assert live - {id} == old(live);
      return Ok(Slot(id));
    }

    method Deallocate(slot: Slot)
      requires Valid()
      modifies this`live
      ensures Valid() && live == old(live) - IdsOf([slot])
    {
      if slot.EmptySlot? {
        assert IdsOf([slot]) == {};
        return;
      }
      assert [slot][0] == slot;
      assert IdsOf([slot]) == {slot.id};
      live := live - {slot.id};
    }

    method DeallocateAll(slots: seq<Slot>)
      requires Valid()
      modifies this`live
      ensures Valid() && live == old(live) - IdsOf(slots)
    {
      var i := |slots|;
      assert slots[i..] == [];
      while i > 0
        invariant 0 <= i <= |slots| && Valid() && live == old(live) - IdsOf(slots[i..])
      {
        i := i - 1;
        Deallocate(slots[i]);
        assert slots[i..] == [slots[i]] + slots[i + 1..];
        IdsOfConcat([slots[i]], slots[i + 1..]);
      }
      assert slots[0..] == slots;
    }

    /** Allocates all fields or none of them. */
    method AllocateWithRollback(fields: seq<Blob>) returns (r: Result<seq<Slot>>)
      requires Valid()
      modifies this
      ensures Valid()
      ensures r.Err? ==> r.error == SlabFull && live == old(live) && RanOut(old(attempts))
      ensures attempts >= old(attempts)
      ensures r.Ok? ==> |r.value| == |fields| && Added(old(live), live, IdsOf(r.value)) && Stored(live, r.value, fields)
    {
      var slots: seq<Slot> := [];
      for i := 0 to |fields|
        invariant Valid() && |slots| == i && attempts >= old(attempts)
        invariant Added(old(live), live, IdsOf(slots)) && Stored(live, slots, fields[..i])
      {
        ghost var before := live;
        var one := Allocate(fields[i]);
        if one.Err? {
          DeallocateAll(slots);
          return Err(one.error);
        }
        StoredOneMore(before, live, slots, fields[..i], one.value, fields[i]);
        IdsOfConcat(slots, [one.value]);
        AddedTwice(old(live), before, live, IdsOf(slots), IdsOf([one.value]));
        slots := slots + [one.value];
        assert fields[..i + 1] == fields[..i] + [fields[i]];
      }
      assert fields[..|fields|] == fields;
      return Ok(slots);
    }
  }

  lemma IdsOfConcat(a: seq<Slot>, b: seq<Slot>)
    ensures IdsOf(a + b) == IdsOf(a) + IdsOf(b)
  {
    var c := a + b;
    forall id | id in IdsOf(a) + IdsOf(b) ensures id in IdsOf(c) {
      if id in IdsOf(a) {
        var i :| 0 <= i < |a| && a[i].Slot? && a[i].id == id;
        assert c[i] == a[i];
      } else {
        var i :| 0 <= i < |b| && b[i].Slot? && b[i].id == id;
        assert c[|a| + i] == b[i];
      }
    }
  }

  ghost predicate StoredAt(live: map<nat, Blob>, slot: Slot, field: Blob) {
    Holds(live, slot) && Content(live, slot) == field && (field == [] ==> slot.EmptySlot?)
  }

  /** Slot for slot, the slab holds the given fields. */
  ghost predicate Stored(live: map<nat, Blob>, slots: seq<Slot>, fields: seq<Blob>) {
    |slots| == |fields| && forall i :: 0 <= i < |slots| ==> StoredAt(live, slots[i], fields[i])
  }

  lemma StoredOneMore(before: map<nat, Blob>, after: map<nat, Blob>, slots: seq<Slot>, fields: seq<Blob>,
                      slot: Slot, field: Blob)
    requires Stored(before, slots, fields) && Added(before, after, IdsOf([slot]))
    requires StoredAt(after, slot, field)
    ensures Stored(after, slots + [slot], fields + [field])
  {
    forall i | 0 <= i < |slots| ensures StoredAt(after, slots[i], fields[i]) {
      AddedKeeps(before, after, IdsOf([slot]), slots[i]);
    }
  }

  // ---------------------------------------------------------------------
  // Pooled records
  // ---------------------------------------------------------------------

  datatype PooledSpec = PooledSpec(start: Slot, end: Slot, metadata: Slot)
  datatype PooledCursor = PooledCursor(lastKey: Option<Slot>, token: Option<Slot>)

  /** Child ids packed eight bytes each into one slot. */
  datatype PooledSpawned = PooledSpawned(slot: Slot, len: nat)

  datatype LeaseHolder = LeaseHolder(owner: u64, deadline: u64)

  datatype ShardRecord = ShardRecord(
    tenant: Tenant,
    run: u64,
    shard: u64,
    status: ShardStatus,
    parkReason: Option<ParkReason>,
    spec: PooledSpec,
    cursor: PooledCursor,
    cursorSemantics: RunCodec.CursorSemantics,
    lease: Option<LeaseHolder>,
    fence: u64,
    parent: Option<u64>,
    spawned: PooledSpawned,
    opLog: OpLog)

  function SpecSlots(v: PooledSpec): seq<Slot> { [v.start, v.end, v.metadata] }

  function CursorSlots(v: PooledCursor): seq<Slot> {
    [if v.lastKey.Some? then v.lastKey.value else EmptySlot, if v.token.Some? then v.token.value else EmptySlot]
  }

  function RecordSlots(r: ShardRecord): seq<Slot> { SpecSlots(r.spec) + CursorSlots(r.cursor) + [r.spawned.slot] }

  function UnpackIds(b: Bytes): (ids: seq<u64>)
    ensures |ids| <= |b| / 8
  {
    var r := GetEach(b, |b| / 8);
    if r.Ok? then r.value.value else []
  }

  lemma UnpackPacked(ids: seq<u64>)
    ensures |PutEach(ids, [])| == 8 * |ids| && UnpackIds(PutEach(ids, [])) == ids
  {
    EachComplete(ids, []);
    EachLength(ids, []);
    UnpackRead(PutEach(ids, []), |ids|, ids);
  }

  lemma UnpackRead(b: Bytes, n: nat, ids: seq<u64>)
    requires |b| == 8 * n && GetEach(b, n) == Ok(Parsed(ids, []))
    ensures UnpackIds(b) == ids
  {
    assert |b| / 8 == n;
  }

  predicate AllHeld(live: map<nat, Blob>, slots: seq<Slot>) { forall i :: 0 <= i < |slots| ==> Holds(live, slots[i]) }

  /** The record's slots are live and the child slot holds as many ids as the record says. */
  predicate Backed(live: map<nat, Blob>, r: ShardRecord) {
    && AllHeld(live, SpecSlots(r.spec)) && AllHeld(live, CursorSlots(r.cursor)) && Holds(live, r.spawned.slot)
    && |UnpackIds(Content(live, r.spawned.slot))| == r.spawned.len
  }

  function SpecOf(live: map<nat, Blob>, v: PooledSpec): Spec
    requires AllHeld(live, SpecSlots(v))
  {
    assert forall i :: 0 <= i < 3 ==> Holds(live, SpecSlots(v)[i]);
    assert SpecSlots(v)[0] == v.start && SpecSlots(v)[1] == v.end && SpecSlots(v)[2] == v.metadata;
    Spec(Content(live, v.start), Content(live, v.end), Content(live, v.metadata))
  }

  function CursorOf(live: map<nat, Blob>, v: PooledCursor): Cursor
    requires AllHeld(live, CursorSlots(v))
  {
    assert Holds(live, CursorSlots(v)[0]) && Holds(live, CursorSlots(v)[1]);
    Cursor(if v.lastKey.Some? then Some(Content(live, v.lastKey.value)) else None,
           if v.token.Some? then Some(Content(live, v.token.value)) else None)
  }

  /** The record with its slots read out. */
  function FromRecord(live: map<nat, Blob>, r: ShardRecord): OwnedShardRecord
    requires Backed(live, r)
  {
    OwnedShardRecord(
      r.tenant, r.run, r.shard, r.status, r.parkReason, SpecOf(live, r.spec), CursorOf(live, r.cursor),
      r.cursorSemantics, if r.lease.Some? then Some(r.lease.value.owner) else None,
      if r.lease.Some? then Some(r.lease.value.deadline) else None, r.fence, r.parent,
      UnpackIds(Content(live, r.spawned.slot)), r.opLog)
  }

  // ---------------------------------------------------------------------
  // Input checks on specs and cursors
  // ---------------------------------------------------------------------

  predicate SpecAccepted(v: Spec) {
    && |v.start| <= MAX_KEY_SIZE && |v.end| <= MAX_KEY_SIZE && |v.metadata| <= MAX_METADATA_SIZE
    && (v.start == [] || v.end == [] || Less(v.start, v.end))
  }

  predicate CursorAccepted(v: Cursor) {
    && (v.token.Some? ==> v.lastKey.Some? && |v.token.value| <= MAX_TOKEN_SIZE)
    && (v.lastKey.Some? ==> 0 < |v.lastKey.value| <= MAX_KEY_SIZE)
  }

  /** A present but empty token is stored as no token. */
  function Normalized(r: OwnedShardRecord): OwnedShardRecord {
    if r.cursor.token == Some([]) then r.(cursor := r.cursor.(token := None)) else r
  }

  function CheckCursor(v: Cursor): Result<Cursor> {
    match (v.lastKey, v.token)
    case (None, None) => Ok(v)
    case (Some(k), None) => if k == [] || |k| > MAX_KEY_SIZE then Err(InvalidCursor) else Ok(v)
    case (Some(k), Some(t)) =>
      if k == [] || |k| > MAX_KEY_SIZE || |t| > MAX_TOKEN_SIZE then Err(InvalidCursor)
      else Ok(Cursor(Some(k), if t == [] then None else Some(t)))
    case (None, Some(_)) => Err(InvariantViolation)
  }

  // ---------------------------------------------------------------------
  // Materialisation
  // ---------------------------------------------------------------------

  datatype Staged = Staged(spec: Option<PooledSpec>, cursor: Option<PooledCursor>, spawned: Option<PooledSpawned>)

  function StagedSlots(s: Staged): seq<Slot> {
    (if s.spec.Some? then SpecSlots(s.spec.value) else [])
    + (if s.cursor.Some? then CursorSlots(s.cursor.value) else [])
    + (if s.spawned.Some? then [s.spawned.value.slot] else [])
  }

  /** Releases everything staged, last allocation first. */
  method Rollback(staged: Staged, slab: ByteSlab)
    requires slab.Valid()
    modifies slab`live
    ensures slab.Valid() && slab.live == old(slab.live) - IdsOf(StagedSlots(staged))
  {
    ghost var a := if staged.spec.Some? then SpecSlots(staged.spec.value) else [];
    ghost var b := if staged.cursor.Some? then CursorSlots(staged.cursor.value) else [];
    ghost var c := if staged.spawned.Some? then [staged.spawned.value.slot] else [];
    IdsOfConcat(a, b);
    IdsOfConcat(a + b, c);
    if staged.spawned.Some? { slab.Deallocate(staged.spawned.value.slot); }
    if staged.cursor.Some? { slab.DeallocateAll(CursorSlots(staged.cursor.value)); }
    if staged.spec.Some? { slab.DeallocateAll(SpecSlots(staged.spec.value)); }
  }

  method PoolSpec(v: Spec, slab: ByteSlab) returns (r: Result<PooledSpec>)
    requires slab.Valid()
    modifies slab
    ensures slab.Valid()
    ensures r.Err? ==> r.error == SlabFull && slab.live == old(slab.live) && slab.RanOut(old(slab.attempts))
    ensures slab.attempts >= old(slab.attempts)
    ensures r.Ok? ==> && Added(old(slab.live), slab.live, IdsOf(SpecSlots(r.value)))
                      && AllHeld(slab.live, SpecSlots(r.value)) && SpecOf(slab.live, r.value) == v
  {
    var slots :- slab.AllocateWithRollback([v.start, v.end, v.metadata]);
    assert slots == SpecSlots(PooledSpec(slots[0], slots[1], slots[2]));
    return Ok(PooledSpec(slots[0], slots[1], slots[2]));
  }

  method PoolCursor(v: Cursor, slab: ByteSlab) returns (r: Result<PooledCursor>)
    requires slab.Valid()
    modifies slab
    ensures slab.Valid()
    ensures r.Err? ==> r.error == SlabFull && slab.live == old(slab.live) && slab.RanOut(old(slab.attempts))
    ensures slab.attempts >= old(slab.attempts)
    ensures r.Ok? ==> && Added(old(slab.live), slab.live, IdsOf(CursorSlots(r.value)))
                      && AllHeld(slab.live, CursorSlots(r.value)) && CursorOf(slab.live, r.value) == v
  {
    var fields := [if v.lastKey.Some? then v.lastKey.value else [], if v.token.Some? then v.token.value else []];
    var slots :- slab.AllocateWithRollback(fields);
    var pooled := PooledCursor(if v.lastKey.Some? then Some(slots[0]) else None,
                               if v.token.Some? then Some(slots[1]) else None);
    assert StoredAt(slab.live, slots[0], fields[0]) && StoredAt(slab.live, slots[1], fields[1]);
    assert CursorSlots(pooled) == slots;
    return Ok(pooled);
  }

  method PoolSpawned(ids: Ids, slab: ByteSlab) returns (r: Result<PooledSpawned>)
    requires slab.Valid() && |ids| <= MAX_SPAWNED_PER_SHARD
    modifies slab
    ensures slab.Valid()
    ensures r.Err? ==> r.error == SlabFull && slab.live == old(slab.live) && slab.RanOut(old(slab.attempts))
    ensures slab.attempts >= old(slab.attempts)
    ensures r.Ok? ==> && Added(old(slab.live), slab.live, IdsOf([r.value.slot]))
                      && Holds(slab.live, r.value.slot) && UnpackIds(Content(slab.live, r.value.slot)) == ids
                      && r.value.len == |ids|
  {
    UnpackPacked(ids);
    if ids == [] {
      assert IdsOf([EmptySlot]) == {};
      return Ok(PooledSpawned(EmptySlot, 0));
    }
    var slot :- slab.Allocate(PutEach(ids, []));
    return Ok(PooledSpawned(slot, |ids|));
  }

  /** Three additions in a row, and what of the earlier ones is still there after the last. */
  lemma AddedThrice(a: map<nat, Blob>, b: map<nat, Blob>, c: map<nat, Blob>, d: map<nat, Blob>,
                    spec: PooledSpec, cursor: PooledCursor, spawned: Slot)
    requires Added(a, b, IdsOf(SpecSlots(spec))) && AllHeld(b, SpecSlots(spec))
    requires Added(b, c, IdsOf(CursorSlots(cursor))) && AllHeld(c, CursorSlots(cursor))
    requires Added(c, d, IdsOf([spawned]))
    ensures Added(a, d, IdsOf(SpecSlots(spec) + CursorSlots(cursor) + [spawned]))
    ensures AllHeld(d, SpecSlots(spec)) && SpecOf(d, spec) == SpecOf(b, spec)
    ensures AllHeld(d, CursorSlots(cursor)) && CursorOf(d, cursor) == CursorOf(c, cursor)
  {
    IdsOfConcat(SpecSlots(spec), CursorSlots(cursor));
    IdsOfConcat(SpecSlots(spec) + CursorSlots(cursor), [spawned]);
    AddedTwice(a, b, c, IdsOf(SpecSlots(spec)), IdsOf(CursorSlots(cursor)));
    AddedTwice(a, c, d, IdsOf(SpecSlots(spec) + CursorSlots(cursor)), IdsOf([spawned]));
    SpecKept(b, c, IdsOf(CursorSlots(cursor)), spec);
    SpecKept(c, d, IdsOf([spawned]), spec);
    CursorKept(c, d, IdsOf([spawned]), cursor);
  }

  lemma SpecKept(a: map<nat, Blob>, b: map<nat, Blob>, ids: set<nat>, v: PooledSpec)
    requires Added(a, b, ids) && AllHeld(a, SpecSlots(v))
    ensures AllHeld(b, SpecSlots(v)) && SpecOf(b, v) == SpecOf(a, v)
  {
    forall i | 0 <= i < 3 ensures Holds(b, SpecSlots(v)[i]) && Content(b, SpecSlots(v)[i]) == Content(a, SpecSlots(v)[i]) {
      AddedKeeps(a, b, ids, SpecSlots(v)[i]);
    }
    assert SpecSlots(v)[0] == v.start && SpecSlots(v)[1] == v.end && SpecSlots(v)[2] == v.metadata;
  }

  lemma CursorKept(a: map<nat, Blob>, b: map<nat, Blob>, ids: set<nat>, v: PooledCursor)
    requires Added(a, b, ids) && AllHeld(a, CursorSlots(v))
    ensures AllHeld(b, CursorSlots(v)) && CursorOf(b, v) == CursorOf(a, v)
  {
    AddedKeeps(a, b, ids, CursorSlots(v)[0]);
    AddedKeeps(a, b, ids, CursorSlots(v)[1]);
  }

  /** Why a record was not materialised; `full` says whether an allocation made for it found no room. */
  ghost predicate FailureExplained(o: OwnedShardRecord, full: bool, error: CodecError) {
    match error
    case InvalidSpec => !SpecAccepted(o.spec)
    case InvalidCursor => !CursorAccepted(o.cursor)
    case SlabFull => full
    case InvariantViolation => !o.Valid()
    case _ => false
  }

  /** The checks that come after the last allocation. */
  function CheckRest(o: OwnedShardRecord): (r: Result<Option<LeaseHolder>>)
    ensures r.Err? ==> r.error == InvariantViolation && !o.Valid()
    ensures r.Ok? ==> o.JointLease() && OpsValid(o.opLog)
    ensures r.Ok? ==> r.value == if o.leaseOwner.Some? then Some(LeaseHolder(o.leaseOwner.value, o.leaseDeadline.value)) else None
  {
    if !OpsValid(o.opLog) then Err(InvariantViolation)
    else match (o.leaseOwner, o.leaseDeadline)
      case (Some(owner), Some(deadline)) => Ok(Some(LeaseHolder(owner, deadline)))
      case (None, None) => Ok(None)
      case _ => Err(InvariantViolation)
  }

  /** The allocation and checking steps; on failure `staged` holds exactly what was allocated. */
  method TryMaterialize(o: OwnedShardRecord, slab: ByteSlab) returns (r: Result<ShardRecord>, staged: Staged)
    requires slab.Valid() && |o.spawned| <= MAX_SPAWNED_PER_SHARD
    requires o.leaseOwner.Some? && o.leaseDeadline.Some? ==> o.leaseDeadline.value > 0
    modifies slab
    ensures slab.Valid()
    ensures r.Err? ==> Added(old(slab.live), slab.live, IdsOf(StagedSlots(staged)))
    ensures r.Err? ==> FailureExplained(o, slab.RanOut(old(slab.attempts)), r.error)
    ensures r.Ok? ==> SpecAccepted(o.spec) && CursorAccepted(o.cursor)
    ensures r.Ok? ==> && Added(old(slab.live), slab.live, IdsOf(RecordSlots(r.value))) && Backed(slab.live, r.value)
                      && FromRecord(slab.live, r.value) == Normalized(o)
  {
    staged := Staged(None, None, None);
    ghost var a := slab.live;
    assert IdsOf([]) == {} && a - {} == a;
    if !SpecAccepted(o.spec) { return Err(InvalidSpec), staged; }
    var spec := PoolSpec(o.spec, slab);
    if spec.Err? { return Err(spec.error), staged; }
    staged := staged.(spec := Some(spec.value));
    ghost var b := slab.live;
    assert StagedSlots(staged) == SpecSlots(spec.value);

    var checked := CheckCursor(o.cursor);
    if checked.Err? { return Err(checked.error), staged; }
    var cursor := PoolCursor(checked.value, slab);
    if cursor.Err? { return Err(cursor.error), staged; }
    staged := staged.(cursor := Some(cursor.value));
    ghost var c := slab.live;
    IdsOfConcat(SpecSlots(spec.value), CursorSlots(cursor.value));
    AddedTwice(a, b, c, IdsOf(SpecSlots(spec.value)), IdsOf(CursorSlots(cursor.value)));
    assert StagedSlots(staged) == SpecSlots(spec.value) + CursorSlots(cursor.value);

    var spawned := PoolSpawned(o.spawned, slab);
    if spawned.Err? { return Err(spawned.error), staged; }
    staged := staged.(spawned := Some(spawned.value));
    AddedThrice(a, b, c, slab.live, spec.value, cursor.value, spawned.value.slot);
    assert StagedSlots(staged) == SpecSlots(spec.value) + CursorSlots(cursor.value) + [spawned.value.slot];

    var lease := CheckRest(o);
    if lease.Err? { return Err(lease.error), staged; }
    staged := Staged(None, None, None);
    var record := ShardRecord(o.tenant, o.run, o.shard, o.status, o.parkReason, spec.value, cursor.value,
                              o.cursorSemantics, lease.value, o.fence, o.parent, spawned.value, o.opLog);
    ReadsBack(o, slab.live, record);
    r := Ok(record);
  }

  lemma ReadsBack(o: OwnedShardRecord, live: map<nat, Blob>, r: ShardRecord)
    requires AllHeld(live, SpecSlots(r.spec)) && SpecOf(live, r.spec) == o.spec
    requires AllHeld(live, CursorSlots(r.cursor)) && CheckCursor(o.cursor) == Ok(CursorOf(live, r.cursor))
    requires Holds(live, r.spawned.slot) && UnpackIds(Content(live, r.spawned.slot)) == o.spawned
    requires r.spawned.len == |o.spawned| && CheckRest(o) == Ok(r.lease)
    requires r == ShardRecord(o.tenant, o.run, o.shard, o.status, o.parkReason, r.spec, r.cursor, o.cursorSemantics,
                              r.lease, o.fence, o.parent, r.spawned, o.opLog)
    ensures Backed(live, r) && FromRecord(live, r) == Normalized(o) && CursorAccepted(o.cursor)
  {
  }

  /** What a record held in the slab reads as. */
  ghost predicate Storable(o: OwnedShardRecord) {
    o.Valid() && SpecAccepted(o.spec) && CursorAccepted(o.cursor) && o.cursor.token != Some([])
  }

  /**
   * All or nothing: a failure at any step leaves the slab's live slots as they were; success adds
   * exactly the record's own slots, and reading them back gives the input.
   */
  method IntoRecord(o: OwnedShardRecord, slab: ByteSlab) returns (r: Result<ShardRecord>)
    requires slab.Valid()
    modifies slab
    ensures slab.Valid()
    ensures r.Err? ==> slab.live == old(slab.live)
    ensures r.Err? ==> FailureExplained(o, slab.RanOut(old(slab.attempts)), r.error)
    ensures !o.Valid() ==> r == Err(InvariantViolation)
    ensures r.Ok? ==> SpecAccepted(o.spec) && CursorAccepted(o.cursor)
    ensures r.Ok? ==> && Added(old(slab.live), slab.live, IdsOf(RecordSlots(r.value))) && Backed(slab.live, r.value)
                      && FromRecord(slab.live, r.value) == Normalized(o) && Storable(FromRecord(slab.live, r.value))
  {
    if !o.Valid() { return Err(InvariantViolation); }
    var staged;
    r, staged := TryMaterialize(o, slab);
    if r.Err? { Rollback(staged, slab); }
  }
}
