/** Retrying a transaction whose reply was lost: exactly when it takes effect a second time. */
module LostReply {
  import opened Bytes
  import opened EtcdStore
  import opened RetryMachine
  import opened EtcdSteps
  import opened EtcdRuns

  // ---------------------------------------------------------------------
  // One key through a transaction
  // ---------------------------------------------------------------------

  function Lookup(kvs: map<Bytes, KvEntry>, k: Bytes): Option<KvEntry> {
    if k in kvs then Some(kvs[k]) else None
  }

  function Alone(e: Option<KvEntry>, k: Bytes): map<Bytes, KvEntry> {
    if e.Some? then map[k := e.value] else map[]
  }

  /** What one operation makes of a key's entry, without looking at any other key. */
  ghost function EntryStep(e: Option<KvEntry>, op: Op, k: Bytes, revision: nat): Option<KvEntry> {
    if !TouchesOp(op, k) then e
    else if op.Put? then Some(NewEntry(Alone(e, k), op, revision))
    else None
  }

  /** What a list of operations makes of a key's entry. */
  ghost function EntryAfter(e: Option<KvEntry>, ops: seq<Op>, k: Bytes, revision: nat): Option<KvEntry>
    decreases |ops|
  {
    if ops == [] then e
    else EntryStep(EntryAfter(e, ops[..|ops| - 1], k, revision), ops[|ops| - 1], k, revision)
  }

  /** The whole-store execution, seen at one key, is the execution of that key alone. */
  lemma {:induction false} RunOpsAtKey(s: Store, ops: seq<Op>, k: Bytes)
    ensures Lookup(RunOps(s, ops).0.kvs, k) == EntryAfter(Lookup(s.kvs, k), ops, k, s.revision)
    decreases |ops|
  {
    if ops != [] {
      var n := |ops| - 1;
      RunOpsAtKey(s, ops[..n], k);
      RunOpsStamp(s, ops[..n]);
    }
  }

  /** A key that was touched is gone or carries the transaction's revision. */
  lemma {:induction false} TouchedEntry(e: Option<KvEntry>, ops: seq<Op>, k: Bytes, revision: nat)
    requires Touches(ops, k)
    ensures var after := EntryAfter(e, ops, k, revision); after.None? || after.value.modRevision == revision
    decreases |ops|
  {
    var n := |ops| - 1;
    if !TouchesOp(ops[n], k) {
      var i :| 0 <= i < |ops| && TouchesOp(ops[i], k);
      assert ops[..n][i] == ops[i];
      TouchedEntry(e, ops[..n], k, revision);
    }
  }

  // ---------------------------------------------------------------------
  // The compares of a retry
  // ---------------------------------------------------------------------

  /** The compare holds on the entry that the operations leave at its key. */
  ghost predicate HoldsAfter(s: Store, ops: seq<Op>, c: Compare) {
    EvaluateCompare(Alone(EntryAfter(Lookup(s.kvs, c.key), ops, c.key, s.revision + 1), c.key), c) == Ok(true)
  }

  /** Every compare on a key that the request writes or deletes survives the request. */
  ghost predicate Repeatable(s: Store, req: TxnRequest) {
    forall i :: 0 <= i < |req.compares| && Touches(req.success, req.compares[i].key) ==>
      HoldsAfter(s, req.success, req.compares[i])
  }

  /** A compare looks at its own key only. */
  lemma ComparesOneKey(kvs: map<Bytes, KvEntry>, other: map<Bytes, KvEntry>, c: Compare)
    requires Lookup(kvs, c.key) == Lookup(other, c.key)
    ensures EvaluateCompare(kvs, c) == EvaluateCompare(other, c)
  {
    assert c.key in kvs <==> c.key in other;
    assert c.key in kvs ==> Lookup(kvs, c.key) == Some(kvs[c.key]) && Lookup(other, c.key) == Some(other[c.key]);
  }

  lemma {:induction false} EachHoldsSoAllHold(kvs: map<Bytes, KvEntry>, compares: seq<Compare>)
    requires forall i :: 0 <= i < |compares| ==> EvaluateCompare(kvs, compares[i]) == Ok(true)
    ensures EvaluateAll(kvs, compares) == Ok(true)
  {
    if compares != [] { EachHoldsSoAllHold(kvs, compares[1..]); }
  }

  /** The entry a commit leaves at a touched key is the one computed at the next revision. */
  lemma CommitAtTouchedKey(s: Store, ops: seq<Op>, k: Bytes)
    requires Inv(s) && StageError(s.leases, ops).None? && Touches(ops, k)
    ensures Lookup(Commit(s, ops).0.kvs, k) == EntryAfter(Lookup(s.kvs, k), ops, k, s.revision + 1)
  {
    if Mutates(s, ops) {
      RunOpsAtKey(s.(revision := s.revision + 1), ops, k);
    } else {
      NoMutationNoPut(s, ops);
      NoMutationNoChange(s, ops);
      OnlyDeletesRemove(Lookup(s.kvs, k), ops, k, s.revision, s.revision + 1);
      RunOpsAtKey(s, ops, k);
    }
  }

  lemma {:induction false} OnlyDeletesRemove(e: Option<KvEntry>, ops: seq<Op>, k: Bytes, a: nat, b: nat)
    requires forall i :: 0 <= i < |ops| ==> !ops[i].Put?
    ensures EntryAfter(e, ops, k, a) == EntryAfter(e, ops, k, b)
    decreases |ops|
  {
    if ops != [] { OnlyDeletesRemove(e, ops[..|ops| - 1], k, a, b); }
  }

  lemma CommitAtUntouchedKey(s: Store, ops: seq<Op>, k: Bytes)
    requires StageError(s.leases, ops).None? && !Touches(ops, k)
    ensures Lookup(Commit(s, ops).0.kvs, k) == Lookup(s.kvs, k)
  {
    UntouchedStays(if Mutates(s, ops) then s.(revision := s.revision + 1) else s, ops, k);
  }

  /** How one compare that held before a commit fares after it. */
  lemma CompareAfterCommit(s: Store, ops: seq<Op>, c: Compare)
    requires Inv(s) && StageError(s.leases, ops).None? && EvaluateCompare(s.kvs, c) == Ok(true)
    ensures EvaluateCompare(Commit(s, ops).0.kvs, c) == Ok(true) <==> (Touches(ops, c.key) ==> HoldsAfter(s, ops, c))
  {
    var t := Commit(s, ops).0;
    if Touches(ops, c.key) {
      CommitAtTouchedKey(s, ops, c.key);
      ComparesOneKey(t.kvs, Alone(EntryAfter(Lookup(s.kvs, c.key), ops, c.key, s.revision + 1), c.key), c);
    } else {
      CommitAtUntouchedKey(s, ops, c.key);
      ComparesOneKey(t.kvs, s.kvs, c);
    }
  }

  /** After a commit, reported or not, the same compares hold again exactly for repeatable requests. */
  lemma RetryComparesHold(st: SimState, fp: int, req: TxnRequest, f: Faults)
    requires StateInv(st) && (f.ttlRace ==> st.store.now < U64_MAX) && Commits(st, fp, req, f)
    ensures EvaluateAll(Txn(st, fp, req, f).0.store.kvs, req.compares) == Ok(true)
            <==> Repeatable(Ready(st.store, f.ttlRace), req)
  {
    var s := Ready(st.store, f.ttlRace);
    var t := Txn(st, fp, req, f).0.store;
    ReadyKeepsInv(st.store, f.ttlRace);
    TxnIsAtomic(st, fp, req, f);
    forall i | 0 <= i < |req.compares|
      ensures EvaluateCompare(t.kvs, req.compares[i]) == Ok(true)
              <==> (Touches(req.success, req.compares[i].key) ==> HoldsAfter(s, req.success, req.compares[i]))
    {
      AllComparesHold(s.kvs, req.compares, i);
      CompareAfterCommit(s, req.success, req.compares[i]);
    }
    if Repeatable(s, req) {
      EachHoldsSoAllHold(t.kvs, req.compares);
    }
    if EvaluateAll(t.kvs, req.compares) == Ok(true) {
      forall i | 0 <= i < |req.compares| ensures EvaluateCompare(t.kvs, req.compares[i]) == Ok(true) {
        AllComparesHold(t.kvs, req.compares, i);
      }
    }
  }

  // ---------------------------------------------------------------------
  // The retry itself
  // ---------------------------------------------------------------------

  /** The draws of a call on which no fault fires, except perhaps a lost reply. */
  function Calm(lost: bool): Faults { Faults(false, false, false, false, lost) }

  /** A commit moves no lease: nothing has become due, and the same operations can be staged again. */
  lemma CommitKeepsLeaseTimes(s: Store, ops: seq<Op>)
    requires Inv(s) && Due(s) == {} && StageError(s.leases, ops).None?
    ensures var t := Commit(s, ops).0; Expired(t) == t && StageError(t.leases, ops).None?
  {
    var bumped := if Mutates(s, ops) then s.(revision := s.revision + 1) else s;
    var t := Commit(s, ops).0;
    NoMutationNoPut(s, ops);
    RunOpsKeepsInv(bumped, ops);
    RunOpsKeepsTimes(bumped, ops);
    forall l | l in t.leases ensures t.leases[l].expiresAt > t.now {
      assert l in s.leases && l !in Due(s);
    }
    assert Due(t) == {};
    DropNone(t);
    StagingNeedsLeaseIdsOnly(s.leases, t.leases, ops);
  }

  lemma {:induction false} RunOpsKeepsTimes(s: Store, ops: seq<Op>)
    ensures var t := RunOps(s, ops).0;
            && t.now == s.now && t.leases.Keys == s.leases.Keys
            && forall l :: l in t.leases ==> l in s.leases && t.leases[l].expiresAt == s.leases[l].expiresAt
    decreases |ops|
  {
    if ops != [] { RunOpsKeepsTimes(s, ops[..|ops| - 1]); }
  }

  lemma {:induction false} StagingNeedsLeaseIdsOnly(a: map<int, Lease>, b: map<int, Lease>, ops: seq<Op>)
    requires a.Keys == b.Keys
    ensures StageError(a, ops) == StageError(b, ops)
    decreases |ops|
  {
    if ops != [] {
      StagingNeedsLeaseIdsOnly(a, b, ops[..|ops| - 1]);
      assert forall l :: l in a <==> l in a.Keys;
      assert forall l :: l in b <==> l in b.Keys;
    }
  }

  /** A transaction that got through leaves no burst that could stop its own retry. */
  lemma MachineLetsRetryThrough(r: Retry, config: RetryConfig, c: Call)
    requires RetryInv(r) && !Attempt(r, config, c).1
    ensures var after := Attempt(r, config, c).0; !Consume(ClearForOther(after, c.fingerprint), c.fingerprint).1
  {
    LazyFingerprintIsEquivalent(r, config, c);
  }

  /** A calm transaction on a store with nothing due commits exactly when its compares hold. */
  lemma CalmCommitsIff(st: SimState, fp: int, req: TxnRequest, lost: bool)
    requires Expired(st.store) == st.store && StageError(st.store.leases, req.success).None? && !req.hasFailure
    requires !Consume(ClearForOther(st.retry, fp), fp).1
    ensures Commits(st, fp, req, Calm(lost)) <==> EvaluateAll(st.store.kvs, req.compares) == Ok(true)
  {
    ComparesNeverUncertain(st.store.kvs, req.compares);
    LazyFingerprintIsEquivalent(st.retry, st.config, MachineCall(st.store, fp, req, Calm(lost)));
  }

  lemma CommitPassedTheMachine(st: SimState, fp: int, req: TxnRequest, f: Faults)
    requires StateInv(st) && (f.ttlRace ==> st.store.now < U64_MAX) && Commits(st, fp, req, f)
    ensures var after := Txn(st, fp, req, f).0.retry; !Consume(ClearForOther(after, fp), fp).1
  {
    var ready := st.(store := Ready(st.store, f.ttlRace));
    ComparesNeverUncertain(ready.store.kvs, req.compares);
    assert Gate(ready, fp, req, f).1.None?;
    MachineLetsRetryThrough(st.retry, st.config, MachineCall(ready.store, fp, req, f));
  }

  /**
   * When a caller whose transaction took effect sends it again at once, it takes effect a second
   * time if and only if it is repeatable on the store it first ran on.
   */
  lemma RetryCommitsIff(st: SimState, fp: int, req: TxnRequest, f: Faults, lost: bool)
    requires StateInv(st) && (f.ttlRace ==> st.store.now < U64_MAX) && Commits(st, fp, req, f)
    ensures Commits(Txn(st, fp, req, f).0, fp, req, Calm(lost)) <==> Repeatable(Ready(st.store, f.ttlRace), req)
  {
    var s := Ready(st.store, f.ttlRace);
    var next := Txn(st, fp, req, f).0;
    TxnIsAtomic(st, fp, req, f);
    ReadyKeepsInv(st.store, f.ttlRace);
    assert StageError(s.leases, req.success).None?;
    CommitKeepsLeaseTimes(s, req.success);
    CommitPassedTheMachine(st, fp, req, f);
    CalmCommitsIff(next, fp, req, lost);
    RetryComparesHold(st, fp, req, f);
  }

  // ---------------------------------------------------------------------
  // Which requests are repeatable
  // ---------------------------------------------------------------------

  /** Pinning a revision of a key it writes or deletes makes a request unrepeatable. */
  lemma PinnedIsNotRepeatable(s: Store, req: TxnRequest, k: Bytes, r: int)
    requires Inv(s) && EvaluateAll(s.kvs, req.compares) == Ok(true)
    requires r > 0 && Guards(req, k, r)
    ensures !Repeatable(s, req)
  {
    var i :| 0 <= i < |req.compares| && req.compares[i] == Compare(k, [], IsEqual, ModRevision(r));
    AllComparesHold(s.kvs, req.compares, i);
    assert r <= s.revision;
    TouchedEntry(Lookup(s.kvs, k), req.success, k, s.revision + 1);
    assert !HoldsAfter(s, req.success, req.compares[i]);
  }

  /** So does requiring absence of a key whose last operation puts it. */
  lemma CreateIsNotRepeatable(s: Store, req: TxnRequest, k: Bytes, n: nat)
    requires Compare(k, [], IsEqual, Version(0)) in req.compares && IsLastTouch(req.success, k, n) && req.success[n].Put?
    ensures !Repeatable(s, req)
  {
    var i :| 0 <= i < |req.compares| && req.compares[i] == Compare(k, [], IsEqual, Version(0));
    LastPutMakesEntry(Lookup(s.kvs, k), req.success, k, s.revision + 1, n);
    assert !HoldsAfter(s, req.success, req.compares[i]);
  }

  lemma {:induction false} LastPutMakesEntry(e: Option<KvEntry>, ops: seq<Op>, k: Bytes, revision: nat, n: nat)
    requires IsLastTouch(ops, k, n) && ops[n].Put?
    ensures var after := EntryAfter(e, ops, k, revision); after.Some? && after.value.version >= 1
    decreases |ops|
  {
    var last := |ops| - 1;
    if n < last {
      assert ops[..last][n] == ops[n];
      assert forall j :: n < j < last ==> ops[..last][j] == ops[j];
      LastPutMakesEntry(e, ops[..last], k, revision, n);
    }
  }

  /** A request that compares none of the keys it writes or deletes is always repeatable. */
  lemma ElsewhereIsRepeatable(s: Store, req: TxnRequest)
    requires forall i :: 0 <= i < |req.compares| ==> !Touches(req.success, req.compares[i].key)
    ensures Repeatable(s, req)
  {
  }
}
