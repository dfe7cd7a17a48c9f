/** The simulated etcd server: mutable fields, staged transactions and the expiry fast path. */
module SimEtcd {
  import opened Bytes
  import opened EtcdStore
  import opened RetryMachine
  import opened EtcdSteps
  import opened EtcdRuns
  import opened TxnStaging

  /** A limit or a revision bound that is not positive does not apply. */
  datatype GetOptions = GetOptions(
    limit: int,
    revision: int,
    serializable: bool,
    sorted: bool,
    countOnly: bool,
    keysOnly: bool,
    minMod: int,
    maxMod: int,
    minCreate: int,
    maxCreate: int)
  {
    predicate Supported() { revision <= 0 && !serializable && !sorted }

    predicate Passes(e: KvEntry) {
      && (minMod > 0 ==> e.modRevision >= minMod) && (maxMod > 0 ==> e.modRevision <= maxMod)
      && (minCreate > 0 ==> e.createRevision >= minCreate) && (maxCreate > 0 ==> e.createRevision <= maxCreate)
    }

    /** How many of `n` matches are returned. */
    function Taken(n: nat): (r: nat)
      ensures r <= n
    {
      if countOnly then 0 else if limit <= 0 || n <= limit then n else limit
    }
  }

  datatype KeyValue = KeyValue(key: Bytes, entry: KvEntry)

  /** One page of a read: entries in key order, whether more match, and how many match in all. */
  datatype GetResponse = GetResponse(revision: nat, kvs: seq<KeyValue>, more: bool, count: nat)

  /** A key lies in the requested range and its entry passes the revision bounds. */
  ghost predicate Wanted(s: Store, key: Bytes, rangeEnd: Bytes, options: GetOptions, k: Bytes) {
    k in s.kvs && Matches(key, rangeEnd, k) && options.Passes(s.kvs[k])
  }

  function Shown(e: KvEntry, keysOnly: bool): KvEntry { if keysOnly then e.(value := []) else e }

  /** `all` lists exactly the wanted keys in byte order. */
  ghost predicate ListsWanted(s: Store, key: Bytes, rangeEnd: Bytes, options: GetOptions, all: seq<Bytes>) {
    Increasing(all) && forall k :: k in all <==> Wanted(s, key, rangeEnd, options, k)
  }

  /** The reply that shows as many of these keys as the options allow, each with its entry. */
  ghost predicate Shows(s: Store, options: GetOptions, all: seq<Bytes>, r: GetResponse) {
    && r.revision == s.revision && r.count == |all| && |r.kvs| == options.Taken(|all|)
    && r.more == (!options.countOnly && |r.kvs| < |all|)
    && forall i :: 0 <= i < |r.kvs| ==>
         r.kvs[i].key == all[i] && all[i] in s.kvs && r.kvs[i].entry == Shown(s.kvs[all[i]], options.keysOnly)
  }

  /** The wanted keys in byte order, as many of them as the options allow, each with its entry. */
  ghost predicate IsRead(s: Store, key: Bytes, rangeEnd: Bytes, options: GetOptions, r: GetResponse) {
    exists all: seq<Bytes> :: ListsWanted(s, key, rangeEnd, options, all) && Shows(s, options, all, r)
  }

  /** A store and a request leave exactly one reply. */
  lemma ReadIsDetermined(s: Store, key: Bytes, rangeEnd: Bytes, options: GetOptions, a: GetResponse, b: GetResponse)
    requires IsRead(s, key, rangeEnd, options, a) && IsRead(s, key, rangeEnd, options, b)
    ensures a == b
  {
    var all :| ListsWanted(s, key, rangeEnd, options, all) && Shows(s, options, all, a);
    var other :| ListsWanted(s, key, rangeEnd, options, other) && Shows(s, options, other, b);
    IncreasingUnique(all, other);
    forall i | 0 <= i < |a.kvs| ensures a.kvs[i] == b.kvs[i] {
      assert a.kvs[i].key == all[i] == b.kvs[i].key;
    }
  }

  // ---------------------------------------------------------------------
  // Small facts about finite sets
  // ---------------------------------------------------------------------

  lemma {:induction false} LeastByKey(keys: set<Bytes>) returns (least: Bytes)
    requires keys != {}
    ensures least in keys && forall k :: k in keys ==> LessEq(least, k)
    decreases |keys|
  {
    var k :| k in keys;
    if keys == {k} { return k; }
    var rest := keys - {k};
    assert rest != {};
    var m := LeastByKey(rest);
    LessTotal(k, m);
    least := if Less(k, m) then k else m;
    forall x | x in keys ensures LessEq(least, x) {
      if x in rest { assert LessEq(m, x); if least == k { LessEqTransitive(k, m, x); } }
    }
  }

  lemma {:induction false} LeastId(ids: set<int>) returns (least: int)
    requires ids != {}
    ensures least in ids && forall id :: id in ids ==> least <= id
    decreases |ids|
  {
    assert (forall x :: x !in ids) ==> ids == {};
    var id :| id in ids;
    if ids == {id} { return id; }
    var rest := ids - {id};
    assert rest != {};
    var m := LeastId(rest);
    least := if id < m then id else m;
    assert forall x :: x in ids ==> x == id || x in rest;
  }

  /** The iteration order of the store's sorted maps. */
  method InOrder(keys: set<Bytes>) returns (all: seq<Bytes>)
    ensures Increasing(all) && (forall k :: k in all <==> k in keys)
  {
    all := [];
    var rest := keys;
    while rest != {}
      invariant Increasing(all) && rest <= keys
      invariant forall k :: k in all <==> k in keys && k !in rest
      invariant forall a, b :: a in all && b in rest ==> Less(a, b)
      decreases rest
    {
      ghost var least := LeastByKey(rest);
      var k :| k in rest && forall x :: x in rest ==> LessEq(k, x);
      rest := rest - {k};
      assert forall x :: x in rest ==> LessEq(k, x) && x != k;
      all := all + [k];
    }
  }

  /** Evaluates compares in order up to the first that is false or malformed. */
  method EvaluateCompares(kvs: map<Bytes, KvEntry>, compares: seq<Compare>) returns (r: Result<bool>)
    ensures r == EvaluateAll(kvs, compares)
  {
    for i := 0 to |compares|
      invariant EvaluateAll(kvs, compares) == EvaluateAll(kvs, compares[i..])
    {
      var one := EvaluateCompare(kvs, compares[i]);
      assert compares[i..][1..] == compares[i + 1..];
      if one.Err? || !one.value { return one; }
    }
    r := Ok(true);
  }

  // ---------------------------------------------------------------------
  // The server
  // ---------------------------------------------------------------------

  class SimulatedEtcdKV {
    var kvs: map<Bytes, KvEntry>
    var revision: nat
    var leases: map<int, Lease>
    var nextLeaseId: int
    var now: u64
    var nextExpiry: u64
    var config: RetryConfig
    var active: Option<Burst>
    var recent: Option<int>
    /** Identifies a logical transaction across retries. */
    const fingerprint: TxnRequest -> int

    ghost function S(): Store
      reads this
    {
      Store(kvs, revision, leases, nextLeaseId, now)
    }

    ghost function State(): SimState
      reads this
    {
      SimState(S(), Retry(active, recent), config)
    }

    ghost predicate Valid()
      reads this
    {
      StateInv(State()) && NoExpiryBefore(leases, nextExpiry)
    }

    constructor (config: RetryConfig, fingerprint: TxnRequest -> int)
      ensures Valid() && State() == SimState(EMPTY, IDLE, config) && this.fingerprint == fingerprint
    {
      kvs, revision, leases, nextLeaseId, now, nextExpiry := map[], 0, map[], 1, 0, U64_MAX;
      active, recent := None, None;
      this.config := config;
      this.fingerprint := fingerprint;
    }

    // -------------------------------------------------------------------
    // Keys and leases
    // -------------------------------------------------------------------

    method DetachKeyFromLease(key: Bytes)
      modifies this`leases
      ensures leases == Detach(old(S()), key)
    {
      var id := if key in kvs then kvs[key].lease else 0;
      if id == 0 { return; }
      if id in leases {
        leases := leases[id := leases[id].(attached := leases[id].attached - {key})];
      }
    }

    method PutKey(put: Op, stamp: nat)
      requires put.Put? && stamp == revision && (put.lease == 0 || put.lease in leases) && 0 !in leases
      modifies this`leases, this`kvs
      ensures S() == EtcdStore.PutKey(old(S()), put)
    {
      DetachKeyFromLease(put.key);
      if put.key in kvs {
        var e := kvs[put.key];
        var version := if e.version >= I64_MAX then I64_MAX else e.version + 1;
        kvs := kvs[put.key := e.(value := put.value, modRevision := stamp, version := version, lease := put.lease)];
      } else {
        kvs := kvs[put.key := KvEntry(put.value, stamp, stamp, 1, put.lease)];
      }
      if put.lease != 0 {
        leases := leases[put.lease := leases[put.lease].(attached := leases[put.lease].attached + {put.key})];
      }
    }

    method DeleteKey(key: Bytes)
      modifies this`leases, this`kvs
      ensures S() == EtcdStore.DeleteKey(old(S()), key)
    {
      DetachKeyFromLease(key);
      kvs := kvs - {key};
    }

    /** Removes a lease and the keys bound to it; reports whether any key went with it. */
    method RemoveLeaseAndKeys(id: int) returns (r: Result<bool>)
      requires Inv(S())
      modifies this`leases, this`kvs
      ensures id !in old(leases) ==> r == Err(LeaseNotFound(id)) && S() == old(S())
      ensures id in old(leases) ==> r == Ok(old(leases[id].attached) != {})
      ensures id in old(leases) ==> S() == DropLeases(old(S()), {id}).(revision := revision)
    {
      if id !in leases { return Err(LeaseNotFound(id)); }
      var attached := leases[id].attached;
      leases := leases - {id};
      var rest := attached;
      var deletedAny := false;
      while rest != {}
        invariant rest <= attached && deletedAny == (rest != attached)
        invariant leases == old(leases) - {id}
        invariant kvs == old(kvs) - (attached - rest)
        decreases rest
      {
        var key :| key in rest;
        rest := rest - {key};
        if key in kvs && kvs[key].lease == id {
          kvs := kvs - {key};
          deletedAny := true;
        }
      }
      assert kvs == DropLeases(old(S()), {id}).kvs;
      r := Ok(deletedAny);
    }

    /** The due leases, by a scan of all of them. */
    method DueLeases() returns (due: set<int>)
      ensures due == Due(S())
    {
      due := set l | l in leases && leases[l].expiresAt <= now;
    }

    method EarliestExpiry() returns (t: u64)
      ensures NoExpiryBefore(leases, t)
      ensures t == U64_MAX || exists l :: l in leases && leases[l].expiresAt == t
    {
      t := U64_MAX;
      var rest := leases.Keys;
      while rest != {}
        invariant rest <= leases.Keys
        invariant forall l :: l in leases && l !in rest ==> t <= leases[l].expiresAt
        invariant t == U64_MAX || exists l :: l in leases && leases[l].expiresAt == t
        decreases rest
      {
        assert (forall x :: x !in rest) ==> rest == {};
        var l :| l in rest;
        rest := rest - {l};
        if leases[l].expiresAt < t { t := leases[l].expiresAt; }
      }
    }

    /**
     * Drops every due lease with its keys. The early exit on `nextExpiry` gives the same result as the
     * sweep. Returns, in order, the leases that took keys with them.
     */
    method ExpireDueLeases() returns (dropped: seq<int>)
      requires Valid()
      modifies this`kvs, this`leases, this`revision, this`nextExpiry
      ensures Valid() && S() == Expired(old(S()))
      ensures IsDropLog(old(S()), Due(old(S())), dropped)
    {
      ghost var s := S();
      DropNone(s);
      if now < nextExpiry {
        assert forall l :: l in leases ==> l !in Due(s);
        return [];
      }
      var due := DueLeases();
      dropped := Sweep(due);
      nextExpiry := EarliestExpiry();
      NothingDueAfterSweep(s);
    }

    /** Drops the given leases in ascending order. */
    method Sweep(due: set<int>) returns (dropped: seq<int>)
      requires Inv(S()) && due <= leases.Keys
      modifies this`kvs, this`leases, this`revision
      ensures S() == DropLeases(old(S()), due) && IsDropLog(old(S()), due, dropped)
    {
      dropped := [];
      ghost var s := S();
      ghost var done: set<int> := {};
      DropNone(s);
      var rest := due;
      while rest != {}
        invariant done + rest == due && Precedes(done, rest)
        invariant S() == DropLeases(s, done) && IsDropLog(s, done, dropped)
        decreases rest
      {
        ghost var least := LeastId(rest);
        var id :| id in rest && forall x :: x in rest ==> id <= x;
        SweepTurn(due, done, rest, id);
        var some := DropOne(s, done, id);
        DropLogGrows(s, done, dropped, id);
        if some { dropped := dropped + [id]; }
        rest := rest - {id};
        done := done + {id};
      }
      assert done == due;
    }

    /** One turn of the sweep: removes a lease and bumps the revision if keys went with it. */
    method DropOne(ghost s: Store, ghost done: set<int>, id: int) returns (some: bool)
      requires Inv(s) && done <= s.leases.Keys && id in s.leases && id !in done
      requires S() == DropLeases(s, done)
      modifies this`kvs, this`leases, this`revision
      ensures S() == DropLeases(s, done + {id}) && some == (s.leases[id].attached != {})
    {
      DropKeepsInv(s, done);
      ghost var mid := S();
      var removed := RemoveLeaseAndKeys(id);
      some := removed.Ok? && removed.value;
      if some { revision := revision + 1; }
      assert NonEmpty(mid, {id}) == if some then {id} else {};
      DropOneMore(s, done, id);
    }

    // -------------------------------------------------------------------
    // The retry-exhaustion machine
    // -------------------------------------------------------------------

    method ClearRetryExhaustionForOtherTxn(fp: int)
      modifies this`active, this`recent
      ensures Retry(active, recent) == ClearForOther(old(Retry(active, recent)), fp)
    {
      if active.Some? && active.value.fingerprint != fp { active := None; }
      if recent.Some? && recent.value != fp { recent := None; }
    }

    method ConsumeRetryExhaustion(fp: int) returns (consumed: bool)
      modifies this`active, this`recent
      ensures (Retry(active, recent), consumed) == Consume(old(Retry(active, recent)), fp)
    {
      if active.None? { return false; }
      if active.value.fingerprint != fp { return false; }
      if active.value.remaining == 0 {
        active := None;
        return false;
      }
      active := Some(active.value.(remaining := active.value.remaining - 1));
      if active.value.remaining == 0 {
        recent := Some(fp);
        active := None;
      }
      consumed := true;
    }

    method MaybeArmRetryExhaustion(req: TxnRequest, fp: int, draw: bool) returns (armed: bool)
      modifies this`active, this`recent
      ensures (Retry(active, recent), armed) ==
              Arm(old(Retry(active, recent)), config, fp, req.compares != [] && req.success != [], draw)
    {
      if req.compares == [] || req.success == [] || config.attempts == 0
         || (recent.Some? && recent.value == fp) || !(config.enabled && draw) {
        return false;
      }
      var remaining := if config.attempts >= 1 then config.attempts - 1 else 0;
      if remaining == 0 {
        recent := Some(fp);
        active := None;
      } else {
        active := Some(Burst(fp, remaining));
        recent := None;
      }
      armed := true;
    }

    // -------------------------------------------------------------------
    // Transactions
    // -------------------------------------------------------------------

    method StagePut(ghost ops: seq<Op>, put: Op, staged: StagedTxn) returns (r: Result<StagedTxn>)
      requires put.Put? && Stages(S(), ops, staged) && StageError(leases, ops).None?
      ensures StageError(leases, ops + [put]) == if r.Err? then Some(r.error) else None
      ensures r.Ok? ==> Stages(S(), ops + [put], r.value)
    {
      assert (ops + [put])[..|ops|] == ops;
      if put.lease != 0 && put.lease !in leases { return Err(LeaseNotFound(put.lease)); }
      if put.key in staged.allPutKeys { return Err(DuplicateMutation(put.key)); }
      PutStages(S(), ops, staged, put);
      r := Ok(StagedTxn(staged.ops + [StagedPut(put)], staged.pendingPuts + {put.key},
                        staged.allPutKeys + {put.key}, true));
    }

    /** Matches the store as it was and the puts still pending, so that put-then-delete works. */
    method StageDelete(ghost ops: seq<Op>, op: Op, staged: StagedTxn) returns (r: StagedTxn)
      requires op.DeleteRange? && Inv(S()) && Stages(S(), ops, staged)
      ensures Stages(S(), ops + [op], r)
    {
      var keys := Matching(kvs, op.key, op.rangeEnd);
      if op.rangeEnd == [] {
        if op.key in staged.pendingPuts { keys := keys + {op.key}; }
      } else {
        keys := keys + Among(staged.pendingPuts, op.key, op.rangeEnd);
      }
      assert keys == Among(kvs.Keys + staged.pendingPuts, op.key, op.rangeEnd);
      DeleteStages(S(), ops, staged, op, keys);
      r := StagedTxn(staged.ops + [StagedDelete(keys)], staged.pendingPuts - keys, staged.allPutKeys,
                     staged.changed || keys != {});
    }

    method StageOne(ghost ops: seq<Op>, op: Op, staged: StagedTxn) returns (r: Result<StagedTxn>)
      requires Inv(S()) && Stages(S(), ops, staged) && StageError(leases, ops).None?
      ensures StageError(leases, ops + [op]) == if r.Err? then Some(r.error) else None
      ensures r.Ok? ==> Stages(S(), ops + [op], r.value)
    {
      assert (ops + [op])[..|ops|] == ops;
      match op
      case Put(_, _, _) => r := StagePut(ops, op, staged);
      case DeleteRange(_, _) =>
        var one := StageDelete(ops, op, staged);
        r := Ok(one);
      case Unsupported => r := Err(UnsupportedTxnOp);
    }

    method StageSuccessOps(ops: seq<Op>) returns (r: Result<StagedTxn>)
      requires Inv(S())
      ensures StageError(leases, ops) == if r.Err? then Some(r.error) else None
      ensures r.Ok? ==> Stages(S(), ops, r.value)
    {
      assert ops[..0] == [];
      r := Ok(NOTHING_STAGED);
      for i := 0 to |ops|
        invariant r.Ok? && Stages(S(), ops[..i], r.value) && StageError(leases, ops[..i]).None?
      {
        PrefixGrows(ops, i);
        r := StageOne(ops[..i], ops[i], r.value);
        StageErrorStays(leases, ops, i + 1);
        if r.Err? { return; }
      }
      assert ops[..|ops|] == ops;
    }

    method DeleteOne(ghost s: Store, ghost done: set<Bytes>, key: Bytes) returns (present: bool)
      requires Inv(s) && S() == DeleteKeys(s, done) && key !in done
      modifies this`kvs, this`leases
      ensures S() == DeleteKeys(s, done + {key}) && present == (key in s.kvs)
    {
      present := key in kvs;
      DeleteOneMore(s, done, key);
      DeleteKey(key);
    }

    /** Deletes keys one at a time, counting those that were present. */
    method DeleteStaged(keys: set<Bytes>) returns (deleted: nat)
      requires Inv(S())
      modifies this`kvs, this`leases
      ensures S() == DeleteKeys(old(S()), keys) && deleted == |keys * old(kvs).Keys|
    {
      ghost var s := S();
      ghost var done: set<Bytes> := {};
      var rest := keys;
      deleted := 0;
      DeleteNone(s, {});
      while rest != {}
        invariant Splits(keys, done, rest) && S() == DeleteKeys(s, done) && Counts(deleted, done, s.kvs.Keys)
        decreases rest
      {
        var key :| key in rest;
        DeleteTurn(keys, done, rest, key, s.kvs.Keys, deleted);
        var present := DeleteOne(s, done, key);
        if present { deleted := deleted + 1; }
        rest := rest - {key};
        done := done + {key};
      }
      assert done == keys;
    }

    /** Replays staged operations: the result is that of running the operations one by one. */
    method ApplyStagedTxn(staged: seq<StagedOp>, ghost before: Store, ghost ops: seq<Op>) returns (responses: seq<Response>)
      requires ResolvesAll(before, ops, staged) && StageError(before.leases, ops).None?
      requires S() == before.(revision := revision) && Inv(S())
      requires revision > 0 || forall i :: 0 <= i < |ops| ==> !ops[i].Put?
      modifies this`kvs, this`leases
      ensures (S(), responses) == RunOps(old(S()), ops)
    {
      ghost var s := S();
      responses := [];
      for i := 0 to |staged|
        invariant (S(), responses) == RunOps(s, ops[..i])
      {
        ghost var last := ops[..i + 1];
        assert last[..i] == ops[..i];
        ReplayStep(before, s, ops, i);
        match staged[i]
        case StagedPut(put) =>
          PutKey(put, revision);
          responses := responses + [PutDone];
        case StagedDelete(keys) =>
          DeletePresentOnly(S(), keys);
          var deleted := DeleteStaged(keys);
          responses := responses + [Deleted(deleted)];
      }
      assert ops[..|ops|] == ops;
    }

    /** Advances the clock and expires what has become due; the clock must not overflow. */
    method Tick(dt: u64)
      requires Valid() && now + dt <= U64_MAX
      modifies this`kvs, this`leases, this`revision, this`nextExpiry, this`now
      ensures Valid() && S() == Expired(old(S()).(now := old(now) + dt))
    {
      ClockKeepsInv(S(), now + dt);
      now := now + dt;
      var _ := ExpireDueLeases();
    }

    /** Lease expiry, and possibly one lost tick, before a transaction's compares. */
    method PrepareTxn(ttlRace: bool)
      requires Valid() && (ttlRace ==> now < U64_MAX)
      modifies this`kvs, this`leases, this`revision, this`nextExpiry, this`now
      ensures Valid() && S() == Ready(old(S()), ttlRace)
    {
      var _ := ExpireDueLeases();
      if ttlRace { Tick(1); }
    }

    /** Stages the operations and, if they all can be staged, applies them. */
    method CommitOps(ops: seq<Op>, uncertain: bool) returns (outcome: TxnOutcome)
      requires Inv(S())
      modifies this`kvs, this`leases, this`revision
      ensures S() == Commit(old(S()), ops).0 && outcome == Reported(Commit(old(S()), ops).1, ops, uncertain)
    {
      ghost var s := S();
      var staging := StageSuccessOps(ops);
      if staging.Err? { return Failed(staging.error); }
      var staged := staging.value;
      if staged.ops == [] { return Committed(revision, []); }
      NoMutationNoPut(s, ops);
      BumpKeepsInv(s);
      if staged.changed { revision := revision + 1; }
      var responses := ApplyStagedTxn(staged.ops, s, ops);
      if uncertain { return Failed(UncertainCommit); }
      outcome := Committed(revision, responses);
    }

    /** The retry machine and the compares; a result means the transaction stops here. */
    method PassGate(req: TxnRequest, f: Faults) returns (stopped: Option<TxnOutcome>)
      modifies this`active, this`recent
      ensures (Retry(active, recent), stopped) == Gate(old(State()), fingerprint(req), req, f)
    {
      if req.hasFailure { return Some(Failed(UnsupportedTxnOp)); }
      var fp := fingerprint(req);
      var possible := active.Some? || recent.Some? || (config.enabled && config.attempts > 0);
      if possible {
        ClearRetryExhaustionForOtherTxn(fp);
        var consumed := ConsumeRetryExhaustion(fp);
        if consumed { return Some(NotSucceeded(revision)); }
      }
      var compares := EvaluateCompares(kvs, req.compares);
      if compares.Err? { return Some(Failed(compares.error)); }
      if !compares.value { return Some(NotSucceeded(revision)); }
      if req.compares != [] && f.casMiss { return Some(NotSucceeded(revision)); }
      if possible {
        var armed := MaybeArmRetryExhaustion(req, fp, f.exhaust);
        if armed { return Some(NotSucceeded(revision)); }
      }
      stopped := None;
    }

    /** A transaction under the drawn faults; what it does is fixed by the transition function. */
    method Txn(req: TxnRequest, f: Faults) returns (outcome: TxnOutcome)
      requires Valid() && (f.ttlRace ==> now < U64_MAX)
      modifies this
      ensures Valid() && (State(), outcome) == EtcdSteps.Txn(old(State()), fingerprint(req), req, f)
    {
      TxnKeepsInv(State(), fingerprint(req), req, f);
      if f.transport {
        var _ := ExpireDueLeases();
        return Failed(FaultInjected);
      }
      PrepareTxn(f.ttlRace);
      var stopped := PassGate(req, f);
      if stopped.Some? { return stopped.value; }
      CommitKeepsExpiries(S(), req.success, nextExpiry);
      outcome := CommitOps(req.success, f.uncertain);
    }

    // -------------------------------------------------------------------
    // Leases, time and reads
    // -------------------------------------------------------------------

    method LeaseGrant(ttl: int, fault: bool) returns (r: Result<int>)
      requires Valid() && ttl <= I64_MAX
      modifies this`kvs, this`leases, this`revision, this`nextExpiry, this`nextLeaseId
      ensures Valid() && S() == Grant(old(S()), ttl, fault)
      ensures var error := GrantError(Expired(old(S())), ttl, fault);
              r == if error.Some? then Err(error.value) else Ok(old(nextLeaseId))
      ensures r.Ok? ==> r.value !in old(leases)
    {
      var _ := ExpireDueLeases();
      if fault { return Err(FaultInjected); }
      if ttl <= 0 { return Err(InvalidLeaseTtl); }
      if nextLeaseId >= I64_MAX { return Err(LeaseIdExhausted); }
      r := Ok(nextLeaseId);
      InsertLease(ttl);
    }

    method InsertLease(ttl: u64)
      requires Valid() && nextLeaseId < I64_MAX
      modifies this`leases, this`nextExpiry, this`nextLeaseId
      ensures Valid() && S() == old(S()).(leases := old(leases)[old(nextLeaseId) := Lease(ttl, SatAdd(now, ttl), {})],
                                          nextLeaseId := old(nextLeaseId) + 1)
    {
      var id := nextLeaseId;
      nextLeaseId := nextLeaseId + 1;
      var expiresAt := SatAdd(now, ttl);
      AddLeaseKeepsInv(old(S()), Lease(ttl, expiresAt, {}));
      leases := leases[id := Lease(ttl, expiresAt, {})];
      if expiresAt < nextExpiry { nextExpiry := expiresAt; }
    }

    method LeaseKeepAliveOnce(id: int, fault: bool) returns (r: Result<()>)
      requires Valid()
      modifies this`kvs, this`leases, this`revision, this`nextExpiry
      ensures Valid() && S() == KeepAlive(old(S()), id, fault)
      ensures r == if fault then Err(FaultInjected)
                   else if id !in Expired(old(S())).leases then Err(LeaseNotFound(id)) else Ok(())
    {
      KeepAliveKeepsInv(S(), id, fault);
      var _ := ExpireDueLeases();
      if fault { return Err(FaultInjected); }
      if id !in leases { return Err(LeaseNotFound(id)); }
      var expiresAt := SatAdd(now, leases[id].ttl);
      leases := leases[id := leases[id].(expiresAt := expiresAt)];
      if expiresAt < nextExpiry { nextExpiry := expiresAt; }
      r := Ok(());
    }

    /** Revokes a lease; the answer carries the store's revision afterwards. */
    method LeaseRevoke(id: int, fault: bool) returns (r: Result<nat>)
      requires Valid()
      modifies this`kvs, this`leases, this`revision, this`nextExpiry
      ensures Valid() && S() == Revoke(old(S()), id, fault)
      ensures r == if fault then Err(FaultInjected)
                   else if id !in Expired(old(S())).leases then Err(LeaseNotFound(id)) else Ok(revision)
    {
      RevokeKeepsInv(S(), id, fault);
      var _ := ExpireDueLeases();
      if fault { return Err(FaultInjected); }
      if id !in leases { return Err(LeaseNotFound(id)); }
      DropNone(S());
      var _ := DropOne(S(), {}, id);
      assert {} + {id} == {id};
      r := Ok(revision);
    }

    method SetTime(t: u64)
      requires Valid() && now <= t
      modifies this`now
      ensures Valid() && S() == old(S()).(now := t)
    {
      ClockKeepsInv(S(), t);
      now := t;
    }

    method SetFaultConfig(config: RetryConfig)
      requires Valid()
      modifies this`config, this`active, this`recent
      ensures Valid() && State() == SimState(old(S()), IDLE, config)
    {
      this.config := config;
      active, recent := None, None;
    }

    /** Reads see the store without its due keys. */
    method Get(key: Bytes, rangeEnd: Bytes, options: GetOptions, fault: bool) returns (r: Result<GetResponse>)
      requires Valid()
      modifies this`kvs, this`leases, this`revision, this`nextExpiry
      ensures Valid() && S() == Expired(old(S()))
      ensures fault ==> r == Err(FaultInjected)
      ensures !fault && !options.Supported() ==> r == Err(UnsupportedGetOption)
      ensures !fault && options.Supported() ==> r.Ok? && IsRead(S(), key, rangeEnd, options, r.value)
    {
      var _ := ExpireDueLeases();
      if fault { return Err(FaultInjected); }
      if !options.Supported() { return Err(UnsupportedGetOption); }
      var matched := InOrder(Matching(kvs, key, rangeEnd));
      var all := Filtered(kvs, matched, options);
      assert ListsWanted(S(), key, rangeEnd, options, all);
      var count := options.Taken(|all|);
      var page := seq(count, (i: nat) requires i < count && all[i] in kvs reads this`kvs =>
                        KeyValue(all[i], Shown(kvs[all[i]], options.keysOnly)));
      r := Ok(GetResponse(revision, page, !options.countOnly && count < |all|, |all|));
      assert Shows(S(), options, all, r.value);
    }
  }

  /** The keys whose entries pass the revision bounds, in the order given. */
  method Filtered(kvs: map<Bytes, KvEntry>, keys: seq<Bytes>, options: GetOptions) returns (all: seq<Bytes>)
    requires Increasing(keys) && forall k :: k in keys ==> k in kvs
    ensures Increasing(all) && forall k :: k in all <==> k in keys && options.Passes(kvs[k])
  {
    all := [];
    for i := 0 to |keys|
      invariant Increasing(all)
      invariant forall k :: k in all <==> k in keys[..i] && options.Passes(kvs[k])
    {
      assert keys[..i + 1] == keys[..i] + [keys[i]];
      assert keys[i] in keys;
      if options.Passes(kvs[keys[i]]) {
        forall j | 0 <= j < |all| ensures Less(all[j], keys[i]) {
          assert all[j] in all;
          var m :| 0 <= m < i && keys[m] == all[j];
        }
        all := all + [keys[i]];
      }
    }
    assert keys[..|keys|] == keys;
  }

  ghost predicate Precedes(done: set<int>, rest: set<int>) {
    forall l, m :: l in done && m in rest ==> l < m
  }

  lemma SweepTurn(due: set<int>, done: set<int>, rest: set<int>, id: int)
    requires done + rest == due && Precedes(done, rest) && id in rest && forall x :: x in rest ==> id <= x
    ensures (done + {id}) + (rest - {id}) == due && Precedes(done + {id}, rest - {id})
    ensures id !in done && forall l :: l in done ==> l < id
  {
  }

  /** The leases of `ids` that held keys, in ascending order. */
  ghost predicate IsDropLog(s: Store, ids: set<int>, dropped: seq<int>) {
    && (forall i, j :: 0 <= i < j < |dropped| ==> dropped[i] < dropped[j])
    && (forall l :: l in dropped <==> l in NonEmpty(s, ids))
  }

  lemma DropLogGrows(s: Store, done: set<int>, dropped: seq<int>, id: int)
    requires IsDropLog(s, done, dropped) && id in s.leases && forall l :: l in done ==> l < id
    ensures IsDropLog(s, done + {id}, if s.leases[id].attached != {} then dropped + [id] else dropped)
  {
    forall i | 0 <= i < |dropped| ensures dropped[i] in done { assert dropped[i] in dropped; }
    assert NonEmpty(s, done + {id}) == NonEmpty(s, done) + NonEmpty(s, {id});
  }

  ghost predicate NoExpiryBefore(leases: map<int, Lease>, t: u64) {
    forall l :: l in leases ==> t <= leases[l].expiresAt
  }

  ghost predicate Splits(keys: set<Bytes>, done: set<Bytes>, rest: set<Bytes>) {
    done !! rest && done + rest == keys
  }

  ghost predicate Counts(n: nat, done: set<Bytes>, live: set<Bytes>) {
    n == |done * live|
  }

  lemma DeleteTurn(keys: set<Bytes>, done: set<Bytes>, rest: set<Bytes>, key: Bytes, live: set<Bytes>, n: nat)
    requires Splits(keys, done, rest) && key in rest && Counts(n, done, live)
    ensures key !in done && Splits(keys, done + {key}, rest - {key})
    ensures Counts(if key in live then n + 1 else n, done + {key}, live)
  {
    assert (done + {key}) * live == done * live + (if key in live then {key} else {});
  }

  lemma PrefixGrows(ops: seq<Op>, i: nat)
    requires i < |ops|
    ensures ops[..i + 1] == ops[..i] + [ops[i]]
  {
  }

  /** A staging error in a prefix is the error of the whole. */
  lemma {:induction false} StageErrorStays(leases: map<int, Lease>, ops: seq<Op>, n: nat)
    requires n <= |ops|
    ensures StageError(leases, ops[..n]).Some? ==> StageError(leases, ops) == StageError(leases, ops[..n])
    decreases |ops|
  {
    if n < |ops| {
      assert ops[..|ops| - 1][..n] == ops[..n];
      StageErrorStays(leases, ops[..|ops| - 1], n);
    } else {
      assert ops[..n] == ops;
    }
  }

  /** What the replay of operation `i` can rely on. */
  lemma ReplayStep(before: Store, s: Store, ops: seq<Op>, i: nat)
    requires Inv(s) && i < |ops| && s == before.(revision := s.revision)
    requires StageError(before.leases, ops).None?
    requires s.revision > 0 || forall i :: 0 <= i < |ops| ==> !ops[i].Put?
    ensures var t := RunOps(s, ops[..i]).0;
            Inv(t) && t.kvs.Keys == KeysAfter(before, ops[..i]) && t.leases.Keys == before.leases.Keys
    ensures ops[i].Put? ==> ops[i].lease == 0 || ops[i].lease in before.leases
  {
    StageErrorStays(before.leases, ops, i);
    StageErrorStays(before.leases, ops, i + 1);
    assert ops[..i + 1][..i] == ops[..i];
    RunOpsKeepsInv(s, ops[..i]);
    KeysIgnoreRevision(before, s.revision, ops[..i]);
  }

  /** Transactions move keys between leases but leave every expiry alone. */
  lemma {:induction false} RunOpsKeepsExpiries(s: Store, ops: seq<Op>, t: u64)
    requires NoExpiryBefore(s.leases, t)
    ensures NoExpiryBefore(RunOps(s, ops).0.leases, t)
    decreases |ops|
  {
    if ops != [] { RunOpsKeepsExpiries(s, ops[..|ops| - 1], t); }
  }

  lemma CommitKeepsExpiries(s: Store, ops: seq<Op>, t: u64)
    requires NoExpiryBefore(s.leases, t)
    ensures NoExpiryBefore(Commit(s, ops).0.leases, t)
  {
    RunOpsKeepsExpiries(if Mutates(s, ops) then s.(revision := s.revision + 1) else s, ops, t);
  }
}
