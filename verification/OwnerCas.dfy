/** Owner-fenced compare-and-swap: the guards clients put on shard updates, over every run of the store. */
module OwnerCas {
  import opened Bytes
  import opened EtcdStore
  import opened EtcdSteps
  import opened EtcdRuns
  import opened LostReply
  import RetryMachine
  import ShardCodec

  function CompareRevision(key: Bytes, modRevision: int): Compare { Compare(key, [], IsEqual, ModRevision(modRevision)) }

  function CompareAbsent(key: Bytes): Compare { Compare(key, [], IsEqual, Version(0)) }

  function ComparePresent(key: Bytes): Compare { Compare(key, [], IsGreater, Version(0)) }

  /** The owner key exists, binds this worker at this fence, and hangs on this lease. */
  function CompareOwnerPresent(key: Bytes, owner: ShardCodec.Owner, lease: int): seq<Compare> {
    [ComparePresent(key), Compare(key, [], IsEqual, Value(ShardCodec.EncodeOwner(owner))),
     Compare(key, [], IsEqual, LeaseId(lease))]
  }

  function BuildShardOwnerCas(shardKey: Bytes, ownerKey: Bytes, modRevision: int, owner: ShardCodec.Owner, lease: int)
    : seq<Compare>
  {
    [CompareRevision(shardKey, modRevision)] + CompareOwnerPresent(ownerKey, owner, lease)
  }

  /** A request carries these guards, perhaps among others. */
  ghost predicate Carries(req: TxnRequest, guards: seq<Compare>) {
    forall i :: 0 <= i < |guards| ==> guards[i] in req.compares
  }

  lemma GuardHolds(kvs: map<Bytes, KvEntry>, req: TxnRequest, guard: Compare)
    requires EvaluateAll(kvs, req.compares) == Ok(true) && guard in req.compares
    ensures EvaluateCompare(kvs, guard) == Ok(true)
  {
    var i :| 0 <= i < |req.compares| && req.compares[i] == guard;
    AllComparesHold(kvs, req.compares, i);
  }

  /** What the guards say about the store a transaction commits on. */
  lemma OwnerGuardsMean(kvs: map<Bytes, KvEntry>, req: TxnRequest, shardKey: Bytes, ownerKey: Bytes, m: int,
                        owner: ShardCodec.Owner, lease: int)
    requires EvaluateAll(kvs, req.compares) == Ok(true) && m > 0 && lease != 0
    requires Carries(req, BuildShardOwnerCas(shardKey, ownerKey, m, owner, lease))
    ensures shardKey in kvs && kvs[shardKey].modRevision == m
    ensures ownerKey in kvs && kvs[ownerKey].value == ShardCodec.EncodeOwner(owner) && kvs[ownerKey].lease == lease
  {
    var guards := BuildShardOwnerCas(shardKey, ownerKey, m, owner, lease);
    assert guards[0] == CompareRevision(shardKey, m) && guards[1] == ComparePresent(ownerKey);
    assert guards[2] == Compare(ownerKey, [], IsEqual, Value(ShardCodec.EncodeOwner(owner)));
    assert guards[3] == Compare(ownerKey, [], IsEqual, LeaseId(lease));
    GuardHolds(kvs, req, guards[0]);
    GuardHolds(kvs, req, guards[2]);
    GuardHolds(kvs, req, guards[3]);
  }

  /**
   * Whatever happens between reading a shard at state `i` and committing at step `j`: a committed
   * transaction that carries the owner guards ran on the very shard entry that was read, unchanged in
   * every state in between, and the owner key still named the same worker and fence on the same
   * lease, which was live and not due.
   */
  lemma OwnerCasCommitsOnWhatWasRead(states: seq<SimState>, actions: seq<Action>, i: nat, j: nat, shardKey: Bytes,
                                     ownerKey: Bytes, owner: ShardCodec.Owner, lease: int)
    requires IsRun(states, actions) && i <= j < |actions| && CommitsAt(states, actions, j)
    requires shardKey in states[i].store.kvs && lease != 0 && owner.fence >= ShardCodec.INITIAL_FENCE
    requires Carries(actions[j].request,
                     BuildShardOwnerCas(shardKey, ownerKey, states[i].store.kvs[shardKey].modRevision, owner, lease))
    ensures var s := Ready(states[j].store, actions[j].faults.ttlRace);
            && shardKey in s.kvs && s.kvs[shardKey] == states[i].store.kvs[shardKey]
            && ownerKey in s.kvs && ShardCodec.DecodeOwner(s.kvs[ownerKey].value) == Ok(owner)
            && s.kvs[ownerKey].lease == lease && lease in s.leases
            && ownerKey in s.leases[lease].attached && s.leases[lease].expiresAt > s.now
    ensures forall n :: i <= n <= j ==>
              shardKey in states[n].store.kvs && states[n].store.kvs[shardKey] == states[i].store.kvs[shardKey]
  {
    var read := states[i].store.kvs[shardKey];
    var a := actions[j];
    var s := Ready(states[j].store, a.faults.ttlRace);
    RunKeepsInv(states, actions, i);
    RunKeepsInv(states, actions, j);
    TxnIsAtomic(states[j], a.fingerprint, a.request, a.faults);
    OwnerGuardsMean(s.kvs, a.request, shardKey, ownerKey, read.modRevision, owner, lease);
    ShardCodec.OwnerRoundTrip(owner);
    DueKeysAreNeverSeen(states, actions, j, ownerKey);
    ReadyAdvances(states[j].store, a.faults.ttlRace);
    forall n | i <= n <= j
      ensures shardKey in states[n].store.kvs && states[n].store.kvs[shardKey] == read && s.kvs[shardKey] == read
    {
      EntryHeldSince(states, actions, i, n, j, s, shardKey);
    }
  }

  /** An entry seen again later with the revision it had at `i` is the same entry, at `n` as well. */
  lemma EntryHeldSince(states: seq<SimState>, actions: seq<Action>, i: nat, n: nat, j: nat, s: Store, k: Bytes)
    requires IsRun(states, actions) && i <= n <= j < |states| && Advances(states[j].store, s)
    requires k in states[i].store.kvs && k in s.kvs && s.kvs[k].modRevision == states[i].store.kvs[k].modRevision
    ensures k in states[n].store.kvs && states[n].store.kvs[k] == states[i].store.kvs[k] == s.kvs[k]
  {
    RunKeepsInv(states, actions, i);
    RunAdvances(states, actions, i, n);
    RunAdvances(states, actions, n, j);
    AdvancesTransitive(states[n].store, states[j].store, s);
    AdvancesTransitive(states[i].store, states[n].store, s);
  }

  /** An update of a shard that some worker bases on revision `m`, fenced by whatever owner and lease it holds. */
  ghost predicate OwnerGuarded(req: TxnRequest, shardKey: Bytes, m: int) {
    && Touches(req.success, shardKey)
    && exists ownerKey, owner, lease :: Carries(req, BuildShardOwnerCas(shardKey, ownerKey, m, owner, lease))
  }

  /** Of all owner-guarded updates based on one read of a shard, by whichever workers, at most one takes effect. */
  lemma OneUpdatePerRead(states: seq<SimState>, actions: seq<Action>, i: nat, j: nat, shardKey: Bytes, m: int)
    requires IsRun(states, actions) && i < j < |actions| && m > 0 && actions[i].DoTxn? && actions[j].DoTxn?
    requires OwnerGuarded(actions[i].request, shardKey, m) && OwnerGuarded(actions[j].request, shardKey, m)
    ensures !(CommitsAt(states, actions, i) && CommitsAt(states, actions, j))
  {
    PinsTheShard(actions[i].request, shardKey, m);
    PinsTheShard(actions[j].request, shardKey, m);
    GuardCommitsOnce(states, actions, i, j, shardKey, m);
  }

  lemma PinsTheShard(req: TxnRequest, shardKey: Bytes, m: int)
    requires OwnerGuarded(req, shardKey, m)
    ensures Guards(req, shardKey, m)
  {
    var ownerKey, owner, lease :| Carries(req, BuildShardOwnerCas(shardKey, ownerKey, m, owner, lease));
    assert BuildShardOwnerCas(shardKey, ownerKey, m, owner, lease)[0] == CompareRevision(shardKey, m);
  }

  /** Sending an owner-guarded update again after it took effect has no second effect. */
  lemma OwnerCasRetryFails(st: SimState, fp: int, req: TxnRequest, f: Faults, lost: bool, shardKey: Bytes, m: int)
    requires StateInv(st) && (f.ttlRace ==> st.store.now < U64_MAX) && Commits(st, fp, req, f)
    requires m > 0 && OwnerGuarded(req, shardKey, m)
    ensures !Commits(Txn(st, fp, req, f).0, fp, req, Calm(lost))
  {
    PinsTheShard(req, shardKey, m);
    TxnIsAtomic(st, fp, req, f);
    ReadyKeepsInv(st.store, f.ttlRace);
    PinnedIsNotRepeatable(Ready(st.store, f.ttlRace), req, shardKey, m);
    RetryCommitsIff(st, fp, req, f, lost);
  }

  // ---------------------------------------------------------------------
  // Guards that do not pin a revision
  // ---------------------------------------------------------------------

  /** A create guarded by absence takes effect again only after the key it made was removed. */
  lemma CreateRepeatsOnlyAfterRemoval(states: seq<SimState>, actions: seq<Action>, i: nat, j: nat, k: Bytes) returns (n: nat)
    requires IsRun(states, actions) && i < j < |actions| && CommitsAt(states, actions, j)
    requires k in states[i].store.kvs && CompareAbsent(k) in actions[j].request.compares
    ensures i <= n <= j && k in states[n].store.kvs
    ensures k !in if n == j then Ready(states[j].store, actions[j].faults.ttlRace).kvs else states[n + 1].store.kvs
  {
    var b := actions[j];
    var s := Ready(states[j].store, b.faults.ttlRace);
    RunKeepsInv(states, actions, j);
    ReadyKeepsInv(states[j].store, b.faults.ttlRace);
    TxnIsAtomic(states[j], b.fingerprint, b.request, b.faults);
    GuardHolds(s.kvs, b.request, CompareAbsent(k));
    assert k !in s.kvs;
    n := i;
    while n < j && k in states[n + 1].store.kvs
      invariant i <= n <= j && k in states[n].store.kvs
    {
      n := n + 1;
    }
  }

  /** A transaction that checks one key and writes another. */
  const UNPINNED: TxnRequest := TxnRequest([CompareAbsent([1])], [Put([2], [], 0)], false)

  /** Guards on other keys than the written ones do not stop a retry after a lost reply. */
  lemma UnpinnedRetryCommitsTwice(config: RetryMachine.RetryConfig)
    ensures var first := SimState(EMPTY, RetryMachine.IDLE, config);
            && StateInv(first) && Commits(first, 0, UNPINNED, Calm(true))
            && Commits(Txn(first, 0, UNPINNED, Calm(true)).0, 0, UNPINNED, Calm(true))
  {
    var first := SimState(EMPTY, RetryMachine.IDLE, config);
    assert Due(EMPTY) == {};
    DropNone(EMPTY);
    assert UNPINNED.compares[1..] == [] && UNPINNED.success[..0] == [];
    CalmCommitsIff(first, 0, UNPINNED, true);
    ElsewhereIsRepeatable(EMPTY, UNPINNED);
    RetryCommitsIff(first, 0, UNPINNED, Calm(true), true);
  }
}
