/** Safety of every run of the simulated store: revisions, compare-and-swap and leases. */
module EtcdRuns {
  import opened Bytes
  import opened EtcdStore
  import opened RetryMachine
  import opened EtcdSteps

  /** States joined by steps; `states[i + 1]` is what action `i` makes of `states[i]`. */
  ghost predicate IsRun(states: seq<SimState>, actions: seq<Action>) {
    && |states| == |actions| + 1
    && StateInv(states[0])
    && forall i {:trigger actions[i]} ::
         0 <= i < |actions| ==> CanStep(states[i], actions[i]) && states[i + 1] == Step(states[i], actions[i])
  }

  /** Lease bookkeeping, revisions and the fault machine are consistent in every state of every run. */
  lemma {:induction false} RunKeepsInv(states: seq<SimState>, actions: seq<Action>, i: nat)
    requires IsRun(states, actions) && i < |states|
    ensures StateInv(states[i])
  {
    if i > 0 {
      RunKeepsInv(states, actions, i - 1);
      StepKeepsInv(states[i - 1], actions[i - 1]);
    }
  }

  // ---------------------------------------------------------------------
  // How stores evolve
  // ---------------------------------------------------------------------

  /** Every surviving entry is the old one or carries a revision that had not been reached. */
  ghost predicate Stamped(s: Store, t: Store) {
    forall k :: k in t.kvs ==> (k in s.kvs && s.kvs[k] == t.kvs[k]) || t.kvs[k].modRevision > s.revision
  }

  /** Time, revisions and lease ids only grow; equal revisions mean equal contents; lease ids are not reused. */
  ghost predicate Advances(s: Store, t: Store) {
    && s.revision <= t.revision && s.now <= t.now && s.nextLeaseId <= t.nextLeaseId
    && Stamped(s, t)
    && (s.revision == t.revision ==> s.kvs == t.kvs)
    && (forall l :: l in t.leases ==> l in s.leases || l >= s.nextLeaseId)
  }

  lemma AdvancesTransitive(s: Store, t: Store, u: Store)
    requires Advances(s, t) && Advances(t, u)
    ensures Advances(s, u)
  {
  }

  lemma DropAdvances(s: Store, ids: set<int>)
    requires Inv(s) && ids <= s.leases.Keys
    ensures Advances(s, DropLeases(s, ids))
  {
    var t := DropLeases(s, ids);
    if t.revision == s.revision {
      assert NonEmpty(s, ids) == {};
      forall k | k in s.kvs ensures s.kvs[k].lease !in ids {
        assert s.kvs[k].lease !in NonEmpty(s, ids);
      }
      assert t.kvs == s.kvs;
    }
  }

  lemma SweepAdvances(s: Store)
    requires Inv(s)
    ensures Advances(s, Expired(s))
  {
    DropAdvances(s, Due(s));
  }

  lemma TickAdvances(s: Store, t: u64)
    requires Inv(s) && s.now <= t
    ensures Advances(s, Expired(s.(now := t)))
  {
    var ticked := s.(now := t);
    SweepAdvances(ticked);
    AdvancesTransitive(s, ticked, Expired(ticked));
  }

  lemma ReadyAdvances(s: Store, ttlRace: bool)
    requires Inv(s) && (ttlRace ==> s.now < U64_MAX)
    ensures Advances(s, Ready(s, ttlRace))
  {
    SweepAdvances(s);
    if ttlRace {
      NothingDueAfterSweep(s);
      TickAdvances(Expired(s), s.now + 1);
      AdvancesTransitive(s, Expired(s), Ready(s, true));
    }
  }

  /** Operations stamp what they write with the store's revision and touch nothing else. */
  lemma {:induction false} RunOpsStamp(s: Store, ops: seq<Op>)
    ensures var t := RunOps(s, ops).0;
            forall k :: k in t.kvs ==> (k in s.kvs && s.kvs[k] == t.kvs[k]) || t.kvs[k].modRevision == s.revision
    ensures RunOps(s, ops).0.revision == s.revision
    decreases |ops|
  {
    if ops != [] { RunOpsStamp(s, ops[..|ops| - 1]); }
  }

  lemma {:induction false} NoMutationNoChange(s: Store, ops: seq<Op>)
    requires Inv(s) && !Mutates(s, ops)
    ensures RunOps(s, ops).0 == s
    decreases |ops|
  {
    if ops != [] {
      var n := |ops| - 1;
      forall i | 0 <= i < n ensures !MutatesAt(s, ops[..n], i) {
        assert ops[..n][..i] == ops[..i];
        assert !MutatesAt(s, ops, i);
      }
      NoMutationNoChange(s, ops[..n]);
      assert !MutatesAt(s, ops, n);
      if ops[n].DeleteRange? { DeleteNone(s, {}); }
    }
  }

  lemma CommitAdvances(s: Store, ops: seq<Op>)
    requires Inv(s)
    ensures Advances(s, Commit(s, ops).0)
  {
    if StageError(s.leases, ops).None? {
      if Mutates(s, ops) {
        var bumped := s.(revision := s.revision + 1);
        RunOpsStamp(bumped, ops);
        RunOpsKeepsInv(bumped, ops);
      } else {
        NoMutationNoChange(s, ops);
      }
    }
  }

  lemma TxnAdvances(st: SimState, fp: int, req: TxnRequest, f: Faults)
    requires StateInv(st) && (f.ttlRace ==> st.store.now < U64_MAX)
    ensures Advances(st.store, Txn(st, fp, req, f).0.store)
  {
    TxnIsAtomic(st, fp, req, f);
    AnyOutcomeAdvances(st.store, f.ttlRace, req.success, Txn(st, fp, req, f).0.store);
  }

  lemma AnyOutcomeAdvances(s: Store, ttlRace: bool, ops: seq<Op>, t: Store)
    requires Inv(s) && (ttlRace ==> s.now < U64_MAX)
    requires t == Expired(s) || t == Ready(s, ttlRace) || t == Commit(Ready(s, ttlRace), ops).0
    ensures Advances(s, t)
  {
    if t == Expired(s) { SweepAdvances(s); }
    else {
      ReadyAdvances(s, ttlRace);
      ReadyKeepsInv(s, ttlRace);
      CommitAdvances(Ready(s, ttlRace), ops);
      AdvancesTransitive(s, Ready(s, ttlRace), Commit(Ready(s, ttlRace), ops).0);
    }
  }

  lemma LeaseStepsAdvance(s: Store, ttl: int, lease: int, fault: bool)
    requires Inv(s)
    ensures ttl <= I64_MAX ==> Advances(s, Grant(s, ttl, fault))
    ensures Advances(s, KeepAlive(s, lease, fault)) && Advances(s, Revoke(s, lease, fault))
  {
    SweepAdvances(s);
    NothingDueAfterSweep(s);
    if lease in Expired(s).leases {
      DropAdvances(Expired(s), {lease});
      AdvancesTransitive(s, Expired(s), DropLeases(Expired(s), {lease}));
    }
  }

  lemma StepAdvances(st: SimState, a: Action)
    requires StateInv(st) && CanStep(st, a)
    ensures Advances(st.store, Step(st, a).store)
  {
    match a
    case DoTxn(fp, req, f) => TxnAdvances(st, fp, req, f);
    case DoGet => SweepAdvances(st.store);
    case DoGrant(ttl, fault) => LeaseStepsAdvance(st.store, ttl, 0, fault);
    case DoKeepAlive(lease, fault) => LeaseStepsAdvance(st.store, 0, lease, fault);
    case DoRevoke(lease, fault) => LeaseStepsAdvance(st.store, 0, lease, fault);
    case DoTick(dt) => TickAdvances(st.store, st.store.now + dt);
    case DoSetTime(t) =>
    case DoSetConfig(_) =>
  }

  lemma {:induction false} RunAdvances(states: seq<SimState>, actions: seq<Action>, i: nat, j: nat)
    requires IsRun(states, actions) && i <= j < |states|
    ensures Advances(states[i].store, states[j].store)
    decreases j
  {
    RunKeepsInv(states, actions, i);
    if i < j {
      RunAdvances(states, actions, i, j - 1);
      RunKeepsInv(states, actions, j - 1);
      StepAdvances(states[j - 1], actions[j - 1]);
      AdvancesTransitive(states[i].store, states[j - 1].store, states[j].store);
    }
  }

  /** In every run the store's contents are determined by its revision. */
  lemma RevisionDeterminesContents(states: seq<SimState>, actions: seq<Action>, i: nat, j: nat)
    requires IsRun(states, actions) && i < |states| && j < |states|
    requires states[i].store.revision == states[j].store.revision
    ensures states[i].store.kvs == states[j].store.kvs
  {
    if i <= j { RunAdvances(states, actions, i, j); } else { RunAdvances(states, actions, j, i); }
  }

  // ---------------------------------------------------------------------
  // What a transaction leaves behind
  // ---------------------------------------------------------------------

  /** Operation `i` is the last one that writes or deletes `k`. */
  ghost predicate IsLastTouch(ops: seq<Op>, k: Bytes, i: nat) {
    i < |ops| && TouchesOp(ops[i], k) && forall j :: i < j < |ops| ==> !TouchesOp(ops[j], k)
  }

  /** The last write wins: a key holds what its last put gave it, is gone after a delete, else is as before. */
  lemma {:induction false} LastWriteWins(s: Store, ops: seq<Op>, k: Bytes, i: nat)
    requires IsLastTouch(ops, k, i)
    ensures var t := RunOps(s, ops).0;
            match ops[i]
            case Put(_, value, lease) =>
              k in t.kvs && t.kvs[k].value == value && t.kvs[k].lease == lease && t.kvs[k].modRevision == s.revision
            case DeleteRange(_, _) => k !in t.kvs
            case Unsupported => true
    decreases |ops|
  {
    var n := |ops| - 1;
    RunOpsStamp(s, ops[..n]);
    if i < n {
      assert ops[..n][i] == ops[i];
      assert forall j :: i < j < n ==> ops[..n][j] == ops[j];
      LastWriteWins(s, ops[..n], k, i);
    }
  }

  lemma {:induction false} UntouchedStays(s: Store, ops: seq<Op>, k: Bytes)
    requires forall j :: 0 <= j < |ops| ==> !TouchesOp(ops[j], k)
    ensures var t := RunOps(s, ops).0; (k in t.kvs <==> k in s.kvs) && (k in s.kvs ==> t.kvs[k] == s.kvs[k])
    decreases |ops|
  {
    if ops != [] {
      var n := |ops| - 1;
      assert forall j :: 0 <= j < n ==> ops[..n][j] == ops[j];
      UntouchedStays(s, ops[..n], k);
      assert !TouchesOp(ops[n], k);
    }
  }

  // ---------------------------------------------------------------------
  // Incarnations and versions
  // ---------------------------------------------------------------------

  /** The same incarnation of a key, untouched or with a higher version unless that has saturated. */
  ghost predicate Newer(e: KvEntry, f: KvEntry) {
    e.createRevision == f.createRevision && (e == f || f.version > e.version || f.version >= I64_MAX)
  }

  /** Every entry continues an incarnation or begins one at a revision that had not been reached. */
  ghost predicate Descends(s: Store, t: Store) {
    && s.revision <= t.revision
    && forall k :: k in t.kvs ==> (k in s.kvs && Newer(s.kvs[k], t.kvs[k])) || t.kvs[k].createRevision > s.revision
  }

  lemma DescendsTransitive(s: Store, t: Store, u: Store)
    requires Descends(s, t) && Descends(t, u)
    ensures Descends(s, u)
  {
    forall k | k in u.kvs
      ensures (k in s.kvs && Newer(s.kvs[k], u.kvs[k])) || u.kvs[k].createRevision > s.revision
    {
      assert (k in t.kvs && Newer(t.kvs[k], u.kvs[k])) || u.kvs[k].createRevision > t.revision;
    }
  }

  lemma {:induction false} RunOpsDescend(s: Store, ops: seq<Op>)
    ensures var t := RunOps(s, ops).0;
            forall k :: k in t.kvs ==> (k in s.kvs && Newer(s.kvs[k], t.kvs[k])) || t.kvs[k].createRevision == s.revision
    decreases |ops|
  {
    if ops != [] {
      RunOpsDescend(s, ops[..|ops| - 1]);
      RunOpsStamp(s, ops[..|ops| - 1]);
    }
  }

  lemma ReadyDescends(s: Store, ttlRace: bool)
    requires Inv(s) && (ttlRace ==> s.now < U64_MAX)
    ensures Descends(s, Expired(s)) && Descends(s, Ready(s, ttlRace))
  {
  }

  lemma CommitDescends(s: Store, ops: seq<Op>)
    requires Inv(s)
    ensures Descends(s, Commit(s, ops).0)
  {
    CommitAdvances(s, ops);
    if StageError(s.leases, ops).None? {
      if Mutates(s, ops) {
        RunOpsDescend(s.(revision := s.revision + 1), ops);
      } else {
        NoMutationNoChange(s, ops);
      }
    }
  }

  lemma TxnDescends(st: SimState, fp: int, req: TxnRequest, f: Faults)
    requires StateInv(st) && (f.ttlRace ==> st.store.now < U64_MAX)
    ensures Descends(st.store, Txn(st, fp, req, f).0.store)
  {
    TxnIsAtomic(st, fp, req, f);
    var s := Ready(st.store, f.ttlRace);
    ReadyDescends(st.store, f.ttlRace);
    ReadyAdvances(st.store, f.ttlRace);
    ReadyKeepsInv(st.store, f.ttlRace);
    CommitDescends(s, req.success);
    DescendsTransitive(st.store, s, Commit(s, req.success).0);
  }

  lemma StepDescends(st: SimState, a: Action)
    requires StateInv(st) && CanStep(st, a)
    ensures Descends(st.store, Step(st, a).store)
  {
    StepAdvances(st, a);
    if a.DoTxn? { TxnDescends(st, a.fingerprint, a.request, a.faults); }
  }

  /** Along any run, a key seen twice is one incarnation whose version tells writes apart, or was created anew in between. */
  lemma {:induction false} RunDescends(states: seq<SimState>, actions: seq<Action>, i: nat, j: nat)
    requires IsRun(states, actions) && i <= j < |states|
    ensures Descends(states[i].store, states[j].store)
    decreases j
  {
    if i < j {
      RunDescends(states, actions, i, j - 1);
      RunKeepsInv(states, actions, j - 1);
      StepDescends(states[j - 1], actions[j - 1]);
      DescendsTransitive(states[i].store, states[j - 1].store, states[j].store);
    }
  }

  // ---------------------------------------------------------------------
  // No ABA
  // ---------------------------------------------------------------------

  /** Some operation writes or deletes `k`. */
  ghost predicate Touches(ops: seq<Op>, k: Bytes) {
    exists i :: 0 <= i < |ops| && TouchesOp(ops[i], k)
  }

  ghost predicate TouchesOp(op: Op, k: Bytes) {
    match op
    case Put(key, _, _) => key == k
    case DeleteRange(key, rangeEnd) => Matches(key, rangeEnd, k)
    case Unsupported => false
  }

  /** What is left under a touched key was written by this very transaction. */
  lemma {:induction false} TouchedIsRestamped(s: Store, ops: seq<Op>, k: Bytes)
    requires Touches(ops, k)
    ensures var t := RunOps(s, ops).0; k in t.kvs ==> t.kvs[k].modRevision == s.revision
    decreases |ops|
  {
    var n := |ops| - 1;
    RunOpsStamp(s, ops[..n]);
    if !TouchesOp(ops[n], k) {
      var i :| 0 <= i < |ops| && TouchesOp(ops[i], k);
      assert ops[..n][i] == ops[i];
      TouchedIsRestamped(s, ops[..n], k);
    }
  }

  /** Touching a present key is a mutation. */
  lemma TouchingMutates(s: Store, ops: seq<Op>, k: Bytes)
    requires Inv(s) && k in s.kvs && Touches(ops, k)
    ensures Mutates(s, ops)
  {
    var i :| 0 <= i < |ops| && TouchesOp(ops[i], k);
    if Mutates(s, ops[..i]) {
      var j :| 0 <= j < i && MutatesAt(s, ops[..i], j);
      assert ops[..i][..j] == ops[..j];
      assert MutatesAt(s, ops, j);
    } else {
      NoMutationNoChange(s, ops[..i]);
      assert ops[i].DeleteRange? ==> k in Matching(s.kvs, ops[i].key, ops[i].rangeEnd);
      assert MutatesAt(s, ops, i);
    }
  }

  /** The transaction at step `i` took effect and wrote or deleted `k`. */
  ghost predicate WritesAt(states: seq<SimState>, actions: seq<Action>, i: nat, k: Bytes)
    requires IsRun(states, actions) && i < |actions|
  {
    var a := actions[i];
    a.DoTxn? && Commits(states[i], a.fingerprint, a.request, a.faults) && Touches(a.request.success, k)
  }

  /** After a write, the key is gone or carries a revision no earlier state had reached. */
  lemma WriteRaisesRevision(states: seq<SimState>, actions: seq<Action>, i: nat, k: Bytes)
    requires IsRun(states, actions) && i < |actions| && WritesAt(states, actions, i, k)
    ensures var t := states[i + 1].store; k in t.kvs ==> t.kvs[k].modRevision > states[i].store.revision
  {
    var a := actions[i];
    var st := states[i];
    RunKeepsInv(states, actions, i);
    TxnIsAtomic(st, a.fingerprint, a.request, a.faults);
    ReadyAdvances(st.store, a.faults.ttlRace);
    ReadyKeepsInv(st.store, a.faults.ttlRace);
    CommittedWriteRestamps(Ready(st.store, a.faults.ttlRace), a.request.success, k);
  }

  lemma CommittedWriteRestamps(s: Store, ops: seq<Op>, k: Bytes)
    requires Inv(s) && Commit(s, ops).1.Committed? && Touches(ops, k)
    ensures var t := Commit(s, ops).0; k in t.kvs ==> t.kvs[k].modRevision > s.revision
  {
    if Mutates(s, ops) {
      TouchedIsRestamped(s.(revision := s.revision + 1), ops, k);
    } else {
      NoMutationNoChange(s, ops);
      if k in s.kvs { TouchingMutates(s, ops, k); }
    }
  }

  /**
   * A key with the same modification revision at two points of a run has the same entry there and
   * everywhere in between, and no transaction in between wrote or deleted it.
   */
  lemma NoAba(states: seq<SimState>, actions: seq<Action>, i: nat, j: nat, m: nat, k: Bytes)
    requires IsRun(states, actions) && i <= m <= j < |states|
    requires k in states[i].store.kvs && k in states[j].store.kvs
    requires states[i].store.kvs[k].modRevision == states[j].store.kvs[k].modRevision
    ensures k in states[m].store.kvs && states[m].store.kvs[k] == states[i].store.kvs[k] == states[j].store.kvs[k]
    ensures m < j ==> !WritesAt(states, actions, m, k)
  {
    RunKeepsInv(states, actions, i);
    RunAdvances(states, actions, i, m);
    RunAdvances(states, actions, m, j);
    RunAdvances(states, actions, i, j);
    if m < j { NoWriteAt(states, actions, m, j, k); }
  }

  lemma NoWriteAt(states: seq<SimState>, actions: seq<Action>, m: nat, j: nat, k: Bytes)
    requires IsRun(states, actions) && m < j < |states|
    requires k in states[j].store.kvs && states[j].store.kvs[k].modRevision <= states[m].store.revision
    ensures !WritesAt(states, actions, m, k)
  {
    if WritesAt(states, actions, m, k) {
      WriteRaisesRevision(states, actions, m, k);
      RunAdvances(states, actions, m, m + 1);
      RunAdvances(states, actions, m + 1, j);
      assert false;
    }
  }

  // ---------------------------------------------------------------------
  // Guarded transactions commit at most once
  // ---------------------------------------------------------------------

  /** The transaction requires `k` to be at revision `r` and writes or deletes it. */
  ghost predicate Guards(req: TxnRequest, k: Bytes, r: int) {
    Compare(k, [], IsEqual, ModRevision(r)) in req.compares && Touches(req.success, k)
  }

  ghost predicate CommitsAt(states: seq<SimState>, actions: seq<Action>, i: nat)
    requires IsRun(states, actions) && i < |actions|
  {
    var a := actions[i];
    a.DoTxn? && Commits(states[i], a.fingerprint, a.request, a.faults)
  }

  /** A committed transaction's revision guard held in the store it ran on. */
  lemma GuardHeld(st: SimState, fp: int, req: TxnRequest, f: Faults, k: Bytes, r: int)
    requires f.ttlRace ==> st.store.now < U64_MAX
    requires Commits(st, fp, req, f) && Compare(k, [], IsEqual, ModRevision(r)) in req.compares && r > 0
    ensures var s := Ready(st.store, f.ttlRace); k in s.kvs && s.kvs[k].modRevision == r
  {
    TxnIsAtomic(st, fp, req, f);
    var i :| 0 <= i < |req.compares| && req.compares[i] == Compare(k, [], IsEqual, ModRevision(r));
    AllComparesHold(Ready(st.store, f.ttlRace).kvs, req.compares, i);
  }

  /**
   * Of all transactions in a run that guard a key by the same positive revision and write or delete
   * it, at most one takes effect; a reply lost after the commit does not make a retry commit again.
   */
  lemma GuardCommitsOnce(states: seq<SimState>, actions: seq<Action>, i: nat, j: nat, k: Bytes, r: int)
    requires IsRun(states, actions) && i < j < |actions| && r > 0
    requires actions[i].DoTxn? && actions[j].DoTxn?
    requires Guards(actions[i].request, k, r) && Guards(actions[j].request, k, r)
    ensures !(CommitsAt(states, actions, i) && CommitsAt(states, actions, j))
  {
    if CommitsAt(states, actions, i) && CommitsAt(states, actions, j) {
      GuardedWriteRaises(states, actions, i, k, r);
      ReachesReady(states, actions, i + 1, j);
      var b := actions[j];
      GuardHeld(states[j], b.fingerprint, b.request, b.faults, k, r);
      assert false;
    }
  }

  /** The store a later transaction runs on comes after every earlier state. */
  lemma ReachesReady(states: seq<SimState>, actions: seq<Action>, i: nat, j: nat)
    requires IsRun(states, actions) && i <= j < |actions| && actions[j].DoTxn?
    ensures Advances(states[i].store, Ready(states[j].store, actions[j].faults.ttlRace))
  {
    RunAdvances(states, actions, i, j);
    RunKeepsInv(states, actions, j);
    ReadyAdvances(states[j].store, actions[j].faults.ttlRace);
    AdvancesTransitive(states[i].store, states[j].store, Ready(states[j].store, actions[j].faults.ttlRace));
  }

  lemma GuardedWriteRaises(states: seq<SimState>, actions: seq<Action>, i: nat, k: Bytes, r: int)
    requires IsRun(states, actions) && i < |actions| && r > 0
    requires CommitsAt(states, actions, i) && Guards(actions[i].request, k, r)
    ensures var t := states[i + 1].store; t.revision >= r && (k in t.kvs ==> t.kvs[k].modRevision > r)
  {
    var a := actions[i];
    var st := states[i];
    RunKeepsInv(states, actions, i);
    GuardHeld(st, a.fingerprint, a.request, a.faults, k, r);
    TxnIsAtomic(st, a.fingerprint, a.request, a.faults);
    ReadyKeepsInv(st.store, a.faults.ttlRace);
    var s := Ready(st.store, a.faults.ttlRace);
    assert r <= s.revision;
    CommittedWriteRestamps(s, a.request.success, k);
    CommitAdvances(s, a.request.success);
  }

  // ---------------------------------------------------------------------
  // Leases
  // ---------------------------------------------------------------------

  /** A lease id once gone never comes back: a lease seen at two points was live in between. */
  lemma LeaseLivesBetween(states: seq<SimState>, actions: seq<Action>, i: nat, m: nat, j: nat, l: int)
    requires IsRun(states, actions) && i <= m <= j < |states|
    requires l in states[i].store.leases && l in states[j].store.leases
    ensures l in states[m].store.leases
  {
    RunKeepsInv(states, actions, i);
    RunAdvances(states, actions, i, m);
    RunAdvances(states, actions, m, j);
  }

  /** No compare, operation or read ever sees a key whose lease is due. */
  lemma DueKeysAreNeverSeen(states: seq<SimState>, actions: seq<Action>, i: nat, k: Bytes)
    requires IsRun(states, actions) && i < |actions| && (actions[i].DoTxn? || actions[i].DoGet?)
    ensures var s := Ready(states[i].store, actions[i].DoTxn? && actions[i].faults.ttlRace);
            k in s.kvs && s.kvs[k].lease != 0 ==>
              var l := s.kvs[k].lease; l in s.leases && k in s.leases[l].attached && s.leases[l].expiresAt > s.now
    ensures actions[i].DoGet? ==> states[i + 1].store == Ready(states[i].store, false)
  {
    RunKeepsInv(states, actions, i);
    var race := actions[i].DoTxn? && actions[i].faults.ttlRace;
    ReadyKeepsInv(states[i].store, race);
    var s := Ready(states[i].store, race);
    if k in s.kvs && s.kvs[k].lease != 0 {
      assert s.kvs[k].lease !in Due(s);
    }
  }

  // ---------------------------------------------------------------------
  // Nothing vanishes without a reason
  // ---------------------------------------------------------------------

  /** The key's lease has run out by the time `t`. */
  ghost predicate LeaseRanOut(s: Store, k: Bytes, t: u64)
    requires k in s.kvs
  {
    var l := s.kvs[k].lease;
    l != 0 && l in s.leases && s.leases[l].expiresAt <= t
  }

  /** Why a step may remove a key: a committed transaction touches it, or its lease is revoked or has run out. */
  ghost predicate MayRemove(st: SimState, a: Action, k: Bytes)
    requires CanStep(st, a) && k in st.store.kvs
  {
    || (a.DoTxn? && Commits(st, a.fingerprint, a.request, a.faults) && Touches(a.request.success, k))
    || (a.DoRevoke? && !a.fault && a.lease == st.store.kvs[k].lease != 0)
    || LeaseRanOut(st.store, k, Step(st, a).store.now)
  }

  lemma SweepLoss(s: Store, k: Bytes)
    requires Inv(s) && k in s.kvs
    ensures k !in Expired(s).kvs ==> LeaseRanOut(s, k, s.now)
    ensures k in Expired(s).kvs ==> Expired(s).kvs[k] == s.kvs[k]
    ensures forall l :: l in Expired(s).leases ==> l in s.leases && Expired(s).leases[l] == s.leases[l]
  {
  }

  lemma ReadyLoss(s: Store, ttlRace: bool, k: Bytes)
    requires Inv(s) && k in s.kvs && (ttlRace ==> s.now < U64_MAX)
    ensures k !in Ready(s, ttlRace).kvs ==> LeaseRanOut(s, k, Ready(s, ttlRace).now)
  {
    SweepLoss(s, k);
    if ttlRace && k in Expired(s).kvs {
      NothingDueAfterSweep(s);
      SweepLoss(Expired(s).(now := s.now + 1), k);
    }
  }

  lemma CommitLoss(s: Store, ops: seq<Op>, k: Bytes)
    requires k in s.kvs && !Touches(ops, k)
    ensures k in Commit(s, ops).0.kvs
  {
    forall j | 0 <= j < |ops| ensures !TouchesOp(ops[j], k) {}
    UntouchedStays(if Mutates(s, ops) then s.(revision := s.revision + 1) else s, ops, k);
  }

  lemma TxnLoss(st: SimState, a: Action, k: Bytes)
    requires StateInv(st) && a.DoTxn? && CanStep(st, a) && k in st.store.kvs && k !in Step(st, a).store.kvs
    ensures MayRemove(st, a, k)
  {
    var s := Ready(st.store, a.faults.ttlRace);
    TxnIsAtomic(st, a.fingerprint, a.request, a.faults);
    SweepLoss(st.store, k);
    ReadyLoss(st.store, a.faults.ttlRace, k);
    ReadyKeepsInv(st.store, a.faults.ttlRace);
    CommitAdvances(s, a.request.success);
    if Commits(st, a.fingerprint, a.request, a.faults) && k in s.kvs && !Touches(a.request.success, k) {
      CommitLoss(s, a.request.success, k);
    }
  }

  lemma RevokeLoss(s: Store, lease: int, fault: bool, k: Bytes)
    requires Inv(s) && k in s.kvs && k !in Revoke(s, lease, fault).kvs
    ensures (!fault && lease == s.kvs[k].lease != 0) || LeaseRanOut(s, k, s.now)
  {
    SweepLoss(s, k);
    NothingDueAfterSweep(s);
  }

  lemma SweepStepLoss(st: SimState, a: Action, k: Bytes)
    requires StateInv(st) && CanStep(st, a) && (a.DoGet? || a.DoGrant? || a.DoKeepAlive?)
    requires k in st.store.kvs && k !in Step(st, a).store.kvs
    ensures LeaseRanOut(st.store, k, Step(st, a).store.now)
  {
    SweepLoss(st.store, k);
  }

  lemma TickLoss(s: Store, t: u64, k: Bytes)
    requires Inv(s) && s.now <= t && k in s.kvs && k !in Expired(s.(now := t)).kvs
    ensures LeaseRanOut(s, k, t)
  {
    SweepLoss(s.(now := t), k);
  }

  lemma KeyLossExplained(st: SimState, a: Action, k: Bytes)
    requires StateInv(st) && CanStep(st, a) && k in st.store.kvs && k !in Step(st, a).store.kvs
    ensures MayRemove(st, a, k)
  {
    match a
    case DoTxn(_, _, _) => TxnLoss(st, a, k);
    case DoRevoke(lease, fault) => RevokeLoss(st.store, lease, fault, k);
    case DoTick(dt) => TickLoss(st.store, st.store.now + dt, k);
    case DoSetTime(_) =>
    case DoSetConfig(_) =>
    case _ => SweepStepLoss(st, a, k);
  }

  /** In every run, a key that is gone was removed at some step for one of these reasons, and no other. */
  lemma KeysVanishOnlyForAReason(states: seq<SimState>, actions: seq<Action>, i: nat, j: nat, k: Bytes) returns (m: nat)
    requires IsRun(states, actions) && i < j < |states| && k in states[i].store.kvs && k !in states[j].store.kvs
    ensures i <= m < j && k in states[m].store.kvs && k !in states[m + 1].store.kvs
    ensures MayRemove(states[m], actions[m], k)
  {
    m := i;
    while k in states[m + 1].store.kvs
      invariant i <= m < j && k in states[m].store.kvs
      decreases j - m
    {
      m := m + 1;
    }
    RunKeepsInv(states, actions, m);
    KeyLossExplained(states[m], actions[m], k);
  }
}
