/** The simulator's operations as a transition function; fault draws are inputs. */
module EtcdSteps {
  import opened Bytes
  import opened EtcdStore
  import opened RetryMachine

  datatype SimState = SimState(store: Store, retry: Retry, config: RetryConfig)

  datatype TxnRequest = TxnRequest(compares: seq<Compare>, success: seq<Op>, hasFailure: bool)

  /** The draws of one transaction: transport loss, lease race, spurious miss, burst, lost reply. */
  datatype Faults = Faults(transport: bool, ttlRace: bool, casMiss: bool, exhaust: bool, uncertain: bool)

  datatype TxnOutcome =
    | Failed(error: Error)
    | NotSucceeded(revision: nat)
    | Committed(revision: nat, responses: seq<Response>)

  const EMPTY: Store := Store(map[], 0, map[], 1, 0)

  ghost predicate StateInv(st: SimState) {
    Inv(st.store) && RetryInv(st.retry)
  }

  // ---------------------------------------------------------------------
  // Transactions
  // ---------------------------------------------------------------------

  /** The store that a transaction's compares and operations see. */
  ghost function Ready(s: Store, ttlRace: bool): Store
    requires ttlRace ==> s.now < U64_MAX
  {
    var e := Expired(s);
    if ttlRace then Expired(e.(now := e.now + 1)) else e
  }

  /** Executes the operations of a transaction whose compares hold. */
  ghost function Commit(s: Store, ops: seq<Op>): (Store, TxnOutcome) {
    var error := StageError(s.leases, ops);
    if error.Some? then (s, Failed(error.value))
    else
      var bumped := if Mutates(s, ops) then s.(revision := s.revision + 1) else s;
      var done := RunOps(bumped, ops);
      (done.0, Committed(bumped.revision, done.1))
  }

  ghost function MachineCall(s: Store, fp: int, req: TxnRequest, f: Faults): Call {
    Call(fp, req.compares != [] && req.success != [],
         EvaluateAll(s.kvs, req.compares) == Ok(true) && !(req.compares != [] && f.casMiss), f.exhaust)
  }

  /** What stops a transaction before its operations are looked at, if anything. */
  ghost function Gate(st: SimState, fp: int, req: TxnRequest, f: Faults): (Retry, Option<TxnOutcome>) {
    if req.hasFailure then (st.retry, Some(Failed(UnsupportedTxnOp)))
    else
      var machine := Attempt(st.retry, st.config, MachineCall(st.store, fp, req, f));
      var consumed := Consume(ClearForOther(st.retry, fp), fp).1;
      var compares := EvaluateAll(st.store.kvs, req.compares);
      (machine.0,
       if consumed then Some(NotSucceeded(st.store.revision))
       else if compares.Err? then Some(Failed(compares.error))
       else if !compares.value || (req.compares != [] && f.casMiss) || machine.1
       then Some(NotSucceeded(st.store.revision))
       else None)
  }

  /** The outcome a caller sees; a lost reply hides a commit. */
  ghost function Reported(outcome: TxnOutcome, ops: seq<Op>, uncertain: bool): TxnOutcome {
    if uncertain && outcome.Committed? && ops != [] then Failed(UncertainCommit) else outcome
  }

  /** A transaction once due leases are gone. */
  ghost function TxnOn(st: SimState, fp: int, req: TxnRequest, f: Faults): (SimState, TxnOutcome) {
    var gate := Gate(st, fp, req, f);
    if gate.1.Some? then (st.(retry := gate.0), gate.1.value)
    else
      var done := Commit(st.store, req.success);
      (SimState(done.0, gate.0, st.config), Reported(done.1, req.success, f.uncertain))
  }

  /** A whole transaction: expiry, faults, compares, operations. */
  ghost function Txn(st: SimState, fp: int, req: TxnRequest, f: Faults): (SimState, TxnOutcome)
    requires f.ttlRace ==> st.store.now < U64_MAX
  {
    if f.transport then (st.(store := Expired(st.store)), Failed(FaultInjected))
    else TxnOn(st.(store := Ready(st.store, f.ttlRace)), fp, req, f)
  }

  /** The transaction's operations took effect, whatever its caller was told. */
  ghost predicate Commits(st: SimState, fp: int, req: TxnRequest, f: Faults)
    requires f.ttlRace ==> st.store.now < U64_MAX
  {
    var r := Txn(st, fp, req, f).1;
    r.Committed? || r == Failed(UncertainCommit)
  }

  /**
   * A transaction either takes effect whole, on the store its compares held in, or changes nothing
   * beyond the expiry of due leases.
   */
  lemma TxnIsAtomic(st: SimState, fp: int, req: TxnRequest, f: Faults)
    requires f.ttlRace ==> st.store.now < U64_MAX
    ensures var s := Ready(st.store, f.ttlRace);
            var after := Txn(st, fp, req, f).0.store;
            if Commits(st, fp, req, f) then
              && after == Commit(s, req.success).0
              && Commit(s, req.success).1.Committed?
              && EvaluateAll(s.kvs, req.compares) == Ok(true)
              && !req.hasFailure
            else after == if f.transport then Expired(st.store) else s
  {
    var s := Ready(st.store, f.ttlRace);
    assert EvaluateAll(s.kvs, req.compares) != Err(UncertainCommit) by { ComparesNeverUncertain(s.kvs, req.compares); }
    assert StageError(s.leases, req.success) != Some(UncertainCommit) by { StagingNeverUncertain(s.leases, req.success); }
  }

  lemma {:induction false} ComparesNeverUncertain(kvs: map<Bytes, KvEntry>, compares: seq<Compare>)
    ensures EvaluateAll(kvs, compares) != Err(UncertainCommit)
  {
    if compares != [] { ComparesNeverUncertain(kvs, compares[1..]); }
  }

  lemma {:induction false} StagingNeverUncertain(leases: map<int, Lease>, ops: seq<Op>)
    ensures StageError(leases, ops) != Some(UncertainCommit)
    decreases |ops|
  {
    if ops != [] { StagingNeverUncertain(leases, ops[..|ops| - 1]); }
  }

  // ---------------------------------------------------------------------
  // Leases and time
  // ---------------------------------------------------------------------

  function GrantError(s: Store, ttl: int, fault: bool): Option<Error> {
    if fault then Some(FaultInjected)
    else if ttl <= 0 then Some(InvalidLeaseTtl)
    else if s.nextLeaseId >= I64_MAX then Some(LeaseIdExhausted)
    else None
  }

  ghost function Grant(s: Store, ttl: int, fault: bool): Store
    requires ttl <= I64_MAX
  {
    var e := Expired(s);
    if GrantError(e, ttl, fault).Some? then e
    else e.(leases := e.leases[e.nextLeaseId := Lease(ttl, SatAdd(e.now, ttl), {})], nextLeaseId := e.nextLeaseId + 1)
  }

  ghost function KeepAlive(s: Store, lease: int, fault: bool): Store {
    var e := Expired(s);
    if fault || lease !in e.leases then e
    else e.(leases := e.leases[lease := e.leases[lease].(expiresAt := SatAdd(e.now, e.leases[lease].ttl))])
  }

  ghost function Revoke(s: Store, lease: int, fault: bool): Store {
    var e := Expired(s);
    if fault || lease !in e.leases then e else DropLeases(e, {lease})
  }

  // ---------------------------------------------------------------------
  // One step of a run
  // ---------------------------------------------------------------------

  datatype Action =
    | DoTxn(fingerprint: int, request: TxnRequest, faults: Faults)
    | DoGet
    | DoGrant(ttl: int, fault: bool)
    | DoKeepAlive(lease: int, fault: bool)
    | DoRevoke(lease: int, fault: bool)
    | DoTick(dt: u64)
    | DoSetTime(t: u64)
    | DoSetConfig(config: RetryConfig)

  /** Clock arguments within range; everything else is always possible. */
  ghost predicate CanStep(st: SimState, a: Action) {
    match a
    case DoTxn(_, _, f) => f.ttlRace ==> st.store.now < U64_MAX
    case DoGrant(ttl, _) => ttl <= I64_MAX
    case DoTick(dt) => st.store.now + dt <= U64_MAX
    case DoSetTime(t) => st.store.now <= t
    case _ => true
  }

  ghost function Step(st: SimState, a: Action): SimState
    requires CanStep(st, a)
  {
    match a
    case DoTxn(fp, req, f) => Txn(st, fp, req, f).0
    case DoGet => st.(store := Expired(st.store))
    case DoGrant(ttl, fault) => st.(store := Grant(st.store, ttl, fault))
    case DoKeepAlive(lease, fault) => st.(store := KeepAlive(st.store, lease, fault))
    case DoRevoke(lease, fault) => st.(store := Revoke(st.store, lease, fault))
    case DoTick(dt) => st.(store := Expired(st.store.(now := st.store.now + dt)))
    case DoSetTime(t) => st.(store := st.store.(now := t))
    case DoSetConfig(config) => SimState(st.store, IDLE, config)
  }

  // ---------------------------------------------------------------------
  // The invariant holds throughout
  // ---------------------------------------------------------------------

  lemma ReadyKeepsInv(s: Store, ttlRace: bool)
    requires Inv(s) && (ttlRace ==> s.now < U64_MAX)
    ensures Inv(Ready(s, ttlRace)) && Due(Ready(s, ttlRace)) == {}
  {
    NothingDueAfterSweep(s);
    if ttlRace { NothingDueAfterSweep(Expired(s).(now := s.now + 1)); }
  }

  lemma NoMutationNoPut(s: Store, ops: seq<Op>)
    ensures !Mutates(s, ops) ==> forall i :: 0 <= i < |ops| ==> !ops[i].Put?
  {
    if !Mutates(s, ops) {
      forall i | 0 <= i < |ops| ensures !ops[i].Put? {
        assert !MutatesAt(s, ops, i);
      }
    }
  }

  lemma BumpKeepsInv(s: Store)
    requires Inv(s)
    ensures Inv(s.(revision := s.revision + 1))
  {
  }

  lemma ClockKeepsInv(s: Store, t: u64)
    requires Inv(s)
    ensures Inv(s.(now := t))
  {
  }

  lemma CommitKeepsInv(s: Store, ops: seq<Op>)
    requires Inv(s)
    ensures Inv(Commit(s, ops).0)
  {
    BumpKeepsInv(s);
    if StageError(s.leases, ops).None? {
      NoMutationNoPut(s, ops);
      RunOpsKeepsInv(if Mutates(s, ops) then s.(revision := s.revision + 1) else s, ops);
    }
  }

  lemma TxnKeepsInv(st: SimState, fp: int, req: TxnRequest, f: Faults)
    requires StateInv(st) && (f.ttlRace ==> st.store.now < U64_MAX)
    ensures StateInv(Txn(st, fp, req, f).0)
  {
    NothingDueAfterSweep(st.store);
    ReadyKeepsInv(st.store, f.ttlRace);
    var s := Ready(st.store, f.ttlRace);
    AttemptKeepsInv(st.retry, st.config, MachineCall(s, fp, req, f));
    CommitKeepsInv(s, req.success);
  }

  lemma GrantKeepsInv(s: Store, ttl: int, fault: bool)
    requires Inv(s) && ttl <= I64_MAX
    ensures Inv(Grant(s, ttl, fault))
  {
    NothingDueAfterSweep(s);
    AddLeaseKeepsInv(Expired(s), Lease(if ttl > 0 then ttl else 0, SatAdd(s.now, if ttl > 0 then ttl else 0), {}));
  }

  lemma AddLeaseKeepsInv(s: Store, lease: Lease)
    requires Inv(s) && lease.attached == {}
    ensures s.nextLeaseId < I64_MAX ==> Inv(s.(leases := s.leases[s.nextLeaseId := lease], nextLeaseId := s.nextLeaseId + 1))
  {
  }

  lemma KeepAliveKeepsInv(s: Store, lease: int, fault: bool)
    requires Inv(s)
    ensures Inv(KeepAlive(s, lease, fault))
  {
    NothingDueAfterSweep(s);
    RenewKeepsInv(Expired(s), lease);
  }

  lemma RenewKeepsInv(s: Store, lease: int)
    requires Inv(s)
    ensures forall t: u64 :: lease in s.leases ==> Inv(s.(leases := s.leases[lease := s.leases[lease].(expiresAt := t)]))
  {
  }

  lemma RevokeKeepsInv(s: Store, lease: int, fault: bool)
    requires Inv(s)
    ensures Inv(Revoke(s, lease, fault))
  {
    NothingDueAfterSweep(s);
    if lease in Expired(s).leases { DropKeepsInv(Expired(s), {lease}); }
  }

  lemma StepKeepsInv(st: SimState, a: Action)
    requires StateInv(st) && CanStep(st, a)
    ensures StateInv(Step(st, a))
  {
    match a
    case DoTxn(fp, req, f) => TxnKeepsInv(st, fp, req, f);
    case DoGet => NothingDueAfterSweep(st.store);
    case DoGrant(ttl, fault) => GrantKeepsInv(st.store, ttl, fault);
    case DoKeepAlive(lease, fault) => KeepAliveKeepsInv(st.store, lease, fault);
    case DoRevoke(lease, fault) => RevokeKeepsInv(st.store, lease, fault);
    case DoTick(dt) => NothingDueAfterSweep(st.store.(now := st.store.now + dt));
    case DoSetTime(t) =>
    case DoSetConfig(_) =>
  }
}
