/** Reference semantics of the simulated etcd store: revisions, leases and transactions as values. */
module EtcdStore {
  import opened Bytes

  const I64_MAX: int := 0x7FFF_FFFF_FFFF_FFFF

  datatype KvEntry = KvEntry(value: Bytes, createRevision: nat, modRevision: nat, version: nat, lease: int)
  datatype Lease = Lease(ttl: u64, expiresAt: u64, attached: set<Bytes>)
  datatype Store = Store(kvs: map<Bytes, KvEntry>, revision: nat, leases: map<int, Lease>, nextLeaseId: int, now: u64)

  // ---------------------------------------------------------------------
  // Requests
  // ---------------------------------------------------------------------

  datatype CompareOp = IsEqual | IsGreater | IsLess | IsNotEqual
  datatype Target = Version(n: int) | CreateRevision(n: int) | ModRevision(n: int) | LeaseId(n: int) | Value(bytes: Bytes)

  /** `rangeEnd` must be empty; a range compare is an error. */
  datatype Compare = Compare(key: Bytes, rangeEnd: Bytes, op: CompareOp, target: Target)

  /** A mutation; `Unsupported` stands for range reads, nested transactions and ignore flags. */
  datatype Op = Put(key: Bytes, value: Bytes, lease: int) | DeleteRange(key: Bytes, rangeEnd: Bytes) | Unsupported

  datatype Error =
    | FaultInjected
    | UncertainCommit
    | InvalidLeaseTtl
    | LeaseNotFound(lease: int)
    | LeaseIdExhausted
    | DuplicateMutation(key: Bytes)
    | UnsupportedGetOption
    | UnsupportedCompare
    | UnsupportedTxnOp

  type Result<T> = Fallible<T, Error>

  datatype Response = PutDone | Deleted(count: nat)

  // ---------------------------------------------------------------------
  // The invariant of reachable stores
  // ---------------------------------------------------------------------

  ghost predicate EntriesInv(s: Store) {
    forall k :: k in s.kvs ==>
      var e := s.kvs[k];
      0 < e.createRevision <= e.modRevision <= s.revision && 1 <= e.version <= I64_MAX
  }

  /** A key carries a lease exactly when that lease is live and holds the key. */
  ghost predicate LeasesInv(s: Store) {
    && (forall k :: k in s.kvs && s.kvs[k].lease != 0 ==>
          s.kvs[k].lease in s.leases && k in s.leases[s.kvs[k].lease].attached)
    && (forall l, k :: l in s.leases && k in s.leases[l].attached ==> k in s.kvs && s.kvs[k].lease == l)
    && (forall l :: l in s.leases ==> 1 <= l < s.nextLeaseId)
  }

  ghost predicate Inv(s: Store) {
    EntriesInv(s) && LeasesInv(s) && 1 <= s.nextLeaseId <= I64_MAX
  }

  // ---------------------------------------------------------------------
  // Keys and comparisons
  // ---------------------------------------------------------------------

  /** Point lookup, all keys from `key` on, or the half-open range to `rangeEnd`. */
  predicate Matches(key: Bytes, rangeEnd: Bytes, k: Bytes) {
    if rangeEnd == [] then k == key
    else if rangeEnd == [0] then LessEq(key, k)
    else LessEq(key, k) && Less(k, rangeEnd)
  }

  function Matching(kvs: map<Bytes, KvEntry>, key: Bytes, rangeEnd: Bytes): set<Bytes> {
    set k | k in kvs && Matches(key, rangeEnd, k)
  }

  function CompareInts(actual: int, expected: int, op: CompareOp): bool {
    match op
    case IsEqual => actual == expected
    case IsGreater => actual > expected
    case IsLess => actual < expected
    case IsNotEqual => actual != expected
  }

  function CompareBytes(actual: Bytes, expected: Bytes, op: CompareOp): bool {
    match op
    case IsEqual => actual == expected
    case IsGreater => Less(expected, actual)
    case IsLess => Less(actual, expected)
    case IsNotEqual => actual != expected
  }

  /** An absent key compares as version, revision and lease zero, with an empty value. */
  function EvaluateCompare(kvs: map<Bytes, KvEntry>, c: Compare): Result<bool> {
    if c.rangeEnd != [] then Err(UnsupportedCompare)
    else
      var entry := if c.key in kvs then kvs[c.key] else KvEntry([], 0, 0, 0, 0);
      Ok(match c.target
         case Version(n) => CompareInts(entry.version, n, c.op)
         case CreateRevision(n) => CompareInts(entry.createRevision, n, c.op)
         case ModRevision(n) => CompareInts(entry.modRevision, n, c.op)
         case LeaseId(n) => CompareInts(entry.lease, n, c.op)
         case Value(bytes) => CompareBytes(entry.value, bytes, c.op))
  }

  function EvaluateAll(kvs: map<Bytes, KvEntry>, compares: seq<Compare>): Result<bool> {
    if compares == [] then Ok(true)
    else
      var first := EvaluateCompare(kvs, compares[0]);
      if first.Err? || !first.value then first else EvaluateAll(kvs, compares[1..])
  }

  lemma {:induction false} AllComparesHold(kvs: map<Bytes, KvEntry>, compares: seq<Compare>, i: nat)
    requires EvaluateAll(kvs, compares) == Ok(true) && i < |compares|
    ensures EvaluateCompare(kvs, compares[i]) == Ok(true)
    decreases |compares|
  {
    if i > 0 { AllComparesHold(kvs, compares[1..], i - 1); }
  }

  // ---------------------------------------------------------------------
  // Single-key mutations
  // ---------------------------------------------------------------------

  function Detach(s: Store, key: Bytes): map<int, Lease> {
    if key in s.kvs && s.kvs[key].lease != 0 && s.kvs[key].lease in s.leases then
      var l := s.kvs[key].lease;
      s.leases[l := s.leases[l].(attached := s.leases[l].attached - {key})]
    else s.leases
  }

  function NewEntry(kvs: map<Bytes, KvEntry>, put: Op, revision: nat): KvEntry
    requires put.Put?
  {
    if put.key in kvs then
      var e := kvs[put.key];
      e.(value := put.value, modRevision := revision, lease := put.lease,
         version := if e.version >= I64_MAX then I64_MAX else e.version + 1)
    else KvEntry(put.value, revision, revision, 1, put.lease)
  }

  /** The store after one put, stamped with the current revision. */
  function PutKey(s: Store, put: Op): Store
    requires put.Put?
  {
    var leases := Detach(s, put.key);
    var attached := if put.lease in leases
                    then leases[put.lease := leases[put.lease].(attached := leases[put.lease].attached + {put.key})]
                    else leases;
    s.(kvs := s.kvs[put.key := NewEntry(s.kvs, put, s.revision)], leases := attached)
  }

  function DeleteKey(s: Store, key: Bytes): Store {
    s.(kvs := s.kvs - {key}, leases := Detach(s, key))
  }

  /** Removes a set of keys from the store and from every lease. */
  ghost function DeleteKeys(s: Store, keys: set<Bytes>): Store {
    s.(kvs := s.kvs - keys,
       leases := map l | l in s.leases :: s.leases[l].(attached := s.leases[l].attached - keys))
  }

  lemma PutKeepsInv(s: Store, put: Op)
    requires Inv(s) && put.Put? && s.revision > 0 && (put.lease == 0 || put.lease in s.leases)
    ensures Inv(PutKey(s, put))
  {
  }

  lemma DeleteKeepsInv(s: Store, keys: set<Bytes>)
    requires Inv(s)
    ensures Inv(DeleteKeys(s, keys))
  {
  }

  /** Deleting keys one at a time is deleting them together. */
  lemma DeleteOneMore(s: Store, keys: set<Bytes>, key: Bytes)
    requires Inv(s)
    ensures DeleteKey(DeleteKeys(s, keys), key) == DeleteKeys(s, keys + {key})
  {
    var a, b := DeleteKey(DeleteKeys(s, keys), key), DeleteKeys(s, keys + {key});
    assert a.kvs == b.kvs;
    forall l | l in s.leases ensures a.leases[l] == b.leases[l] {
      assert a.leases[l].attached == b.leases[l].attached;
    }
    assert a.leases == b.leases;
  }

  lemma DeleteNone(s: Store, keys: set<Bytes>)
    requires Inv(s) && keys !! s.kvs.Keys
    ensures DeleteKeys(s, keys) == s
  {
    var d := DeleteKeys(s, keys);
    assert d.kvs == s.kvs;
    forall l | l in s.leases ensures d.leases[l] == s.leases[l] {
      assert d.leases[l].attached == s.leases[l].attached;
    }
    assert d.leases == s.leases;
  }

  /** Deleting absent keys along with present ones changes nothing more. */
  lemma DeletePresentOnly(s: Store, keys: set<Bytes>)
    requires Inv(s)
    ensures DeleteKeys(s, keys) == DeleteKeys(s, keys * s.kvs.Keys)
  {
    var a, b := DeleteKeys(s, keys), DeleteKeys(s, keys * s.kvs.Keys);
    assert a.kvs == b.kvs;
    forall l | l in s.leases ensures a.leases[l] == b.leases[l] {
      assert a.leases[l].attached == b.leases[l].attached;
    }
    assert a.leases == b.leases;
  }

  // ---------------------------------------------------------------------
  // Sequential execution of a transaction's operations
  // ---------------------------------------------------------------------

  /** Runs the operations one after the other, each against the store its predecessors left. */
  ghost function RunOps(s: Store, ops: seq<Op>): (Store, seq<Response>)
    decreases |ops|
  {
    if ops == [] then (s, [])
    else
      var done := RunOps(s, ops[..|ops| - 1]);
      match ops[|ops| - 1]
      case Put(_, _, _) => (PutKey(done.0, ops[|ops| - 1]), done.1 + [PutDone])
      case DeleteRange(key, rangeEnd) =>
        var live := Matching(done.0.kvs, key, rangeEnd);
        (DeleteKeys(done.0, live), done.1 + [Deleted(|live|)])
      case Unsupported => done
  }

  /** Some operation puts a key or really deletes one. */
  ghost predicate Mutates(s: Store, ops: seq<Op>) {
    exists i :: 0 <= i < |ops| && MutatesAt(s, ops, i)
  }

  ghost predicate MutatesAt(s: Store, ops: seq<Op>, i: nat)
    requires i < |ops|
  {
    match ops[i]
    case Put(_, _, _) => true
    case DeleteRange(key, rangeEnd) => Matching(RunOps(s, ops[..i]).0.kvs, key, rangeEnd) != {}
    case Unsupported => false
  }

  function PutKeys(ops: seq<Op>): set<Bytes> {
    if ops == [] then {}
    else PutKeys(ops[..|ops| - 1]) + (if ops[|ops| - 1].Put? then {ops[|ops| - 1].key} else {})
  }

  /** The first operation that cannot be staged, if any, decides the error. */
  function StageError(leases: map<int, Lease>, ops: seq<Op>): Option<Error> {
    if ops == [] then None
    else
      var n := |ops| - 1;
      var earlier := StageError(leases, ops[..n]);
      if earlier.Some? then earlier
      else match ops[n]
        case Put(key, _, lease) =>
          if lease != 0 && lease !in leases then Some(LeaseNotFound(lease))
          else if key in PutKeys(ops[..n]) then Some(DuplicateMutation(key))
          else None
        case DeleteRange(_, _) => None
        case Unsupported => Some(UnsupportedTxnOp)
  }

  lemma {:induction false} RunOpsKeepsInv(s: Store, ops: seq<Op>)
    requires Inv(s) && StageError(s.leases, ops).None?
    requires s.revision > 0 || forall i :: 0 <= i < |ops| ==> !ops[i].Put?
    ensures Inv(RunOps(s, ops).0)
    ensures RunOps(s, ops).0.leases.Keys == s.leases.Keys
    ensures var t := RunOps(s, ops).0;
            t.revision == s.revision && t.nextLeaseId == s.nextLeaseId && t.now == s.now
    decreases |ops|
  {
    if ops != [] {
      var n := |ops| - 1;
      RunOpsKeepsInv(s, ops[..n]);
      var done := RunOps(s, ops[..n]).0;
      match ops[n]
      case Put(_, _, _) => PutKeepsInv(done, ops[n]);
      case DeleteRange(key, rangeEnd) => DeleteKeepsInv(done, Matching(done.kvs, key, rangeEnd));
      case Unsupported =>
    }
  }

  // ---------------------------------------------------------------------
  // Leases
  // ---------------------------------------------------------------------

  /** Leases whose time has come. */
  ghost function Due(s: Store): set<int> {
    set l | l in s.leases && s.leases[l].expiresAt <= s.now
  }

  ghost function NonEmpty(s: Store, ids: set<int>): set<int> {
    set l | l in ids && l in s.leases && s.leases[l].attached != {}
  }

  /** Drops a set of leases with every key they hold; each that held keys costs one revision. */
  ghost function DropLeases(s: Store, ids: set<int>): Store {
    s.(kvs := map k | k in s.kvs && s.kvs[k].lease !in ids :: s.kvs[k],
       leases := s.leases - ids,
       revision := s.revision + |NonEmpty(s, ids)|)
  }

  ghost function Expired(s: Store): Store {
    DropLeases(s, Due(s))
  }

  lemma DropKeepsInv(s: Store, ids: set<int>)
    requires Inv(s) && ids <= s.leases.Keys
    ensures Inv(DropLeases(s, ids))
  {
  }

  lemma DropNone(s: Store)
    ensures DropLeases(s, {}) == s
  {
    assert NonEmpty(s, {}) == {};
    assert DropLeases(s, {}).kvs == s.kvs;
    assert DropLeases(s, {}).leases == s.leases;
  }

  /** Leases can be dropped one at a time, in any order. */
  lemma DropOneMore(s: Store, ids: set<int>, id: int)
    requires Inv(s) && ids <= s.leases.Keys && id in s.leases && id !in ids
    ensures DropLeases(DropLeases(s, ids), {id}) == DropLeases(s, ids + {id})
  {
    var mid := DropLeases(s, ids);
    var a, b := DropLeases(mid, {id}), DropLeases(s, ids + {id});
    assert a.kvs == b.kvs;
    assert a.leases == b.leases;
    assert NonEmpty(s, ids + {id}) == NonEmpty(s, ids) + NonEmpty(mid, {id});
    assert NonEmpty(s, ids) !! NonEmpty(mid, {id});
  }

  /** Nothing is due after a sweep, so every leased key that is left has time to live. */
  lemma NothingDueAfterSweep(s: Store)
    requires Inv(s)
    ensures Inv(Expired(s)) && Due(Expired(s)) == {}
    ensures forall k :: k in Expired(s).kvs && Expired(s).kvs[k].lease != 0 ==>
              var l := Expired(s).kvs[k].lease;
              l in Expired(s).leases && Expired(s).leases[l].expiresAt > Expired(s).now
  {
    DropKeepsInv(s, Due(s));
    assert forall l :: l in Expired(s).leases ==> l !in Due(s);
  }
}
