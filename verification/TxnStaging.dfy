/** Staged transactions: operations resolved against the store before any of them is applied. */
module TxnStaging {
  import opened Bytes
  import opened EtcdStore
  import opened EtcdRuns

  datatype StagedOp = StagedPut(put: Op) | StagedDelete(keys: set<Bytes>)

  datatype StagedTxn = StagedTxn(ops: seq<StagedOp>, pendingPuts: set<Bytes>, allPutKeys: set<Bytes>, changed: bool)

  const NOTHING_STAGED: StagedTxn := StagedTxn([], {}, {}, false)

  /** The keys present after running the operations; they do not depend on the revision. */
  ghost function KeysAfter(s: Store, ops: seq<Op>): set<Bytes> {
    RunOps(s, ops).0.kvs.Keys
  }

  function Among(keys: set<Bytes>, key: Bytes, rangeEnd: Bytes): set<Bytes> {
    set k | k in keys && Matches(key, rangeEnd, k)
  }

  /** A staged operation does to the keys present at its turn what the operation itself would do. */
  ghost predicate Resolves(live: set<Bytes>, op: Op, staged: StagedOp) {
    match op
    case Put(_, _, _) => staged == StagedPut(op)
    case DeleteRange(key, rangeEnd) => staged.StagedDelete? && staged.keys * live == Among(live, key, rangeEnd)
    case Unsupported => false
  }

  ghost predicate ResolvesAll(s: Store, ops: seq<Op>, staged: seq<StagedOp>) {
    |staged| == |ops| && forall i :: 0 <= i < |ops| ==> Resolves(KeysAfter(s, ops[..i]), ops[i], staged[i])
  }

  /** The staged form of a sequence of operations. */
  ghost predicate Stages(s: Store, ops: seq<Op>, staged: StagedTxn) {
    && ResolvesAll(s, ops, staged.ops)
    && staged.allPutKeys == PutKeys(ops)
    && staged.pendingPuts <= KeysAfter(s, ops) <= s.kvs.Keys + staged.pendingPuts
    && staged.changed == Mutates(s, ops)
  }

  lemma ResolvesOneMore(s: Store, ops: seq<Op>, staged: seq<StagedOp>, op: Op, next: StagedOp)
    requires ResolvesAll(s, ops, staged) && Resolves(KeysAfter(s, ops), op, next)
    ensures ResolvesAll(s, ops + [op], staged + [next])
  {
    forall i | 0 <= i < |ops| + 1
      ensures Resolves(KeysAfter(s, (ops + [op])[..i]), (ops + [op])[i], (staged + [next])[i])
    {
      assert (ops + [op])[..i] == ops[..i];
      assert ops[..|ops|] == ops;
    }
  }

  lemma MutatesOneMore(s: Store, ops: seq<Op>, op: Op)
    ensures Mutates(s, ops + [op]) <==> Mutates(s, ops) || MutatesAt(s, ops + [op], |ops|)
  {
    var more := ops + [op];
    if Mutates(s, ops) {
      var i :| 0 <= i < |ops| && MutatesAt(s, ops, i);
      assert more[..i] == ops[..i];
      assert MutatesAt(s, more, i);
    }
    if Mutates(s, more) && !MutatesAt(s, more, |ops|) {
      var i :| 0 <= i < |more| && MutatesAt(s, more, i);
      assert more[..i] == ops[..i];
      assert MutatesAt(s, ops, i);
    }
  }

  lemma AppendPut(s: Store, ops: seq<Op>, put: Op)
    requires put.Put?
    ensures KeysAfter(s, ops + [put]) == KeysAfter(s, ops) + {put.key}
    ensures PutKeys(ops + [put]) == PutKeys(ops) + {put.key}
    ensures Mutates(s, ops + [put])
  {
    assert (ops + [put])[..|ops|] == ops;
    assert MutatesAt(s, ops + [put], |ops|);
  }

  lemma AppendDelete(s: Store, ops: seq<Op>, op: Op, gone: set<Bytes>)
    requires op.DeleteRange? && gone == Among(KeysAfter(s, ops), op.key, op.rangeEnd)
    ensures KeysAfter(s, ops + [op]) == KeysAfter(s, ops) - gone
    ensures PutKeys(ops + [op]) == PutKeys(ops)
    ensures Mutates(s, ops + [op]) <==> Mutates(s, ops) || gone != {}
  {
    assert (ops + [op])[..|ops|] == ops;
    assert Matching(RunOps(s, ops).0.kvs, op.key, op.rangeEnd) == gone;
    MutatesOneMore(s, ops, op);
  }

  lemma PutStages(s: Store, ops: seq<Op>, staged: StagedTxn, put: Op)
    requires Stages(s, ops, staged) && put.Put?
    ensures Stages(s, ops + [put], StagedTxn(staged.ops + [StagedPut(put)], staged.pendingPuts + {put.key},
                                             staged.allPutKeys + {put.key}, true))
  {
    ResolvesOneMore(s, ops, staged.ops, put, StagedPut(put));
    AppendPut(s, ops, put);
  }

  /** Before the first mutation the present keys are those the transaction started with. */
  lemma UnmutatedKeys(s: Store, ops: seq<Op>)
    requires Inv(s)
    ensures !Mutates(s, ops) ==> KeysAfter(s, ops) == s.kvs.Keys
  {
    if !Mutates(s, ops) { NoMutationNoChange(s, ops); }
  }

  /** Deleting what matched before the transaction, or among its pending puts, deletes what matches now. */
  lemma DeleteStages(s: Store, ops: seq<Op>, staged: StagedTxn, op: Op, keys: set<Bytes>)
    requires Inv(s) && Stages(s, ops, staged) && op.DeleteRange?
    requires keys == Among(s.kvs.Keys + staged.pendingPuts, op.key, op.rangeEnd)
    ensures Stages(s, ops + [op], StagedTxn(staged.ops + [StagedDelete(keys)], staged.pendingPuts - keys,
                                            staged.allPutKeys, staged.changed || keys != {}))
  {
    var live := KeysAfter(s, ops);
    assert keys * live == Among(live, op.key, op.rangeEnd);
    ResolvesOneMore(s, ops, staged.ops, op, StagedDelete(keys));
    AppendDelete(s, ops, op, keys * live);
    UnmutatedKeys(s, ops);
    assert !Mutates(s, ops) ==> keys == keys * live;
  }

  /** The revision in force decides the stamps but not which keys are present. */
  lemma {:induction false} KeysIgnoreRevision(s: Store, r: nat, ops: seq<Op>)
    ensures KeysAfter(s.(revision := r), ops) == KeysAfter(s, ops)
    decreases |ops|
  {
    if ops != [] {
      var n := |ops| - 1;
      KeysIgnoreRevision(s, r, ops[..n]);
      if ops[n].DeleteRange? {
        var a, b := RunOps(s.(revision := r), ops[..n]).0, RunOps(s, ops[..n]).0;
        assert Matching(a.kvs, ops[n].key, ops[n].rangeEnd) == Matching(b.kvs, ops[n].key, ops[n].rangeEnd);
      }
    }
  }
}
