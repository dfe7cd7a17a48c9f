# Gossip-rs in Dafny

This project models the parts of Gossip-rs whose correctness depends on more than one function at a
time, and proves what they promise. `dafny verify dfyconfig.toml` checks all of it.

**Ordered filesystem enumeration** (`FileTree`, `DirectoryWalk`, `FilesystemPages`). A directory tree
is a value; the walker is a class with an explicit stack. What the pruned, early-stopping walk finds
and how it ends is determined exactly, failures included, and shown to be the regular files in range,
in byte order of their paths, up to the first thing that cannot be listed. The result of one call is
determined by that and the budgets, and the pages a caller gets by passing each cursor back partition
the list of files.

**Streaming split estimator** (`SampleCompaction`, `SampleSpacing`, `SplitEstimator`, `SplitAccuracy`,
`BatchSplit`). The estimator is a
class with the source's counters, strides and marks, plus the stream it has seen as ghost state.
Proved over every stream: the samples stay a subsequence of it, both marks stay on the stride grid,
compactions are logarithmic, the split falls strictly inside the observed keys, and in a stream that
is heavy enough it lies within a few strides and files of the byte midpoint. Batch splits are shown to
be exact.

**Simulated etcd** (`EtcdStore`, `RetryMachine`, `EtcdSteps`, `EtcdRuns`, `TxnStaging`, `SimEtcd`,
`LostReply`, `OwnerCas`). `EtcdSteps` is a transition function in which every random draw is an input; `SimEtcd` is
the mutable server, proved to take exactly those transitions, with staged transactions, the expiry
fast path and the fault machine. `EtcdRuns` and `OwnerCas` prove safety over all runs, that is over
every interleaving of clients, clock steps and faults. `LostReply` says exactly when sending a
transaction again makes it take effect again.

**Wire codec** (`Wire`, `RunCodec`, `ShardCodec`, `RecordReader`, `RecordWriter`, `RecordSlab`).
Printers put an encoding in front of the bytes that follow it; parsers take it off again. The decoder
class and the buffer-appending encoders are proved against these, and slab materialisation is proved
to be all or nothing.

**Key layout** (`Keyspace`, `KeyParsing`, `KeyBuilder`) and the **claim loop** (`Claim`).

`Bytes`, `KeyRange` and `Sorting` hold lexicographic order, the prefix successor, ranges of keys and
insertion sort by key.

Five places where the code does not do what its comments or its shape suggest, each with the exact
condition or an input that shows it:

* A decoded shard record does not always re-encode to its blob: a cursor token that is present but
  empty is stored as no token (`RecordWriter.ReencodeExact`, `RecordWriter.EmptyTokenIsLost`).
* Not every valid run record survives encoding and decoding, because encoding checks no size limit and
  decoding does (`RunCodec.DecodeEncode`, `RunCodec.CrowdedRunIsLost`). No run that the coordinator
  registers is lost this way: a manifest holds at most 10,000 shards and a registration at most 41, so
  only a direct caller of the encoder can meet the limit. Every shard record that the slab can hold does
  survive (`RecordWriter.AcceptedSurvives`, `RecordWriter.Reload`).
* A retry after a lost reply does not always fail its compares. It takes effect again if and only if
  every compare on a key that the transaction writes or deletes also holds on the entry the
  transaction leaves there (`LostReply.RetryCommitsIff`). Pinning a revision of such a key rules that
  out (`LostReply.PinnedIsNotRepeatable`), comparing only other keys does not
  (`OwnerCas.UnpinnedRetryCommitsTwice`).
* A page can promise more files when it already holds all of them: exactly when they fill it to its
  last item and something that cannot be listed comes after them (`FilesystemPages.PromisesTooMuchIff`,
  `FilesystemPages.CrowdMakesPagePromiseTooMuch`).
* The uniform-spacing fallback of the sample selection cannot be reached with samples of increasing
  rank, since the compaction axis always spans a range
  (`SampleCompaction.CompactionAxisSpansRange`).

## Model

| member | source | states |
|---|---|---|
| Bytes.SuccessorBoundsPrefix | crates/gossip-connectors/src/filesystem.rs:1294-1304 | a string has prefix p exactly when it is at least p and below p's successor; no upper bound exists when p is all 0xFF |
| Sorting.SortSorts | crates/gossip-connectors/src/in_memory.rs:169-200 | sorting orders by key and permutes |
| Sorting.SortStrictIffDistinct | crates/gossip-connectors/src/in_memory.rs:169-200 | the sorted list is strictly increasing exactly when the keys were distinct |
| FileTree.CompareEntries | crates/gossip-connectors/src/filesystem.rs:1188-1234 | the byte loop decides all three outcomes as comparing names with a slash appended to directories |
| FileTree.SiblingOrderIsPathOrder | crates/gossip-connectors/src/filesystem.rs:1188-1247 | siblings in that order have all their files in full-path byte order |
| FileTree.WalkDirIncreasing | crates/gossip-connectors/src/filesystem.rs:248-315 | the walk of any tree emits strictly increasing paths |
| FileTree.WalkDirFindsExactlyFiles | crates/gossip-connectors/src/filesystem.rs:248-315 | the walk emits a file if and only if it is a regular file of the tree |
| DirectoryWalk.PrefixSuccessor | crates/gossip-connectors/src/filesystem.rs:1294-1304 | the in-place edit computes the prefix successor |
| DirectoryWalk.ShouldSkipSubtree | crates/gossip-connectors/src/filesystem.rs:1256-1288 | a directory is pruned if and only if one of the three bounds rules out every path below it |
| DirectoryWalk.StartExcludesAll | crates/gossip-connectors/src/filesystem.rs:1256-1288 | a lower bound rules out a whole subtree exactly when it is at or past the successor |
| DirectoryWalk.ResumeExcludesAll | crates/gossip-connectors/src/filesystem.rs:1256-1288 | a resume key rules out a whole subtree exactly when it is past every path below it |
| DirectoryWalk.EndExcludesAll | crates/gossip-connectors/src/filesystem.rs:1256-1288 | an upper bound rules out a whole subtree exactly when it is not above the directory path |
| DirectoryWalk.RangeSides | crates/gossip-connectors/src/filesystem.rs:290-303 | a path outside the range is before it or at or past its end, and one inside is neither |
| DirectoryWalk.DirFinds | crates/gossip-connectors/src/filesystem.rs:248-315 | the pruned walk emits a start of the unpruned, filtered walk, and all of it unless it meets a directory too large to read |
| DirectoryWalk.DirNeverStuck | crates/gossip-connectors/src/filesystem.rs:1144-1183 | a tree whose directories are all within the entry cap never stops the walk |
| DirectoryWalk.DirResumes | crates/gossip-connectors/src/filesystem.rs:248-315 | resuming after any emitted file leaves exactly the rest of the walk, and the walk ends as it would have |
| DirectoryWalk.DirectoryWalker.constructor | crates/gossip-connectors/src/filesystem.rs:217-236 | a fresh walker has the whole pruned walk ahead of it |
| DirectoryWalk.DirectoryWalker.VisitDir | crates/gossip-connectors/src/filesystem.rs:271-284 | pruning or opening a directory leaves what the walk still finds unchanged and makes progress; it fails exactly on an unpruned directory over the cap |
| DirectoryWalk.DirectoryWalker.VisitFile | crates/gossip-connectors/src/filesystem.rs:286-313 | a file in range is emitted, one before it passed over, one past it ends the walk |
| DirectoryWalk.DirectoryWalker.NextFile | crates/gossip-connectors/src/filesystem.rs:248-315 | each call returns the next file and leaves the rest, reports the end, or fails; which of the three is determined, and it terminates |
| FilesystemPages.IntersectBounds | crates/gossip-connectors/src/filesystem.rs:1315-1339 | a key lies in both ranges exactly when it lies in the result, which is absent only if none does |
| FilesystemPages.ValidateFilledPage | crates/gossip-contracts/src/connector/common.rs:274-318 | names the first violation: everything before the reported item is well shaped and that item breaks the order or a bound as reported |
| FilesystemPages.BrokenIsNotWellShaped | crates/gossip-contracts/src/connector/common.rs:274-318 | a reported violation means the page is not well shaped, so a page is accepted exactly when it is |
| FilesystemPages.CollectItems | crates/gossip-connectors/src/filesystem.rs:537-566 | the items are the longest budgeted start of what the walk finds; the flag is set exactly when they are all and the walk is over; it fails exactly when something unlistable comes while there is room |
| FilesystemPages.BuildPage | crates/gossip-connectors/src/filesystem.rs:568-592 | page validation never rejects what the walk produced |
| FilesystemPages.FilesystemConnector.FillPageDirectory | crates/gossip-connectors/src/filesystem.rs:516-592 | one page is the longest budgeted cut of what lies after the cursor; failure, emptiness, Complete and HasMore are each determined |
| FilesystemPages.FilesystemConnector.FillPage | crates/gossip-connectors/src/filesystem.rs:910-951 | the same for shard bounds narrowed to the configured key range; oversized bounds are refused |
| FilesystemPages.AheadIsListing | crates/gossip-connectors/src/filesystem.rs:516-592 | what lies ahead begins the list of files in range and is all of it unless something cannot be listed; readable directories and short paths leave nothing of that kind |
| FilesystemPages.AheadResumes | crates/gossip-connectors/src/filesystem.rs:516-592 | resuming after any listed file leaves exactly what lay ahead of it |
| FilesystemPages.ResultIsDetermined | crates/gossip-connectors/src/filesystem.rs:542-592 | what lies ahead and the budgets leave exactly one result |
| FilesystemPages.PromisesTooMuchIff | crates/gossip-connectors/src/filesystem.rs:558-564 | a page reports more while holding every file exactly when the files fill it to its last item and something unlistable follows |
| FilesystemPages.CrowdMakesPagePromiseTooMuch | crates/gossip-connectors/src/filesystem.rs:558-564 | a tree that shows it: one file followed by a directory with too many entries and no file |
| FilesystemPages.CrowdsExist | crates/gossip-connectors/src/filesystem.rs:1144-1183 | such a directory exists |
| FilesystemPages.FilesInRangeExact | crates/gossip-connectors/src/filesystem.rs:516-592 | the list pages are cut from holds each regular file in range once, in increasing order |
| FilesystemPages.ResumeDropsPrefix | crates/gossip-connectors/src/filesystem.rs:516-592 | resuming after a listed file drops exactly the list up to it |
| FilesystemPages.PaginationExact | crates/gossip-connectors/src/filesystem.rs:516-592 | pages chained by their cursors concatenate to a prefix of the file list, to all of it exactly when the last says Complete, and there are at most as many pages as files |
| FilesystemPages.PageAdvances | crates/gossip-connectors/src/filesystem.rs:558-592 | after a page the cursor leaves exactly the files that the page does not hold, and what stops the listing stays the same |
| FilesystemPages.Enumerate | crates/gossip-connectors/src/filesystem.rs:910-951 | calling until a page is complete and passing each cursor back terminates; it succeeds if and only if nothing unlistable lies in range, and then hands out exactly the files in range in order, with Complete on the last page |
| SampleCompaction.InterpolatedPosition | crates/gossip-connectors/src/split_estimator.rs:490-505 | stays between the ends and hits both |
| SampleCompaction.NearestIndexIsNearest | crates/gossip-connectors/src/split_estimator.rs:839-859 | the binary search finds a nearest element, the earlier one on a tie |
| SampleCompaction.NearestForward | crates/gossip-connectors/src/split_estimator.rs:254-338 | the forward scan stops at an element nearest to the target among those ahead |
| SampleCompaction.NearestPicks | crates/gossip-connectors/src/split_estimator.rs:254-338 | every pick is nearest to its evenly spaced target among the indices that leave room for the rest |
| SampleCompaction.PlateauExtent | crates/gossip-connectors/src/split_estimator.rs:363-439 | finds the whole plateau under a run of picks, free of neighbouring picks |
| SampleCompaction.NearestByRank | crates/gossip-connectors/src/split_estimator.rs:448-466 | the index in a plateau whose rank is nearest to a target |
| SampleCompaction.ClampPicks | crates/gossip-connectors/src/split_estimator.rs:363-439 | desired indices become strictly increasing, moved only as far as needed, with both ends kept |
| SampleCompaction.RedistributePlateauPicks | crates/gossip-connectors/src/split_estimator.rs:363-439 | picks stay strictly increasing, keep both ends and every axis value, and every cluster is spread over its plateau by rank |
| SampleCompaction.CompactionAxisSpansRange | crates/gossip-connectors/src/split_estimator.rs:471-479 | the chosen axis always has different first and last values |
| SampleCompaction.SelectedSampleIndices | crates/gossip-connectors/src/split_estimator.rs:254-338 | for every sample buffer and every smaller cap: that many strictly increasing indices, both ends kept when there are two or more, each with the value of a nearest-neighbour choice |
| SampleCompaction.SwapToFront | crates/gossip-connectors/src/split_estimator.rs:209-229 | swapping in place equals copying the chosen samples out in order |
| SampleCompaction.CompactSamples | crates/gossip-connectors/src/split_estimator.rs:209-229 | a buffer within the cap is untouched, a larger one becomes its chosen samples |
| SampleSpacing.SelectionGap | crates/gossip-connectors/src/split_estimator.rs:254-338 | picks spread over a list widen its largest gap by at most one share of its span |
| SampleSpacing.CompactionGap | crates/gossip-connectors/src/split_estimator.rs:209-229 | a compaction widens the byte gaps between neighbouring samples by at most one share of the bytes they span |
| SplitEstimator.AlignToStrideIsAlignUp | crates/gossip-connectors/src/split_estimator.rs:512-523 | the remainder arithmetic gives the least grid point at or above the value, saturated |
| SplitEstimator.MarkAdvances | crates/gossip-connectors/src/split_estimator.rs:677-726 | how far the next grid point moves when a counter grows |
| SplitEstimator.StreamingSplitEstimator.constructor | crates/gossip-connectors/src/split_estimator.rs:609-622 | an empty estimator meets the invariant |
| SplitEstimator.StreamingSplitEstimator.Observe | crates/gossip-connectors/src/split_estimator.rs:661-731 | keeps the invariant: at most cap samples, a subsequence of the stream from its first key with increasing ranks and non-decreasing byte positions, equal strides, marks on the grid and never behind the counters, and byte gaps between samples bounded by strides and file sizes; the key is sampled exactly when its rank is on the grid or its bytes cover a grid point, and an overfull buffer is compacted once to what the selection keeps |
| SplitEstimator.StreamingSplitEstimator.GrowStridesAndCompact | crates/gossip-connectors/src/split_estimator.rs:805-831 | one compaction halves the buffer, doubles the strides without saturating and restores the invariant |
| SplitEstimator.StreamingSplitEstimator.RealignSampleMarks | crates/gossip-connectors/src/split_estimator.rs:819-822 | both marks land on the stride grid |
| SplitEstimator.OverflowIsPaid | crates/gossip-connectors/src/split_estimator.rs:677-726 | a full buffer has consumed enough of the stream to pay for its compaction |
| SplitEstimator.EstimateIsInner | crates/gossip-connectors/src/split_estimator.rs:754-795 | for three or more increasing keys, any sizes and any number of compactions, the split is an observed key strictly inside |
| SplitEstimator.EstimateOfFewKeys | crates/gossip-connectors/src/split_estimator.rs:754-795 | two keys split at the second, fewer not at all |
| SplitEstimator.CompactionsAreLogarithmic | crates/gossip-connectors/src/split_estimator.rs:805-831 | (cap/2 - 1) * (2^k - 1) is at most count plus bytes after k compactions, so strides never saturate |
| SplitEstimator.SpacedStep | crates/gossip-connectors/src/split_estimator.rs:661-731 | one observation, compaction included, keeps the gap bound |
| SplitEstimator.WidestGapClosedForm | crates/gossip-connectors/src/split_estimator.rs:805-831 | after k compactions the widest gap is 6 strides less 5, plus the largest file 1 + 3k(k+1)/2 times |
| SplitAccuracy.EstimateIsNearMidpoint | crates/gossip-connectors/src/split_estimator.rs:754-795 | once the stream outweighs three widest gaps, the bytes before the estimated key differ from half the total by at most half a gap and one file |
| BatchSplit.LowerBoundSplits | crates/gossip-connectors/src/common.rs:93-95 | the index separates the keys below from those at or above |
| BatchSplit.UpperBoundSplits | crates/gossip-connectors/src/common.rs:102-104 | the index separates the keys at or below from those above |
| BatchSplit.BoundsCutSelection | crates/gossip-connectors/src/common.rs:133-169 | bound resolution and resume position cut out exactly the items in range |
| BatchSplit.FromSortedEntries | crates/gossip-connectors/src/split_estimator.rs:633-642 | an estimator sized for its input never compacts |
| BatchSplit.BalancedIndex | crates/gossip-connectors/src/common.rs:200-220 | the prefix sum of the balanced item is nearest to half the total among all items, or it is item n/2 and that of the first or last item is nearest; it is never the first |
| BatchSplit.ExactEstimate | crates/gossip-connectors/src/common.rs:200-220 | without compaction the split is the balanced item |
| BatchSplit.InMemoryConnector.Create | crates/gossip-connectors/src/in_memory.rs:169-200 | construction sorts, and is refused exactly when two items share a key |
| BatchSplit.InMemoryConnector.ChooseSplitPoint | crates/gossip-connectors/src/in_memory.rs:241-262 | a split exists exactly when two items remain between cursor and bounds; it is the balanced one, in range and above the smallest remaining key |
| EtcdStore.PutKeepsInv | crates/gossip-coordination-etcd/src/sim_etcd_kv.rs:727-757 | a put keeps revisions and lease attachment consistent |
| EtcdStore.DeleteOneMore | crates/gossip-coordination-etcd/src/sim_etcd_kv.rs:759-772 | deleting keys one at a time equals deleting them together, in the store and in every lease |
| EtcdStore.RunOpsKeepsInv | crates/gossip-coordination-etcd/src/sim_etcd_kv.rs:692-725 | running stageable operations in sequence keeps the invariant and the set of leases |
| EtcdStore.DropOneMore | crates/gossip-coordination-etcd/src/sim_etcd_kv.rs:811-853 | leases can be dropped one at a time, each that held keys costing one revision |
| EtcdStore.NothingDueAfterSweep | crates/gossip-coordination-etcd/src/sim_etcd_kv.rs:811-853 | after a sweep no lease is due and every leased key has time to live |
| RetryMachine.ReachableStatesAreExclusive | crates/gossip-coordination-etcd/src/sim_etcd_kv.rs:469-537 | never armed and cooling down at once |
| RetryMachine.BurstIsExact | crates/gossip-coordination-etcd/src/sim_etcd_kv.rs:469-537 | once armed, retries see exactly the configured number of failures and then none |
| RetryMachine.OtherFingerprintResets | crates/gossip-coordination-etcd/src/sim_etcd_kv.rs:469-483 | another fingerprint ends any burst or cooldown first |
| RetryMachine.LazyFingerprintIsEquivalent | crates/gossip-coordination-etcd/src/sim_etcd_kv.rs:295-322 | computing the fingerprint only when it could matter changes nothing |
| EtcdSteps.TxnIsAtomic | crates/gossip-coordination-etcd/src/sim_etcd_kv.rs:275-345 | a transaction takes effect whole on the store its compares held in, or changes nothing beyond expiry |
| EtcdSteps.StepKeepsInv | crates/gossip-coordination-etcd/src/sim_etcd_kv.rs:275-449 | every operation keeps a key's lease and the lease's keys in exact agreement, revisions ordered, and the fault machine consistent |
| EtcdRuns.RunKeepsInv | crates/gossip-coordination-etcd/src/sim_etcd_kv.rs:348-440 | the same in every state of every run |
| EtcdRuns.RunAdvances | crates/gossip-coordination-etcd/src/sim_etcd_kv.rs:692-762 | along any run revisions, time and lease ids only grow, lease ids are not reused, and each entry is old or carries a new revision |
| EtcdRuns.RevisionDeterminesContents | crates/gossip-coordination-etcd/src/sim_etcd_kv.rs:811-894 | two points of a run with one revision have the same contents |
| EtcdRuns.NoAba | crates/gossip-coordination-etcd/src/sim_etcd_kv.rs:692-762 | one modification revision at two points means the same entry there and throughout, with no write or delete in between |
| EtcdRuns.GuardCommitsOnce | crates/gossip-coordination-etcd/src/sim_etcd_kv.rs:329-344 | of all transactions that pin one positive revision of a key they write, at most one takes effect, lost replies included |
| EtcdRuns.LastWriteWins | crates/gossip-coordination-etcd/src/sim_etcd_kv.rs:692-762 | after the operations a key holds the value and lease of its last put, or is gone if a delete came last |
| EtcdRuns.UntouchedStays | crates/gossip-coordination-etcd/src/sim_etcd_kv.rs:692-762 | a key no operation names or matches keeps its entry, or its absence |
| EtcdRuns.RunDescends | crates/gossip-coordination-etcd/src/sim_etcd_kv.rs:727-757 | along any run a key seen twice is one incarnation whose version grew with every write (until it saturates), or was created anew at a later revision |
| EtcdRuns.KeysVanishOnlyForAReason | crates/gossip-coordination-etcd/src/sim_etcd_kv.rs:774-853 | in every run a key that is gone was removed at a step that committed a transaction touching it, revoked its lease, or came after its lease had run out |
| EtcdRuns.TouchingMutates | crates/gossip-coordination-etcd/src/sim_etcd_kv.rs:643-688 | writing or deleting a present key always counts as a change |
| EtcdRuns.NoMutationNoChange | crates/gossip-coordination-etcd/src/sim_etcd_kv.rs:329-334 | operations that change nothing leave the store as it was |
| EtcdRuns.LeaseLivesBetween | crates/gossip-coordination-etcd/src/sim_etcd_kv.rs:348-382 | a lease seen at two points was live in between |
| EtcdRuns.DueKeysAreNeverSeen | crates/gossip-coordination-etcd/src/sim_etcd_kv.rs:811-853 | no read, compare or operation meets a key whose lease is due |
| TxnStaging.PutStages | crates/gossip-coordination-etcd/src/sim_etcd_kv.rs:614-641 | a staged put resolves like the put itself |
| TxnStaging.DeleteStages | crates/gossip-coordination-etcd/src/sim_etcd_kv.rs:646-688 | keys matched before the transaction or among pending puts are, of those present at its turn, exactly what the delete removes; the change flag is exact |
| SimEtcd.EvaluateCompares | crates/gossip-coordination-etcd/src/sim_etcd_kv.rs:311-315 | compares are evaluated in order up to the first that fails |
| SimEtcd.SimulatedEtcdKV.constructor | crates/gossip-coordination-etcd/src/sim_etcd_kv.rs:84-106 | a new server is empty and valid |
| SimEtcd.SimulatedEtcdKV.PutKey | crates/gossip-coordination-etcd/src/sim_etcd_kv.rs:727-757 | refines the reference put; the validated lease is always there |
| SimEtcd.SimulatedEtcdKV.DeleteKey | crates/gossip-coordination-etcd/src/sim_etcd_kv.rs:759-772 | refines the reference delete |
| SimEtcd.SimulatedEtcdKV.RemoveLeaseAndKeys | crates/gossip-coordination-etcd/src/sim_etcd_kv.rs:774-791 | removes the lease with exactly its keys and reports whether there were any |
| SimEtcd.SimulatedEtcdKV.EarliestExpiry | crates/gossip-coordination-etcd/src/sim_etcd_kv.rs:845-850 | a lower bound of all expiries that one of them attains, if any |
| SimEtcd.SimulatedEtcdKV.ExpireDueLeases | crates/gossip-coordination-etcd/src/sim_etcd_kv.rs:811-853 | with or without the early exit the result is the full sweep; returns in order the leases that took keys with them |
| SimEtcd.SimulatedEtcdKV.ConsumeRetryExhaustion | crates/gossip-coordination-etcd/src/sim_etcd_kv.rs:485-503 | refines the machine's consume step |
| SimEtcd.SimulatedEtcdKV.MaybeArmRetryExhaustion | crates/gossip-coordination-etcd/src/sim_etcd_kv.rs:505-537 | refines the machine's arm step |
| SimEtcd.SimulatedEtcdKV.ClearRetryExhaustionForOtherTxn | crates/gossip-coordination-etcd/src/sim_etcd_kv.rs:469-483 | refines the machine's reset step |
| SimEtcd.SimulatedEtcdKV.StagePut | crates/gossip-coordination-etcd/src/sim_etcd_kv.rs:614-641 | fails exactly on a missing lease or a second put of a key, else extends the staged form |
| SimEtcd.SimulatedEtcdKV.StageDelete | crates/gossip-coordination-etcd/src/sim_etcd_kv.rs:646-688 | extends the staged form |
| SimEtcd.SimulatedEtcdKV.StageSuccessOps | crates/gossip-coordination-etcd/src/sim_etcd_kv.rs:584-612 | reports the first staging error or the staged form of all operations |
| SimEtcd.SimulatedEtcdKV.DeleteStaged | crates/gossip-coordination-etcd/src/sim_etcd_kv.rs:706-713 | deletes the keys and counts those that were present |
| SimEtcd.SimulatedEtcdKV.ApplyStagedTxn | crates/gossip-coordination-etcd/src/sim_etcd_kv.rs:692-725 | replaying the staged form gives the store and the delete counts of running the operations one by one |
| SimEtcd.SimulatedEtcdKV.CommitOps | crates/gossip-coordination-etcd/src/sim_etcd_kv.rs:324-345 | the revision rises by one exactly when an operation puts or really deletes; a staging error changes nothing |
| SimEtcd.SimulatedEtcdKV.PassGate | crates/gossip-coordination-etcd/src/sim_etcd_kv.rs:288-322 | the order of fault machine, compares and spurious failures is that of the transition function |
| SimEtcd.SimulatedEtcdKV.Txn | crates/gossip-coordination-etcd/src/sim_etcd_kv.rs:275-345 | the mutable server takes exactly the modelled transition and stays valid |
| SimEtcd.SimulatedEtcdKV.LeaseGrant | crates/gossip-coordination-etcd/src/sim_etcd_kv.rs:348-382 | grants an id not in use with a saturated expiry, or the exact error |
| SimEtcd.SimulatedEtcdKV.LeaseKeepAliveOnce | crates/gossip-coordination-etcd/src/sim_etcd_kv.rs:391-410 | renews a live lease; an expired one is not found |
| SimEtcd.SimulatedEtcdKV.LeaseRevoke | crates/gossip-coordination-etcd/src/sim_etcd_kv.rs:413-440 | drops the lease with its keys, bumping the revision exactly when there were any |
| SimEtcd.SimulatedEtcdKV.Tick | crates/gossip-coordination-etcd/src/sim_etcd_kv.rs:443-449 | advances the clock and sweeps |
| SimEtcd.SimulatedEtcdKV.PrepareTxn | crates/gossip-coordination-etcd/src/sim_etcd_kv.rs:275-286 | due leases are gone before compares, also after the injected tick |
| SimEtcd.SimulatedEtcdKV.SetTime | crates/gossip-coordination-etcd/src/sim_etcd_kv.rs:177-184 | moves the clock forward only |
| SimEtcd.SimulatedEtcdKV.SetFaultConfig | crates/gossip-coordination-etcd/src/sim_etcd_kv.rs:190-200 | resets the fault machine and nothing else |
| SimEtcd.SimulatedEtcdKV.Get | crates/gossip-coordination-etcd/src/sim_etcd_kv.rs:203-272 | returns the live entries in range that pass the revision bounds, in byte order, up to the limit and without values if so asked, with the total count and whether more match; historical, serializable and sorted reads are refused |
| SimEtcd.ReadIsDetermined | crates/gossip-coordination-etcd/src/sim_etcd_kv.rs:241-271 | a store and a request leave exactly one reply |
| LostReply.RunOpsAtKey | crates/gossip-coordination-etcd/src/sim_etcd_kv.rs:692-725 | running operations on the store, seen at one key, is running them on that key alone |
| LostReply.RetryComparesHold | crates/gossip-coordination-etcd/src/sim_etcd_kv.rs:335-343 | after a commit the same compares hold again if and only if each one on a touched key holds on the entry left there |
| LostReply.RetryCommitsIff | crates/gossip-coordination-etcd/src/sim_etcd_kv.rs:335-343 | an immediate fault-free retry of a committed transaction commits again under exactly that condition |
| LostReply.MachineLetsRetryThrough | crates/gossip-coordination-etcd/src/sim_etcd_kv.rs:469-537 | a transaction that got past the fault machine leaves no burst that could stop its own retry |
| LostReply.PinnedIsNotRepeatable | crates/gossip-coordination-etcd/src/sim_etcd_kv.rs:335-343 | a request that pins a positive revision of a key it writes or deletes never commits again |
| LostReply.CreateIsNotRepeatable | crates/gossip-coordination-etcd/src/sim_etcd_kv.rs:335-343 | nor does one that requires absence of a key it puts last |
| LostReply.ElsewhereIsRepeatable | crates/gossip-coordination-etcd/src/sim_etcd_kv.rs:335-343 | one that compares none of the keys it touches always does |
| OwnerCas.OwnerGuardsMean | crates/gossip-coordination-etcd/src/backend.rs:621-693 | the four guards together pin the shard's revision and the owner's value and lease |
| OwnerCas.OwnerCasCommitsOnWhatWasRead | crates/gossip-coordination-etcd/src/backend.rs:621-693 | under any interleaving a commit ran on the shard entry that was read, unchanged throughout, with the owner key still naming the worker and fence on the same lease, live and not due |
| OwnerCas.OneUpdatePerRead | crates/gossip-coordination-etcd/src/backend.rs:646-648 | of all owner-guarded updates based on one read of a shard, by whichever workers, at most one takes effect |
| OwnerCas.OwnerCasRetryFails | crates/gossip-coordination-etcd/src/backend.rs:646-648 | sending an owner-guarded update again after it took effect has no second effect |
| OwnerCas.CreateRepeatsOnlyAfterRemoval | crates/gossip-coordination-etcd/src/backend.rs:667-669 | a create guarded by absence takes effect again only after the key was removed |
| OwnerCas.UnpinnedRetryCommitsTwice | crates/gossip-coordination-etcd/src/sim_etcd_kv.rs:335-343 | a transaction that checks one key and writes another takes effect twice when its reply is lost and it is sent again |
| Wire.LeRoundTrip | crates/gossip-coordination-etcd/src/codec.rs:1564-1570 | little-endian bytes read back as the number |
| Wire.LeIsCanonical | crates/gossip-coordination-etcd/src/codec.rs:1470-1482 | every byte string of the width is the encoding of the number it reads as |
| Wire.GetU64 | crates/gossip-coordination-etcd/src/codec.rs:1477-1482 | what is read prints back to the same bytes |
| Wire.GetBool | crates/gossip-coordination-etcd/src/codec.rs:1462-1468 | only the two canonical tags are read |
| Wire.GetBytes | crates/gossip-coordination-etcd/src/codec.rs:1493-1502 | a length-prefixed field within the cap prints back to the same bytes |
| Wire.GetOptBytes | crates/gossip-coordination-etcd/src/codec.rs:1504-1510 | an optional field prints back to the same bytes |
| Wire.GetHeader | crates/gossip-coordination-etcd/src/codec.rs:1410-1428 | exactly the version prefix and the expected kind are accepted |
| Wire.BytesComplete | crates/gossip-coordination-etcd/src/codec.rs:1584-1587 | a printed field within the cap is read back |
| Wire.OptBytesComplete | crates/gossip-coordination-etcd/src/codec.rs:1589-1597 | a printed optional field is read back |
| Wire.HeaderComplete | crates/gossip-coordination-etcd/src/codec.rs:101-123 | a printed header is accepted |
| Wire.GetAllSound | crates/gossip-coordination-etcd/src/codec.rs:493-505 | a list read element by element prints back to the same bytes |
| Wire.GetAllComplete | crates/gossip-coordination-etcd/src/codec.rs:439-447 | a printed list is read back |
| RunCodec.GetResult | crates/gossip-coordination-etcd/src/codec.rs:782-810 | an operation result prints back to the same bytes and is within the cap |
| RunCodec.GetOp | crates/gossip-coordination-etcd/src/codec.rs:680-702 | an accepted log entry is valid and prints back to the same bytes |
| RunCodec.OpComplete | crates/gossip-coordination-etcd/src/codec.rs:672-678 | a valid entry within the cap is read back |
| RunCodec.GetRecord | crates/gossip-coordination-etcd/src/codec.rs:450-517 | an accepted record is valid, within the caps, and prints back to the same bytes |
| RunCodec.Decode | crates/gossip-coordination-etcd/src/codec.rs:302-308 | every accepted blob is exactly the encoding of the record it yields |
| RunCodec.RecordComplete | crates/gossip-coordination-etcd/src/codec.rs:429-448 | a valid record within the caps is read back in front of any bytes |
| RunCodec.DecodeEncode | crates/gossip-coordination-etcd/src/codec.rs:195-202 | a valid run record survives encoding and decoding exactly when its lists are within the decoder's caps |
| RunCodec.CrowdedRunIsLost | crates/gossip-coordination-etcd/src/codec.rs:195-202 | a valid active run with 10,001 root shards, whose encoding does not decode to it |
| ShardCodec.GetOp | crates/gossip-coordination-etcd/src/codec.rs:1324-1351 | an accepted log entry is valid and prints back to the same bytes |
| ShardCodec.GetHead | crates/gossip-coordination-etcd/src/codec.rs:968-994 | identity, status, spec and cursor print back to the same bytes |
| ShardCodec.GetLease | crates/gossip-coordination-etcd/src/codec.rs:1003-1011 | owner and deadline are read jointly |
| ShardCodec.GetRecord | crates/gossip-coordination-etcd/src/codec.rs:968-1058 | an accepted record is valid, within the caps, and prints back to the same bytes |
| ShardCodec.Decode | crates/gossip-coordination-etcd/src/codec.rs:347-356 | every accepted blob is exactly the encoding of the owned record it yields |
| ShardCodec.RecordComplete | crates/gossip-coordination-etcd/src/codec.rs:921-966 | a valid record within the caps is read back in front of any bytes |
| ShardCodec.DecodeEncode | crates/gossip-coordination-etcd/src/codec.rs:320-330 | a valid shard record survives encoding and decoding exactly when its byte fields are within the cap |
| ShardCodec.DecodeOwner | crates/gossip-coordination-etcd/src/codec.rs:370-383 | an accepted owner value has a positive fence and is exactly the encoding of what it yields |
| ShardCodec.OwnerRoundTrip | crates/gossip-coordination-etcd/src/codec.rs:360-367 | an owner binding survives exactly when its fence is at least the initial one |
| RecordReader.Decoder.ReadExact | crates/gossip-coordination-etcd/src/codec.rs:1445-1456 | advances by exactly the bytes returned, or reports what is missing |
| RecordReader.Decoder.ReadEach | crates/gossip-coordination-etcd/src/codec.rs:493-496 | the loop reads the same ids, the same rest and the same error as the parser |
| RecordReader.Decoder.ReadRunRecord | crates/gossip-coordination-etcd/src/codec.rs:450-517 | the stateful decoder agrees with the parser on value, rest and error |
| RecordReader.Decoder.ReadShardRecord | crates/gossip-coordination-etcd/src/codec.rs:968-1058 | the stateful decoder agrees with the parser on value, rest and error |
| RecordReader.DecodeRunRecord | crates/gossip-coordination-etcd/src/codec.rs:302-308 | decoding a run blob is the parser's result, errors included |
| RecordReader.DecodeOwnedShardRecord | crates/gossip-coordination-etcd/src/codec.rs:347-356 | decoding a shard blob is the parser's result, errors included |
| RecordReader.DecodeOwnerValue | crates/gossip-coordination-etcd/src/codec.rs:370-383 | decoding an owner value is the parser's result, errors included |
| RecordSlab.ByteSlab.Allocate | crates/gossip-stdx/src/byte_slab.rs:615-686 | adds one slot with the data, or this very attempt found no room and nothing changed; empty data takes no slot |
| RecordSlab.ByteSlab.AllocateWithRollback | crates/gossip-contracts/src/coordination/pooled.rs:121-139 | all fields are stored in new slots, or the live slots are as before |
| RecordSlab.UnpackPacked | crates/gossip-contracts/src/coordination/pooled.rs:445-488 | packed child ids unpack to the same list |
| RecordSlab.PoolSpec | crates/gossip-contracts/src/coordination/pooled.rs:166-181 | the pooled spec reads back as the input, or nothing changed |
| RecordSlab.PoolCursor | crates/gossip-contracts/src/coordination/pooled.rs:300-318 | the pooled cursor reads back as the input, absent fields taking no slot, or nothing changed |
| RecordSlab.PoolSpawned | crates/gossip-contracts/src/coordination/pooled.rs:499-546 | the pooled children read back as the input, or nothing changed |
| RecordSlab.Rollback | crates/gossip-coordination-etcd/src/codec.rs:880-890 | releases exactly what was staged |
| RecordSlab.TryMaterialize | crates/gossip-coordination-etcd/src/codec.rs:1089-1171 | on failure, at whichever step, the staged slots are exactly what was added, and the error says why: a rejected field, an allocation of this call that found no room, or an invariant of the record |
| RecordSlab.IntoRecord | crates/gossip-coordination-etcd/src/codec.rs:1070-1080 | any failure leaves the live slots as they were; success adds exactly the record's slots, which read back as the input with an empty token dropped |
| RecordWriter.Buffer.AddIds | crates/gossip-coordination-etcd/src/codec.rs:439-442 | the append loop writes the printed list |
| RecordWriter.Buffer.AddRunRecord | crates/gossip-coordination-etcd/src/codec.rs:429-448 | appending field by field writes the printed record |
| RecordWriter.Buffer.AddOwned | crates/gossip-coordination-etcd/src/codec.rs:921-966 | writes the printed record, or refuses a lease with only an owner or only a deadline |
| RecordWriter.Buffer.AddPooled | crates/gossip-coordination-etcd/src/codec.rs:216-271 | reading fields from the slab writes the same bytes as printing the owned record |
| RecordWriter.EncodeRunRecord | crates/gossip-coordination-etcd/src/codec.rs:195-202 | the buffer ends up with the encoding |
| RecordWriter.EncodeShardRecord | crates/gossip-coordination-etcd/src/codec.rs:320-330 | encoding a backed record never fails and gives the owned encoding |
| RecordWriter.EncodeShardRecordInto | crates/gossip-coordination-etcd/src/codec.rs:216-271 | the direct encoder fills the buffer with the same bytes as the owned-record encoder |
| RecordWriter.EncodeOwnerValue | crates/gossip-coordination-etcd/src/codec.rs:360-367 | the buffer ends up with the owner encoding |
| RecordWriter.DecodeShardRecord | crates/gossip-coordination-etcd/src/codec.rs:347-356 | whichever step fails the slab's live slots are as before; on success exactly the record's slots are added and hold the decoded record |
| RecordWriter.AcceptedSurvives | crates/gossip-coordination-etcd/src/codec.rs:320-356 | every valid record whose spec and cursor the slab accepts survives encoding and decoding |
| RecordWriter.Reload | crates/gossip-coordination-etcd/src/codec.rs:320-356 | encoding a stored record and decoding it into another slab gives the same record, unless an allocation finds no room |
| RecordWriter.EncodeInjective | crates/gossip-coordination-etcd/src/codec.rs:921-966 | different valid records within the limits have different encodings |
| RecordWriter.ReencodeExact | crates/gossip-coordination-etcd/src/codec.rs:1108-1126 | a blob decoded into the slab re-encodes to itself exactly when its token is not present and empty |
| RecordWriter.EmptyTokenIsLost | crates/gossip-contracts/src/coordination/cursor.rs:179-199 | a concrete accepted record whose re-encoding differs |
| Keyspace.HexRoundTrip | crates/gossip-coordination-etcd/src/keyspace.rs:909-917 | padded hex reads back as the number |
| Keyspace.HexOrder | crates/gossip-coordination-etcd/src/keyspace.rs:909-917 | byte order of padded hex is numeric order |
| Keyspace.ParseHex16 | crates/gossip-coordination-etcd/src/keyspace.rs:945-957 | exactly the sixteen-digit lowercase forms parse, each to its number |
| Keyspace.EncodeHexInto | crates/gossip-coordination-etcd/src/keyspace.rs:923-930 | the table loop appends two digits per byte |
| Keyspace.HexBytesOrder | crates/gossip-coordination-etcd/src/keyspace.rs:904-930 | tenant hex preserves order and identity of the bytes |
| Keyspace.KeysAreDistinct | crates/gossip-coordination-etcd/src/keyspace.rs:590-886 | two identities, of any kinds, have one key exactly when they are the same |
| Keyspace.KeyOrderIsIdOrder | crates/gossip-coordination-etcd/src/keyspace.rs:590-886 | within a kind, key order is the order of tenant, run and shard |
| Keyspace.ShardScanIsIsolated | crates/gossip-coordination-etcd/src/keyspace.rs:659-680 | a generated key starts with the shard scan prefix exactly when it is that run's shard record or owner key |
| Keyspace.RunScanIsIsolated | crates/gossip-coordination-etcd/src/keyspace.rs:557-578 | a run scan meets no active-run entry and no counter |
| Keyspace.RunPrefixNeedsItsSlash | crates/gossip-coordination-etcd/src/keyspace.rs:522-540 | without its trailing slash the run prefix matches active-run entries |
| Keyspace.RunsActiveScanIsIsolated | crates/gossip-coordination-etcd/src/keyspace.rs:769-787 | the active-run prefix, which ends without a slash, meets exactly the tenant's active-run entries |
| Keyspace.ShardsActiveScanIsIsolated | crates/gossip-coordination-etcd/src/keyspace.rs:829-848 | the active-shard prefix, which the capacity count scans, meets exactly that run's active-shard entries |
| KeyParsing.DirectChildExact | crates/gossip-coordination-etcd/src/keyspace.rs:936-939 | a key parses as a direct child exactly when it is the prefix and an id |
| KeyParsing.OwnedShardExact | crates/gossip-coordination-etcd/src/keyspace.rs:282-286 | a key parses as an owner key exactly when it is prefix, id and suffix |
| KeyParsing.RunScanParses | crates/gossip-coordination-etcd/src/keyspace.rs:294-296 | among generated keys exactly the tenant's run records parse, to their run |
| KeyParsing.RunActiveScanParses | crates/gossip-coordination-etcd/src/keyspace.rs:304-306 | among generated keys exactly the tenant's active runs parse, to their run |
| KeyParsing.ShardActiveScanParses | crates/gossip-coordination-etcd/src/keyspace.rs:314-316 | among generated keys exactly the run's active shards parse, to their shard |
| KeyParsing.OwnerScanParses | crates/gossip-coordination-etcd/src/keyspace.rs:282-286 | among generated keys exactly the run's owner keys parse, to their shard |
| KeyParsing.LastSegment | crates/gossip-coordination-etcd/src/keyspace.rs:325-333 | the last occurrence of the segment |
| KeyParsing.ClassifyExact | crates/gossip-coordination-etcd/src/keyspace.rs:325-340 | a key is classified exactly when it ends in the segment and an id, with or without the owner suffix |
| KeyParsing.ClassifyGenerated | crates/gossip-coordination-etcd/src/keyspace.rs:325-340 | every generated key is classified by its kind, for any namespace, even one that contains the segment |
| KeyParsing.KeysAreCleanPaths | crates/gossip-coordination-etcd/src/keyspace.rs:399-414 | under a valid namespace every key is absolute and has no empty segment |
| KeyBuilder.KeyBuffer.TenantPrefix | crates/gossip-coordination-etcd/src/keyspace.rs:461-465 | appends the tenant root, with the root namespace's slash not doubled |
| KeyBuilder.KeyBuffer.ShardCountKey | crates/gossip-coordination-etcd/src/keyspace.rs:492-495 | appends the counter key |
| KeyBuilder.KeyBuffer.RunRecordKey | crates/gossip-coordination-etcd/src/keyspace.rs:590-594 | appends the run record key |
| KeyBuilder.KeyBuffer.RunActiveIndexKey | crates/gossip-coordination-etcd/src/keyspace.rs:798-802 | appends the active-run key |
| KeyBuilder.KeyBuffer.ShardScanPrefixKey | crates/gossip-coordination-etcd/src/keyspace.rs:659-662 | appends the shard scan prefix |
| KeyBuilder.KeyBuffer.ShardRecordKey | crates/gossip-coordination-etcd/src/keyspace.rs:692-702 | appends the shard record key |
| KeyBuilder.KeyBuffer.ShardOwnerKey | crates/gossip-coordination-etcd/src/keyspace.rs:731-740 | appends the owner key |
| KeyBuilder.KeyBuffer.ShardActiveIndexKey | crates/gossip-coordination-etcd/src/keyspace.rs:859-869 | appends the active-shard key |
| KeyBuilder.OwnerExtendsRecord | crates/gossip-coordination-etcd/src/keyspace.rs:237-251 | an owner key is its record key with the suffix |
| Claim.RotationIsPermutation | crates/gossip-coordination/src/facade.rs:269-281 | the rotation visits every candidate exactly once |
| Claim.ClaimNextAvailable | crates/gossip-coordination/src/facade.rs:251-365 | candidates are tried in rotation from the worker's offset, none twice, up to the first success or hard error; when all are lost the reported deadline is the least seen, and only when every one has vanished is the backend given up as corrupt |

## Left out

- Single-file roots, symbolic links, deadlines, I/O errors and opening or reading files: the tree is a value that does not change during a run.
- The filesystem connector's split hint: nothing feeds its estimator.
- Trimming of the namespace prefix before validation: `CheckNamespace` takes the trimmed text.
- SplitEstimator.StreamingSplitEstimator.Observe: requires that the observation count has not reached 2^64 - 1, where the rank counter would saturate.
- The uniform-spacing fallback in the sample selection: it cannot be reached, as shown.
- Revision overflow, a panic in the source: revisions are unbounded. Clock overflow, also a panic, is excluded by a precondition, as is moving the clock backwards.
- Compares and operations with missing or mismatched protobuf payloads: the request types cannot express them.
- Random number generation, fault rates and fault counters: each draw is an input. The fingerprint is an arbitrary function, so collisions are included.
- TxnBuilder: it only collects compares and operations and refuses an empty compare list.
- The run and shard transitions in the coordinator's backend, owner caching, and configuration and error mapping.
- Texts inside errors: errors are told apart by kind, not by message.
- RecordSlab.ByteSlab.Allocate: block sizes, the free list and coalescing are not modelled; whether an allocation finds room is an arbitrary schedule, and handles are never reused.
- RunCodec.GetRecord: the run configuration is kept as one nested value rather than three flat fields.
- Claim.ClaimNextAvailable: the snapshot and capacity hint that accompany a won shard; debug builds, which stop at the first vanished candidate.
