/** The lazy, pruned, explicit-stack walk of a directory tree. */
module DirectoryWalk {
  import opened Bytes
  import opened KeyRange
  import opened Sorting
  import opened FileTree

  datatype EnumerateError = PermanentError

  type Result<T> = Fallible<T, EnumerateError>

  // ---------------------------------------------------------------------
  // Subtree pruning
  // ---------------------------------------------------------------------

  /** No path that extends `p` lies in the range. */
  ghost predicate ExcludesAll(range: Range, p: Bytes) {
    forall s :: p <= s ==> !InRange(range, s)
  }

  /** Computes the prefix successor by editing a copy of the prefix from its end. */
  method PrefixSuccessor(prefix: Bytes) returns (r: Option<Bytes>)
    ensures r == Successor(prefix)
  {
    var successor := prefix;
    var index := |successor|;
    assert prefix[..index] == prefix;
    while index > 0
      invariant 0 <= index <= |successor|
      invariant Successor(prefix) == Successor(prefix[..index])
    {
      index := index - 1;
      assert prefix[..index + 1][..index] == prefix[..index];
      if successor[index] != 255 {
        successor := successor[index := successor[index] + 1];
        successor := successor[..index + 1];
        assert successor == prefix[..index] + [prefix[index] + 1];
        return Some(successor);
      }
    }
    return None;
  }

  lemma StartExcludesAll(start: Bytes, p: Bytes)
    ensures ExcludesAll(Range(Some(start), None, None), p)
            <==> Successor(p).Some? && LessEq(Successor(p).value, start)
  {
    var range := Range(Some(start), None, None);
    if Successor(p).Some? && LessEq(Successor(p).value, start) {
      forall s | p <= s ensures !InRange(range, s) {
        SuccessorBoundsPrefix(p, s);
        LessEqTransitive(s, Successor(p).value, start);
        LessAsymmetric(s, start);
      }
    } else {
      LessTotal(start, p);
      if LessEq(start, p) {
        assert InRange(range, p);
      } else {
        if Successor(p).Some? { LessTotal(start, Successor(p).value); }
        SuccessorBoundsPrefix(p, start);
        assert InRange(range, start);
      }
    }
  }

  lemma ResumeExcludesAll(resume: Bytes, p: Bytes)
    ensures ExcludesAll(Range(None, Some(resume), None), p)
            <==> Successor(p).Some? && LessEq(Successor(p).value, resume)
  {
    var range := Range(None, Some(resume), None);
    if Successor(p).Some? && LessEq(Successor(p).value, resume) {
      forall s | p <= s ensures !InRange(range, s) {
        SuccessorBoundsPrefix(p, s);
        LessEqTransitive(s, Successor(p).value, resume);
        LessAsymmetric(s, resume);
      }
    } else {
      LessTotal(resume, p);
      if Less(resume, p) {
        assert InRange(range, p);
      } else {
        if Successor(p).Some? { LessTotal(resume, Successor(p).value); }
        SuccessorBoundsPrefix(p, resume);
        LessCommonPrefix(resume, [], [0]);
        assert resume + [] == resume;
        assert InRange(range, resume + [0]);
      }
    }
  }

  lemma EndExcludesAll(end: Bytes, p: Bytes)
    ensures ExcludesAll(Range(None, None, Some(end)), p) <==> LessEq(end, p)
  {
    var range := Range(None, None, Some(end));
    LessTotal(end, p);
    if LessEq(end, p) {
      forall s | p <= s ensures !InRange(range, s) {
        PrefixLessEq(p, s);
        LessEqTransitive(end, p, s);
        LessIrreflexive(s);
        if Less(s, end) { LessEqTransitive(s, end, s); }
      }
    } else {
      assert InRange(range, p);
    }
  }

  /** One of the three bounds alone excludes everything below the directory. */
  ghost predicate Skips(range: Range, dirPrefix: Bytes) {
    && dirPrefix != []
    && var below := Join(dirPrefix, []);
       || ExcludesAll(Range(range.start, None, None), below)
       || ExcludesAll(Range(None, range.resumeAfter, None), below)
       || ExcludesAll(Range(None, None, range.end), below)
  }

  /** A directory is skipped exactly when one of the three bounds alone excludes all of its subtree. */
  method ShouldSkipSubtree(dirPrefix: Bytes, range: Range) returns (skip: bool)
    ensures skip <==> Skips(range, dirPrefix)
  {
    if dirPrefix == [] { return false; }
    var subtreeStart := Join(dirPrefix, []);
    var successor := PrefixSuccessor(subtreeStart);
    assert InRange(Range(None, None, None), subtreeStart);
    if range.start.Some? { StartExcludesAll(range.start.value, subtreeStart); }
    if range.resumeAfter.Some? { ResumeExcludesAll(range.resumeAfter.value, subtreeStart); }
    if range.end.Some? { EndExcludesAll(range.end.value, subtreeStart); }
    if range.start.Some? && successor.Some? && LessEq(successor.value, range.start.value) {
      return true;
    }
    if range.resumeAfter.Some? && successor.Some? && LessEq(successor.value, range.resumeAfter.value) {
      return true;
    }
    if range.end.Some? && LessEq(range.end.value, subtreeStart) {
      return true;
    }
    return false;
  }

  // ---------------------------------------------------------------------
  // What a walk finds and how it ends
  // ---------------------------------------------------------------------

  /** A directory with more entries than this cannot be walked. */
  const MAX_DIR_ENTRIES: nat := 500_000

  /** After the last entry, at a file past the range, or at a directory too large to read. */
  datatype Ending = Exhausted | PastEnd | Stuck

  /** The files a walk emits, in order, and what it meets after the last of them. */
  datatype Outlook = Outlook(run: seq<WalkFile>, ending: Ending)

  const NOTHING: Outlook := Outlook([], Exhausted)

  /** One walk after the other; the second happens only if the first gets to its end. */
  function Then(a: Outlook, b: Outlook): Outlook {
    if a.ending.Exhausted? then Outlook(a.run + b.run, b.ending) else a
  }

  lemma ThenAssociates(a: Outlook, b: Outlook, c: Outlook)
    ensures Then(Then(a, b), c) == Then(a, Then(b, c))
  {
    assert (a.run + b.run) + c.run == a.run + (b.run + c.run);
  }

  lemma ThenNothing(a: Outlook)
    ensures Then(NOTHING, a) == a == Then(a, NOTHING)
  {
    assert [] + a.run == a.run == a.run + [];
  }

  /** The walk of a list of entries: out-of-range subtrees are not opened, too large ones end it. */
  ghost function OutlookEntries(range: Range, prefix: Bytes, entries: seq<Entry>): Outlook
    decreases Size(entries), 2
  {
    if entries == [] then NOTHING
    else Then(OutlookEntry(range, prefix, entries[0]), OutlookEntries(range, prefix, entries[1..]))
  }

  ghost function OutlookEntry(range: Range, prefix: Bytes, e: Entry): Outlook
    decreases NodeSize(e.node), 1
  {
    if e.name == [] then NOTHING
    else match e.node
      case Special => NOTHING
      case File(size) =>
        var file := WalkFile(Join(prefix, e.name), size);
        if InRange(range, file.path) then Outlook([file], Exhausted)
        else if BeforeRange(range, file.path) then NOTHING
        else Outlook([], PastEnd)
      case Dir(children) =>
        if Skips(range, Join(prefix, e.name)) then NOTHING
        else OutlookDir(range, Join(prefix, e.name), children)
  }

  ghost function OutlookDir(range: Range, prefix: Bytes, entries: seq<Entry>): Outlook
    decreases Size(entries), 3
  {
    SizeSort(entries);
    if |entries| > MAX_DIR_ENTRIES then Outlook([], Stuck)
    else OutlookEntries(range, prefix, Sort(entries, SortKey))
  }

  /** The path comes too early for the start or the resume point. */
  predicate BeforeRange(range: Range, p: Bytes) {
    || (range.start.Some? && Less(p, range.start.value))
    || (range.resumeAfter.Some? && LessEq(p, range.resumeAfter.value))
  }

  lemma RangeSides(range: Range, p: Bytes)
    ensures !InRange(range, p) && !BeforeRange(range, p) ==> range.end.Some? && LessEq(range.end.value, p)
    ensures InRange(range, p) ==> !BeforeRange(range, p) && !(range.end.Some? && LessEq(range.end.value, p))
  {
    if range.start.Some? { LessOrNot(range.start.value, p); }
    if range.resumeAfter.Some? { LessOrNot(range.resumeAfter.value, p); }
    if range.end.Some? { LessOrNot(range.end.value, p); }
  }

  // ---------------------------------------------------------------------
  // The pruned walk against the filtered one
  // ---------------------------------------------------------------------

  lemma SuffixIncreasing(a: seq<WalkFile>, b: seq<WalkFile>)
    requires Increasing(Paths(a + b))
    ensures Increasing(Paths(b))
    ensures forall f, g :: f in a && g in b ==> Less(f.path, g.path)
  {
    var p := Paths(a + b);
    forall i, j | 0 <= i < j < |b| ensures Less(b[i].path, b[j].path) {
      assert p[|a| + i] == b[i].path && p[|a| + j] == b[j].path;
    }
    forall f, g | f in a && g in b ensures Less(f.path, g.path) {
      var i :| 0 <= i < |a| && a[i] == f;
      var j :| 0 <= j < |b| && b[j] == g;
      assert p[i] == f.path && p[|a| + j] == g.path;
    }
  }

  lemma SkippedSubtreeOutOfRange(range: Range, prefix: Bytes, e: Entry, f: WalkFile)
    requires e.node.Dir? && f in WalkEntry(prefix, e)
    requires Skips(range, Join(prefix, e.name))
    ensures !InRange(range, f.path)
  {
    WalkEntryPaths(prefix, e, f);
    assert Join(Join(prefix, e.name), []) == Base(prefix) + SortKey(e);
    assert InRange(range, f.path) ==>
        InRange(Range(range.start, None, None), f.path) &&
        InRange(Range(None, range.resumeAfter, None), f.path) &&
        InRange(Range(None, None, range.end), f.path);
  }

  lemma PrefixIncreasing(a: seq<WalkFile>, b: seq<WalkFile>)
    requires Increasing(Paths(a + b))
    ensures Increasing(Paths(a))
  {
    forall i, j | 0 <= i < j < |a| ensures Less(a[i].path, a[j].path) {
      assert Paths(a + b)[i] == a[i].path && Paths(a + b)[j] == a[j].path;
    }
  }

  /** The emitted files begin the filtered `walk`, and are all of it unless the walk got stuck. */
  ghost predicate Finds(range: Range, o: Outlook, walk: seq<WalkFile>) {
    && o.run <= Select(range, walk, PathOf)
    && (!o.ending.Stuck? ==> o.run == Select(range, walk, PathOf))
    && (o.ending.PastEnd? ==> exists f :: f in walk && range.end.Some? && LessEq(range.end.value, f.path))
  }

  lemma FindsThen(range: Range, a: Outlook, u: seq<WalkFile>, b: Outlook, v: seq<WalkFile>)
    requires Increasing(Paths(u + v)) && Finds(range, a, u) && Finds(range, b, v)
    ensures Finds(range, Then(a, b), u + v)
  {
    SelectConcat(range, u, v, PathOf);
    if a.ending.PastEnd? {
      var f :| f in u && range.end.Some? && LessEq(range.end.value, f.path);
      assert f in u + v;
      PastEndIsEmpty(range, f, u, v);
    } else if a.ending.Exhausted? && b.ending.PastEnd? {
      var f :| f in v && range.end.Some? && LessEq(range.end.value, f.path);
      assert f in u + v;
    }
  }

  /** Once a path reaches the end of the range, so do all paths after it. */
  lemma PastEndIsEmpty(range: Range, f: WalkFile, u: seq<WalkFile>, v: seq<WalkFile>)
    requires Increasing(Paths(u + v)) && f in u && range.end.Some? && LessEq(range.end.value, f.path)
    ensures Select(range, v, PathOf) == []
  {
    SuffixIncreasing(u, v);
    forall g | g in v ensures !InRange(range, g.path) {
      LessEqTransitive(range.end.value, f.path, g.path);
      RangeSides(range, g.path);
    }
    SelectEmpty(range, v, PathOf);
  }

  lemma {:induction false} EntriesFind(range: Range, prefix: Bytes, entries: seq<Entry>)
    requires Increasing(Paths(WalkEntries(prefix, entries)))
    ensures Finds(range, OutlookEntries(range, prefix, entries), WalkEntries(prefix, entries))
    decreases Size(entries), 2
  {
    if entries != [] {
      var u, v := WalkEntry(prefix, entries[0]), WalkEntries(prefix, entries[1..]);
      PrefixIncreasing(u, v);
      SuffixIncreasing(u, v);
      EntryFinds(range, prefix, entries[0]);
      EntriesFind(range, prefix, entries[1..]);
      FindsThen(range, OutlookEntry(range, prefix, entries[0]), u, OutlookEntries(range, prefix, entries[1..]), v);
    }
  }

  lemma {:induction false} EntryFinds(range: Range, prefix: Bytes, e: Entry)
    requires Increasing(Paths(WalkEntry(prefix, e)))
    ensures Finds(range, OutlookEntry(range, prefix, e), WalkEntry(prefix, e))
    decreases NodeSize(e.node), 1
  {
    if e.name != [] && e.node.File? {
      FileFinds(range, WalkFile(Join(prefix, e.name), e.node.size));
    } else if e.name != [] && e.node.Dir? {
      if Skips(range, Join(prefix, e.name)) {
        forall f | f in WalkEntry(prefix, e) ensures !InRange(range, f.path) {
          SkippedSubtreeOutOfRange(range, prefix, e, f);
        }
        SelectEmpty(range, WalkEntry(prefix, e), PathOf);
      } else {
        DirFinds(range, Join(prefix, e.name), e.node.entries);
      }
    }
  }

  lemma FileFinds(range: Range, file: WalkFile)
    ensures var o := if InRange(range, file.path) then Outlook([file], Exhausted)
                     else if BeforeRange(range, file.path) then NOTHING else Outlook([], PastEnd);
            Finds(range, o, [file])
  {
    RangeSides(range, file.path);
    assert file in [file];
    assert Select(range, [file], PathOf) == if InRange(range, file.path) then [file] else [];
  }

  lemma {:induction false} DirFinds(range: Range, prefix: Bytes, entries: seq<Entry>)
    requires Increasing(Paths(WalkDir(prefix, entries)))
    ensures Finds(range, OutlookDir(range, prefix, entries), WalkDir(prefix, entries))
    decreases Size(entries), 3
  {
    SizeSort(entries);
    EntriesFind(range, prefix, Sort(entries, SortKey));
  }

  // ---------------------------------------------------------------------
  // Trees that never stop the walk
  // ---------------------------------------------------------------------

  /** Every directory of the tree is small enough to be read. */
  ghost predicate WithinCap(entries: seq<Entry>) {
    && |entries| <= MAX_DIR_ENTRIES
    && forall e :: e in entries && e.node.Dir? ==> WithinCap(e.node.entries)
  }

  lemma {:induction false} NeverStuck(range: Range, prefix: Bytes, entries: seq<Entry>)
    requires forall e :: e in entries && e.node.Dir? ==> WithinCap(e.node.entries)
    ensures !OutlookEntries(range, prefix, entries).ending.Stuck?
    decreases Size(entries), 2
  {
    if entries != [] {
      var e := entries[0];
      assert e in entries && Size(entries) == NodeSize(e.node) + Size(entries[1..]);
      if e.node.Dir? { DirNeverStuck(range, Join(prefix, e.name), e.node.entries); }
      NeverStuck(range, prefix, entries[1..]);
    }
  }

  lemma {:induction false} DirNeverStuck(range: Range, prefix: Bytes, entries: seq<Entry>)
    requires WithinCap(entries)
    ensures !OutlookDir(range, prefix, entries).ending.Stuck?
    decreases Size(entries), 3
  {
    var sorted := Sort(entries, SortKey);
    SizeSort(entries);
    forall e | e in sorted ensures e in entries { SameElements(entries, sorted, e); }
    NeverStuck(range, prefix, sorted);
  }

  // ---------------------------------------------------------------------
  // Resuming after a file
  // ---------------------------------------------------------------------

  /** What is left of a walk when its first `n` files are taken. */
  function Leftover(o: Outlook, n: nat): Outlook
    requires n <= |o.run|
  {
    Outlook(o.run[n..], o.ending)
  }

  function Resumed(range: Range, p: Bytes): Range { range.(resumeAfter := Some(p)) }

  /** Everything that starts with `base` comes after `p`. */
  ghost predicate Follow(base: Bytes, p: Bytes) { forall s :: base <= s ==> Less(p, s) }

  ghost predicate Precede(base: Bytes, p: Bytes) { forall s :: base <= s ==> Less(s, p) }

  /** A later resume point makes no difference to what comes after it. */
  lemma FileStays(range: Range, p: Bytes, path: Bytes)
    requires (range.resumeAfter.Some? ==> Less(range.resumeAfter.value, p)) && Less(p, path)
    ensures InRange(Resumed(range, p), path) <==> InRange(range, path)
    ensures BeforeRange(Resumed(range, p), path) <==> BeforeRange(range, path)
  {
    LessOrNot(p, path);
    if range.resumeAfter.Some? {
      LessTransitive(range.resumeAfter.value, p, path);
      LessOrNot(range.resumeAfter.value, path);
    }
  }

  lemma DirStays(range: Range, p: Bytes, dirPrefix: Bytes)
    requires (range.resumeAfter.Some? ==> Less(range.resumeAfter.value, p)) && Less(p, Join(dirPrefix, []))
    ensures Skips(Resumed(range, p), dirPrefix) <==> Skips(range, dirPrefix)
  {
    var below := Join(dirPrefix, []);
    FileStays(range, p, below);
    assert InRange(Range(None, Some(p), None), below);
    assert InRange(Range(None, range.resumeAfter, None), below) by {
      if range.resumeAfter.Some? { LessTransitive(range.resumeAfter.value, p, below); }
    }
  }

  lemma {:induction false} EntriesStay(range: Range, p: Bytes, prefix: Bytes, entries: seq<Entry>)
    requires (range.resumeAfter.Some? ==> Less(range.resumeAfter.value, p))
    requires forall e :: e in entries ==> Follow(Base(prefix) + SortKey(e), p)
    ensures OutlookEntries(Resumed(range, p), prefix, entries) == OutlookEntries(range, prefix, entries)
    decreases Size(entries), 2
  {
    if entries != [] {
      assert entries[0] in entries && Size(entries) == NodeSize(entries[0].node) + Size(entries[1..]);
      EntryStays(range, p, prefix, entries[0]);
      EntriesStay(range, p, prefix, entries[1..]);
    }
  }

  lemma {:induction false} EntryStays(range: Range, p: Bytes, prefix: Bytes, e: Entry)
    requires (range.resumeAfter.Some? ==> Less(range.resumeAfter.value, p)) && Follow(Base(prefix) + SortKey(e), p)
    ensures OutlookEntry(Resumed(range, p), prefix, e) == OutlookEntry(range, prefix, e)
    decreases NodeSize(e.node), 1
  {
    var key := Base(prefix) + SortKey(e);
    assert key <= key;
    if e.name != [] && e.node.File? {
      FileStays(range, p, key);
    } else if e.name != [] && e.node.Dir? {
      var path, children := Join(prefix, e.name), e.node.entries;
      BelowDirectory(prefix, e);
      DirStays(range, p, path);
      forall c | c in Sort(children, SortKey) ensures Follow(Base(path) + SortKey(c), p) {
        forall s | Base(path) + SortKey(c) <= s ensures Less(p, s) { assert Base(path) <= s; }
      }
      SizeSort(children);
      EntriesStay(range, p, path, Sort(children, SortKey));
    }
  }

  lemma BelowDirectory(prefix: Bytes, e: Entry)
    requires e.node.Dir? && e.name != []
    ensures var path := Join(prefix, e.name);
            path != [] && Base(path) == Join(path, []) == Base(prefix) + SortKey(e)
  {
  }

  /** What comes before the resume point is passed over. */
  lemma EntryPassed(range: Range, p: Bytes, prefix: Bytes, e: Entry)
    requires if e.node.Dir? then Precede(Base(prefix) + SortKey(e), p) else LessEq(Base(prefix) + SortKey(e), p)
    ensures OutlookEntry(Resumed(range, p), prefix, e) == NOTHING
  {
    if e.name != [] && e.node.Dir? {
      BelowDirectory(prefix, e);
      var below := Base(prefix) + SortKey(e);
      forall s | below <= s ensures !InRange(Range(None, Some(p), None), s) {
        LessAsymmetric(s, p);
      }
    } else if e.node.File? {
      LessOrNot(p, Base(prefix) + SortKey(e));
    }
  }

  /** Emitted files are files of the walk, in range. */
  lemma {:induction false} EmittedIsWalked(range: Range, prefix: Bytes, entries: seq<Entry>, f: WalkFile)
    requires f in OutlookEntries(range, prefix, entries).run
    ensures f in WalkEntries(prefix, entries) && InRange(range, f.path)
    decreases Size(entries), 2
  {
    assert Size(entries) == NodeSize(entries[0].node) + Size(entries[1..]);
    if f in OutlookEntry(range, prefix, entries[0]).run {
      EmittedByEntry(range, prefix, entries[0], f);
    } else {
      EmittedIsWalked(range, prefix, entries[1..], f);
    }
  }

  lemma {:induction false} EmittedByEntry(range: Range, prefix: Bytes, e: Entry, f: WalkFile)
    requires f in OutlookEntry(range, prefix, e).run
    ensures f in WalkEntry(prefix, e) && InRange(range, f.path)
    decreases NodeSize(e.node), 1
  {
    if e.node.Dir? {
      SizeSort(e.node.entries);
      EmittedIsWalked(range, Join(prefix, e.name), Sort(e.node.entries, SortKey), f);
    }
  }

  /** Siblings after the entry that a file lies under come wholly after the file. */
  lemma LaterFollows(prefix: Bytes, a: Entry, b: Entry, f: WalkFile)
    requires SLASH !in a.name && SLASH !in b.name && Less(SortKey(a), SortKey(b)) && f in WalkEntry(prefix, a)
    ensures Follow(Base(prefix) + SortKey(b), f.path)
  {
    var base := Base(prefix);
    var x := PathBelow(prefix, a, f);
    forall s | base + SortKey(b) <= s ensures Less(f.path, s) {
      var y := PathRest(base, SortKey(b), s);
      EntriesOrderPaths(base, a, b, x, y);
    }
  }

  /** Siblings before it come wholly before the file. */
  lemma EarlierPrecedes(prefix: Bytes, a: Entry, b: Entry, f: WalkFile)
    requires SLASH !in a.name && SLASH !in b.name && Less(SortKey(a), SortKey(b)) && f in WalkEntry(prefix, b)
    ensures if a.node.Dir? then Precede(Base(prefix) + SortKey(a), f.path) else LessEq(Base(prefix) + SortKey(a), f.path)
  {
    var base := Base(prefix);
    var y := PathBelow(prefix, b, f);
    if a.node.Dir? {
      forall s | base + SortKey(a) <= s ensures Less(s, f.path) {
        var x := PathRest(base, SortKey(a), s);
        EntriesOrderPaths(base, a, b, x, y);
      }
    } else {
      EntriesOrderPaths(base, a, b, [], y);
      assert SortKey(a) + [] == SortKey(a);
    }
  }

  lemma PathRest(base: Bytes, key: Bytes, s: Bytes) returns (x: Bytes)
    requires base + key <= s
    ensures s == base + (key + x)
  {
    x := s[|base + key|..];
  }

  lemma {:induction false} OutlookConcat(range: Range, prefix: Bytes, a: seq<Entry>, b: seq<Entry>)
    ensures OutlookEntries(range, prefix, a + b) == Then(OutlookEntries(range, prefix, a), OutlookEntries(range, prefix, b))
    decreases |a|
  {
    if a == [] {
      assert a + b == b;
      ThenNothing(OutlookEntries(range, prefix, b));
    } else {
      assert (a + b)[1..] == a[1..] + b;
      OutlookConcat(range, prefix, a[1..], b);
      ThenAssociates(OutlookEntry(range, prefix, a[0]), OutlookEntries(range, prefix, a[1..]),
                     OutlookEntries(range, prefix, b));
    }
  }

  /** A walk of a list is that of the entries before one of them, of that one, and of those after it. */
  lemma OutlookAround(range: Range, prefix: Bytes, entries: seq<Entry>, i: nat)
    requires i < |entries|
    ensures OutlookEntries(range, prefix, entries) ==
            Then(OutlookEntries(range, prefix, entries[..i]),
                 Then(OutlookEntry(range, prefix, entries[i]), OutlookEntries(range, prefix, entries[i + 1..])))
  {
    assert entries == entries[..i] + entries[i..];
    assert entries[i..][1..] == entries[i + 1..];
    OutlookConcat(range, prefix, entries[..i], entries[i..]);
  }

  /** The `n`-th file found is the `k`-th found under entry `i`. */
  ghost predicate FoundAt(range: Range, prefix: Bytes, entries: seq<Entry>, n: nat, i: nat, k: nat) {
    && i < |entries| && 0 < k <= |OutlookEntry(range, prefix, entries[i]).run|
    && OutlookEntries(range, prefix, entries[..i]).ending.Exhausted?
    && n == |OutlookEntries(range, prefix, entries[..i]).run| + k
  }

  lemma {:induction false} FindFile(range: Range, prefix: Bytes, entries: seq<Entry>, n: nat) returns (i: nat, k: nat)
    requires 0 < n <= |OutlookEntries(range, prefix, entries).run|
    ensures FoundAt(range, prefix, entries, n, i, k)
    decreases |entries|
  {
    var a := OutlookEntry(range, prefix, entries[0]);
    if n <= |a.run| {
      i, k := 0, n;
      assert entries[..0] == [];
    } else {
      var j;
      j, k := FindFile(range, prefix, entries[1..], n - |a.run|);
      i := j + 1;
      assert entries[..i][1..] == entries[1..][..j];
    }
  }

  /** Entries that come before the resume point are passed over. */
  lemma {:induction false} EntriesPassed(range: Range, p: Bytes, prefix: Bytes, entries: seq<Entry>)
    requires forall e :: e in entries ==>
               if e.node.Dir? then Precede(Base(prefix) + SortKey(e), p) else LessEq(Base(prefix) + SortKey(e), p)
    ensures OutlookEntries(Resumed(range, p), prefix, entries) == NOTHING
    decreases |entries|
  {
    if entries != [] {
      assert entries[0] in entries;
      EntryPassed(range, p, prefix, entries[0]);
      EntriesPassed(range, p, prefix, entries[1..]);
    }
  }

  /** Dropping the first `n` files of three walks in a row, the `k`-th file of the middle one being the last dropped. */
  lemma LeftoverOfThree(a: Outlook, e: Outlook, b: Outlook, n: nat, k: nat)
    requires a.ending.Exhausted? && 0 < k <= |e.run| && n == |a.run| + k
    ensures n <= |Then(a, Then(e, b)).run| && Then(a, Then(e, b)).run[n - 1] == e.run[k - 1]
    ensures Then(NOTHING, Then(Leftover(e, k), b)) == Leftover(Then(a, Then(e, b)), n)
  {
    var r := if e.ending.Exhausted? then e.run + b.run else e.run;
    assert (a.run + r)[n..] == r[k..];
    if e.ending.Exhausted? { assert r[k..] == e.run[k..] + b.run; }
  }

  /** A directory that holds the resume point is still opened. */
  lemma NotSkipped(range: Range, prefix: Bytes, e: Entry, f: WalkFile)
    requires e.node.Dir? && e.name != [] && f in WalkEntry(prefix, e) && !Skips(range, Join(prefix, e.name))
    ensures !Skips(Resumed(range, f.path), Join(prefix, e.name))
  {
    var below, next := Base(prefix) + SortKey(e), f.path + [0];
    BelowDirectory(prefix, e);
    WalkEntryPaths(prefix, e, f);
    LessCommonPrefix(f.path, [], [0]);
    assert f.path + [] == f.path;
    assert below <= next && InRange(Range(None, Some(f.path), None), next);
  }

  /** Around the entry that holds the file, resuming after it passes over what is before and keeps what is after. */
  lemma AroundResumes(range: Range, prefix: Bytes, entries: seq<Entry>, i: nat, f: WalkFile)
    requires WellFormed(entries) && StrictBy(entries, SortKey) && i < |entries|
    requires f in WalkEntry(prefix, entries[i]) && InRange(range, f.path)
    ensures OutlookEntries(Resumed(range, f.path), prefix, entries[..i]) == NOTHING
    ensures OutlookEntries(Resumed(range, f.path), prefix, entries[i + 1..]) == OutlookEntries(range, prefix, entries[i + 1..])
  {
    forall d | d in entries[..i]
      ensures if d.node.Dir? then Precede(Base(prefix) + SortKey(d), f.path) else LessEq(Base(prefix) + SortKey(d), f.path)
    {
      var j :| 0 <= j < i && entries[j] == d;
      SiblingsInOrder(entries, j, i);
      EarlierPrecedes(prefix, d, entries[i], f);
    }
    EntriesPassed(range, f.path, prefix, entries[..i]);
    forall d | d in entries[i + 1..] ensures Follow(Base(prefix) + SortKey(d), f.path) {
      var j :| 0 <= j < |entries| - i - 1 && entries[i + 1..][j] == d;
      SiblingsInOrder(entries, i, i + 1 + j);
      LaterFollows(prefix, entries[i], d, f);
    }
    EntriesStay(range, f.path, prefix, entries[i + 1..]);
  }

  lemma SiblingsInOrder(entries: seq<Entry>, i: nat, j: nat)
    requires WellFormed(entries) && StrictBy(entries, SortKey) && i < j < |entries|
    ensures SLASH !in entries[i].name && SLASH !in entries[j].name && Less(SortKey(entries[i]), SortKey(entries[j]))
  {
    assert entries[i] in entries && entries[j] in entries;
  }

  /** Resuming after the `n`-th file found leaves the walk from there on, and its end, as they were. */
  lemma {:induction false} EntriesResume(range: Range, prefix: Bytes, entries: seq<Entry>, n: nat)
    requires WellFormed(entries) && StrictBy(entries, SortKey)
    requires 0 < n <= |OutlookEntries(range, prefix, entries).run|
    ensures var o := OutlookEntries(range, prefix, entries);
            OutlookEntries(Resumed(range, o.run[n - 1].path), prefix, entries) == Leftover(o, n)
    decreases Size(entries), 2
  {
    var i, k := FindFile(range, prefix, entries, n);
    assert entries[i] in entries;
    SizeMember(entries, entries[i]);
    EntryResumes(range, prefix, entries[i], k);
    ResumeAround(range, prefix, entries, n, i, k);
  }

  lemma ResumeAround(range: Range, prefix: Bytes, entries: seq<Entry>, n: nat, i: nat, k: nat)
    requires WellFormed(entries) && StrictBy(entries, SortKey) && FoundAt(range, prefix, entries, n, i, k)
    requires EntryResumesAt(range, prefix, entries[i], k)
    ensures var o := OutlookEntries(range, prefix, entries);
            && 0 < n <= |o.run|
            && OutlookEntries(Resumed(range, o.run[n - 1].path), prefix, entries) == Leftover(o, n)
  {
    var e := OutlookEntry(range, prefix, entries[i]);
    var f := e.run[k - 1];
    EmittedByEntry(range, prefix, entries[i], f);
    AroundResumes(range, prefix, entries, i, f);
    OutlookAround(range, prefix, entries, i);
    OutlookAround(Resumed(range, f.path), prefix, entries, i);
    LeftoverOfThree(OutlookEntries(range, prefix, entries[..i]), e, OutlookEntries(range, prefix, entries[i + 1..]), n, k);
  }

  ghost predicate EntryResumesAt(range: Range, prefix: Bytes, e: Entry, n: nat) {
    var o := OutlookEntry(range, prefix, e);
    0 < n <= |o.run| && OutlookEntry(Resumed(range, o.run[n - 1].path), prefix, e) == Leftover(o, n)
  }

  lemma {:induction false} EntryResumes(range: Range, prefix: Bytes, e: Entry, n: nat)
    requires (e.node.Dir? ==> WellFormed(e.node.entries)) && 0 < n <= |OutlookEntry(range, prefix, e).run|
    ensures EntryResumesAt(range, prefix, e, n)
    decreases NodeSize(e.node), 1
  {
    var f := OutlookEntry(range, prefix, e).run[n - 1];
    EmittedByEntry(range, prefix, e, f);
    if e.node.Dir? {
      DirResumes(range, Join(prefix, e.name), e.node.entries, n);
      NotSkipped(range, prefix, e, f);
    } else {
      EntryPassed(range, f.path, prefix, e);
    }
  }

  /** The same for a directory, whose entries are sorted before they are visited. */
  lemma {:induction false} DirResumes(range: Range, prefix: Bytes, entries: seq<Entry>, n: nat)
    requires WellFormed(entries) && 0 < n <= |OutlookDir(range, prefix, entries).run|
    ensures var o := OutlookDir(range, prefix, entries);
            OutlookDir(Resumed(range, o.run[n - 1].path), prefix, entries) == Leftover(o, n)
    decreases Size(entries), 3
  {
    SizeSort(entries);
    SortWellFormed(entries);
    EntriesResume(range, prefix, Sort(entries, SortKey), n);
  }

  // ---------------------------------------------------------------------
  // The walker
  // ---------------------------------------------------------------------

  /** An open directory of the walk: its sorted entries and the next one to visit. */
  datatype Frame = Frame(relPath: Bytes, entries: seq<Entry>, nextIndex: nat) {
    ghost predicate Valid() { nextIndex <= |entries| }
    ghost function Rest(): seq<Entry> requires Valid() { entries[nextIndex..] }
  }

  ghost predicate ValidStack(stack: seq<Frame>) {
    forall f :: f in stack ==> f.Valid()
  }

  /** What the walk still finds from this stack of open directories. */
  ghost function Pending(range: Range, stack: seq<Frame>): Outlook
    requires ValidStack(stack)
  {
    if stack == [] then NOTHING
    else
      var top := stack[|stack| - 1];
      Then(OutlookEntries(range, top.relPath, top.Rest()), Pending(range, stack[..|stack| - 1]))
  }

  ghost function Work(stack: seq<Frame>): nat
    requires ValidStack(stack)
  {
    if stack == [] then 0
    else 1 + Size(stack[|stack| - 1].Rest()) + Work(stack[..|stack| - 1])
  }

  function ReadSortedDirEntries(entries: seq<Entry>): Result<seq<Entry>> {
    if |entries| > MAX_DIR_ENTRIES then Err(PermanentError) else Ok(Sort(entries, SortKey))
  }

  /** The stack after the top frame has stepped past its next entry. */
  function Advanced(stack: seq<Frame>): seq<Frame>
    requires stack != []
  {
    var n := |stack| - 1;
    stack[n := stack[n].(nextIndex := stack[n].nextIndex + 1)]
  }

  lemma AdvancePending(range: Range, stack: seq<Frame>)
    requires ValidStack(stack) && stack != []
    requires stack[|stack| - 1].nextIndex < |stack[|stack| - 1].entries|
    ensures ValidStack(Advanced(stack))
    ensures var top := stack[|stack| - 1];
            var e := top.entries[top.nextIndex];
            && Pending(range, stack) == Then(OutlookEntry(range, top.relPath, e), Pending(range, Advanced(stack)))
            && Work(stack) == NodeSize(e.node) + Work(Advanced(stack))
  {
    var top := stack[|stack| - 1];
    assert top in stack;
    assert Advanced(stack)[..|stack| - 1] == stack[..|stack| - 1];
    assert top.Rest()[1..] == top.entries[top.nextIndex + 1..];
    ThenAssociates(OutlookEntry(range, top.relPath, top.entries[top.nextIndex]),
                   OutlookEntries(range, top.relPath, top.Rest()[1..]), Pending(range, stack[..|stack| - 1]));
  }

  lemma PopPending(range: Range, stack: seq<Frame>)
    requires ValidStack(stack) && stack != []
    requires stack[|stack| - 1].nextIndex >= |stack[|stack| - 1].entries|
    ensures ValidStack(stack[..|stack| - 1])
    ensures Pending(range, stack) == Pending(range, stack[..|stack| - 1])
    ensures Work(stack[..|stack| - 1]) < Work(stack)
  {
    assert stack[|stack| - 1] in stack;
    assert stack[|stack| - 1].Rest() == [];
    ThenNothing(Pending(range, stack[..|stack| - 1]));
  }

  lemma PushPending(range: Range, stack: seq<Frame>, relPath: Bytes, children: seq<Entry>)
    requires ValidStack(stack) && |children| <= MAX_DIR_ENTRIES
    ensures var pushed := stack + [Frame(relPath, Sort(children, SortKey), 0)];
            && ValidStack(pushed)
            && Pending(range, pushed) == Then(OutlookDir(range, relPath, children), Pending(range, stack))
            && Work(pushed) == 1 + Size(children) + Work(stack)
  {
    var sorted := Sort(children, SortKey);
    var child := Frame(relPath, sorted, 0);
    SizeSort(children);
    assert child.Rest() == sorted;
    assert (stack + [child])[..|stack|] == stack;
  }

  /** What one entry leads to: another turn, a file, or the end of the walk. */
  datatype Turn = Again | Found(file: WalkFile) | Finished

  /** A step of a walk with outlook `before` that leaves outlook `after`. */
  ghost predicate Follows(before: Outlook, r: Result<Turn>, after: Outlook) {
    match r
    case Err(_) => before == Outlook([], Stuck)
    case Ok(Again) => before == after
    case Ok(Found(f)) => before == Outlook([f] + after.run, after.ending)
    case Ok(Finished) => before == Outlook([], PastEnd)
  }

  class DirectoryWalker {
    var stack: seq<Frame>
    const range: Range

    ghost predicate Valid()
      reads this
    {
      ValidStack(stack)
    }

    /** What this walker still finds. */
    ghost function Remaining(): Outlook
      requires Valid()
      reads this
    {
      Pending(range, stack)
    }

    constructor (sortedRoot: seq<Entry>, range: Range)
      ensures Valid() && this.range == range
      ensures Remaining() == OutlookEntries(range, [], sortedRoot)
    {
      var frame := Frame([], sortedRoot, 0);
      this.stack := [frame];
      this.range := range;
      new;
      assert frame.Rest() == sortedRoot;
      assert stack[..0] == [] && Pending(range, stack[..0]) == NOTHING;
      ThenNothing(OutlookEntries(range, [], sortedRoot));
    }

    /** Prunes a directory that cannot hold a file in range, or opens it. */
    method VisitDir(parent: Bytes, entry: Entry) returns (r: Result<Turn>)
      requires entry.name != [] && entry.node.Dir? && Valid()
      modifies this`stack
      ensures Valid() && Follows(Then(OutlookEntry(range, parent, entry), old(Remaining())), r, Remaining())
      ensures r.Ok? ==> r.value.Again? && Work(stack) < NodeSize(entry.node) + old(Work(stack))
    {
      var relPath := Join(parent, entry.name);
      var skip := ShouldSkipSubtree(relPath, range);
      if skip {
        ThenNothing(Remaining());
        return Ok(Again);
      }
      var entries :- ReadSortedDirEntries(entry.node.entries);
      PushPending(range, stack, relPath, entry.node.entries);
      stack := stack + [Frame(relPath, entries, 0)];
      return Ok(Again);
    }

    /** Emits a file in range, passes over one before it, and stops at one past it. */
    method VisitFile(parent: Bytes, entry: Entry) returns (t: Turn)
      requires entry.name != [] && entry.node.File? && Valid()
      ensures Follows(Then(OutlookEntry(range, parent, entry), Remaining()), Ok(t), Remaining())
    {
      var relPath := Join(parent, entry.name);
      RangeSides(range, relPath);
      ThenNothing(Remaining());
      if range.start.Some? && Less(relPath, range.start.value) { return Again; }
      if range.resumeAfter.Some? && LessEq(relPath, range.resumeAfter.value) { return Again; }
      if range.end.Some? && LessEq(range.end.value, relPath) { return Finished; }
      return Found(WalkFile(relPath, entry.node.size));
    }

    /** Handles one entry that the stack has already stepped past. */
    method VisitEntry(parent: Bytes, entry: Entry) returns (r: Result<Turn>)
      requires Valid()
      modifies this`stack
      ensures Valid() && Follows(Then(OutlookEntry(range, parent, entry), old(Remaining())), r, Remaining())
      ensures r == Ok(Again) ==> Work(stack) < NodeSize(entry.node) + old(Work(stack))
    {
      if entry.name == [] || entry.node.Special? {
        ThenNothing(Remaining());
        return Ok(Again);
      }
      if entry.node.Dir? {
        r := VisitDir(parent, entry);
      } else {
        var t := VisitFile(parent, entry);
        r := Ok(t);
      }
    }

    /** Emits the next file of the walk, or tells how the walk ends. */
    method NextFile() returns (r: Result<Option<WalkFile>>)
      requires Valid()
      modifies this`stack
      ensures Valid()
      ensures var before := old(Remaining());
              match r
              case Err(_) => before == Outlook([], Stuck)
              case Ok(None) => before.run == [] && !before.ending.Stuck?
              case Ok(Some(f)) => before == Outlook([f] + Remaining().run, Remaining().ending)
    {
      while true
        invariant Valid()
        invariant Remaining() == old(Remaining())
        decreases Work(stack)
      {
        if stack == [] { return Ok(None); }
        var frame := stack[|stack| - 1];
        if frame.nextIndex >= |frame.entries| {
          PopPending(range, stack);
          stack := stack[..|stack| - 1];
        } else {
          AdvancePending(range, stack);
          stack := Advanced(stack);
          var turn :- VisitEntry(frame.relPath, frame.entries[frame.nextIndex]);
          if turn.Found? { return Ok(Some(turn.file)); }
          if turn.Finished? { return Ok(None); }
        }
      }
    }
  }
}
