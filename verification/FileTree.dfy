/** Directory trees and the order in which the filesystem connector visits their files. */
module FileTree {
  import opened Bytes
  import opened Sorting

  /** What one directory entry denotes; `Special` stands for symlinks, sockets and devices. */
  datatype Node = File(size: u64) | Dir(entries: seq<Entry>) | Special
  datatype Entry = Entry(name: Bytes, node: Node)

  /** A file found by the walk, under its path relative to the root. */
  datatype WalkFile = WalkFile(path: Bytes, size: u64)

  /** Names hold no separator and differ within each directory, at every level. */
  ghost predicate WellFormed(entries: seq<Entry>) {
    && (forall i, j :: 0 <= i < j < |entries| ==> entries[i].name != entries[j].name)
    && (forall e :: e in entries ==> SLASH !in e.name)
    && (forall e :: e in entries && e.node.Dir? ==> WellFormed(e.node.entries))
  }

  // ---------------------------------------------------------------------
  // Paths and sibling order
  // ---------------------------------------------------------------------

  /** The bytes that precede the names of a directory's entries in their paths. */
  function Base(prefix: Bytes): Bytes {
    if prefix == [] then [] else prefix + [SLASH]
  }

  function Join(prefix: Bytes, component: Bytes): Bytes {
    Base(prefix) + component
  }

  /** A name as siblings are compared: directories carry a virtual trailing separator. */
  function SortKey(e: Entry): Bytes {
    if e.node.Dir? then e.name + [SLASH] else e.name
  }

  datatype Ordering = Before | Same | After

  function ComponentByte(name: Bytes, isDir: bool, index: nat): Option<byte> {
    if index < |name| then Some(name[index])
    else if isDir && index == |name| then Some(SLASH)
    else None
  }

  /** How strings that agree up to `i` compare, by what follows there. */
  lemma DecidedAt(a: Bytes, b: Bytes, i: nat)
    requires i <= |a| && i <= |b| && a[..i] == b[..i]
    ensures i < |a| && i < |b| && a[i] < b[i] ==> Less(a, b) && a != b && !Less(b, a)
    ensures i < |a| && i < |b| && b[i] < a[i] ==> Less(b, a) && a != b && !Less(a, b)
    ensures i == |a| < |b| ==> Less(a, b) && a != b && !Less(b, a)
    ensures i == |b| < |a| ==> Less(b, a) && a != b && !Less(a, b)
    ensures i == |a| == |b| ==> a == b && !Less(a, b) && !Less(b, a)
  {
    assert a == a[..i] + a[i..] && b == a[..i] + b[i..];
    LessCommonPrefix(a[..i], a[i..], b[i..]);
    LessCommonPrefix(a[..i], b[i..], a[i..]);
    LessIrreflexive(a);
  }

  /** Byte-by-byte comparison of two siblings, without building their sort keys. */
  method CompareEntries(left: Entry, right: Entry) returns (r: Ordering)
    ensures r.Before? <==> Less(SortKey(left), SortKey(right))
    ensures r.Same? <==> SortKey(left) == SortKey(right)
    ensures r.After? <==> Less(SortKey(right), SortKey(left))
  {
    ghost var a, b := SortKey(left), SortKey(right);
    var index := 0;
    while true
      invariant index <= |a| && index <= |b|
      invariant a[..index] == b[..index]
      decreases |a| - index
    {
      var l := ComponentByte(left.name, left.node.Dir?, index);
      var g := ComponentByte(right.name, right.node.Dir?, index);
      DecidedAt(a, b, index);
      match (l, g) {
        case (Some(x), Some(y)) =>
          if x < y { return Before; }
          if x > y { return After; }
          index := index + 1;
        case (None, Some(_)) => return Before;
        case (Some(_), None) => return After;
        case (None, None) =>
          return Same;
      }
    }
  }

  lemma SortKeysDistinct(entries: seq<Entry>)
    requires WellFormed(entries)
    ensures DistinctBy(entries, SortKey)
  {
    forall i, j | 0 <= i < j < |entries|
      ensures SortKey(entries[i]) != SortKey(entries[j])
    {
      var a, b := entries[i], entries[j];
      assert a in entries && b in entries;
      NameFromSortKey(a);
      NameFromSortKey(b);
    }
  }

  lemma NameFromSortKey(e: Entry)
    requires SLASH !in e.name
    ensures e.node.Dir? <==> SLASH in SortKey(e)
    ensures e.name == if SLASH in SortKey(e) then SortKey(e)[..|SortKey(e)| - 1] else SortKey(e)
  {
    assert e.node.Dir? ==> SortKey(e)[|e.name|] == SLASH;
  }

  lemma SortWellFormed(entries: seq<Entry>)
    requires WellFormed(entries)
    ensures WellFormed(Sort(entries, SortKey))
    ensures StrictBy(Sort(entries, SortKey), SortKey)
    ensures forall e :: e in Sort(entries, SortKey) <==> e in entries
  {
    var r := Sort(entries, SortKey);
    SortKeysDistinct(entries);
    SortStrictIffDistinct(entries, SortKey);
    forall e ensures e in r <==> e in entries { SameElements(entries, r, e); }
    forall i, j | 0 <= i < j < |r|
      ensures r[i].name != r[j].name
    {
      LessAsymmetric(SortKey(r[i]), SortKey(r[j]));
      assert r[i] in r && r[j] in r;
      var a :| 0 <= a < |entries| && entries[a] == r[i];
      var b :| 0 <= b < |entries| && entries[b] == r[j];
      assert a != b;
    }
  }

  // ---------------------------------------------------------------------
  // Size, the termination measure of the walk
  // ---------------------------------------------------------------------

  function NodeSize(node: Node): nat {
    match node
    case Dir(entries) => 2 + Size(entries)
    case _ => 1
  }

  function Size(entries: seq<Entry>): nat {
    if entries == [] then 0 else NodeSize(entries[0].node) + Size(entries[1..])
  }

  lemma {:induction false} SizeInsert(e: Entry, entries: seq<Entry>)
    ensures Size(Insert(e, entries, SortKey)) == NodeSize(e.node) + Size(entries)
    decreases |entries|
  {
    var r := Insert(e, entries, SortKey);
    if entries == [] || LessEq(SortKey(e), SortKey(entries[0])) {
      assert r[1..] == entries;
    } else {
      assert r[1..] == Insert(e, entries[1..], SortKey);
      SizeInsert(e, entries[1..]);
    }
  }

  lemma {:induction false} SizeSort(entries: seq<Entry>)
    ensures Size(Sort(entries, SortKey)) == Size(entries)
    decreases |entries|
  {
    if entries != [] {
      SizeSort(entries[1..]);
      SizeInsert(entries[0], Sort(entries[1..], SortKey));
    }
  }

  lemma {:induction false} SizeMember(entries: seq<Entry>, e: Entry)
    requires e in entries
    ensures NodeSize(e.node) <= Size(entries)
    decreases |entries|
  {
    if e != entries[0] { SizeMember(entries[1..], e); }
  }

  // ---------------------------------------------------------------------
  // The unpruned walk
  // ---------------------------------------------------------------------

  /** Files below `entries`, visited in the given order and depth first. */
  ghost function WalkEntries(prefix: Bytes, entries: seq<Entry>): seq<WalkFile>
    decreases Size(entries), 2
  {
    if entries == [] then []
    else WalkEntry(prefix, entries[0]) + WalkEntries(prefix, entries[1..])
  }

  ghost function WalkEntry(prefix: Bytes, e: Entry): seq<WalkFile>
    decreases NodeSize(e.node), 1
  {
    if e.name == [] then []
    else match e.node
      case File(size) => [WalkFile(Join(prefix, e.name), size)]
      case Dir(children) => WalkDir(Join(prefix, e.name), children)
      case Special => []
  }

  /** Files below one directory, whose entries are sorted before they are visited. */
  ghost function WalkDir(prefix: Bytes, entries: seq<Entry>): seq<WalkFile>
    decreases Size(entries), 3
  {
    SizeSort(entries);
    WalkEntries(prefix, Sort(entries, SortKey))
  }

  /** Some chain of directory entries leads from `entries` to the regular file `f`. */
  ghost predicate IsFile(prefix: Bytes, entries: seq<Entry>, f: WalkFile)
    decreases entries
  {
    exists e :: e in entries && IsFileOf(prefix, e, f)
  }

  ghost predicate IsFileOf(prefix: Bytes, e: Entry, f: WalkFile)
    decreases e
  {
    && e.name != []
    && match e.node
       case File(size) => f == WalkFile(Join(prefix, e.name), size)
       case Dir(children) => IsFile(Join(prefix, e.name), children, f)
       case Special => false
  }

  function PathOf(f: WalkFile): Bytes { f.path }

  ghost function Paths(files: seq<WalkFile>): (r: seq<Bytes>)
    ensures |r| == |files| && forall i :: 0 <= i < |files| ==> r[i] == files[i].path
  {
    seq(|files|, i requires 0 <= i < |files| => files[i].path)
  }

  /** The walk finds exactly the regular files of the tree. */
  lemma {:induction false} WalkFindsExactlyFiles(prefix: Bytes, entries: seq<Entry>, f: WalkFile)
    ensures f in WalkEntries(prefix, entries) <==> IsFile(prefix, entries, f)
    decreases Size(entries), |entries|
  {
    if entries != [] {
      var e := entries[0];
      WalkEntryFindsExactlyFiles(prefix, e, f);
      WalkFindsExactlyFiles(prefix, entries[1..], f);
      if IsFile(prefix, entries, f) {
        var d :| d in entries && IsFileOf(prefix, d, f);
        assert d == e || d in entries[1..];
      }
    }
  }

  lemma {:induction false} WalkEntryFindsExactlyFiles(prefix: Bytes, e: Entry, f: WalkFile)
    ensures f in WalkEntry(prefix, e) <==> IsFileOf(prefix, e, f)
    decreases NodeSize(e.node), 0
  {
    if e.name != [] && e.node.Dir? {
      WalkDirFindsExactlyFiles(Join(prefix, e.name), e.node.entries, f);
    }
  }

  lemma WalkDirFindsExactlyFiles(prefix: Bytes, entries: seq<Entry>, f: WalkFile)
    ensures f in WalkDir(prefix, entries) <==> IsFile(prefix, entries, f)
    decreases Size(entries), |entries| + 1
  {
    var sorted := Sort(entries, SortKey);
    SizeSort(entries);
    WalkFindsExactlyFiles(prefix, sorted, f);
    forall e ensures e in sorted <==> e in entries { SameElements(entries, sorted, e); }
  }

  /** A file's path extends its ancestor's sort key; only directories leave a remainder. */
  lemma {:induction false} WalkEntryPaths(prefix: Bytes, e: Entry, f: WalkFile)
    requires f in WalkEntry(prefix, e)
    ensures Base(prefix) + SortKey(e) <= f.path
    ensures !e.node.Dir? ==> f.path == Base(prefix) + SortKey(e)
    decreases NodeSize(e.node), 0
  {
    if e.node.Dir? {
      var children := e.node.entries;
      SizeSort(children);
      WalkEntriesPaths(Join(prefix, e.name), Sort(children, SortKey), f);
      assert Base(Join(prefix, e.name)) == Base(prefix) + SortKey(e);
    }
  }

  lemma {:induction false} WalkEntriesPaths(prefix: Bytes, entries: seq<Entry>, f: WalkFile)
    requires f in WalkEntries(prefix, entries)
    ensures Base(prefix) <= f.path
    decreases Size(entries), |entries|
  {
    if f in WalkEntry(prefix, entries[0]) {
      WalkEntryPaths(prefix, entries[0], f);
    } else {
      WalkEntriesPaths(prefix, entries[1..], f);
    }
  }

  /** Sibling order by sort key is path order for everything below the siblings. */
  lemma SiblingOrderIsPathOrder(prefix: Bytes, a: Entry, b: Entry, f: WalkFile, g: WalkFile)
    requires SLASH !in a.name && SLASH !in b.name
    requires Less(SortKey(a), SortKey(b))
    requires f in WalkEntry(prefix, a) && g in WalkEntry(prefix, b)
    ensures Less(f.path, g.path)
  {
    var x := PathBelow(prefix, a, f);
    var y := PathBelow(prefix, b, g);
    EntriesOrderPaths(Base(prefix), a, b, x, y);
  }

  /** A walked file's path continues the key of its entry, and is that key if the entry is a file. */
  lemma PathBelow(prefix: Bytes, e: Entry, f: WalkFile) returns (x: Bytes)
    requires f in WalkEntry(prefix, e)
    ensures f.path == Base(prefix) + (SortKey(e) + x) && (!e.node.Dir? ==> x == [])
  {
    WalkEntryPaths(prefix, e, f);
    x := f.path[|Base(prefix) + SortKey(e)|..];
  }

  lemma EntriesOrderPaths(base: Bytes, a: Entry, b: Entry, x: Bytes, y: Bytes)
    requires SLASH !in a.name && SLASH !in b.name && Less(SortKey(a), SortKey(b))
    requires !a.node.Dir? ==> x == []
    ensures Less(base + (SortKey(a) + x), base + (SortKey(b) + y))
  {
    LessIrreflexive(SortKey(a));
    if SortKey(a) <= SortKey(b) { DirKeyNotProperPrefix(a, b); }
    KeysOrderPaths(base, SortKey(a), SortKey(b), x, y);
  }

  /** Ordered keys order everything below them, unless one key extends the other. */
  lemma KeysOrderPaths(base: Bytes, ka: Bytes, kb: Bytes, x: Bytes, y: Bytes)
    requires Less(ka, kb) && (ka <= kb ==> x == [])
    ensures Less(base + (ka + x), base + (kb + y))
  {
    if ka <= kb { assert ka + x == ka; } else { LessAboveNonPrefix(ka, kb, x); }
    PrefixLessEq(kb, kb + y);
    LessEqTransitive(ka + x, kb, kb + y);
    LessCommonPrefix(base, ka + x, kb + y);
  }

  /** No sort key extends that of a directory. */
  lemma DirKeyNotProperPrefix(a: Entry, b: Entry)
    requires SLASH !in a.name && SLASH !in b.name
    requires SortKey(a) <= SortKey(b)
    ensures a.node.Dir? ==> SortKey(a) == SortKey(b)
  {
    var ka, kb := SortKey(a), SortKey(b);
    if a.node.Dir? {
      assert kb[|a.name|] == ka[|a.name|] == SLASH;
      assert |a.name| >= |b.name|;
    }
  }

  lemma IncreasingConcat(a: seq<WalkFile>, b: seq<WalkFile>)
    requires Increasing(Paths(a)) && Increasing(Paths(b))
    requires forall f, g :: f in a && g in b ==> Less(f.path, g.path)
    ensures Increasing(Paths(a + b))
  {
    var p := Paths(a + b);
    forall i, j | 0 <= i < j < |p|
      ensures Less(p[i], p[j])
    {
      if j < |a| {
        assert p[i] == Paths(a)[i] && p[j] == Paths(a)[j];
      } else if i >= |a| {
        assert p[i] == Paths(b)[i - |a|] && p[j] == Paths(b)[j - |a|];
      } else {
        assert a[i] in a && b[j - |a|] in b;
      }
    }
  }

  lemma {:induction false} WalkEntriesIncreasing(prefix: Bytes, entries: seq<Entry>)
    requires WellFormed(entries) && StrictBy(entries, SortKey)
    ensures Increasing(Paths(WalkEntries(prefix, entries)))
    decreases Size(entries), |entries|
  {
    if entries != [] {
      var e, rest := entries[0], entries[1..];
      assert e in entries;
      WalkEntryIncreasing(prefix, e);
      WalkEntriesIncreasing(prefix, rest);
      forall f, g | f in WalkEntry(prefix, e) && g in WalkEntries(prefix, rest)
        ensures Less(f.path, g.path)
      {
        var b := WalkedEntry(prefix, rest, g);
        var i :| 0 <= i < |rest| && rest[i] == b;
        assert entries[i + 1] == b;
        SiblingOrderIsPathOrder(prefix, e, b, f, g);
      }
      IncreasingConcat(WalkEntry(prefix, e), WalkEntries(prefix, rest));
    }
  }

  lemma WalkEntryIncreasing(prefix: Bytes, e: Entry)
    requires e.node.Dir? ==> WellFormed(e.node.entries)
    ensures Increasing(Paths(WalkEntry(prefix, e)))
    decreases NodeSize(e.node), 0
  {
    if e.name != [] && e.node.Dir? {
      WalkDirIncreasing(Join(prefix, e.name), e.node.entries);
    }
  }

  /** The walk of any tree emits its file paths in strictly increasing byte order. */
  lemma WalkDirIncreasing(prefix: Bytes, entries: seq<Entry>)
    requires WellFormed(entries)
    ensures Increasing(Paths(WalkDir(prefix, entries)))
    decreases Size(entries), |entries| + 1
  {
    SizeSort(entries);
    SortWellFormed(entries);
    WalkEntriesIncreasing(prefix, Sort(entries, SortKey));
  }

  lemma {:induction false} WalkedEntry(prefix: Bytes, entries: seq<Entry>, f: WalkFile) returns (e: Entry)
    requires f in WalkEntries(prefix, entries)
    ensures e in entries && f in WalkEntry(prefix, e)
    decreases |entries|
  {
    if f in WalkEntry(prefix, entries[0]) {
      e := entries[0];
    } else {
      e := WalkedEntry(prefix, entries[1..], f);
    }
  }
}
