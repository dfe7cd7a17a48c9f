/** Page-by-page enumeration of a directory root under item and byte budgets. */
module FilesystemPages {
  import opened Bytes
  import opened KeyRange
  import opened Sorting
  import opened FileTree
  import opened DirectoryWalk

  const MAX_ITEM_KEY_SIZE: nat := 4_096

  type Positive = n: int | n > 0 witness 1
  type PositiveU64 = n: int | 0 < n <= U64_MAX witness 1

  datatype Budgets = Budgets(maxItems: Positive, maxBytes: PositiveU64)
  datatype PageState = Complete | HasMore(cursor: Bytes)
  datatype Page = Page(items: seq<WalkFile>, state: PageState)

  function TotalSize(files: seq<WalkFile>): nat {
    if files == [] then 0 else TotalSize(files[..|files| - 1]) + files[|files| - 1].size
  }

  /** All regular files of the tree within the range, in path order. */
  ghost function FilesInRange(root: seq<Entry>, range: Range): seq<WalkFile> {
    Select(range, WalkDir([], root), PathOf)
  }

  /** `items` is the longest budgeted page that starts the list `files`. */
  ghost predicate IsPageCut(items: seq<WalkFile>, files: seq<WalkFile>, budgets: Budgets) {
    && items != []
    && items <= files
    && |items| <= budgets.maxItems
    && (|items| > 1 ==> Clamp(TotalSize(items)) <= budgets.maxBytes)
    && (|items| < |files| && |items| < budgets.maxItems ==>
          Clamp(TotalSize(files[..|items| + 1])) > budgets.maxBytes)
  }

  ghost predicate IsPageOf(page: Page, files: seq<WalkFile>, budgets: Budgets) {
    && IsPageCut(page.items, files, budgets)
    && page.state == if |page.items| == |files| then Complete
                     else HasMore(page.items[|page.items| - 1].path)
  }

  // ---------------------------------------------------------------------
  // Key bounds
  // ---------------------------------------------------------------------

  /** An empty shard bound means unbounded; an oversized one is rejected. */
  function ShardBound(bound: Bytes): Result<Option<Bytes>> {
    if bound == [] then Ok(None)
    else if |bound| > MAX_ITEM_KEY_SIZE then Err(PermanentError)
    else Ok(Some(bound))
  }

  datatype Bounds = Bounds(start: Option<Bytes>, end: Option<Bytes>)

  predicate InBounds(b: Bounds, p: Bytes) {
    InRange(Range(b.start, None, b.end), p)
  }

  /** The intersection of two key ranges; absent only when no key lies in both. */
  function IntersectBounds(request: Bounds, config: Bounds): (r: Option<Bounds>)
    ensures forall p :: InBounds(request, p) && InBounds(config, p) <==> r.Some? && InBounds(r.value, p)
  {
    var start :=
      if config.start.None? then request.start
      else if request.start.Some? && LessEq(config.start.value, request.start.value) then request.start
      else config.start;
    var end :=
      if config.end.None? then request.end
      else if request.end.Some? && LessEq(request.end.value, config.end.value) then request.end
      else config.end;
    assert forall p :: InBounds(request, p) && InBounds(config, p) <==> InBounds(Bounds(start, end), p) by {
      forall p ensures InBounds(request, p) && InBounds(config, p) <==> InBounds(Bounds(start, end), p) {
        TighterStart(request.start, config.start, p);
        TighterEnd(request.end, config.end, p);
      }
    }
    if start.Some? && end.Some? && LessEq(end.value, start.value) then
      assert forall p :: !InBounds(Bounds(start, end), p) by {
        forall p ensures !InBounds(Bounds(start, end), p) {
          LessOrNot(end.value, start.value);
          if LessEq(start.value, p) && Less(p, end.value) {
            LessEqTransitive(start.value, p, end.value);
          }
        }
      }
      None
    else Some(Bounds(start, end))
  }

  lemma TighterStart(a: Option<Bytes>, b: Option<Bytes>, p: Bytes)
    ensures a.Some? && b.Some? && LessEq(b.value, a.value) && LessEq(a.value, p) ==> LessEq(b.value, p)
    ensures a.Some? && b.Some? && !LessEq(b.value, a.value) && LessEq(b.value, p) ==> LessEq(a.value, p)
  {
    if a.Some? && b.Some? {
      LessOrNot(b.value, a.value);
      if LessEq(b.value, a.value) {
        if LessEq(a.value, p) { LessEqTransitive(b.value, a.value, p); }
      } else if LessEq(b.value, p) {
        LessEqTransitive(a.value, b.value, p);
      }
    }
  }

  lemma TighterEnd(a: Option<Bytes>, b: Option<Bytes>, p: Bytes)
    ensures a.Some? && b.Some? && LessEq(a.value, b.value) && Less(p, a.value) ==> Less(p, b.value)
    ensures a.Some? && b.Some? && !LessEq(a.value, b.value) && Less(p, b.value) ==> Less(p, a.value)
  {
    if a.Some? && b.Some? {
      LessOrNot(a.value, b.value);
      if LessEq(a.value, b.value) {
        if Less(p, a.value) { LessEqTransitive(p, a.value, b.value); }
      } else if Less(p, b.value) {
        LessEqTransitive(p, b.value, a.value);
      }
    }
  }

  // ---------------------------------------------------------------------
  // Page validation
  // ---------------------------------------------------------------------

  datatype PageShape =
    | WellShaped
    | EmptyPage
    | InvertedBounds
    | UnsortedKeys(index: nat)
    | DuplicateKeys(index: nat)
    | KeyOutsideBounds(index: nat, belowStart: bool)

  predicate Inverted(start: Bytes, end: Bytes) { start != [] && end != [] && LessEq(end, start) }

  /** Non-empty, strictly ordered and within non-inverted bounds; an empty bound does not bound. */
  ghost predicate IsWellShaped(items: seq<WalkFile>, start: Bytes, end: Bytes) {
    && items != [] && !Inverted(start, end) && Increasing(Paths(items))
    && forall f :: f in items ==> (start != [] ==> LessEq(start, f.path)) && (end != [] ==> Less(f.path, end))
  }

  /** Item `index` breaks the order or a bound in this way. */
  ghost predicate Breaks(items: seq<WalkFile>, index: nat, start: Bytes, end: Bytes, v: PageShape)
    requires index < |items|
  {
    var key := items[index].path;
    match v
    case UnsortedKeys(_) => index > 0 && Less(key, items[index - 1].path)
    case DuplicateKeys(_) => index > 0 && key == items[index - 1].path
    case KeyOutsideBounds(_, true) => index == 0 && start != [] && Less(key, start)
    case KeyOutsideBounds(_, false) => end != [] && LessEq(end, key) && (index > 0 ==> Less(items[index - 1].path, key))
    case _ => false
  }

  /** The verdict names the first item that breaks the shape: everything before it is well shaped. */
  ghost predicate IsVerdict(items: seq<WalkFile>, start: Bytes, end: Bytes, v: PageShape) {
    match v
    case WellShaped => IsWellShaped(items, start, end)
    case EmptyPage => items == []
    case InvertedBounds => items != [] && Inverted(start, end)
    case UnsortedKeys(i) => FirstBreak(items, i, start, end, v)
    case DuplicateKeys(i) => FirstBreak(items, i, start, end, v)
    case KeyOutsideBounds(i, _) => FirstBreak(items, i, start, end, v)
  }

  ghost predicate FirstBreak(items: seq<WalkFile>, i: nat, start: Bytes, end: Bytes, v: PageShape) {
    && i < |items| && !Inverted(start, end) && Breaks(items, i, start, end, v)
    && (i > 0 ==> IsWellShaped(items[..i], start, end))
  }

  /** A broken item keeps every page that contains it from being well shaped. */
  lemma BrokenIsNotWellShaped(items: seq<WalkFile>, start: Bytes, end: Bytes, v: PageShape)
    requires IsVerdict(items, start, end, v) && v != WellShaped
    ensures !IsWellShaped(items, start, end)
  {
    if !v.EmptyPage? && !v.InvertedBounds? {
      var i := v.index;
      assert items[i] in items;
      LessOrNot(start, items[i].path);
      LessOrNot(end, items[i].path);
      if i > 0 {
        LessOrNot(items[i - 1].path, items[i].path);
        assert Paths(items)[i - 1] == items[i - 1].path && Paths(items)[i] == items[i].path;
      }
    }
  }

  /** One more key above the last one and below the end keeps a page well shaped. */
  lemma WellShapedOneMore(items: seq<WalkFile>, item: WalkFile, start: Bytes, end: Bytes)
    requires IsWellShaped(items, start, end)
    requires Less(items[|items| - 1].path, item.path) && (end != [] ==> Less(item.path, end))
    ensures IsWellShaped(items + [item], start, end)
  {
    var last := items[|items| - 1];
    assert last in items;
    if start != [] { LessEqTransitive(start, last.path, item.path); }
    forall f, g | f in items && g in [item] ensures Less(f.path, g.path) {
      var i :| 0 <= i < |items| && items[i] == f;
      if i < |items| - 1 {
        assert Less(Paths(items)[i], Paths(items)[|items| - 1]);
        LessTransitive(f.path, last.path, item.path);
      }
    }
    IncreasingSingle(item);
    IncreasingConcat(items, [item]);
  }

  lemma IncreasingSingle(item: WalkFile)
    ensures Increasing(Paths([item]))
  {
  }

  /** Finds the first violation of a page's shape, in one pass. */
  method ValidateFilledPage(items: seq<WalkFile>, start: Bytes, end: Bytes) returns (v: PageShape)
    ensures IsVerdict(items, start, end, v)
  {
    if items == [] { return EmptyPage; }
    if Inverted(start, end) { return InvertedBounds; }
    var previous := items[0].path;
    LessOrNot(start, previous);
    LessOrNot(end, previous);
    if start != [] && Less(previous, start) { return KeyOutsideBounds(0, true); }
    if end != [] && LessEq(end, previous) { return KeyOutsideBounds(0, false); }
    assert items[..1] == [items[0]];
    IncreasingSingle(items[0]);
    var index := 1;
    while index < |items|
      invariant 1 <= index <= |items| && previous == items[index - 1].path
      invariant IsWellShaped(items[..index], start, end)
    {
      var key := items[index].path;
      LessOrNot(previous, key);
      LessOrNot(end, key);
      if Less(key, previous) { return UnsortedKeys(index); }
      if key == previous { return DuplicateKeys(index); }
      if end != [] && LessEq(end, key) { return KeyOutsideBounds(index, false); }
      WellShapedOneMore(items[..index], items[index], start, end);
      assert items[..index + 1] == items[..index] + [items[index]];
      previous := key;
      index := index + 1;
    }
    assert items[..index] == items;
    return WellShaped;
  }

  // ---------------------------------------------------------------------
  // Filling a page
  // ---------------------------------------------------------------------

  lemma {:induction false} SelectedInRange(range: Range, files: seq<WalkFile>)
    requires Increasing(Paths(files))
    ensures Increasing(Paths(Select(range, files, PathOf)))
    ensures forall f :: f in Select(range, files, PathOf) ==> f in files && InRange(range, f.path)
    decreases |files|
  {
    if files != [] {
      var rest := files[1..];
      assert files == [files[0]] + rest;
      SuffixIncreasing([files[0]], rest);
      SelectedInRange(range, rest);
      if InRange(range, files[0].path) {
        forall f, g | f in [files[0]] && g in Select(range, rest, PathOf) ensures Less(f.path, g.path) {
        }
        IncreasingConcat([files[0]], Select(range, rest, PathOf));
      }
    }
  }

  lemma FilesInRangeIncreasing(root: seq<Entry>, range: Range)
    requires WellFormed(root)
    ensures Increasing(Paths(FilesInRange(root, range)))
    ensures forall f :: f in FilesInRange(root, range) ==> InRange(range, f.path)
  {
    WalkDirIncreasing([], root);
    SelectedInRange(range, WalkDir([], root));
  }

  lemma IncreasingPrefix(items: seq<WalkFile>, files: seq<WalkFile>)
    requires items <= files && Increasing(Paths(files))
    ensures Increasing(Paths(items))
  {
    forall i, j | 0 <= i < j < |items| ensures Less(items[i].path, items[j].path) {
      assert items[i].path == Paths(files)[i] && items[j].path == Paths(files)[j];
    }
  }

  ghost predicate ShortPaths(files: seq<WalkFile>) {
    forall f :: f in files ==> 0 < |f.path| <= MAX_ITEM_KEY_SIZE
  }

  /** A walk's outlook for a caller that gives up at a path no item key can hold. */
  function Listable(o: Outlook): Outlook
    decreases |o.run|
  {
    if o.run == [] then o
    else if !IsItemKey(o.run[0].path) then Outlook([], Stuck)
    else Then(Outlook([o.run[0]], Exhausted), Listable(Outlook(o.run[1..], o.ending)))
  }

  predicate IsItemKey(path: Bytes) { 0 < |path| <= MAX_ITEM_KEY_SIZE }

  /** What there is to list in a range: files, and then the end or something that cannot be listed. */
  ghost function Ahead(root: seq<Entry>, range: Range): Outlook {
    if PastResume(range) then NOTHING else Listable(OutlookDir(range, [], root))
  }

  /** The resume point is not before the end. */
  predicate PastResume(range: Range) {
    range.resumeAfter.Some? && range.end.Some? && LessEq(range.end.value, range.resumeAfter.value)
  }

  /** These files do not use up the budgets. */
  ghost predicate LeavesRoom(run: seq<WalkFile>, budgets: Budgets) {
    |run| < budgets.maxItems && (|run| > 1 ==> Clamp(TotalSize(run)) <= budgets.maxBytes)
  }

  /**
   * What one call returns. It fails exactly when it gets stuck with room left on the page; if it gets
   * stuck on the look past a page full of items, it reports that there is more.
   */
  ghost predicate FillsPage(r: Result<Option<Page>>, o: Outlook, budgets: Budgets) {
    match r
    case Err(_) => o.ending.Stuck? && LeavesRoom(o.run, budgets)
    case Ok(None) => o.run == [] && !o.ending.Stuck?
    case Ok(Some(page)) =>
      && IsPageCut(page.items, o.run, budgets)
      && (page.items == o.run && o.ending.Stuck? ==> !LeavesRoom(o.run, budgets))
      && page.state == if page.items == o.run && !o.ending.Stuck? then Complete
                       else HasMore(page.items[|page.items| - 1].path)
  }

  lemma CursorPastEnd(files: seq<WalkFile>, range: Range)
    requires range.resumeAfter.Some? && range.end.Some?
    requires LessEq(range.end.value, range.resumeAfter.value)
    requires forall f :: f in files ==> InRange(range, f.path)
    ensures files == []
  {
    assert files != [] ==> files[0] in files;
    if files != [] {
      LessEqTransitive(range.end.value, range.resumeAfter.value, files[0].path);
      LessAsymmetric(files[0].path, range.end.value);
    }
  }

  /** Whatever the loop collects passes page validation. */
  lemma PageIsValid(items: seq<WalkFile>, files: seq<WalkFile>, range: Range)
    requires items != [] && items <= files
    requires Increasing(Paths(files))
    requires forall f :: f in files ==> InRange(range, f.path)
    ensures Increasing(Paths(items))
    ensures range.start.Some? && range.end.Some? ==> !LessEq(range.end.value, range.start.value)
    ensures forall f :: f in items ==> InRange(range, f.path)
  {
    IncreasingPrefix(items, files);
    assert items[0] == files[0] && files[0] in files;
    if range.start.Some? && range.end.Some? {
      LessEqTransitive(range.start.value, items[0].path, range.end.value);
      LessOrNot(range.end.value, range.start.value);
    }
  }

  /** What has been collected so far, with room for at least one more item. */
  ghost predicate Collecting(items: seq<WalkFile>, files: seq<WalkFile>, total: u64, budgets: Budgets) {
    && items <= files && |items| < budgets.maxItems && total == Clamp(TotalSize(items))
    && (|items| > 1 ==> total <= budgets.maxBytes)
  }

  /** One more file: the page is full before it, full with it, or goes on. */
  lemma CollectOne(items: seq<WalkFile>, files: seq<WalkFile>, total: u64, budgets: Budgets, item: WalkFile)
    requires Collecting(items, files, total, budgets) && |items| < |files| && files[|items|] == item
    ensures items + [item] == files[..|items| + 1]
    ensures var sum := SatAdd(total, item.size);
            if items != [] && sum > budgets.maxBytes then IsPageCut(items, files, budgets)
            else if |items| + 1 == budgets.maxItems then IsPageCut(items + [item], files, budgets)
            else Collecting(items + [item], files, sum, budgets)
  {
    var more := items + [item];
    assert more == files[..|items| + 1];
    assert more[..|items|] == items;
    assert Clamp(TotalSize(more)) == SatAdd(total, item.size);
  }

  /** The collected items, if it came to any, and whether the walk is known to be over. */
  ghost predicate Collects(r: Result<(seq<WalkFile>, bool)>, o: Outlook, budgets: Budgets) {
    match r
    case Err(_) => o.ending.Stuck? && LeavesRoom(o.run, budgets)
    case Ok((items, complete)) =>
      && (if items == [] then o.run == [] && !o.ending.Stuck? else IsPageCut(items, o.run, budgets))
      && (complete <==> items == o.run && !o.ending.Stuck?)
      && (items == o.run && o.ending.Stuck? ==> !LeavesRoom(o.run, budgets))
  }

  /** The walk is `items` into the outlook `o`. */
  ghost predicate Along(walk: DirectoryWalker, o: Outlook, items: seq<WalkFile>)
    reads walk
  {
    walk.Valid() && o == Then(Outlook(items, Exhausted), Listable(walk.Remaining()))
  }

  /** Takes files from the walk until a budget is spent, then peeks whether any are left. */
  method CollectItems(walk: DirectoryWalker, budgets: Budgets) returns (r: Result<(seq<WalkFile>, bool)>)
    requires walk.Valid()
    modifies walk
    ensures Collects(r, Listable(old(walk.Remaining())), budgets)
  {
    ghost var o := Listable(walk.Remaining());
    var items: seq<WalkFile> := [];
    var totalBytes: u64 := 0;
    ThenNothing(o);
    while true
      invariant Along(walk, o, items) && Collecting(items, o.run, totalBytes, budgets)
      decreases |o.run| - |items|
    {
      var take :- TakeOne(walk, o, items, totalBytes, budgets);
      if take.NoMore? { return Ok((items, true)); }
      if take.Full? { return Ok((items, false)); }
      items, totalBytes := items + [take.item], take.total;
      if |items| == budgets.maxItems {
        var complete := PeekEnd(walk, o, items);
        return Ok((items, complete));
      }
    }
  }

  /** What the next file does to a page: there is none, it does not fit, or it is taken. */
  datatype Take = NoMore | Full | Taken(item: WalkFile, total: u64)

  method TakeOne(walk: DirectoryWalker, ghost o: Outlook, items: seq<WalkFile>, totalBytes: u64, budgets: Budgets)
    returns (r: Result<Take>)
    requires Along(walk, o, items) && Collecting(items, o.run, totalBytes, budgets)
    modifies walk
    ensures r.Err? ==> o.ending.Stuck? && LeavesRoom(o.run, budgets)
    ensures r == Ok(NoMore) ==> items == o.run && !o.ending.Stuck?
    ensures r == Ok(Full) ==> IsPageCut(items, o.run, budgets) && |items| < |o.run|
    ensures r.Ok? && r.value.Taken? ==>
              && Along(walk, o, items + [r.value.item]) && |items| < |o.run|
              && if |items| + 1 == budgets.maxItems then IsPageCut(items + [r.value.item], o.run, budgets)
                 else Collecting(items + [r.value.item], o.run, r.value.total, budgets)
  {
    AtEnd(o, items, Listable(walk.Remaining()));
    var next :- walk.NextFile();
    if next.None? { return Ok(NoMore); }
    var item := next.value;
    ListableStep(item, walk.Remaining());
    if !IsItemKey(item.path) { return Err(PermanentError); }
    TakeNext(o, items, item, walk.Remaining());
    CollectOne(items, o.run, totalBytes, budgets, item);
    var sum := SatAdd(totalBytes, item.size);
    if items != [] && sum > budgets.maxBytes { return Ok(Full); }
    return Ok(Taken(item, sum));
  }

  lemma AtEnd(o: Outlook, items: seq<WalkFile>, l: Outlook)
    requires o == Then(Outlook(items, Exhausted), l)
    ensures l.run == [] ==> o == Outlook(items, l.ending)
    ensures l.run != [] ==> |items| < |o.run|
  {
  }

  /** Looks one file ahead of a full page; a failed look counts as more to come. */
  method PeekEnd(walk: DirectoryWalker, ghost o: Outlook, items: seq<WalkFile>) returns (complete: bool)
    requires Along(walk, o, items)
    modifies walk
    ensures complete <==> items == o.run && !o.ending.Stuck?
  {
    AtEnd(o, items, Listable(walk.Remaining()));
    var peek := walk.NextFile();
    return peek.Ok? && peek.value.None?;
  }

  lemma TakeNext(o: Outlook, items: seq<WalkFile>, item: WalkFile, rest: Outlook)
    requires IsItemKey(item.path)
    requires o == Then(Outlook(items, Exhausted), Listable(Outlook([item] + rest.run, rest.ending)))
    ensures o == Then(Outlook(items + [item], Exhausted), Listable(rest))
    ensures |items| < |o.run| && o.run[|items|] == item
  {
    ListableStep(item, rest);
    TakeFirst(o, items, item, Listable(rest));
  }

  lemma TakeFirst(o: Outlook, items: seq<WalkFile>, item: WalkFile, l: Outlook)
    requires o == Then(Outlook(items, Exhausted), Then(Outlook([item], Exhausted), l))
    ensures o == Then(Outlook(items + [item], Exhausted), l)
    ensures |items| < |o.run| && o.run[|items|] == item
  {
    ThenAssociates(Outlook(items, Exhausted), Outlook([item], Exhausted), l);
  }

  lemma ListableStep(item: WalkFile, rest: Outlook)
    ensures var l := Listable(Outlook([item] + rest.run, rest.ending));
            l == if IsItemKey(item.path) then Then(Outlook([item], Exhausted), Listable(rest)) else Outlook([], Stuck)
  {
    assert ([item] + rest.run)[1..] == rest.run;
  }

  /** Packs collected items into a validated page; the validation never rejects them. */
  method BuildPage(items: seq<WalkFile>, complete: bool, range: Range, ghost files: seq<WalkFile>)
    returns (r: Result<Option<Page>>)
    requires items <= files && Increasing(Paths(files))
    requires forall f :: f in files ==> InRange(range, f.path)
    ensures r == if items == [] then Ok(None)
                 else Ok(Some(Page(items, if complete then Complete
                                          else HasMore(items[|items| - 1].path))))
  {
    if items == [] { return Ok(None); }
    var lastKey := items[|items| - 1].path;
    var startKey := if range.start.Some? then range.start.value else [];
    var endKey := if range.end.Some? then range.end.value else [];
    var shape := ValidateFilledPage(items, startKey, endKey);
    PageIsValid(items, files, range);
    if shape != WellShaped { BrokenIsNotWellShaped(items, startKey, endKey, shape); }
    if shape != WellShaped { return Err(PermanentError); }
    return Ok(Some(Page(items, if complete then Complete else HasMore(lastKey))));
  }

  lemma {:induction false} ListableBegins(o: Outlook)
    ensures Listable(o).run <= o.run
    ensures !Listable(o).ending.Stuck? ==> Listable(o) == o
    ensures ShortPaths(o.run) ==> Listable(o) == o
    decreases |o.run|
  {
    if o.run != [] && IsItemKey(o.run[0].path) {
      ListableBegins(Outlook(o.run[1..], o.ending));
      assert o.run == [o.run[0]] + o.run[1..];
    } else if o.run != [] {
      assert o.run[0] in o.run;
    }
  }

  /**
   * What lies ahead begins the list of files in range and is all of it unless something cannot be
   * listed; a tree of readable directories and short paths holds nothing of that kind.
   */
  lemma AheadIsListing(root: seq<Entry>, range: Range)
    requires WellFormed(root)
    ensures var o, files := Ahead(root, range), FilesInRange(root, range);
            && o.run <= files
            && (!o.ending.Stuck? ==> o.run == files)
            && (WithinCap(root) && ShortPaths(files) ==> !o.ending.Stuck?)
  {
    var files := FilesInRange(root, range);
    var o := OutlookDir(range, [], root);
    FilesInRangeIncreasing(root, range);
    if PastResume(range) {
      CursorPastEnd(files, range);
    } else {
      WalkDirIncreasing([], root);
      DirFinds(range, [], root);
      ListableBegins(o);
      if WithinCap(root) { DirNeverStuck(range, [], root); }
    }
  }

  /** Walks sorted entries for one page of files that are known to be ordered and in range. */
  method FillFrom(sortedRoot: seq<Entry>, range: Range, budgets: Budgets, ghost files: seq<WalkFile>)
    returns (r: Result<Option<Page>>)
    requires Listable(OutlookEntries(range, [], sortedRoot)).run <= files && Increasing(Paths(files))
    requires forall f :: f in files ==> InRange(range, f.path)
    ensures FillsPage(r, Listable(OutlookEntries(range, [], sortedRoot)), budgets)
  {
    var walk := new DirectoryWalker(sortedRoot, range);
    var collected: (seq<WalkFile>, bool) :- CollectItems(walk, budgets);
    r := BuildPage(collected.0, collected.1, range, files);
  }

  class FilesystemConnector {
    const root: seq<Entry>
    const keyRange: Bounds

    constructor (root: seq<Entry>, keyRange: Bounds)
      ensures this.root == root && this.keyRange == keyRange
    {
      this.root := root;
      this.keyRange := keyRange;
    }

    /** Fills one page with the files after the cursor. */
    method FillPageDirectory(bounds: Bounds, cursor: Option<Bytes>, budgets: Budgets)
      returns (r: Result<Option<Page>>)
      requires WellFormed(root)
      ensures FillsPage(r, Ahead(root, Range(bounds.start, cursor, bounds.end)), budgets)
    {
      var range := Range(bounds.start, cursor, bounds.end);
      if cursor.Some? && bounds.end.Some? && LessEq(bounds.end.value, cursor.value) { return Ok(None); }
      var sortedRoot :- ReadSortedDirEntries(root);
      AheadIsListing(root, range);
      FilesInRangeIncreasing(root, range);
      r := FillFrom(sortedRoot, range, budgets, FilesInRange(root, range));
    }

    /** The bounds a request is served within, if both of its own are keys and they meet the configured range. */
    ghost function Served(shardStart: Bytes, shardEnd: Bytes): Option<Bounds> {
      if ShardBound(shardStart).Err? || ShardBound(shardEnd).Err? then None
      else IntersectBounds(Bounds(ShardBound(shardStart).value, ShardBound(shardEnd).value), keyRange)
    }

    /** The connector's entry point: shard bounds are narrowed to the configured key range. */
    method FillPage(shardStart: Bytes, shardEnd: Bytes, cursor: Option<Bytes>, budgets: Budgets)
      returns (r: Result<Option<Page>>)
      requires WellFormed(root)
      ensures ShardBound(shardStart).Err? || ShardBound(shardEnd).Err? ==> r.Err?
      ensures ShardBound(shardStart).Ok? && ShardBound(shardEnd).Ok? ==>
                match Served(shardStart, shardEnd)
                case None => r == Ok(None)
                case Some(both) => FillsPage(r, Ahead(root, Range(both.start, cursor, both.end)), budgets)
    {
      var start :- ShardBound(shardStart);
      var end :- ShardBound(shardEnd);
      var bounds := IntersectBounds(Bounds(start, end), keyRange);
      if bounds.None? { return Ok(None); }
      r := FillPageDirectory(bounds.value, cursor, budgets);
    }
  }

  // ---------------------------------------------------------------------
  // One call's result is determined
  // ---------------------------------------------------------------------

  lemma {:induction false} TotalSizeGrows(files: seq<WalkFile>, n: nat)
    requires n <= |files|
    ensures TotalSize(files[..n]) <= TotalSize(files)
    decreases |files|
  {
    if n < |files| {
      TotalSizeGrows(files[..|files| - 1], n);
      assert files[..|files| - 1][..n] == files[..n];
    } else {
      assert files[..n] == files;
    }
  }

  lemma ShorterCutIsNoCut(a: seq<WalkFile>, b: seq<WalkFile>, files: seq<WalkFile>, budgets: Budgets)
    requires IsPageCut(a, files, budgets) && b <= files && |a| < |b| <= budgets.maxItems
    ensures Clamp(TotalSize(b)) > budgets.maxBytes
  {
    TotalSizeGrows(b, |a| + 1);
    assert b[..|a| + 1] == files[..|a| + 1];
  }

  /** What lies ahead and the budgets leave exactly one result. */
  lemma ResultIsDetermined(a: Result<Option<Page>>, b: Result<Option<Page>>, o: Outlook, budgets: Budgets)
    requires FillsPage(a, o, budgets) && FillsPage(b, o, budgets)
    ensures a == b
  {
    if a.Ok? && a.value.Some? { PageExcludesOthers(a.value.value, b, o, budgets); }
    if b.Ok? && b.value.Some? { PageExcludesOthers(b.value.value, a, o, budgets); }
    if a.Err? && b.Err? { assert a.error == PermanentError == b.error; }
  }

  lemma PageExcludesOthers(page: Page, r: Result<Option<Page>>, o: Outlook, budgets: Budgets)
    requires FillsPage(Ok(Some(page)), o, budgets) && FillsPage(r, o, budgets)
    ensures r == Ok(Some(page))
  {
    if r.Err? && page.items != o.run { ShorterCutIsNoCut(page.items, o.run, o.run, budgets); }
    if r.Ok? && r.value.Some? {
      var other := r.value.value;
      assert page.items == o.run[..|page.items|] && other.items == o.run[..|other.items|];
      if |page.items| < |other.items| { ShorterCutIsNoCut(page.items, other.items, o.run, budgets); }
      if |other.items| < |page.items| { ShorterCutIsNoCut(other.items, page.items, o.run, budgets); }
    }
  }

  /** The page promises more although it holds all the files there are. */
  ghost predicate PromisesTooMuch(r: Result<Option<Page>>, files: seq<WalkFile>) {
    r.Ok? && r.value.Some? && r.value.value.items == files && r.value.value.state.HasMore?
  }

  /** That happens exactly when all files fill a page to its last item and something unlistable follows them. */
  lemma PromisesTooMuchIff(root: seq<Entry>, range: Range, budgets: Budgets, r: Result<Option<Page>>)
    requires WellFormed(root) && FillsPage(r, Ahead(root, range), budgets)
    ensures var files := FilesInRange(root, range);
            PromisesTooMuch(r, files) <==> Ahead(root, range) == Outlook(files, Stuck) && FillToLastItem(files, budgets)
  {
    AheadIsListing(root, range);
    PromisesTooMuchOf(Ahead(root, range), FilesInRange(root, range), budgets, r);
  }

  /** The files make up one page that has no room for a further item. */
  ghost predicate FillToLastItem(files: seq<WalkFile>, budgets: Budgets) {
    |files| == budgets.maxItems && (|files| > 1 ==> Clamp(TotalSize(files)) <= budgets.maxBytes)
  }

  lemma PromisesTooMuchOf(o: Outlook, files: seq<WalkFile>, budgets: Budgets, r: Result<Option<Page>>)
    requires FillsPage(r, o, budgets) && o.run <= files && (!o.ending.Stuck? ==> o.run == files)
    ensures PromisesTooMuch(r, files) <==> o == Outlook(files, Stuck) && FillToLastItem(files, budgets)
  {
    if o == Outlook(files, Stuck) && FillToLastItem(files, budgets) {
      ResultIsDetermined(r, Ok(Some(Page(files, HasMore(files[|files| - 1].path)))), o, budgets);
    }
  }

  /** A file, and after it a directory. */
  function Beside(crowd: seq<Entry>): seq<Entry> {
    [Entry([97], File(1)), Entry([98], Dir(crowd))]
  }

  /** Too many entries to read, none of them a file. */
  ghost predicate IsCrowd(crowd: seq<Entry>) {
    WellFormed(crowd) && |crowd| > MAX_DIR_ENTRIES && forall e :: e in crowd ==> e.node.Special?
  }

  lemma CrowdsExist() returns (crowd: seq<Entry>)
    ensures IsCrowd(crowd)
  {
    crowd := seq(MAX_DIR_ENTRIES + 1, (i: nat) => Entry(seq(i + 1, _ => 65), Special));
    assert forall i, j :: 0 <= i < j < |crowd| ==> |crowd[i].name| < |crowd[j].name|;
  }

  lemma {:induction false} NoFilesAmongSpecials(prefix: Bytes, entries: seq<Entry>)
    requires forall e :: e in entries ==> e.node.Special?
    ensures WalkEntries(prefix, entries) == []
    decreases |entries|
  {
    if entries != [] {
      assert entries[0] in entries;
      NoFilesAmongSpecials(prefix, entries[1..]);
    }
  }

  lemma CrowdHoldsNoFile(prefix: Bytes, crowd: seq<Entry>)
    requires IsCrowd(crowd)
    ensures WalkDir(prefix, crowd) == []
  {
    var sorted := Sort(crowd, SortKey);
    forall e | e in sorted ensures e.node.Special? { SameElements(crowd, sorted, e); }
    NoFilesAmongSpecials(prefix, sorted);
  }

  lemma BesideInOrder(crowd: seq<Entry>)
    requires WellFormed(crowd)
    ensures WellFormed(Beside(crowd)) && Sort(Beside(crowd), SortKey) == Beside(crowd)
  {
    var t := Beside(crowd);
    assert t[1..] == [t[1]] && t[1..][1..] == [];
    assert Less(SortKey(t[0]), SortKey(t[1]));
    assert Sort(t[1..], SortKey) == [t[1]];
  }

  /** With room for one item, a listing of such a tree hands out its only file and promises more. */
  lemma CrowdMakesPagePromiseTooMuch(crowd: seq<Entry>, r: Result<Option<Page>>, maxBytes: PositiveU64)
    requires IsCrowd(crowd) && FillsPage(r, Ahead(Beside(crowd), Range(None, None, None)), Budgets(1, maxBytes))
    ensures WellFormed(Beside(crowd)) && PromisesTooMuch(r, FilesInRange(Beside(crowd), Range(None, None, None)))
  {
    BesideInOrder(crowd);
    CrowdHoldsNoFile([98], crowd);
    BesideWalk(crowd);
    BesideAhead(crowd);
    PromisesTooMuchIff(Beside(crowd), Range(None, None, None), Budgets(1, maxBytes), r);
  }

  lemma BesideWalk(crowd: seq<Entry>)
    requires Sort(Beside(crowd), SortKey) == Beside(crowd) && WalkDir([98], crowd) == []
    ensures FilesInRange(Beside(crowd), Range(None, None, None)) == [WalkFile([97], 1)]
  {
    var t, a := Beside(crowd), WalkFile([97], 1);
    assert t[1..] == [t[1]] && t[1..][1..] == [];
    assert Join([], [97]) == [97] && Join([], [98]) == [98];
    assert WalkEntry([], t[0]) == [a] && WalkEntry([], t[1]) == [];
    assert WalkEntries([], t[1..]) == [];
    assert WalkDir([], t) == [a];
    assert [a][1..] == [];
  }

  lemma BesideAhead(crowd: seq<Entry>)
    requires Sort(Beside(crowd), SortKey) == Beside(crowd) && |crowd| > MAX_DIR_ENTRIES
    ensures Ahead(Beside(crowd), Range(None, None, None)) == Outlook([WalkFile([97], 1)], Stuck)
  {
    var t, range, a := Beside(crowd), Range(None, None, None), WalkFile([97], 1);
    assert t[1..] == [t[1]] && t[1..][1..] == [];
    assert Join([], [97]) == [97] && Join([], [98]) == [98];
    assert InRange(range, Join([98], []));
    assert !Skips(range, [98]);
    assert OutlookEntry(range, [], t[0]) == Outlook([a], Exhausted);
    assert OutlookEntry(range, [], t[1]) == Outlook([], Stuck);
    assert OutlookEntries(range, [], t[1..]) == Outlook([], Stuck);
    assert OutlookDir(range, [], t) == Outlook([a], Stuck);
    assert [a][1..] == [];
  }

  /** The list that pages are cut from: each regular file in range, once, in increasing path order. */
  lemma FilesInRangeExact(root: seq<Entry>, range: Range, f: WalkFile)
    requires WellFormed(root)
    ensures f in FilesInRange(root, range) <==> IsFile([], root, f) && InRange(range, f.path)
    ensures Increasing(Paths(FilesInRange(root, range)))
  {
    FilesInRangeIncreasing(root, range);
    WalkDirFindsExactlyFiles([], root, f);
    SelectMember(range, WalkDir([], root), PathOf, f);
  }

  // ---------------------------------------------------------------------
  // Whole enumerations
  // ---------------------------------------------------------------------

  /** Pages obtained by passing each returned cursor to the next call, with any budgets. */
  ghost predicate PageRun(root: seq<Entry>, bounds: Bounds, cursor: Option<Bytes>,
                          pages: seq<Page>, budgets: seq<Budgets>)
    requires |pages| == |budgets|
    decreases |pages|
  {
    pages == [] ||
    (&& IsPageOf(pages[0], FilesInRange(root, Range(bounds.start, cursor, bounds.end)), budgets[0])
     && (|pages| > 1 ==>
           && pages[0].state.HasMore?
           && PageRun(root, bounds, Some(pages[0].state.cursor), pages[1..], budgets[1..])))
  }

  /** The same pages seen as successive cuts of one fixed list. */
  ghost predicate ListRun(files: seq<WalkFile>, pages: seq<Page>, budgets: seq<Budgets>)
    requires |pages| == |budgets|
    decreases |pages|
  {
    pages == [] ||
    (&& IsPageOf(pages[0], files, budgets[0])
     && (|pages| > 1 ==>
           && pages[0].state.HasMore?
           && ListRun(files[|pages[0].items|..], pages[1..], budgets[1..])))
  }

  ghost function Concat(pages: seq<Page>): seq<WalkFile> {
    if pages == [] then [] else pages[0].items + Concat(pages[1..])
  }

  lemma {:induction false} SelectNarrow(range: Range, key: Bytes, files: seq<WalkFile>)
    requires range.resumeAfter.Some? ==> Less(range.resumeAfter.value, key)
    ensures Select(range.(resumeAfter := Some(key)), files, PathOf)
            == Select(Range(None, Some(key), None), Select(range, files, PathOf), PathOf)
    decreases |files|
  {
    if files != [] {
      var p := files[0].path;
      if range.resumeAfter.Some? && Less(key, p) { LessTransitive(range.resumeAfter.value, key, p); }
      var rest := Select(range, files[1..], PathOf);
      assert ([files[0]] + rest)[1..] == rest && [] + rest == rest;
      SelectNarrow(range, key, files[1..]);
    }
  }

  /** Resuming after a listed file drops exactly the list up to that file. */
  lemma ResumeDropsPrefix(root: seq<Entry>, range: Range, n: nat)
    requires WellFormed(root)
    requires 0 < n <= |FilesInRange(root, range)|
    ensures var files := FilesInRange(root, range);
            FilesInRange(root, range.(resumeAfter := Some(files[n - 1].path))) == files[n..]
  {
    var files := FilesInRange(root, range);
    FilesInRangeIncreasing(root, range);
    assert files[n - 1] in files;
    SelectNarrow(range, files[n - 1].path, WalkDir([], root));
    var beyond := Range(None, Some(files[n - 1].path), None);
    SplitsAfter(files, beyond, n - 1);
    SelectFrom(beyond, files, n);
  }

  /** Exactly the files from position `n` on lie in the range. */
  ghost predicate SplitsAt(range: Range, files: seq<WalkFile>, n: nat) {
    forall i :: 0 <= i < |files| ==> (InRange(range, files[i].path) <==> i >= n)
  }

  /** In an ordered list, the files beyond one of them are those after it. */
  lemma SplitsAfter(files: seq<WalkFile>, beyond: Range, m: nat)
    requires Increasing(Paths(files)) && m < |files| && beyond == Range(None, Some(files[m].path), None)
    ensures SplitsAt(beyond, files, m + 1)
  {
    forall i | 0 <= i < |files| ensures InRange(beyond, files[i].path) <==> i >= m + 1 {
      BeyondByPosition(files, beyond, m, i);
    }
  }

  lemma BeyondByPosition(files: seq<WalkFile>, beyond: Range, m: nat, i: nat)
    requires Increasing(Paths(files)) && m < |files| && i < |files|
    requires beyond == Range(None, Some(files[m].path), None)
    ensures InRange(beyond, files[i].path) <==> i >= m + 1
  {
    var p := Paths(files);
    assert p[m] == files[m].path && p[i] == files[i].path;
    if m < i { assert Less(p[m], p[i]); }
    else if i < m { LessAsymmetric(p[i], p[m]); }
    else { LessIrreflexive(p[m]); }
  }

  lemma SelectFrom(range: Range, files: seq<WalkFile>, n: nat)
    requires n <= |files| && SplitsAt(range, files, n)
    ensures Select(range, files, PathOf) == files[n..]
  {
    SelectSlice(range, files, PathOf, n, |files|);
    assert files[n..|files|] == files[n..];
  }

  lemma {:induction false} PageRunIsListRun(root: seq<Entry>, bounds: Bounds, cursor: Option<Bytes>,
                                            pages: seq<Page>, budgets: seq<Budgets>)
    requires WellFormed(root)
    requires |pages| == |budgets| && PageRun(root, bounds, cursor, pages, budgets)
    ensures ListRun(FilesInRange(root, Range(bounds.start, cursor, bounds.end)), pages, budgets)
    decreases |pages|
  {
    if |pages| > 1 {
      var range := Range(bounds.start, cursor, bounds.end);
      var key := pages[0].state.cursor;
      ResumeDropsPrefix(root, range, |pages[0].items|);
      assert range.(resumeAfter := Some(key)) == Range(bounds.start, Some(key), bounds.end);
      PageRunIsListRun(root, bounds, Some(key), pages[1..], budgets[1..]);
    }
  }

  lemma {:induction false} ListRunExact(files: seq<WalkFile>, pages: seq<Page>, budgets: seq<Budgets>)
    requires |pages| == |budgets| && ListRun(files, pages, budgets)
    ensures Concat(pages) <= files && |pages| <= |Concat(pages)|
    ensures pages != [] ==> (pages[|pages| - 1].state.Complete? <==> Concat(pages) == files)
    decreases |pages|
  {
    if |pages| == 1 {
      assert pages[1..] == [];
      assert Concat(pages) == pages[0].items;
    } else if pages != [] {
      var n := |pages[0].items|;
      ListRunExact(files[n..], pages[1..], budgets[1..]);
      assert files == files[..n] + files[n..];
    }
  }

  /** Paging loses nothing, repeats nothing and stops: the pages partition the file list in order. */
  lemma PaginationExact(root: seq<Entry>, bounds: Bounds, cursor: Option<Bytes>,
                        pages: seq<Page>, budgets: seq<Budgets>)
    requires WellFormed(root)
    requires |pages| == |budgets| && PageRun(root, bounds, cursor, pages, budgets)
    ensures var files := FilesInRange(root, Range(bounds.start, cursor, bounds.end));
            && Concat(pages) <= files
            && |pages| <= |Concat(pages)|
            && (pages != [] ==>
                  (pages[|pages| - 1].state.Complete? <==> Concat(pages) == files))
  {
    PageRunIsListRun(root, bounds, cursor, pages, budgets);
    ListRunExact(FilesInRange(root, Range(bounds.start, cursor, bounds.end)), pages, budgets);
  }

  // ---------------------------------------------------------------------
  // Following the cursor
  // ---------------------------------------------------------------------

  lemma {:induction false} ListableLeftover(o: Outlook, n: nat)
    requires n <= |Listable(o).run|
    ensures Listable(o).run <= o.run && Listable(Leftover(o, n)) == Leftover(Listable(o), n)
    decreases |o.run|
  {
    ListableBegins(o);
    if n == 0 {
      assert o.run[0..] == o.run && Listable(o).run[0..] == Listable(o).run;
    } else {
      var rest := Outlook(o.run[1..], o.ending);
      ListableLeftover(rest, n - 1);
      assert Leftover(rest, n - 1) == Leftover(o, n);
      assert Leftover(Listable(rest), n - 1) == Leftover(Listable(o), n);
    }
  }

  /** Resuming after a listed file leaves what lay ahead of it, the end included. */
  lemma AheadResumes(root: seq<Entry>, range: Range, n: nat)
    requires WellFormed(root) && 0 < n <= |Ahead(root, range).run|
    ensures var o := Ahead(root, range); Ahead(root, Resumed(range, o.run[n - 1].path)) == Leftover(o, n)
  {
    var walk, o := OutlookDir(range, [], root), Ahead(root, range);
    var f := o.run[n - 1];
    ListableLeftover(walk, n);
    assert f == walk.run[n - 1];
    DirResumes(range, [], root, n);
    AheadIsListing(root, range);
    FilesInRangeIncreasing(root, range);
    assert f in FilesInRange(root, range);
    if range.end.Some? { LessOrNot(range.end.value, f.path); }
  }

  /** A page of what lies ahead, as part of the list of files. */
  lemma PageStarts(o: Outlook, files: seq<WalkFile>, budgets: Budgets, page: Page)
    requires FillsPage(Ok(Some(page)), o, budgets) && o.run <= files && (!o.ending.Stuck? ==> o.run == files)
    ensures page.items != [] && page.items <= o.run && page.items <= files
    ensures page.state.Complete? ==> page.items == files && !o.ending.Stuck?
    ensures !o.ending.Stuck? ==> IsPageOf(page, files, budgets)
    ensures var n := |page.items|; page.state.HasMore? ==> page.state.cursor == files[n - 1].path == o.run[n - 1].path
  {
  }

  /** The result of one call seen from the whole list: what is handed out and what the cursor leaves. */
  lemma PageAdvances(root: seq<Entry>, range: Range, budgets: Budgets, page: Page)
    requires WellFormed(root) && FillsPage(Ok(Some(page)), Ahead(root, range), budgets)
    ensures var o, files := Ahead(root, range), FilesInRange(root, range);
            && page.items != [] && page.items <= files
            && (page.state.Complete? ==> page.items == files && !o.ending.Stuck?)
            && (page.state.HasMore? ==>
                  && FilesInRange(root, Resumed(range, page.state.cursor)) == files[|page.items|..]
                  && Ahead(root, Resumed(range, page.state.cursor)).ending == o.ending)
            && (!o.ending.Stuck? ==> IsPageOf(page, files, budgets))
  {
    AheadIsListing(root, range);
    PageStarts(Ahead(root, range), FilesInRange(root, range), budgets, page);
    if page.state.HasMore? {
      ResumeDropsPrefix(root, range, |page.items|);
      AheadResumes(root, range, |page.items|);
    }
  }

  /** The budgets of a run's pages, the first of which is page `n` of a caller. */
  function BudgetsFrom(budgets: nat -> Budgets, n: nat, count: nat): (r: seq<Budgets>)
    ensures |r| == count && forall i :: 0 <= i < count ==> r[i] == budgets(n + i)
  {
    seq(count, (i: nat) => budgets(n + i))
  }

  /**
   * Calls the connector until a page is complete, passing each cursor back. That succeeds if and only
   * if nothing unlistable lies in range, as it does on readable trees with short paths; then the calls
   * make up a page run that ends with a complete page and together hands out the list of files in range.
   */
  method Enumerate(c: FilesystemConnector, shardStart: Bytes, shardEnd: Bytes, ghost bounds: Bounds,
                   cursor: Option<Bytes>, budgets: nat -> Budgets, n: nat)
    returns (r: Result<seq<Page>>)
    requires WellFormed(c.root) && c.Served(shardStart, shardEnd) == Some(bounds)
    ensures var files := FilesInRange(c.root, Range(bounds.start, cursor, bounds.end));
            && (r.Ok? <==> !Ahead(c.root, Range(bounds.start, cursor, bounds.end)).ending.Stuck?)
            && (WithinCap(c.root) && ShortPaths(files) ==> r.Ok?)
            && (r.Ok? ==>
                  && PageRun(c.root, bounds, cursor, r.value, BudgetsFrom(budgets, n, |r.value|))
                  && Concat(r.value) == files
                  && (files != [] ==> r.value != [] && r.value[|r.value| - 1].state.Complete?))
    decreases |FilesInRange(c.root, Range(bounds.start, cursor, bounds.end))|
  {
    ghost var range := Range(bounds.start, cursor, bounds.end);
    AheadIsListing(c.root, range);
    var next :- c.FillPage(shardStart, shardEnd, cursor, budgets(n));
    if next.None? { return Ok([]); }
    var page := next.value;
    PageAdvances(c.root, range, budgets(n), page);
    if page.state.Complete? {
      assert [page][1..] == [];
      return Ok([page]);
    }
    var rest: seq<Page> :- Enumerate(c, shardStart, shardEnd, bounds, Some(page.state.cursor), budgets, n + 1);
    JoinPages(page, rest, budgets, n);
    return Ok([page] + rest);
  }

  lemma JoinPages(page: Page, rest: seq<Page>, budgets: nat -> Budgets, n: nat)
    ensures var pages := [page] + rest;
            && pages[1..] == rest && Concat(pages) == page.items + Concat(rest)
            && BudgetsFrom(budgets, n, |pages|)[1..] == BudgetsFrom(budgets, n + 1, |rest|)
  {
    assert ([page] + rest)[1..] == rest;
  }
}
