/** The source cache, LRU with two limits, and the extraction of node contents. */
module SourceCache {
  import opened GraphTypes
  import opened Options
  import opened SourceText

  type Path = string

  /** The file system, fixed while CSVs are generated; an absent path cannot be read. */
  type Disk = map<Path, Bytes>

  const SYMBOL_CONTENT_MAX: nat := 5000
  const FILE_CONTENT_MAX: nat := 10000
  const FILE_CACHE_CAPACITY: nat := 3000
  const FILE_CACHE_BYTE_BUDGET: nat := 128 * 1024 * 1024
  const SPAN_BYTES: nat := 16

  /** A cached text with its line index; capacities are what the allocator reserved. */
  datatype CachedFile = CachedFile(text: Bytes, lines: seq<Span>, textCapacity: nat, lineCapacity: nat) {
    function RetainedBytes(): nat {
      textCapacity + lineCapacity * SPAN_BYTES
    }
  }

  /** What the allocator reserved beyond the need when a file was loaded. */
  datatype Slack = Slack(text: nat, lines: nat)

  datatype Entry = Entry(path: Path, file: Option<CachedFile>)

  /** The sanitized text of a readable, non-binary, valid UTF-8 file. */
  function ReadText(disk: Disk, path: Path): Option<Bytes> {
    if path !in disk || IsBinaryContent(disk[path]) || !ValidUtf8(disk[path]) then None
    else Some(Sanitize(disk[path]))
  }

  /** The line index holds the lines of the text the disk has at `path`. */
  ghost predicate Mirrors(file: Option<CachedFile>, text: Option<Bytes>) {
    && (file.Some? <==> text.Some?)
    && (file.Some? ==>
          && file.value.text == text.value
          && WithinText(file.value.text, file.value.lines)
          && Slices(file.value.text, file.value.lines) == Lines(file.value.text))
  }

  predicate Allocated(file: Option<CachedFile>, slack: Slack) {
    && (file.Some? ==> file.value.textCapacity == |file.value.text| + slack.text)
    && (file.Some? ==> file.value.lineCapacity == |file.value.lines| + slack.lines)
  }

  function Retained(e: Entry): nat {
    if e.file.Some? then e.file.value.RetainedBytes() else 0
  }

  function Total(entries: seq<Entry>): nat {
    if entries == [] then 0 else Total(entries[..|entries| - 1]) + Retained(entries[|entries| - 1])
  }

  ghost predicate DistinctPaths(entries: seq<Entry>) {
    forall i, j | 0 <= i < j < |entries| :: entries[i].path != entries[j].path
  }

  /** `LruCache::put`: an entry of the same path is replaced; without one, a full cache silently loses its
      least recently used entry. */
  function AfterPut(entries: seq<Entry>, e: Entry): seq<Entry> {
    var i := IndexOf(entries, e.path);
    if i < |entries| then [e] + entries[..i] + entries[i + 1..]
    else [e] + if |entries| == FILE_CACHE_CAPACITY then entries[..|entries| - 1] else entries
  }

  /** The longest prefix, most recent first, within the byte budget. */
  function WithinBudget(entries: seq<Entry>, budget: nat): seq<Entry> {
    if Total(entries) <= budget then entries else WithinBudget(entries[..|entries| - 1], budget)
  }

  /** What is left of the entries once room is made for one more. */
  function RoomForOne(entries: seq<Entry>): seq<Entry> {
    if |entries| == FILE_CACHE_CAPACITY then entries[..|entries| - 1] else entries
  }

  function IndexOf(entries: seq<Entry>, path: Path): (i: nat)
    ensures i <= |entries| && (i < |entries| ==> entries[i].path == path)
    ensures forall k | 0 <= k < i :: entries[k].path != path
  {
    if entries == [] || entries[0].path == path then 0 else 1 + IndexOf(entries[1..], path)
  }

  function Promote(entries: seq<Entry>, i: nat): seq<Entry>
    requires i < |entries|
  {
    [entries[i]] + entries[..i] + entries[i + 1..]
  }

  lemma {:induction false} TotalOfPrefix(entries: seq<Entry>, n: nat)
    requires n <= |entries|
    ensures Total(entries[..n]) <= Total(entries)
  {
    if n < |entries| {
      assert entries[..|entries| - 1][..n] == entries[..n];
      TotalOfPrefix(entries[..|entries| - 1], n);
    } else {
      assert entries[..n] == entries;
    }
  }

  lemma {:induction false} TotalConcat(a: seq<Entry>, b: seq<Entry>)
    ensures Total(a + b) == Total(a) + Total(b)
  {
    if b == [] {
      assert a + b == a;
    } else {
      assert (a + b)[..|a + b| - 1] == a + b[..|b| - 1];
      TotalConcat(a, b[..|b| - 1]);
    }
  }

  /** Eviction takes the least recently used entries, and no more of them than needed. */
  lemma {:induction false} WithinBudgetIsLongestPrefix(entries: seq<Entry>, budget: nat)
    ensures var kept := WithinBudget(entries, budget);
            && kept <= entries && Total(kept) <= budget
            && forall n | |kept| < n <= |entries| :: Total(entries[..n]) > budget
  {
    if Total(entries) > budget {
      var shorter := entries[..|entries| - 1];
      WithinBudgetIsLongestPrefix(shorter, budget);
      forall n | |WithinBudget(shorter, budget)| < n <= |entries| ensures Total(entries[..n]) > budget {
        if n < |entries| {
          assert shorter[..n] == entries[..n];
        } else {
          assert entries[..n] == entries;
        }
      }
    }
  }

  lemma PromoteKeeps(entries: seq<Entry>, i: nat)
    requires i < |entries| && DistinctPaths(entries)
    ensures DistinctPaths(Promote(entries, i)) && Total(Promote(entries, i)) == Total(entries)
    ensures forall e :: e in Promote(entries, i) <==> e in entries
  {
    hide *;
    PromoteKeepsDistinct(entries, i);
    PromoteKeepsTotal(entries, i);
    PromoteKeepsMembers(entries, i);
  }

  lemma PromoteKeepsMembers(entries: seq<Entry>, i: nat)
    requires i < |entries|
    ensures forall e :: e in Promote(entries, i) <==> e in entries
  {
    forall e ensures e in Promote(entries, i) <==> e in entries {
      assert entries == entries[..i] + [entries[i]] + entries[i + 1..];
    }
  }

  lemma PromoteKeepsTotal(entries: seq<Entry>, i: nat)
    requires i < |entries|
    ensures Total(Promote(entries, i)) == Total(entries)
  {
    hide Total;
    var before, e, after := entries[..i], [entries[i]], entries[i + 1..];
    assert entries == before + e + after;
    TotalConcat(before + e, after);
    TotalConcat(before, e);
    TotalConcat(e + before, after);
    TotalConcat(e, before);
  }

  lemma PromoteKeepsDistinct(entries: seq<Entry>, i: nat)
    requires i < |entries| && DistinctPaths(entries)
    ensures DistinctPaths(Promote(entries, i))
  {
    var p := Promote(entries, i);
    forall j, k | 0 <= j < k < |p| ensures p[j].path != p[k].path {
      var from, to := Source(i, j), Source(i, k);
      assert p[j] == entries[from] && p[k] == entries[to] && from != to;
    }
  }

  function Source(i: nat, j: nat): nat {
    if j == 0 then i else if j <= i then j - 1 else j
  }

  class FileContentCache {
    const disk: Disk
    var cache: seq<Entry>  // most recently used first
    var bytes: nat
    var peakBytes: nat
    var evictions: nat

    ghost predicate Valid()
      reads this
    {
      && bytes == Total(cache) && bytes <= peakBytes <= FILE_CACHE_BYTE_BUDGET
      && |cache| <= FILE_CACHE_CAPACITY && DistinctPaths(cache)
      && forall e | e in cache :: Mirrors(e.file, ReadText(disk, e.path))
    }

    constructor (disk: Disk)
      ensures Valid() && this.disk == disk && cache == [] && evictions == 0 && peakBytes == 0
    {
      this.disk := disk;
      cache, bytes, peakBytes, evictions := [], 0, 0, 0;
    }

    /** Drops the least recently used entry, if any. */
    method EvictLru()
      requires bytes == Total(cache)
      modifies this
      ensures bytes == Total(cache) && peakBytes == old(peakBytes)
      ensures old(cache) == [] ==> cache == [] && evictions == old(evictions)
      ensures old(cache) != [] ==> cache == old(cache)[..|old(cache)| - 1] && evictions == old(evictions) + 1
    {
      if cache != [] {
        bytes := bytes - Retained(cache[|cache| - 1]);
        cache := cache[..|cache| - 1];
        evictions := evictions + 1;
      }
    }

    method ReadFile(path: Path, slack: Slack) returns (file: Option<CachedFile>)
      ensures Mirrors(file, ReadText(disk, path))
      ensures Allocated(file, slack)
    {
      hide IsBinaryContent, ValidUtf8, Sanitize, ReadText, Mirrors, WithinText, Slices, Lines;
      ReadTextCases(disk, path);
      file := None;
      if path in disk {
        var content := disk[path];
        if !IsBinaryContent(content) && ValidUtf8(content) {
          var text := Sanitize(content);
          var lines := IndexLines(text);
          file := Some(CachedFile(text, lines, |text| + slack.text, |lines| + slack.lines));
        }
      }
      MirrorsCases(file, ReadText(disk, path));
    }

    /** Evicts until the budget is met. */
    method EvictToBudget()
      requires bytes == Total(cache)
      modifies this
      ensures cache == WithinBudget(old(cache), FILE_CACHE_BYTE_BUDGET) && bytes == Total(cache)
      ensures evictions == old(evictions) + |old(cache)| - |cache| && peakBytes == old(peakBytes)
    {
      while bytes > FILE_CACHE_BYTE_BUDGET
        invariant bytes == Total(cache) && peakBytes == old(peakBytes)
        invariant |cache| <= |old(cache)| && evictions == old(evictions) + |old(cache)| - |cache|
        invariant WithinBudget(cache, FILE_CACHE_BYTE_BUDGET) == WithinBudget(old(cache), FILE_CACHE_BYTE_BUDGET)
        decreases |cache|
      {
        EvictLru();
      }
    }

    /** The file at `path` through the cache; `loaded` is what was read on a miss. */
    method GetContent(path: Path, slack: Slack) returns (r: Option<CachedFile>, ghost loaded: Option<CachedFile>)
      requires Valid()
      modifies this
      ensures Valid()
      // the result is the sanitized text of the file, unless the file cannot fit the budget
      ensures r.Some? ==> Mirrors(r, ReadText(disk, path))
      ensures FitsAlone(disk, path, slack) ==> Mirrors(r, ReadText(disk, path))
      ensures old(IndexOf(cache, path) == |cache|) && !FitsAlone(disk, path, slack) ==> r == None
      // a hit only moves the entry to the front
      ensures old(IndexOf(cache, path) < |cache|) ==>
        && cache == Promote(old(cache), old(IndexOf(cache, path))) && |cache| == |old(cache)|
        && r == cache[0].file && evictions == old(evictions) && peakBytes == old(peakBytes)
      // a miss puts the file in front and evicts from the back exactly what the cap and the budget require
      ensures old(IndexOf(cache, path) == |cache|) ==>
        && Mirrors(loaded, ReadText(disk, path))
        && Allocated(loaded, slack)
        && cache == WithinBudget([Entry(path, loaded)] + RoomForOne(old(cache)), FILE_CACHE_BYTE_BUDGET)
        && |cache| + evictions == |old(cache)| + old(evictions) + 1
        && peakBytes == (if bytes > old(peakBytes) then bytes else old(peakBytes))
        && r == if Retained(Entry(path, loaded)) <= FILE_CACHE_BYTE_BUDGET then loaded else None
    {
      hide Mirrors, ReadText, Total, WithinBudget, Promote, DistinctPaths, Retained, FitsAlone, Allocated, AfterPut;
      loaded := None;
      if IndexOf(cache, path) == |cache| {
        loaded := Load(path, slack);
      }
      var i := IndexOf(cache, path);
      if i < |cache| {
        PromoteKeeps(cache, i);
        assert cache[i] in cache;
        r := cache[i].file;
        PromoteFirst(cache, i);
        cache := Promote(cache, i);
      } else {
        r := None;
      }
    }

    /** A miss: the file is read and put in front, and what is too much is evicted. */
    method Load(path: Path, slack: Slack) returns (file: Option<CachedFile>)
      requires Valid() && IndexOf(cache, path) == |cache|
      modifies this
      ensures Valid()
      ensures Mirrors(file, ReadText(disk, path)) && Allocated(file, slack)
      ensures cache == WithinBudget([Entry(path, file)] + RoomForOne(old(cache)), FILE_CACHE_BYTE_BUDGET)
      ensures |cache| + evictions == |old(cache)| + old(evictions) + 1
      ensures peakBytes == (if bytes > old(peakBytes) then bytes else old(peakBytes))
      ensures Retained(Entry(path, file)) <= FILE_CACHE_BYTE_BUDGET ==> cache != [] && cache[0] == Entry(path, file)
      ensures Retained(Entry(path, file)) > FILE_CACHE_BYTE_BUDGET ==> cache == []
      ensures FitsAlone(disk, path, slack) <==> Retained(Entry(path, file)) <= FILE_CACHE_BYTE_BUDGET
    {
      hide Mirrors, ReadText, Total, WithinBudget, Promote, DistinctPaths, Retained, FitsAlone, Allocated, AfterPut;
      file := ReadFile(path, slack);
      if |cache| == FILE_CACHE_CAPACITY {
        EvictLru();
      }
      PutIsCountedIff(cache, Entry(path, file));
      PutFront(path, file);
      EvictToBudget();
      peakBytes := if bytes > peakBytes then bytes else peakBytes;
      AfterMiss(disk, old(cache), path, file);
      FittingFileIsCached(disk, path, slack, file);
    }

    /** Counts the bytes of the new entry and of no entry that `put` drops. */
    method PutFront(path: Path, file: Option<CachedFile>)
      modifies this
      ensures cache == AfterPut(old(cache), Entry(path, file))
      ensures bytes == old(bytes) + Retained(Entry(path, file))
      ensures evictions == old(evictions) && peakBytes == old(peakBytes)
    {
      bytes := bytes + if file.Some? then file.value.RetainedBytes() else 0;
      var i := IndexOf(cache, path);
      if i < |cache| {
        cache := [Entry(path, file)] + cache[..i] + cache[i + 1..];
      } else {
        if |cache| == FILE_CACHE_CAPACITY {
          cache := cache[..|cache| - 1];
        }
        cache := [Entry(path, file)] + cache;
      }
    }
  }

  /** Putting a path the cache does not hold keeps the byte count exact unless the cache is full and its last
      entry retains bytes; below the capacity nothing is dropped. */
  lemma {:induction false} PutIsCountedIff(entries: seq<Entry>, e: Entry)
    requires IndexOf(entries, e.path) == |entries| <= FILE_CACHE_CAPACITY
    ensures Total(AfterPut(entries, e)) == Total(entries) + Retained(e)
        <==> |entries| < FILE_CACHE_CAPACITY || Retained(entries[|entries| - 1]) == 0
    ensures |entries| < FILE_CACHE_CAPACITY ==> AfterPut(entries, e) == [e] + entries
  {
    hide Retained;
    var kept := if |entries| == FILE_CACHE_CAPACITY then entries[..|entries| - 1] else entries;
    TotalConcat([e], kept);
    assert Total([e]) == Total([]) + Retained(e);
  }

  lemma ReadTextCases(disk: Disk, path: Path)
    ensures ReadText(disk, path) ==
      if path in disk && !IsBinaryContent(disk[path]) && ValidUtf8(disk[path]) then Some(Sanitize(disk[path])) else None
  {
  }

  lemma MirrorsCases(file: Option<CachedFile>, text: Option<Bytes>)
    ensures file.None? && text.None? ==> Mirrors(file, text)
    ensures (&& file.Some? && text.Some? && file.value.text == text.value
             && WithinText(file.value.text, file.value.lines)
             && Slices(file.value.text, file.value.lines) == Lines(file.value.text)) ==> Mirrors(file, text)
  {
  }

  lemma PromoteFirst(entries: seq<Entry>, i: nat)
    requires i < |entries|
    ensures Promote(entries, i)[0] == entries[i] && |Promote(entries, i)| == |entries|
    ensures i == 0 ==> Promote(entries, i) == entries
  {
  }

  /** After a miss: the new entry is in front if it fits alone, and the invariant holds. */
  lemma AfterMiss(disk: Disk, before: seq<Entry>, path: Path, file: Option<CachedFile>)
    requires DistinctPaths(before) && IndexOf(before, path) == |before| && |before| <= FILE_CACHE_CAPACITY
    requires forall e | e in before :: Mirrors(e.file, ReadText(disk, e.path))
    requires Mirrors(file, ReadText(disk, path))
    ensures var after := WithinBudget([Entry(path, file)] + RoomForOne(before), FILE_CACHE_BYTE_BUDGET);
            && |after| <= FILE_CACHE_CAPACITY && DistinctPaths(after) && Total(after) <= FILE_CACHE_BYTE_BUDGET
            && (forall e | e in after :: Mirrors(e.file, ReadText(disk, e.path)))
            && (Retained(Entry(path, file)) <= FILE_CACHE_BYTE_BUDGET ==> after != [] && after[0] == Entry(path, file))
            && (Retained(Entry(path, file)) > FILE_CACHE_BYTE_BUDGET ==> after == [])
  {
    hide Mirrors, ReadText, Total, WithinBudget, Retained, DistinctPaths;
    var e := Entry(path, file);
    var all := [e] + RoomForOne(before);
    var after := WithinBudget(all, FILE_CACHE_BYTE_BUDGET);
    WithinBudgetIsLongestPrefix(all, FILE_CACHE_BYTE_BUDGET);
    FirstFits(all, after, FILE_CACHE_BYTE_BUDGET);
    assert after <= [e] + before;
    FrontIsDistinct(before, e, after);
    forall x | x in after ensures Mirrors(x.file, ReadText(disk, x.path)) {
      var i :| 0 <= i < |after| && after[i] == x;
      assert x == ([e] + before)[i];
      assert i > 0 ==> x == before[i - 1] && x in before;
    }
  }

  lemma FrontIsDistinct(before: seq<Entry>, e: Entry, after: seq<Entry>)
    requires DistinctPaths(before) && IndexOf(before, e.path) == |before| && after <= [e] + before
    ensures DistinctPaths(after)
  {
    forall i | 0 <= i < |after| ensures after[i] == if i == 0 then e else before[i - 1] {
      assert after[i] == ([e] + before)[i];
    }
  }

  lemma FirstFits(all: seq<Entry>, kept: seq<Entry>, budget: nat)
    requires all != [] && kept <= all && Total(kept) <= budget
    requires forall n | |kept| < n <= |all| :: Total(all[..n]) > budget
    ensures kept == [] <==> Retained(all[0]) > budget
  {
    assert all[..1] == [all[0]];
    assert Total([all[0]]) == Total([]) + Retained(all[0]);
    if kept != [] {
      TotalOfPrefix(kept, 1);
      assert kept[..1] == [all[0]];
    } else {
      assert Total(all[..1]) > budget;
    }
  }

  // ------------------------------------------------------------------
  // Extraction
  // ------------------------------------------------------------------

  /** The fields of a graph node that extraction reads; the path is already joined to the root. */
  datatype SourceNode = SourceNode(kind: NodeLabel, path: Path, startLine: Option<nat>, endLine: Option<nat>)

  function StartLine(node: SourceNode): nat {
    if node.startLine.Some? && node.startLine.value > 1 then node.startLine.value else 1
  }

  function SelectedLines(node: SourceNode, lines: seq<Bytes>): seq<Bytes> {
    var end := if node.endLine.Some? && node.endLine.value < |lines| then node.endLine.value else |lines|;
    if StartLine(node) - 1 >= end then [] else lines[StartLine(node) - 1..end]
  }

  /** A node's content read straight from the disk, with no cache and no early exit. */
  function DirectContent(disk: Disk, node: SourceNode): Bytes {
    if node.kind.Folder? then []
    else match ReadText(disk, node.path)
      case None => []
      case Some(text) =>
        if node.kind.File? then Truncated(text, FILE_CONTENT_MAX)
        else Truncated(JoinLines(SelectedLines(node, Lines(text))), SYMBOL_CONTENT_MAX)
  }

  /** The file, loaded with this slack, would fit the byte budget on its own. */
  predicate FitsAlone(disk: Disk, path: Path, slack: Slack) {
    var text := ReadText(disk, path);
    text.Some? ==>
      |text.value| + slack.text + (|Lines(text.value)| + slack.lines) * SPAN_BYTES <= FILE_CACHE_BYTE_BUDGET
  }

  lemma FittingFileIsCached(disk: Disk, path: Path, slack: Slack, file: Option<CachedFile>)
    requires Mirrors(file, ReadText(disk, path)) && Allocated(file, slack)
    ensures Retained(Entry(path, file)) <= FILE_CACHE_BYTE_BUDGET <==> FitsAlone(disk, path, slack)
  {
    hide ReadText, Lines, WithinText;
  }

  method ExtractFrom(node: SourceNode, cached: CachedFile) returns (content: Bytes)
    requires !node.kind.Folder? && Mirrors(Some(cached), Some(cached.text))
    ensures content == if node.kind.File? then Truncated(cached.text, FILE_CONTENT_MAX)
                       else Truncated(JoinLines(SelectedLines(node, Lines(cached.text))), SYMBOL_CONTENT_MAX)
  {
    hide Truncated, JoinLines, Lines, Slices;
    if node.kind.File? {
      content := TruncateContent(cached.text, FILE_CONTENT_MAX);
      return;
    }
    TruncatedNothing(SYMBOL_CONTENT_MAX);
    IndexLength(cached);
    var start := StartLine(node);
    if start > |cached.lines| {
      return [];
    }
    var sliceStart := start - 1;
    var sliceEnd := if node.endLine.Some? && node.endLine.value < |cached.lines| then node.endLine.value else |cached.lines|;
    if sliceStart >= sliceEnd {
      return [];
    }
    SlicesOfRange(cached.text, cached.lines, sliceStart, sliceEnd);
    content := JoinUpTo(cached.text, cached.lines[sliceStart..sliceEnd], SYMBOL_CONTENT_MAX);
  }

  lemma TruncatedNothing(maxLen: nat)
    ensures Truncated(JoinLines([]), maxLen) == []
  {
  }

  lemma IndexLength(cached: CachedFile)
    requires Mirrors(Some(cached), Some(cached.text))
    ensures WithinText(cached.text, cached.lines) && Slices(cached.text, cached.lines) == Lines(cached.text)
    ensures |Lines(cached.text)| == |cached.lines|
  {
    assert |Slices(cached.text, cached.lines)| == |cached.lines|;
  }

  lemma SlicesOfRange(text: Bytes, spans: seq<Span>, from: nat, end: nat)
    requires WithinText(text, spans) && from <= end <= |spans|
    ensures WithinText(text, spans[from..end])
    ensures |Slices(text, spans)| == |spans|
    ensures Slices(text, spans[from..end]) == Slices(text, spans)[from..end]
  {
  }

  /** A node's content through the cache is its content straight from the disk,
      as soon as its file fits the budget alone. */
  method ExtractNodeContent(node: SourceNode, cache: FileContentCache, slack: Slack) returns (content: Bytes)
    requires cache.Valid()
    modifies cache
    ensures cache.Valid()
    ensures node.kind.Folder? ==> unchanged(cache)
    ensures FitsAlone(cache.disk, node.path, slack) ==> content == DirectContent(cache.disk, node)
    ensures content == [] || content == DirectContent(cache.disk, node)
    ensures old(IndexOf(cache.cache, node.path) == |cache.cache|) && !FitsAlone(cache.disk, node.path, slack)
            ==> content == []
    ensures |cache.cache| + cache.evictions ==
      old(|cache.cache| + cache.evictions) +
      if node.kind.Folder? || old(IndexOf(cache.cache, node.path) < |cache.cache|) then 0 else 1
  {
    hide DirectContent, FitsAlone, ReadText, IndexOf, Retained, Allocated, Lines, Slices, WithinText, Truncated,
      JoinLines, Promote;
    DirectCases(cache.disk, node);
    if node.kind.Folder? {
      return [];
    }
    var cached, loaded := cache.GetContent(node.path, slack);
    if cached.None? {
      return [];
    }
    content := ExtractFrom(node, cached.value);
  }

  lemma DirectCases(disk: Disk, node: SourceNode)
    ensures node.kind.Folder? ==> DirectContent(disk, node) == []
    ensures ReadText(disk, node.path).None? ==> DirectContent(disk, node) == []
    ensures !node.kind.Folder? && ReadText(disk, node.path).Some? ==>
      DirectContent(disk, node) ==
      (if node.kind.File? then Truncated(ReadText(disk, node.path).value, FILE_CONTENT_MAX)
       else Truncated(JoinLines(SelectedLines(node, Lines(ReadText(disk, node.path).value))), SYMBOL_CONTENT_MAX))
  {
  }

  /** Every row of a run: whatever the order of the nodes and the evictions they
      cause, each content is the one read straight from the disk; loads are all
      accounted for as entries still held or evicted. */
  method ExtractAll(nodes: seq<SourceNode>, slacks: seq<Slack>, disk: Disk)
    returns (contents: seq<Bytes>, cache: FileContentCache, ghost loads: nat)
    requires |slacks| == |nodes|
    requires forall i | 0 <= i < |nodes| :: FitsAlone(disk, nodes[i].path, slacks[i])
    ensures |contents| == |nodes| && forall i | 0 <= i < |nodes| :: contents[i] == DirectContent(disk, nodes[i])
    ensures cache.Valid() && loads == |cache.cache| + cache.evictions && loads <= |nodes|
  {
    hide DirectContent, FitsAlone, ReadText, IndexOf, Mirrors, Total, DistinctPaths;
    cache := new FileContentCache(disk);
    contents, loads := [], 0;
    for i := 0 to |nodes|
      invariant fresh(cache) && cache.Valid() && cache.disk == disk
      invariant |contents| == i && forall k | 0 <= k < i :: contents[k] == DirectContent(disk, nodes[k])
      invariant loads == |cache.cache| + cache.evictions && loads <= i
    {
      if !nodes[i].kind.Folder? && IndexOf(cache.cache, nodes[i].path) == |cache.cache| {
        loads := loads + 1;
      }
      var content := ExtractNodeContent(nodes[i], cache, slacks[i]);
      contents := contents + [content];
    }
  }
}
