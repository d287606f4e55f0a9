/** File manifests: what changed between two scans of a repository.

    A diff holds one change for each path that is new, gone, or whose hash or size differs, and no
    other, sorted by path. */
module Manifests {
  import opened Options
  import opened Sorting

  /** Hash, size and modification time of one file. */
  datatype FileDigest = FileDigest(hash: string, size: nat, modified: nat)

  type FileManifest = map<string, FileDigest>

  datatype FileChange = Added(path: string) | Modified(path: string) | Removed(path: string)

  function DigestAt(m: FileManifest, path: string): Option<FileDigest> {
    if path in m then Some(m[path]) else None
  }

  /** Equal up to the modification time. */
  predicate SameFile(a: Option<FileDigest>, b: Option<FileDigest>) {
    a.Some? && b.Some? && a.value.hash == b.value.hash && a.value.size == b.value.size
  }

  /** What happened to `path` between the two manifests, if anything. */
  function ChangeOf(before: FileManifest, after: FileManifest, path: string): Option<FileChange> {
    if path in after then
      if path !in before then Some(Added(path))
      else if SameFile(DigestAt(before, path), DigestAt(after, path)) then None
      else Some(Modified(path))
    else if path in before then Some(Removed(path))
    else None
  }

  predicate ByPath(a: FileChange, b: FileChange) {
    StringLe(a.path, b.path)
  }

  lemma ByPathOrders()
    ensures TotalPreorder(ByPath)
  {
    StringLeOrders();
    hide StringLe;
    forall a, b ensures ByPath(a, b) || ByPath(b, a) {
      assert StringLe(a.path, b.path) || StringLe(b.path, a.path);
    }
    forall a, b, c | ByPath(a, b) && ByPath(b, c) ensures ByPath(a, c) {
      assert StringLe(a.path, b.path) && StringLe(b.path, c.path);
    }
  }

  /** The changes found among the paths looked at so far. */
  ghost predicate FoundChanges(before: FileManifest, after: FileManifest, seen: set<string>, changes: seq<FileChange>) {
    && NoDuplicates(changes)
    && forall c :: c in changes <==> c.path in seen && ChangeOf(before, after, c.path) == Some(c)
  }

  lemma FoundOneMore(before: FileManifest, after: FileManifest, seen: set<string>, changes: seq<FileChange>, path: string)
    requires FoundChanges(before, after, seen, changes) && path !in seen
    ensures var change := ChangeOf(before, after, path);
            FoundChanges(before, after, seen + {path}, if change.Some? then changes + [change.value] else changes)
  {
    hide NoDuplicates;
    var change := ChangeOf(before, after, path);
    if change.Some? {
      NoDuplicatesAppend(changes, [change.value]);
    }
  }

  method DiffManifests(before: FileManifest, after: FileManifest) returns (changes: seq<FileChange>)
    ensures NoDuplicates(changes) && SortedBy(changes, ByPath)
    ensures forall c :: c in changes <==> ChangeOf(before, after, c.path) == Some(c)
  {
    hide NoDuplicates, SortedBy, SortBy, ByPath, StringLe, FoundChanges, ChangeOf;
    changes := [];
    var rest := after.Keys;
    ghost var seen: set<string> := {};
    NoChangesYet(before, after);
    while rest != {}
      invariant seen + rest == after.Keys && seen !! rest
      invariant FoundChanges(before, after, seen, changes)
      decreases rest
    {
      var path :| path in rest;
      FoundOneMore(before, after, seen, changes, path);
      ChangeCases(before, after, path);
      if path !in before {
        changes := changes + [Added(path)];
      } else if before[path].hash != after[path].hash || before[path].size != after[path].size {
        changes := changes + [Modified(path)];
      }
      rest, seen := rest - {path}, seen + {path};
    }
    var gone := before.Keys;
    ghost var looked: set<string> := {};
    assert seen == after.Keys + looked;
    while gone != {}
      invariant looked + gone == before.Keys && looked !! gone
      invariant seen == after.Keys + looked && FoundChanges(before, after, seen, changes)
      decreases gone
    {
      var path :| path in gone;
      ChangeCases(before, after, path);
      if path !in after {
        FoundOneMore(before, after, seen, changes, path);
        changes := changes + [Removed(path)];
      } else {
        assert seen + {path} == seen;
      }
      gone, looked, seen := gone - {path}, looked + {path}, seen + {path};
    }
    AllChangesFound(before, after, seen, changes);
    ByPathOrders();
    SortBySorts(changes, ByPath);
    SortByKeepsMembers(changes, ByPath);
    SortByKeepsNoDuplicates(changes, ByPath);
    changes := SortBy(changes, ByPath);
  }

  lemma NoChangesYet(before: FileManifest, after: FileManifest)
    ensures FoundChanges(before, after, {}, [])
  {
  }

  lemma ChangeCases(before: FileManifest, after: FileManifest, path: string)
    ensures path in after && path !in before ==> ChangeOf(before, after, path) == Some(Added(path))
    ensures path in after && path in before ==>
      ChangeOf(before, after, path) ==
        if before[path].hash != after[path].hash || before[path].size != after[path].size then Some(Modified(path)) else None
    ensures path !in after && path in before ==> ChangeOf(before, after, path) == Some(Removed(path))
    ensures path !in after && path !in before ==> ChangeOf(before, after, path) == None
    ensures ChangeOf(before, after, path).Some? ==> ChangeOf(before, after, path).value.path == path
  {
  }

  lemma AllChangesFound(before: FileManifest, after: FileManifest, seen: set<string>, changes: seq<FileChange>)
    requires FoundChanges(before, after, seen, changes) && seen == after.Keys + before.Keys
    ensures NoDuplicates(changes)
    ensures forall c :: c in changes <==> ChangeOf(before, after, c.path) == Some(c)
  {
  }

  /** No change between two manifests means the same paths with the same hashes and sizes. */
  lemma NoChangeMeansSame(before: FileManifest, after: FileManifest)
    ensures (forall path :: ChangeOf(before, after, path) == None)
      <==> before.Keys == after.Keys
           && forall path | path in after :: SameFile(DigestAt(before, path), DigestAt(after, path))
  {
    hide SameFile;
    if forall path :: ChangeOf(before, after, path) == None {
      forall path ensures path in before <==> path in after {
        assert ChangeOf(before, after, path) == None;
      }
      forall path | path in after ensures SameFile(DigestAt(before, path), DigestAt(after, path)) {
        assert ChangeOf(before, after, path) == None;
      }
    }
  }
}
