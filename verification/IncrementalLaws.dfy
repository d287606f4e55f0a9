/** What the incremental update is for: reaching the full index, and surviving a crash. */
module IncrementalLaws {
  import opened GraphTypes
  import opened Incremental
  import opened KnowledgeGraphStore
  import opened Manifests
  import opened Options

  // ------------------------------------------------------------------
  // File by file
  // ------------------------------------------------------------------

  /** For the files both trees hold, equal digests mean equal content. */
  ghost predicate DigestsTell(ix: Indexer, oldTree: Tree, newTree: Tree) {
    && (forall p | p in oldTree.code && p in newTree.code
                   && ix.hash(oldTree.code[p].content) == ix.hash(newTree.code[p].content) ::
          oldTree.code[p].content == newTree.code[p].content)
    && (forall p | p in oldTree.documents && p in newTree.documents
                   && oldTree.documents[p].bytes.Some? && newTree.documents[p].bytes.Some?
                   && ix.hash(oldTree.documents[p].bytes.value) == ix.hash(newTree.documents[p].bytes.value) ::
          oldTree.documents[p].bytes == newTree.documents[p].bytes)
  }

  /** A file without a change gives the same nodes in both trees. */
  lemma SameDigestSameNodes(ix: Indexer, oldTree: Tree, newTree: Tree,
                            oldManifest: FileManifest, newManifest: FileManifest, p: string)
    requires DigestsTell(ix, oldTree, newTree) && KindsOk(ix, oldTree) && KindsOk(ix, newTree)
    requires IsManifestOf(ix, oldTree, oldManifest) && IsManifestOf(ix, newTree, newManifest)
    ensures ChangeOf(oldManifest, newManifest, p) == None ==> Emitted(ix, newTree, p) == Emitted(ix, oldTree, p)
    ensures p !in oldManifest ==> Emitted(ix, oldTree, p) == map[]
    ensures p !in newManifest ==> Emitted(ix, newTree, p) == map[]
    ensures p in newManifest ==> p in FilesOf(newTree)
    ensures p in oldManifest ==> p in FilesOf(oldTree)
  {
    assert DigestAt(oldManifest, p) == DigestOf(ix, oldTree, p);
    assert DigestAt(newManifest, p) == DigestOf(ix, newTree, p);
  }

  /** The nodes a graph holds for path `p`; folders belong to no file. */
  function FileNodes(nodes: Nodes, p: string): Nodes {
    map id | id in nodes && nodes[id].filePath == p && !nodes[id].kind.Folder? :: nodes[id]
  }

  lemma FileNodesOfPlain(nodes: Nodes, p: string)
    ensures FileNodes(Plain(nodes), p) == FileNodes(nodes, p)
  {
  }

  lemma EmittedOk(ix: Indexer, tree: Tree, p: string, id: Id)
    requires TreeOk(ix, tree) && id in Emitted(ix, tree, p)
    ensures NodeOk(ix, p, id, Emitted(ix, tree, p)[id]) && p in FilesOf(tree)
  {
    hide NodeOk;
  }

  lemma OwnNode(ix: Indexer, tree: Tree, paths: set<string>, p: string, id: Id)
    requires TreeOk(ix, tree) && !ix.isVirtual(p)
    requires id in EmittedBy(ix, tree, paths) && EmittedBy(ix, tree, paths)[id].filePath == p
    ensures p in paths && id in Emitted(ix, tree, p) && EmittedBy(ix, tree, paths)[id] == Emitted(ix, tree, p)[id]
  {
    hide TreeOk, Emitted, EmittedBy, IsFolderId;
    var q := EmittedFrom(ix, tree, paths, id);
    EmittedOk(ix, tree, q, id);
  }

  /** Of the nodes that several files give, those of a real path come from the file of that path. */
  lemma OwnNodes(ix: Indexer, tree: Tree, paths: set<string>, p: string)
    requires TreeOk(ix, tree) && !ix.isVirtual(p)
    ensures FileNodes(EmittedBy(ix, tree, paths), p) == if p in paths then FileNodes(Emitted(ix, tree, p), p) else map[]
  {
    var all := EmittedBy(ix, tree, paths);
    assert Agree(ix, tree);
    hide TreeOk, Agree, Emitted, EmittedBy;
    forall id | id in FileNodes(all, p)
      ensures p in paths && id in Emitted(ix, tree, p) && all[id] == Emitted(ix, tree, p)[id]
    {
      OwnNode(ix, tree, paths, p, id);
    }
    forall id | p in paths && id in Emitted(ix, tree, p) ensures id in all && all[id] == Emitted(ix, tree, p)[id] {
      EmittedIsIn(ix, tree, paths, p, id);
    }
  }

  /** Path `p` in a full index. */
  lemma OwnInFull(ix: Indexer, tree: Tree, p: string)
    requires TreeOk(ix, tree) && !ix.isVirtual(p)
    ensures FileNodes(FullIndex(ix, tree), p) == FileNodes(Emitted(ix, tree, p), p)
    ensures forall id | id in FileNodes(FullIndex(ix, tree), p) :: ix.ownerOf(id) == p
  {
    OwnNodes(ix, tree, FilesOf(tree), p);
    assert p !in FilesOf(tree) ==> Emitted(ix, tree, p) == map[];
    hide TreeOk, Emitted, EmittedBy, IsFolderId;
    forall id | id in FileNodes(Emitted(ix, tree, p), p) ensures ix.ownerOf(id) == p {
      EmittedOk(ix, tree, p, id);
    }
  }

  lemma FileNodesOfSum(kept: Nodes, given: Nodes, p: string)
    requires forall id | id in FileNodes(kept, p) && id in given :: given[id].filePath == p
    requires forall id | id in given :: !given[id].kind.Folder?
    ensures FileNodes(kept + given, p) == FileNodes(kept, p) + FileNodes(given, p)
  {
  }

  lemma FileNodesWithout(nodes: Nodes, gone: set<string>, p: string)
    ensures FileNodes(WithoutFiles(Plain(nodes), gone), p) == if p in gone then map[] else FileNodes(nodes, p)
  {
  }

  /** What an update makes of the nodes of one real path. */
  lemma FileAfter(ix: Indexer, tree: Tree, before: Nodes, oldManifest: FileManifest, newManifest: FileManifest,
                  after: Nodes, p: string)
    requires TreeOk(ix, tree) && !ix.isVirtual(p) && UpdatedTo(ix, tree, before, oldManifest, newManifest, after)
    requires forall id | id in FileNodes(before, p) :: ix.ownerOf(id) == p
    ensures FileNodes(after, p)
         == (if p in Dropped(oldManifest, newManifest) then map[] else FileNodes(before, p))
            + (if p in Reindexed(tree, oldManifest, newManifest) then FileNodes(Emitted(ix, tree, p), p) else map[])
  {
    var gone, files := Dropped(oldManifest, newManifest), Reindexed(tree, oldManifest, newManifest);
    var kept, given := WithoutFiles(Plain(before), gone), EmittedBy(ix, tree, files);
    hide TreeOk, Emitted, EmittedBy, Dropped, Reindexed, UpdatedTo, Plain, WithoutFiles, FileNodes, IsFolderId;
    UpdatedIs(ix, tree, before, oldManifest, newManifest, after);
    FileNodesWithout(before, gone, p);
    FileNodesOfPlain(after, p);
    OwnNodes(ix, tree, files, p);
    forall id | id in given
      ensures !given[id].kind.Folder? && (ix.ownerOf(id) == p ==> given[id].filePath == p)
    {
      var q := EmittedFrom(ix, tree, files, id);
      EmittedOk(ix, tree, q, id);
    }
    assert forall id | id in FileNodes(kept, p) :: id in FileNodes(before, p);
    FileNodesOfSum(kept, given, p);
  }

  lemma UpdatedIs(ix: Indexer, tree: Tree, before: Nodes, oldManifest: FileManifest, newManifest: FileManifest,
                  after: Nodes)
    requires UpdatedTo(ix, tree, before, oldManifest, newManifest, after)
    ensures Plain(after) == WithoutFiles(Plain(before), Dropped(oldManifest, newManifest))
                            + EmittedBy(ix, tree, Reindexed(tree, oldManifest, newManifest))
  {
  }

  /** The graph holds for path `p` what a full index of the tree holds for it. */
  ghost predicate MatchesAt(ix: Indexer, tree: Tree, nodes: Nodes, p: string) {
    FileNodes(nodes, p) == FileNodes(FullIndex(ix, tree), p)
  }

  lemma ChangedPlaces(tree: Tree, oldManifest: FileManifest, newManifest: FileManifest, p: string)
    requires p in newManifest ==> p in FilesOf(tree)
    ensures p in Dropped(oldManifest, newManifest) <==> p in oldManifest && ChangeOf(oldManifest, newManifest, p).Some?
    ensures p in Reindexed(tree, oldManifest, newManifest)
       <==> p in newManifest && ChangeOf(oldManifest, newManifest, p).Some?
    ensures ChangeOf(oldManifest, newManifest, p) == None ==> (p in oldManifest <==> p in newManifest)
    ensures p in oldManifest && p !in newManifest ==> ChangeOf(oldManifest, newManifest, p).Some?
    ensures p !in oldManifest && p in newManifest ==> ChangeOf(oldManifest, newManifest, p).Some?
  {
  }

  lemma NoFileNodes(p: string)
    ensures FileNodes(map[], p) == map[]
  {
  }

  /** From a graph that matches the last indexed tree at a real path, the update reaches what
      indexing the new tree from scratch gives there: for every path of either tree, in particular. */
  lemma IncrementalIsFull(ix: Indexer, oldTree: Tree, newTree: Tree, oldManifest: FileManifest, newManifest: FileManifest,
                          before: Nodes, after: Nodes, p: string)
    requires TreeOk(ix, oldTree) && TreeOk(ix, newTree) && DigestsTell(ix, oldTree, newTree)
    requires IsManifestOf(ix, oldTree, oldManifest) && IsManifestOf(ix, newTree, newManifest)
    requires !ix.isVirtual(p) && MatchesAt(ix, oldTree, before, p)
    requires UpdatedTo(ix, newTree, before, oldManifest, newManifest, after)
    ensures MatchesAt(ix, newTree, after, p)
  {
    SameDigestSameNodes(ix, oldTree, newTree, oldManifest, newManifest, p);
    hide TreeOk, DigestsTell, IsManifestOf, FullIndex, Emitted, UpdatedTo, FilesOf, ChangeOf, FileNodes, Dropped,
      Reindexed;
    OwnInFull(ix, oldTree, p);
    OwnInFull(ix, newTree, p);
    FileAfter(ix, newTree, before, oldManifest, newManifest, after, p);
    ChangedPlaces(newTree, oldManifest, newManifest, p);
    NoFileNodes(p);
    PlusNothing(FileNodes(Emitted(ix, newTree, p), p));
    PlusNothing(map[]);
  }

  /** A graph that already matches the new tree at a real path keeps matching it, whatever the old manifest. */
  lemma UpdateKeepsMatch(ix: Indexer, newTree: Tree, oldManifest: FileManifest, newManifest: FileManifest,
                         before: Nodes, after: Nodes, p: string)
    requires TreeOk(ix, newTree) && IsManifestOf(ix, newTree, newManifest)
    requires !ix.isVirtual(p) && MatchesAt(ix, newTree, before, p)
    requires UpdatedTo(ix, newTree, before, oldManifest, newManifest, after)
    ensures MatchesAt(ix, newTree, after, p)
  {
    assert p !in newManifest ==> Emitted(ix, newTree, p) == map[] by {
      assert DigestAt(newManifest, p) == DigestOf(ix, newTree, p);
    }
    assert p in newManifest ==> p in FilesOf(newTree) by {
      assert DigestAt(newManifest, p) == DigestOf(ix, newTree, p);
    }
    hide TreeOk, IsManifestOf, FullIndex, Emitted, UpdatedTo, FilesOf, ChangeOf, FileNodes, Dropped, Reindexed;
    OwnInFull(ix, newTree, p);
    FileAfter(ix, newTree, before, oldManifest, newManifest, after, p);
    ChangedPlaces(newTree, oldManifest, newManifest, p);
    NoFileNodes(p);
    PlusNothing(FileNodes(Emitted(ix, newTree, p), p));
    PlusNothing(map[]);
    NodesOverThemselves(FileNodes(Emitted(ix, newTree, p), p));
  }

  lemma NodesOverThemselves(nodes: Nodes)
    ensures nodes + nodes == nodes
  {
  }

  // ------------------------------------------------------------------
  // The whole graph
  // ------------------------------------------------------------------

  /** Every node that a changed file gave under another path is in the new full index. */
  ghost predicate NothingStale(ix: Indexer, oldTree: Tree, newTree: Tree,
                               oldManifest: FileManifest, newManifest: FileManifest) {
    forall p, id | p in Dropped(oldManifest, newManifest) && id in Emitted(ix, oldTree, p)
                   && Emitted(ix, oldTree, p)[id].filePath != p ::
      id in FullIndex(ix, newTree)
  }

  /** A node of the new full index is in the updated graph, the same. */
  lemma FullIsThere(ix: Indexer, oldTree: Tree, newTree: Tree, oldManifest: FileManifest, newManifest: FileManifest,
                    before: Nodes, after: Nodes, id: Id)
    requires TreeOk(ix, oldTree) && TreeOk(ix, newTree) && DigestsTell(ix, oldTree, newTree)
    requires IsManifestOf(ix, oldTree, oldManifest) && IsManifestOf(ix, newTree, newManifest)
    requires Plain(before) == FullIndex(ix, oldTree)
    requires UpdatedTo(ix, newTree, before, oldManifest, newManifest, after)
    requires id in FullIndex(ix, newTree)
    ensures id in Plain(after) && Plain(after)[id] == FullIndex(ix, newTree)[id]
  {
    assert Agree(ix, oldTree) && Agree(ix, newTree);
    var files := Reindexed(newTree, oldManifest, newManifest);
    var q := EmittedFrom(ix, newTree, FilesOf(newTree), id);
    SameDigestSameNodes(ix, oldTree, newTree, oldManifest, newManifest, q);
    hide DigestsTell, IsManifestOf, Agree, Emitted, EmittedBy, IsFolderId, ChangeOf, Plain;
    EmittedOk(ix, newTree, q, id);
    if id in EmittedBy(ix, newTree, files) {
      var r := EmittedFrom(ix, newTree, files, id);
      EmittedIsIn(ix, newTree, FilesOf(newTree), r, id);
    } else {
      if q in files { EmittedIsIn(ix, newTree, files, q, id); }
      assert ChangeOf(oldManifest, newManifest, q) == None;
      EmittedIsIn(ix, oldTree, FilesOf(oldTree), q, id);
      DroppedAreReal(ix, oldTree, oldManifest, newManifest, FullIndex(ix, newTree)[id].filePath);
    }
  }

  lemma DroppedAreReal(ix: Indexer, oldTree: Tree, oldManifest: FileManifest, newManifest: FileManifest, path: string)
    requires TreeOk(ix, oldTree) && IsManifestOf(ix, oldTree, oldManifest)
    ensures path in Dropped(oldManifest, newManifest) ==> path in FilesOf(oldTree) && !ix.isVirtual(path)
  {
    hide ChangeOf, NodesOk, Agree, DocumentsTell;
    assert DigestAt(oldManifest, path) == DigestOf(ix, oldTree, path);
  }

  /** A node of the updated graph that the new full index lacks was given by a changed file, under another path. */
  lemma OthersAreStale(ix: Indexer, oldTree: Tree, newTree: Tree, oldManifest: FileManifest, newManifest: FileManifest,
                       before: Nodes, after: Nodes, id: Id) returns (p: string)
    requires TreeOk(ix, oldTree) && TreeOk(ix, newTree) && DigestsTell(ix, oldTree, newTree)
    requires IsManifestOf(ix, oldTree, oldManifest) && IsManifestOf(ix, newTree, newManifest)
    requires Plain(before) == FullIndex(ix, oldTree)
    requires UpdatedTo(ix, newTree, before, oldManifest, newManifest, after)
    requires id in Plain(after) && id !in FullIndex(ix, newTree)
    ensures p in Dropped(oldManifest, newManifest) && id in Emitted(ix, oldTree, p)
    ensures Emitted(ix, oldTree, p)[id].filePath != p
  {
    assert Agree(ix, newTree);
    var files := Reindexed(newTree, oldManifest, newManifest);
    hide Plain, EmittedBy, Emitted, Agree, IsFolderId, ChangeOf, DigestsTell, IsManifestOf;
    if id in EmittedBy(ix, newTree, files) {
      var r := EmittedFrom(ix, newTree, files, id);
      EmittedIsIn(ix, newTree, FilesOf(newTree), r, id);
    }
    p := EmittedFrom(ix, oldTree, FilesOf(oldTree), id);
    SameDigestSameNodes(ix, oldTree, newTree, oldManifest, newManifest, p);
    if ChangeOf(oldManifest, newManifest, p) == None {
      EmittedOk(ix, newTree, p, id);
      EmittedIsIn(ix, newTree, FilesOf(newTree), p, id);
    }
  }

  /** A node that a changed file gave under another path stays. */
  lemma StaleStays(ix: Indexer, oldTree: Tree, newTree: Tree, oldManifest: FileManifest, newManifest: FileManifest,
                   before: Nodes, after: Nodes, p: string, id: Id)
    requires TreeOk(ix, oldTree) && IsManifestOf(ix, oldTree, oldManifest)
    requires Plain(before) == FullIndex(ix, oldTree)
    requires UpdatedTo(ix, newTree, before, oldManifest, newManifest, after)
    requires p in Dropped(oldManifest, newManifest) && id in Emitted(ix, oldTree, p)
    requires Emitted(ix, oldTree, p)[id].filePath != p
    ensures id in Plain(after)
  {
    assert Agree(ix, oldTree);
    hide EmittedBy, Emitted, Agree, IsFolderId, ChangeOf, Plain, IsManifestOf;
    EmittedOk(ix, oldTree, p, id);
    EmittedIsIn(ix, oldTree, FilesOf(oldTree), p, id);
    DroppedAreReal(ix, oldTree, oldManifest, newManifest, FullIndex(ix, oldTree)[id].filePath);
  }

  /** Folders apart, the whole graph becomes the full index exactly when nothing is stale: every node that
      a changed file gave under another path, as a Razor page gives those of its scripts and
      libraries, is in the new full index. */
  lemma WholeIsFullIff(ix: Indexer, oldTree: Tree, newTree: Tree, oldManifest: FileManifest, newManifest: FileManifest,
                       before: Nodes, after: Nodes)
    requires TreeOk(ix, oldTree) && TreeOk(ix, newTree) && DigestsTell(ix, oldTree, newTree)
    requires IsManifestOf(ix, oldTree, oldManifest) && IsManifestOf(ix, newTree, newManifest)
    requires Plain(before) == FullIndex(ix, oldTree)
    requires UpdatedTo(ix, newTree, before, oldManifest, newManifest, after)
    ensures Plain(after) == FullIndex(ix, newTree)
       <==> NothingStale(ix, oldTree, newTree, oldManifest, newManifest)
  {
    hide TreeOk, DigestsTell, IsManifestOf, Plain, FullIndex, UpdatedTo, Emitted, Dropped;
    var full := FullIndex(ix, newTree);
    if NothingStale(ix, oldTree, newTree, oldManifest, newManifest) {
      forall id | id in full ensures id in Plain(after) && Plain(after)[id] == full[id] {
        FullIsThere(ix, oldTree, newTree, oldManifest, newManifest, before, after, id);
      }
      forall id | id in Plain(after) ensures id in full {
        if id !in full {
          var p := OthersAreStale(ix, oldTree, newTree, oldManifest, newManifest, before, after, id);
        }
      }
    }
    if Plain(after) == full {
      forall p, id | p in Dropped(oldManifest, newManifest) && id in Emitted(ix, oldTree, p)
                     && Emitted(ix, oldTree, p)[id].filePath != p
        ensures id in full
      {
        StaleStays(ix, oldTree, newTree, oldManifest, newManifest, before, after, p, id);
      }
    }
  }

  // ------------------------------------------------------------------
  // A Razor page with a script
  // ------------------------------------------------------------------

  const PAGE := "Index.cshtml"
  const SCRIPT := "<script>function f(){}</script>"
  const SCRIPT_PATH := "Index.cshtml#script-0"
  const PAGE_NODE := GraphNode("File:Index.cshtml", File, "Index.cshtml", PAGE, None)
  const SCRIPT_NODE :=
    GraphNode("Function:Index.cshtml#script-0:f", OtherLabel("Function"), "f", SCRIPT_PATH, None)

  /** What indexing the page gives, with its script and without. */
  function PageNodes(path: string, content: string): Nodes {
    if path != PAGE then map[]
    else if content == SCRIPT then map[PAGE_NODE.id := PAGE_NODE, SCRIPT_NODE.id := SCRIPT_NODE]
    else map[PAGE_NODE.id := PAGE_NODE]
  }

  function NoNodes(path: string, content: string): Nodes {
    map[]
  }

  function Itself(text: string): string {
    text
  }

  function Decoded(bytes: string): Option<string> {
    Some(bytes)
  }

  const RazorIndexer := Indexer(Itself, Decoded, PageNodes, NoNodes,
    (id: string) => if id == SCRIPT_NODE.id then SCRIPT_PATH else PAGE,
    (path: string) => false, (path: string) => path == SCRIPT_PATH)

  const WithScript := Tree(map[PAGE := CodeFile(SCRIPT, 31)], map[])

  /** The page edited to drop its script, or deleted. */
  function WithoutScript(edited: bool): Tree {
    Tree(if edited then map[PAGE := CodeFile("", 0)] else map[], map[])
  }

  lemma ScriptIdDiffers()
    ensures PAGE_NODE.id != SCRIPT_NODE.id && PAGE != SCRIPT_PATH && SCRIPT != ""
    ensures !IsFolderId(PAGE_NODE.id) && !IsFolderId(SCRIPT_NODE.id)
  {
    assert |PAGE_NODE.id| == 17 && |SCRIPT_NODE.id| == 32;
    assert PAGE_NODE.id[1] == 'i' && SCRIPT_NODE.id[1] == 'u' && "Folder:"[1] == 'o';
  }

  lemma RazorTreeOk(tree: Tree)
    requires tree == WithScript || tree == WithoutScript(true) || tree == WithoutScript(false)
    ensures TreeOk(RazorIndexer, tree)
  {
    ScriptIdDiffers();
    hide IsFolderId;
    forall p, id | id in Emitted(RazorIndexer, tree, p)
      ensures p == PAGE && Emitted(RazorIndexer, tree, p)[id] == if id == SCRIPT_NODE.id then SCRIPT_NODE else PAGE_NODE
      ensures id == PAGE_NODE.id || id == SCRIPT_NODE.id
    {
    }
  }

  /** A page whose script goes, by an edit or with the page: the update leaves the script's function in
      the graph, though every real path matches, and the whole is not the full index. */
  lemma RazorScriptStays(edited: bool, oldManifest: FileManifest, newManifest: FileManifest, before: Nodes, after: Nodes)
    requires IsManifestOf(RazorIndexer, WithScript, oldManifest)
    requires IsManifestOf(RazorIndexer, WithoutScript(edited), newManifest)
    requires Plain(before) == FullIndex(RazorIndexer, WithScript)
    requires UpdatedTo(RazorIndexer, WithoutScript(edited), before, oldManifest, newManifest, after)
    ensures SCRIPT_NODE.id in after && SCRIPT_NODE.id !in FullIndex(RazorIndexer, WithoutScript(edited))
    ensures Plain(after) != FullIndex(RazorIndexer, WithoutScript(edited))
    ensures MatchesAt(RazorIndexer, WithoutScript(edited), after, PAGE)
  {
    var ix, newTree := RazorIndexer, WithoutScript(edited);
    RazorTreeOk(WithScript);
    RazorTreeOk(newTree);
    ScriptEmitted(edited, oldManifest, newManifest);
    RazorDigestsTell(edited);
    hide *;
    StaleStays(ix, WithScript, newTree, oldManifest, newManifest, before, after, PAGE, SCRIPT_NODE.id);
    PlainMatches(ix, WithScript, before, PAGE);
    IncrementalIsFull(ix, WithScript, newTree, oldManifest, newManifest, before, after, PAGE);
    PlainIsThere(after, SCRIPT_NODE.id);
  }

  lemma RazorDigestsTell(edited: bool)
    ensures DigestsTell(RazorIndexer, WithScript, WithoutScript(edited)) && !RazorIndexer.isVirtual(PAGE)
  {
    ScriptIdDiffers();
  }

  lemma ScriptEmitted(edited: bool, oldManifest: FileManifest, newManifest: FileManifest)
    requires IsManifestOf(RazorIndexer, WithScript, oldManifest)
    requires IsManifestOf(RazorIndexer, WithoutScript(edited), newManifest)
    ensures PAGE in Dropped(oldManifest, newManifest)
    ensures SCRIPT_NODE.id in Emitted(RazorIndexer, WithScript, PAGE)
    ensures Emitted(RazorIndexer, WithScript, PAGE)[SCRIPT_NODE.id].filePath != PAGE
    ensures SCRIPT_NODE.id !in FullIndex(RazorIndexer, WithoutScript(edited))
  {
    ScriptIdDiffers();
    assert DigestAt(oldManifest, PAGE) == DigestOf(RazorIndexer, WithScript, PAGE);
    assert DigestAt(newManifest, PAGE) == DigestOf(RazorIndexer, WithoutScript(edited), PAGE);
    forall p ensures SCRIPT_NODE.id !in Emitted(RazorIndexer, WithoutScript(edited), p) {
    }
  }

  lemma PlainMatches(ix: Indexer, tree: Tree, nodes: Nodes, p: string)
    requires Plain(nodes) == FullIndex(ix, tree)
    ensures MatchesAt(ix, tree, nodes, p)
  {
    hide FullIndex, Plain;
    FileNodesOfPlain(nodes, p);
  }

  lemma PlainIsThere(nodes: Nodes, id: Id)
    ensures id in Plain(nodes) ==> id in nodes
  {
  }

  // ------------------------------------------------------------------
  // Crashes
  // ------------------------------------------------------------------

  /** What the disk holds between two runs. */
  datatype Saved = Saved(graph: Nodes, manifest: FileManifest)

  /** The two saves of a run, graph first; `steps` of them happened before the process died. */
  function SavedGraphFirst(before: Saved, after: Saved, steps: nat): Saved {
    if steps == 0 then before else if steps == 1 then Saved(after.graph, before.manifest) else after
  }

  function SavedManifestFirst(before: Saved, after: Saved, steps: nat): Saved {
    if steps == 0 then before else if steps == 1 then Saved(before.graph, after.manifest) else after
  }

  /** A graph without documents has none after the update either. */
  lemma NoDocumentsAppear(ix: Indexer, walked: Tree, oldManifest: FileManifest, before: Nodes,
                          newManifest: FileManifest, after: Nodes)
    requires TreeOk(ix, walked) && !HasDocuments(before)
    requires IsUpdate(ix, walked, oldManifest, before, newManifest, after)
    ensures !HasDocuments(after)
  {
    var tree := Tracked(walked, false);
    TrackedOk(ix, walked, false);
    var files := Reindexed(tree, oldManifest, newManifest);
    hide Emitted, EmittedBy, Reindexed, Dropped, NodesOk, Agree, IsManifestOf;
    forall id | id in after && !after[id].kind.Folder? ensures !IsDocumentNode(after[id]) {
      assert id in Plain(after);
      if id in EmittedBy(ix, tree, files) {
        var p := EmittedFrom(ix, tree, files, id);
        EmittedOk(ix, tree, p, id);
      }
    }
  }

  /** A readable document shows in a graph that matches at its path. */
  lemma DocumentShows(ix: Indexer, walked: Tree, nodes: Nodes, p: string)
    requires TreeOk(ix, walked) && !ix.isVirtual(p) && MatchesAt(ix, walked, nodes, p)
    requires p in walked.documents && Readable(ix, walked, p)
    ensures HasDocuments(nodes)
  {
    OwnInFull(ix, walked, p);
    hide FullIndex, NodesOk, Agree, Emitted, TextOf;
    var id :| id in Emitted(ix, walked, p) && Emitted(ix, walked, p)[id].filePath == p
              && IsDocumentNode(Emitted(ix, walked, p)[id]);
    EmittedOk(ix, walked, p, id);
    assert id in FileNodes(Emitted(ix, walked, p), p);
    assert id in FileNodes(nodes, p);
  }

  /** Where the graph matches the walked tree, a rerun that no longer tracks documents finds the same nodes. */
  lemma RerunFindsSame(ix: Indexer, walked: Tree, nodes: Nodes, p: string)
    requires TreeOk(ix, walked) && !ix.isVirtual(p) && MatchesAt(ix, walked, nodes, p) && !HasDocuments(nodes)
    ensures Emitted(ix, Tracked(walked, false), p) == Emitted(ix, walked, p)
  {
    hide HasDocuments, TreeOk, MatchesAt;
    if p in walked.documents && Readable(ix, walked, p) { DocumentShows(ix, walked, nodes, p); }
  }

  lemma MatchMoves(ix: Indexer, tree: Tree, other: Tree, nodes: Nodes, p: string)
    requires TreeOk(ix, tree) && TreeOk(ix, other) && !ix.isVirtual(p)
    requires Emitted(ix, tree, p) == Emitted(ix, other, p)
    ensures MatchesAt(ix, tree, nodes, p) <==> MatchesAt(ix, other, nodes, p)
  {
    hide TreeOk, Emitted, FullIndex;
    OwnInFull(ix, tree, p);
    OwnInFull(ix, other, p);
  }

  /** Updating again over the unchanged walk keeps a match, though the update reads off the graph
      whether documents are tracked, and may find that they no longer are. */
  lemma RerunKeepsMatch(ix: Indexer, walked: Tree, oldManifest: FileManifest, before: Nodes, newManifest: FileManifest,
                        after: Nodes, manifest: FileManifest, rerunManifest: FileManifest, rerun: Nodes, p: string)
    requires TreeOk(ix, walked) && !ix.isVirtual(p)
    requires IsUpdate(ix, walked, oldManifest, before, newManifest, after)
    requires IsUpdate(ix, walked, manifest, after, rerunManifest, rerun)
    requires MatchesAt(ix, Tracked(walked, HasDocuments(before)), after, p)
    ensures MatchesAt(ix, Tracked(walked, HasDocuments(before)), rerun, p)
  {
    var tree, again := Tracked(walked, HasDocuments(before)), Tracked(walked, HasDocuments(after));
    TrackedOk(ix, walked, HasDocuments(before));
    TrackedOk(ix, walked, HasDocuments(after));
    hide TreeOk, Emitted, FullIndex, UpdatedTo, MatchesAt, IsManifestOf, HasDocuments;
    if HasDocuments(before) {
      if !HasDocuments(after) { RerunFindsSame(ix, walked, after, p); }
    } else {
      NoDocumentsAppear(ix, walked, oldManifest, before, newManifest, after);
    }
    MatchMoves(ix, tree, again, after, p);
    UpdateKeepsMatch(ix, again, manifest, rerunManifest, after, rerun, p);
    MatchMoves(ix, tree, again, rerun, p);
  }

  /** With the graph saved before the manifest, a crash at any point loses nothing: rerunning over the
      unchanged walk reaches, at every real path, what the run that died was to reach. */
  lemma GraphFirstSurvivesCrash(ix: Indexer, oldTree: Tree, walked: Tree, before: Saved, after: Saved,
                                steps: nat, rerun: Saved, p: string)
    requires TreeOk(ix, oldTree) && TreeOk(ix, walked) && !ix.isVirtual(p)
    requires DigestsTell(ix, oldTree, Tracked(walked, HasDocuments(before.graph)))
    requires IsManifestOf(ix, oldTree, before.manifest) && MatchesAt(ix, oldTree, before.graph, p)
    requires IsUpdate(ix, walked, before.manifest, before.graph, after.manifest, after.graph)
    requires var disk := SavedGraphFirst(before, after, steps);
             IsUpdate(ix, walked, disk.manifest, disk.graph, rerun.manifest, rerun.graph)
    ensures MatchesAt(ix, Tracked(walked, HasDocuments(before.graph)), rerun.graph, p)
  {
    var tree := Tracked(walked, HasDocuments(before.graph));
    TrackedOk(ix, walked, HasDocuments(before.graph));
    var disk := SavedGraphFirst(before, after, steps);
    hide TreeOk, DigestsTell, IsManifestOf, MatchesAt, UpdatedTo, HasDocuments;
    if steps == 0 {
      IncrementalIsFull(ix, oldTree, tree, before.manifest, rerun.manifest, before.graph, rerun.graph, p);
    } else {
      IncrementalIsFull(ix, oldTree, tree, before.manifest, after.manifest, before.graph, after.graph, p);
      RerunKeepsMatch(ix, walked, before.manifest, before.graph, after.manifest, after.graph, disk.manifest,
        rerun.manifest, rerun.graph, p);
    }
  }

  /** With the manifest saved first, a crash between the two strands the graph: the rerun finds no change
      and keeps every node, and is right, at a path or as a whole, only if the old graph already was. */
  lemma ManifestFirstStrandsGraph(ix: Indexer, walked: Tree, before: Saved, after: Saved, rerun: Saved)
    requires IsManifestOf(ix, Tracked(walked, HasDocuments(before.graph)), after.manifest)
    requires var disk := SavedManifestFirst(before, after, 1);
             IsUpdate(ix, walked, disk.manifest, disk.graph, rerun.manifest, rerun.graph)
    ensures forall p :: ChangeOf(after.manifest, rerun.manifest, p) == None
    ensures Plain(rerun.graph) == Plain(before.graph)
    ensures var tree := Tracked(walked, HasDocuments(before.graph));
            && (Plain(rerun.graph) == FullIndex(ix, tree) <==> Plain(before.graph) == FullIndex(ix, tree))
            && forall p :: MatchesAt(ix, tree, rerun.graph, p) <==> MatchesAt(ix, tree, before.graph, p)
  {
    var tree := Tracked(walked, HasDocuments(before.graph));
    hide Plain, EmittedBy, FullIndex, HasDocuments, DigestOf, FileNodes;
    forall p ensures ChangeOf(after.manifest, rerun.manifest, p) == None {
      assert DigestAt(after.manifest, p) == DigestOf(ix, tree, p) == DigestAt(rerun.manifest, p);
    }
    assert Dropped(after.manifest, rerun.manifest) == {} && Reindexed(tree, after.manifest, rerun.manifest) == {};
    EmittedByNone(ix, tree);
    assert WithoutFiles(Plain(before.graph), {}) + map[] == Plain(before.graph);
    forall p ensures FileNodes(rerun.graph, p) == FileNodes(before.graph, p) {
      FileNodesOfPlain(rerun.graph, p);
      FileNodesOfPlain(before.graph, p);
    }
  }
}
