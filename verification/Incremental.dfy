/** The incremental update: from the manifest diff to the nodes of every file. */
module Incremental {
  import opened GraphTypes
  import opened KnowledgeGraphStore
  import opened Manifests
  import opened Options
  import opened Sorting

  // ------------------------------------------------------------------
  // What is indexed, and how
  // ------------------------------------------------------------------

  datatype CodeFile = CodeFile(content: string, size: nat)

  /** A prose document; one that cannot be read has no bytes. */
  datatype Document = Document(bytes: Option<string>, modified: nat)

  /** The files a walk of the repository finds. */
  datatype Tree = Tree(code: map<string, CodeFile>, documents: map<string, Document>)

  /** Hashing, decoding UTF-8 and parsing. `ownerOf` is the path an id names, `isDocument` the kind
      of a path, and `isVirtual` tells the paths no walk finds: those of the script blocks of a Razor
      page, and the empty one of component libraries. */
  datatype Indexer = Indexer(
    hash: string -> string,
    decode: string -> Option<string>,
    codeNodes: (string, string) -> Nodes,
    documentNodes: (string, string) -> Nodes,
    ownerOf: string -> string,
    isDocument: string -> bool,
    isVirtual: string -> bool)

  predicate IsFolderId(id: Id) {
    "Folder:" <= id
  }

  function FilesOf(tree: Tree): set<string> {
    tree.code.Keys + tree.documents.Keys
  }

  /** The text of a document, unless it cannot be read or is not valid UTF-8. */
  function TextOf(ix: Indexer, tree: Tree, p: string): Option<string> {
    if p in tree.documents && tree.documents[p].bytes.Some? then ix.decode(tree.documents[p].bytes.value) else None
  }

  predicate Readable(ix: Indexer, tree: Tree, p: string) {
    TextOf(ix, tree, p).Some?
  }

  /** The nodes that indexing file `p` gives. */
  function Emitted(ix: Indexer, tree: Tree, p: string): Nodes {
    if p in tree.code then ix.codeNodes(p, tree.code[p].content)
    else if Readable(ix, tree, p) then ix.documentNodes(p, TextOf(ix, tree, p).value)
    else map[]
  }

  predicate IsDocumentNode(node: GraphNode) {
    || node.kind.Section?
    || (node.kind.File? && node.heuristicLabel.Some? && node.heuristicLabel.value in ["markdown", "text", "rst"])
  }

  predicate HasDocuments(nodes: Nodes) {
    exists id :: id in nodes && IsDocumentNode(nodes[id])
  }

  /** A node that indexing `p` may give: of that file, or of a path that no file has. */
  predicate NodeOk(ix: Indexer, p: string, id: Id, node: GraphNode) {
    && node.id == id && !node.kind.Folder? && !IsFolderId(id)
    && ix.ownerOf(id) == node.filePath && (node.filePath == p || ix.isVirtual(node.filePath))
  }

  ghost predicate NodesOk(ix: Indexer, tree: Tree) {
    forall p, id | id in Emitted(ix, tree, p) :: NodeOk(ix, p, id, Emitted(ix, tree, p)[id])
  }

  /** Files that give a node of the same id give the same node. */
  ghost predicate Agree(ix: Indexer, tree: Tree) {
    forall p, q, id {:trigger id in Emitted(ix, tree, p), id in Emitted(ix, tree, q)} ::
      id in Emitted(ix, tree, p) && id in Emitted(ix, tree, q) ==> Emitted(ix, tree, p)[id] == Emitted(ix, tree, q)[id]
  }

  /** Every readable document, and no code file, gives a document node. */
  ghost predicate DocumentsTell(ix: Indexer, tree: Tree) {
    && (forall p, id | p in tree.code && id in Emitted(ix, tree, p) :: !IsDocumentNode(Emitted(ix, tree, p)[id]))
    && (forall p | p in tree.documents && Readable(ix, tree, p) ::
          exists id :: id in Emitted(ix, tree, p) && Emitted(ix, tree, p)[id].filePath == p
                       && IsDocumentNode(Emitted(ix, tree, p)[id]))
  }

  /** A path is that of a code file or that of a document, whatever the tree. */
  predicate KindsOk(ix: Indexer, tree: Tree) {
    (forall p | p in tree.code :: !ix.isDocument(p)) && (forall p | p in tree.documents :: ix.isDocument(p))
  }

  /** What the update needs of the files it finds: see the predicates named here. */
  ghost predicate TreeOk(ix: Indexer, tree: Tree) {
    && KindsOk(ix, tree)
    && (forall p | p in FilesOf(tree) :: !ix.isVirtual(p))
    && NodesOk(ix, tree) && Agree(ix, tree) && DocumentsTell(ix, tree)
  }

  /** Documents count only in an index that already holds some. */
  function Tracked(walked: Tree, documents: bool): Tree {
    if documents then walked else Tree(walked.code, map[])
  }

  function CodeDigest(ix: Indexer, file: CodeFile): FileDigest {
    FileDigest(ix.hash(file.content), file.size, 0)
  }

  function DocumentDigest(ix: Indexer, document: Document): FileDigest
    requires document.bytes.Some?
  {
    FileDigest(ix.hash(document.bytes.value), |document.bytes.value|, document.modified)
  }

  function DigestOf(ix: Indexer, tree: Tree, p: string): Option<FileDigest> {
    if p in tree.documents && tree.documents[p].bytes.Some? then Some(DocumentDigest(ix, tree.documents[p]))
    else if p in tree.code then Some(CodeDigest(ix, tree.code[p]))
    else None
  }

  ghost predicate IsManifestOf(ix: Indexer, tree: Tree, m: FileManifest) {
    forall p :: DigestAt(m, p) == DigestOf(ix, tree, p)
  }

  // ------------------------------------------------------------------
  // The nodes of several files together
  // ------------------------------------------------------------------

  function IdsFrom(ix: Indexer, tree: Tree, paths: set<string>): set<Id> {
    set p, id | p in paths && id in Emitted(ix, tree, p) :: id
  }

  ghost function NodeFrom(ix: Indexer, tree: Tree, paths: set<string>, id: Id): GraphNode
    requires id in IdsFrom(ix, tree, paths)
  {
    var p :| p in paths && id in Emitted(ix, tree, p);
    Emitted(ix, tree, p)[id]
  }

  ghost function EmittedBy(ix: Indexer, tree: Tree, paths: set<string>): Nodes {
    map id | id in IdsFrom(ix, tree, paths) :: NodeFrom(ix, tree, paths, id)
  }

  /** An index of the whole tree from scratch, folders apart. */
  ghost function FullIndex(ix: Indexer, tree: Tree): Nodes {
    EmittedBy(ix, tree, FilesOf(tree))
  }

  lemma EmittedIsIn(ix: Indexer, tree: Tree, paths: set<string>, p: string, id: Id)
    requires Agree(ix, tree) && p in paths && id in Emitted(ix, tree, p)
    ensures id in EmittedBy(ix, tree, paths) && EmittedBy(ix, tree, paths)[id] == Emitted(ix, tree, p)[id]
  {
    hide Emitted;
  }

  lemma EmittedFrom(ix: Indexer, tree: Tree, paths: set<string>, id: Id) returns (p: string)
    requires id in EmittedBy(ix, tree, paths)
    ensures p in paths && id in Emitted(ix, tree, p) && EmittedBy(ix, tree, paths)[id] == Emitted(ix, tree, p)[id]
  {
    hide Emitted;
    p :| p in paths && id in Emitted(ix, tree, p) && NodeFrom(ix, tree, paths, id) == Emitted(ix, tree, p)[id];
  }

  /** What `parts` give is what `whole` gives, if they give the same ids. */
  lemma SameEmitted(ix: Indexer, tree: Tree, whole: set<string>, a: set<string>, b: set<string>)
    requires Agree(ix, tree) && a + b <= whole
    requires forall p | p in whole && p !in a && p !in b :: Emitted(ix, tree, p) == map[]
    ensures EmittedBy(ix, tree, whole) == EmittedBy(ix, tree, a) + EmittedBy(ix, tree, b)
  {
    hide Agree, Emitted, EmittedBy;
    var all, left, right := EmittedBy(ix, tree, whole), EmittedBy(ix, tree, a), EmittedBy(ix, tree, b);
    forall id | id in all ensures id in left + right && (left + right)[id] == all[id] {
      var p := EmittedFrom(ix, tree, whole, id);
      if p in a { EmittedIsIn(ix, tree, a, p, id); } else { EmittedIsIn(ix, tree, b, p, id); }
      if id in right {
        var q := EmittedFrom(ix, tree, b, id);
        EmittedIsIn(ix, tree, whole, q, id);
      }
    }
    forall id | id in left + right ensures id in all {
      if id in right {
        var q := EmittedFrom(ix, tree, b, id);
        EmittedIsIn(ix, tree, whole, q, id);
      } else {
        var q := EmittedFrom(ix, tree, a, id);
        EmittedIsIn(ix, tree, whole, q, id);
      }
    }
  }

  lemma EmittedByOne(ix: Indexer, tree: Tree, f: string)
    requires Agree(ix, tree)
    ensures EmittedBy(ix, tree, {f}) == Emitted(ix, tree, f)
  {
    hide Agree, Emitted, EmittedBy;
    var one := EmittedBy(ix, tree, {f});
    forall id | id in one ensures id in Emitted(ix, tree, f) && Emitted(ix, tree, f)[id] == one[id] {
      var p := EmittedFrom(ix, tree, {f}, id);
    }
    forall id | id in Emitted(ix, tree, f) ensures id in one {
      EmittedIsIn(ix, tree, {f}, f, id);
    }
  }

  lemma EmittedByOneMore(ix: Indexer, tree: Tree, paths: set<string>, f: string)
    requires Agree(ix, tree)
    ensures EmittedBy(ix, tree, paths + {f}) == EmittedBy(ix, tree, paths) + Emitted(ix, tree, f)
  {
    hide Agree, Emitted, EmittedBy;
    SameEmitted(ix, tree, paths + {f}, paths, {f});
    EmittedByOne(ix, tree, f);
  }

  lemma EmittedByNone(ix: Indexer, tree: Tree)
    ensures EmittedBy(ix, tree, {}) == map[]
  {
    assert IdsFrom(ix, tree, {}) == {};
  }

  // ------------------------------------------------------------------
  // How graph operations look without the folders
  // ------------------------------------------------------------------

  /** Ids tell folders from other nodes. */
  predicate Healthy(nodes: Nodes) {
    forall id | id in nodes :: nodes[id].kind.Folder? <==> IsFolderId(id)
  }

  function Plain(nodes: Nodes): Nodes {
    map id | id in nodes && !nodes[id].kind.Folder? :: nodes[id]
  }

  function WithoutFiles(nodes: Nodes, paths: set<string>): Nodes {
    map id | id in nodes && nodes[id].filePath !in paths :: nodes[id]
  }

  lemma FolderAdded(nodes: Nodes, folder: GraphNode)
    requires Healthy(nodes) && folder.kind.Folder? && IsFolderId(folder.id)
    ensures Healthy(nodes[folder.id := folder]) && Plain(nodes[folder.id := folder]) == Plain(nodes)
  {
  }

  lemma PlainAdded(nodes: Nodes, node: GraphNode)
    requires Healthy(nodes) && !node.kind.Folder? && !IsFolderId(node.id)
    ensures Healthy(nodes[node.id := node]) && Plain(nodes[node.id := node]) == Plain(nodes)[node.id := node]
  {
  }

  lemma FileRemoved(nodes: Nodes, f: string)
    requires Healthy(nodes)
    ensures Healthy(nodes - NodesOfFile(nodes, f))
    ensures Plain(nodes - NodesOfFile(nodes, f)) == WithoutFiles(Plain(nodes), {f})
  {
  }

  lemma FoldersPruned(nodes: Nodes, gone: set<Id>)
    requires Healthy(nodes) && forall id | id in gone :: IsFolder(nodes, id)
    ensures Healthy(nodes - gone) && Plain(nodes - gone) == Plain(nodes)
  {
  }

  // ------------------------------------------------------------------
  // The manifest of a tree
  // ------------------------------------------------------------------

  method BuildManifest(ix: Indexer, tree: Tree) returns (m: FileManifest)
    ensures IsManifestOf(ix, tree, m)
  {
    m := map[];
    var rest := tree.code.Keys;
    ghost var done := {};
    while rest != {}
      invariant done + rest == tree.code.Keys && done !! rest
      invariant m.Keys == done && forall p | p in done :: m[p] == CodeDigest(ix, tree.code[p])
      decreases rest
    {
      var p :| p in rest;
      m := m[p := CodeDigest(ix, tree.code[p])];
      rest, done := rest - {p}, done + {p};
    }
    m := AddDocumentDigests(ix, tree, m);
  }

  function DigestSoFar(ix: Indexer, tree: Tree, m0: FileManifest, done: set<string>, p: string): Option<FileDigest>
    requires done <= tree.documents.Keys
  {
    if p in done && tree.documents[p].bytes.Some? then Some(DocumentDigest(ix, tree.documents[p])) else DigestAt(m0, p)
  }

  method AddDocumentDigests(ix: Indexer, tree: Tree, m0: FileManifest) returns (m: FileManifest)
    requires m0.Keys == tree.code.Keys && forall p | p in m0 :: m0[p] == CodeDigest(ix, tree.code[p])
    ensures IsManifestOf(ix, tree, m)
  {
    m := m0;
    var rest := tree.documents.Keys;
    ghost var done := {};
    while rest != {}
      invariant done + rest == tree.documents.Keys && done !! rest
      invariant forall p {:trigger DigestAt(m, p)} :: DigestAt(m, p) == DigestSoFar(ix, tree, m0, done, p)
      decreases rest
    {
      var p :| p in rest;
      ghost var before := m;
      if tree.documents[p].bytes.Some? {
        m := m[p := DocumentDigest(ix, tree.documents[p])];
      }
      assert forall q :: q != p ==> DigestAt(m, q) == DigestAt(before, q);
      rest, done := rest - {p}, done + {p};
    }
    forall p ensures DigestAt(m, p) == DigestOf(ix, tree, p) {
      assert DigestAt(m0, p) == if p in tree.code then Some(CodeDigest(ix, tree.code[p])) else None;
    }
  }

  // ------------------------------------------------------------------
  // Adding the nodes of a file
  // ------------------------------------------------------------------

  /** The folder nodes above `path`, each containing the next and the last one the file. */
  method AddFolders(graph: KnowledgeGraph, path: string)
    requires graph.Valid() && Healthy(graph.nodes)
    modifies graph
    ensures graph.Valid() && Healthy(graph.nodes) && Plain(graph.nodes) == Plain(old(graph.nodes))
  {
    hide Healthy, Plain, IsFolderId, Indexes;
    var parent: Option<Id> := None;
    var start := 0;
    for i := 0 to |path|
      invariant start <= i && graph.Valid() && Healthy(graph.nodes)
      invariant Plain(graph.nodes) == Plain(old(graph.nodes))
    {
      if path[i] == '/' {
        var id := "Folder:" + path[..i];
        var folder := GraphNode(id, Folder, path[start..i], path[..i], None);
        FolderPrefix(path[..i]);
        FolderAdded(graph.nodes, folder);
        graph.AddNode(folder);
        if parent.Some? {
          graph.AddRelationship(GraphRelationship("contains_" + parent.value + "_" + id, parent.value, id, Contains));
        }
        parent, start := Some(id), i + 1;
      }
    }
    if parent.Some? {
      var id := "File:" + path;
      graph.AddRelationship(GraphRelationship("contains_" + parent.value + "_" + id, parent.value, id, Contains));
    }
  }

  lemma FolderPrefix(path: string)
    ensures IsFolderId("Folder:" + path)
  {
  }

  /** Adds the nodes that indexing `path` gives, whatever paths they name. */
  method AddFile(graph: KnowledgeGraph, path: string, nodes: Nodes)
    requires graph.Valid() && Healthy(graph.nodes)
    requires forall id | id in nodes :: nodes[id].id == id && !nodes[id].kind.Folder? && !IsFolderId(id)
    modifies graph
    ensures graph.Valid() && Healthy(graph.nodes) && Plain(graph.nodes) == Plain(old(graph.nodes)) + nodes
  {
    hide Healthy, Plain, IsFolderId, Indexes;
    AddFolders(graph, path);
    var rest := nodes.Keys;
    ghost var done, start := map[], Plain(graph.nodes);
    assert start + done == start;
    while rest != {}
      invariant done.Keys + rest == nodes.Keys && done.Keys !! rest && forall id | id in done :: done[id] == nodes[id]
      invariant graph.Valid() && Healthy(graph.nodes) && Plain(graph.nodes) == start + done
      decreases rest
    {
      var id :| id in rest;
      PlainAdded(graph.nodes, nodes[id]);
      assert (start + done)[id := nodes[id]] == start + done[id := nodes[id]];
      graph.AddNode(nodes[id]);
      rest, done := rest - {id}, done[id := nodes[id]];
    }
    assert done == nodes;
  }

  // ------------------------------------------------------------------
  // The update
  // ------------------------------------------------------------------

  datatype IncrementalResult = IncrementalResult(
    added: nat, modified: nat, removed: nat, documentsUpdated: nat, foldersPruned: nat, newManifest: FileManifest)

  /** The paths some change concerns, and those whose old nodes must go. */
  function Affected(changes: seq<FileChange>): set<string> {
    set c | c in changes :: c.path
  }

  function Outdated(changes: seq<FileChange>): set<string> {
    set c | c in changes && !c.Added? :: c.path
  }

  datatype ChangeKind = Addition | Modification | Removal

  predicate IsKind(change: FileChange, kind: ChangeKind) {
    match kind
    case Addition => change.Added?
    case Modification => change.Modified?
    case Removal => change.Removed?
  }

  function OfKind(changes: seq<FileChange>, kind: ChangeKind): set<FileChange> {
    set c | c in changes && IsKind(c, kind)
  }

  /** Tallies the changes by kind. */
  method CountChanges(changes: seq<FileChange>) returns (added: nat, modified: nat, removed: nat, affected: set<string>)
    requires NoDuplicates(changes)
    ensures added == |OfKind(changes, Addition)| && modified == |OfKind(changes, Modification)|
    ensures removed == |OfKind(changes, Removal)| && affected == Affected(changes)
  {
    hide *;
    added, modified, removed, affected := 0, 0, 0, {};
    NoChangesOfKind();
    assert changes[..0] == [];
    for i := 0 to |changes|
      invariant added == |OfKind(changes[..i], Addition)| && modified == |OfKind(changes[..i], Modification)|
      invariant removed == |OfKind(changes[..i], Removal)| && affected == Affected(changes[..i])
    {
      var c := changes[i];
      OneMoreChange(changes, i);
      KindCases(c);
      OneMoreOfKind(changes, i, Addition);
      OneMoreOfKind(changes, i, Modification);
      OneMoreOfKind(changes, i, Removal);
      affected := affected + {c.path};
      match c
      case Added(_) => added := added + 1;
      case Modified(_) => modified := modified + 1;
      case Removed(_) => removed := removed + 1;
    }
    assert changes[..|changes|] == changes;
  }

  lemma NoChangesOfKind()
    ensures forall kind :: OfKind([], kind) == {}
    ensures Affected([]) == {} && Outdated([]) == {}
  {
  }

  lemma OneMoreChange(changes: seq<FileChange>, i: nat)
    requires i < |changes|
    ensures Affected(changes[..i + 1]) == Affected(changes[..i]) + {changes[i].path}
    ensures Outdated(changes[..i + 1]) == Outdated(changes[..i]) + if changes[i].Added? then {} else {changes[i].path}
  {
    assert changes[..i + 1] == changes[..i] + [changes[i]];
    forall p ensures p in Affected(changes[..i + 1]) <==> p in Affected(changes[..i]) + {changes[i].path} {
    }
  }

  lemma KindCases(c: FileChange)
    ensures c.Added? <==> IsKind(c, Addition)
    ensures c.Modified? <==> IsKind(c, Modification)
    ensures c.Removed? <==> IsKind(c, Removal)
  {
  }

  lemma OneMoreOfKind(changes: seq<FileChange>, i: nat, kind: ChangeKind)
    requires NoDuplicates(changes) && i < |changes|
    ensures |OfKind(changes[..i + 1], kind)| == |OfKind(changes[..i], kind)| + if IsKind(changes[i], kind) then 1 else 0
  {
    hide IsKind;
    var before, c := changes[..i], changes[i];
    assert changes[..i + 1] == before + [c];
    assert c !in before;
    hide NoDuplicates;
    if IsKind(c, kind) {
      assert OfKind(before + [c], kind) == OfKind(before, kind) + {c};
    } else {
      assert OfKind(before + [c], kind) == OfKind(before, kind);
    }
  }

  /** Drops the nodes of modified and removed files. */
  method DropOutdated(graph: KnowledgeGraph, changes: seq<FileChange>)
    requires graph.Valid() && Healthy(graph.nodes) && NoDuplicates(changes)
    modifies graph
    ensures graph.Valid() && Healthy(graph.nodes)
    ensures Plain(graph.nodes) == WithoutFiles(Plain(old(graph.nodes)), Outdated(changes))
  {
    hide Healthy, Plain, NodesOfFile, Indexes, NoDuplicates;
    ghost var start := Plain(graph.nodes);
    assert WithoutFiles(start, Outdated(changes[..0])) == start;
    for i := 0 to |changes|
      invariant graph.Valid() && Healthy(graph.nodes)
      invariant Plain(graph.nodes) == WithoutFiles(start, Outdated(changes[..i]))
    {
      OneMoreChange(changes, i);
      hide Outdated;
      if !changes[i].Added? {
        FileRemoved(graph.nodes, changes[i].path);
        WithoutTwice(start, Outdated(changes[..i]), {changes[i].path});
        var count := graph.RemoveNodesByFile(changes[i].path);
      }
    }
    assert changes[..|changes|] == changes;
  }

  lemma WithoutTwice(nodes: Nodes, a: set<string>, b: set<string>)
    ensures WithoutFiles(WithoutFiles(nodes, a), b) == WithoutFiles(nodes, a + b)
  {
  }

  /** Code files to parse: affected ones without a removal. */
  predicate ToParse(changes: seq<FileChange>, affected: set<string>, p: string) {
    p in affected && Removed(p) !in changes
  }

  function CodeToParse(tree: Tree, changes: seq<FileChange>, affected: set<string>): set<string> {
    set p | p in tree.code && ToParse(changes, affected, p)
  }

  function DocumentsToIndex(ix: Indexer, tree: Tree, affected: set<string>): set<string> {
    set p | p in tree.documents && p in affected && Readable(ix, tree, p)
  }

  lemma EmittedCases(ix: Indexer, tree: Tree, p: string)
    requires TreeOk(ix, tree)
    ensures p in tree.code ==> Emitted(ix, tree, p) == ix.codeNodes(p, tree.code[p].content)
    ensures p in tree.documents && Readable(ix, tree, p) ==>
              Emitted(ix, tree, p) == ix.documentNodes(p, TextOf(ix, tree, p).value)
    ensures forall id | id in Emitted(ix, tree, p) ::
              var node := Emitted(ix, tree, p)[id]; node.id == id && !node.kind.Folder? && !IsFolderId(id)
    ensures Agree(ix, tree)
  {
    hide Agree, DocumentsTell, IsFolderId, TextOf;
    assert p in tree.documents ==> p !in tree.code;
    hide Emitted;
    forall id | id in Emitted(ix, tree, p) ensures NodeOk(ix, p, id, Emitted(ix, tree, p)[id]) {
    }
  }

  /** Indexes these files on top of what the graph holds. */
  method ReparseCode(graph: KnowledgeGraph, ix: Indexer, tree: Tree, changes: seq<FileChange>, affected: set<string>)
    requires graph.Valid() && Healthy(graph.nodes) && TreeOk(ix, tree)
    modifies graph
    ensures graph.Valid() && Healthy(graph.nodes)
    ensures Plain(graph.nodes) == Plain(old(graph.nodes)) + EmittedBy(ix, tree, CodeToParse(tree, changes, affected))
  {
    hide Healthy, TreeOk, Plain, EmittedBy, Emitted, Agree, Indexes, ToParse, IsFolderId;
    var toParse := CodeToParse(tree, changes, affected);
    var rest := toParse;
    ghost var done, start := {}, Plain(graph.nodes);
    EmittedByNone(ix, tree);
    assert start + map[] == start;
    while rest != {}
      invariant done + rest == toParse && done !! rest
      invariant graph.Valid() && Healthy(graph.nodes) && Plain(graph.nodes) == start + EmittedBy(ix, tree, done)
      decreases rest
    {
      var p :| p in rest;
      EmittedCases(ix, tree, p);
      EmittedByOneMore(ix, tree, done, p);
      PlusPlus(start, EmittedBy(ix, tree, done), Emitted(ix, tree, p));
      AddFile(graph, p, ix.codeNodes(p, tree.code[p].content));
      rest, done := rest - {p}, done + {p};
    }
  }

  lemma PlusPlus(a: Nodes, b: Nodes, c: Nodes)
    ensures (a + b) + c == a + (b + c)
  {
  }

  method ReindexDocuments(graph: KnowledgeGraph, ix: Indexer, tree: Tree, affected: set<string>) returns (updated: nat)
    requires graph.Valid() && Healthy(graph.nodes) && TreeOk(ix, tree)
    modifies graph
    ensures graph.Valid() && Healthy(graph.nodes)
    ensures Plain(graph.nodes) == Plain(old(graph.nodes)) + EmittedBy(ix, tree, DocumentsToIndex(ix, tree, affected))
    ensures updated == |DocumentsToIndex(ix, tree, affected)|
  {
    hide Healthy, TreeOk, Plain, EmittedBy, Emitted, Agree, Indexes, IsFolderId, TextOf;
    var toIndex := DocumentsToIndex(ix, tree, affected);
    var rest := toIndex;
    ghost var done, start := {}, Plain(graph.nodes);
    updated := 0;
    EmittedByNone(ix, tree);
    assert start + map[] == start;
    while rest != {}
      invariant done + rest == toIndex && done !! rest && updated == |done|
      invariant graph.Valid() && Healthy(graph.nodes) && Plain(graph.nodes) == start + EmittedBy(ix, tree, done)
      decreases rest
    {
      var p :| p in rest;
      EmittedCases(ix, tree, p);
      EmittedByOneMore(ix, tree, done, p);
      PlusPlus(start, EmittedBy(ix, tree, done), Emitted(ix, tree, p));
      AddFile(graph, p, ix.documentNodes(p, TextOf(ix, tree, p).value));
      updated := updated + 1;
      rest, done := rest - {p}, done + {p};
    }
  }

  /** The paths whose old nodes go, and the files that are indexed again. */
  function Dropped(oldManifest: FileManifest, newManifest: FileManifest): set<string> {
    set p | p in oldManifest && ChangeOf(oldManifest, newManifest, p).Some?
  }

  function Reindexed(tree: Tree, oldManifest: FileManifest, newManifest: FileManifest): set<string> {
    set p | p in FilesOf(tree) && p in newManifest && ChangeOf(oldManifest, newManifest, p).Some?
  }

  /** Folders apart, the nodes of changed files went and what indexing them gives came. */
  ghost predicate UpdatedTo(ix: Indexer, tree: Tree, before: Nodes, oldManifest: FileManifest,
                            newManifest: FileManifest, after: Nodes) {
    Plain(after) == WithoutFiles(Plain(before), Dropped(oldManifest, newManifest))
                    + EmittedBy(ix, tree, Reindexed(tree, oldManifest, newManifest))
  }

  lemma ChangesOfPath(oldManifest: FileManifest, newManifest: FileManifest, changes: seq<FileChange>, p: string)
    requires forall c :: c in changes <==> ChangeOf(oldManifest, newManifest, c.path) == Some(c)
    ensures p in Affected(changes) <==> ChangeOf(oldManifest, newManifest, p).Some?
    ensures p in Outdated(changes) <==>
      ChangeOf(oldManifest, newManifest, p).Some? && !ChangeOf(oldManifest, newManifest, p).value.Added?
    ensures Removed(p) in changes <==> ChangeOf(oldManifest, newManifest, p) == Some(Removed(p))
  {
    hide ChangeOf;
    ChangeCases(oldManifest, newManifest, p);
    var change := ChangeOf(oldManifest, newManifest, p);
    if change.Some? { assert change.value in changes; }
  }

  lemma NoKinds(changes: seq<FileChange>)
    requires |changes| == 0
    ensures forall kind :: OfKind(changes, kind) == {}
    ensures forall c: FileChange :: c !in changes
  {
  }

  /** Counting changes is counting paths. */
  lemma KindsCount(oldManifest: FileManifest, newManifest: FileManifest, changes: seq<FileChange>)
    requires forall c :: c in changes <==> ChangeOf(oldManifest, newManifest, c.path) == Some(c)
    ensures |OfKind(changes, Addition)|
         == |set p | p in newManifest && ChangeOf(oldManifest, newManifest, p) == Some(Added(p))|
    ensures |OfKind(changes, Modification)|
         == |set p | p in newManifest && ChangeOf(oldManifest, newManifest, p) == Some(Modified(p))|
    ensures |OfKind(changes, Removal)|
         == |set p | p in oldManifest && ChangeOf(oldManifest, newManifest, p) == Some(Removed(p))|
  {
    hide ChangeOf;
    forall p { ChangeCases(oldManifest, newManifest, p); }
    var a := set p | p in newManifest && ChangeOf(oldManifest, newManifest, p) == Some(Added(p));
    var m := set p | p in newManifest && ChangeOf(oldManifest, newManifest, p) == Some(Modified(p));
    var r := set p | p in oldManifest && ChangeOf(oldManifest, newManifest, p) == Some(Removed(p));
    PathsCount(OfKind(changes, Addition), a, p => Added(p));
    PathsCount(OfKind(changes, Modification), m, p => Modified(p));
    PathsCount(OfKind(changes, Removal), r, p => Removed(p));
  }

  lemma {:induction false} PathsCount(changes: set<FileChange>, paths: set<string>, make: string -> FileChange)
    requires forall p :: make(p).path == p
    requires forall c :: c in changes <==> c.path in paths && c == make(c.path)
    ensures |changes| == |paths|
    decreases |paths|
  {
    if paths == {} {
      assert changes == {};
    } else {
      var p :| p in paths;
      assert make(p) in changes;
      PathsCount(changes - {make(p)}, paths - {p}, make);
    }
  }

  lemma OutdatedAre(oldManifest: FileManifest, newManifest: FileManifest, changes: seq<FileChange>)
    requires forall c :: c in changes <==> ChangeOf(oldManifest, newManifest, c.path) == Some(c)
    ensures Outdated(changes) == Dropped(oldManifest, newManifest)
  {
    hide ChangeOf, Outdated;
    forall p ensures p in Outdated(changes) <==> p in Dropped(oldManifest, newManifest) {
      ChangesOfPath(oldManifest, newManifest, changes, p);
      ChangeCases(oldManifest, newManifest, p);
    }
  }

  /** The files of a tree that are indexed again are the code and the documents that are. */
  lemma ReindexedAre(ix: Indexer, tree: Tree, oldManifest: FileManifest, newManifest: FileManifest,
                     changes: seq<FileChange>)
    requires TreeOk(ix, tree) && IsManifestOf(ix, tree, newManifest)
    requires forall c :: c in changes <==> ChangeOf(oldManifest, newManifest, c.path) == Some(c)
    ensures EmittedBy(ix, tree, Reindexed(tree, oldManifest, newManifest))
         == EmittedBy(ix, tree, CodeToParse(tree, changes, Affected(changes)))
            + EmittedBy(ix, tree, DocumentsToIndex(ix, tree, Affected(changes)))
  {
    hide ChangeOf, Affected, EmittedBy, Emitted, Agree, NodesOk, DocumentsTell, TextOf;
    var whole := Reindexed(tree, oldManifest, newManifest);
    var code := CodeToParse(tree, changes, Affected(changes));
    var documents := DocumentsToIndex(ix, tree, Affected(changes));
    forall p
      ensures p in code || p in documents ==> p in whole
      ensures p in whole && p !in code && p !in documents ==> Emitted(ix, tree, p) == map[]
    {
      assert DigestAt(newManifest, p) == DigestOf(ix, tree, p);
      ChangesOfPath(oldManifest, newManifest, changes, p);
      ChangeCases(oldManifest, newManifest, p);
      NothingEmitted(ix, tree, p);
      DigestCases(ix, tree, p);
    }
    SameEmitted(ix, tree, whole, code, documents);
  }

  /** The documents that are indexed again. */
  function ChangedDocuments(ix: Indexer, tree: Tree, oldManifest: FileManifest, newManifest: FileManifest): set<string> {
    set p | p in tree.documents && Readable(ix, tree, p) && ChangeOf(oldManifest, newManifest, p).Some?
  }

  lemma DocumentsAre(ix: Indexer, tree: Tree, oldManifest: FileManifest, newManifest: FileManifest,
                     changes: seq<FileChange>)
    requires forall c :: c in changes <==> ChangeOf(oldManifest, newManifest, c.path) == Some(c)
    ensures DocumentsToIndex(ix, tree, Affected(changes)) == ChangedDocuments(ix, tree, oldManifest, newManifest)
    ensures changes == [] ==> ChangedDocuments(ix, tree, oldManifest, newManifest) == {}
  {
    assert changes == [] ==> Affected(changes) == {};
    hide ChangeOf, Affected, Readable;
    forall p ensures p in Affected(changes) <==> ChangeOf(oldManifest, newManifest, p).Some? {
      ChangesOfPath(oldManifest, newManifest, changes, p);
    }
  }

  lemma NothingEmitted(ix: Indexer, tree: Tree, p: string)
    ensures p !in tree.code && !(p in tree.documents && Readable(ix, tree, p)) ==> Emitted(ix, tree, p) == map[]
  {
  }

  lemma DigestCases(ix: Indexer, tree: Tree, p: string)
    ensures p in tree.code || Readable(ix, tree, p) ==> DigestOf(ix, tree, p).Some?
  {
  }

  lemma NothingToUpdate(ix: Indexer, tree: Tree, oldManifest: FileManifest, newManifest: FileManifest,
                        changes: seq<FileChange>, nodes: Nodes)
    requires forall c :: c in changes <==> ChangeOf(oldManifest, newManifest, c.path) == Some(c)
    requires changes == []
    ensures UpdatedTo(ix, tree, nodes, oldManifest, newManifest, nodes)
  {
    hide ChangeOf, Plain, EmittedBy;
    forall p ensures ChangeOf(oldManifest, newManifest, p) == None {
      ChangesOfPath(oldManifest, newManifest, changes, p);
    }
    assert Dropped(oldManifest, newManifest) == {} && Reindexed(tree, oldManifest, newManifest) == {};
    EmittedByNone(ix, tree);
    assert WithoutFiles(Plain(nodes), {}) + map[] == Plain(nodes);
  }

  lemma TrackedOk(ix: Indexer, walked: Tree, track: bool)
    requires TreeOk(ix, walked)
    ensures TreeOk(ix, Tracked(walked, track))
  {
    var tree := Tracked(walked, track);
    hide NodeOk, IsDocumentNode;
    forall p ensures Emitted(ix, tree, p) == Emitted(ix, walked, p) || Emitted(ix, tree, p) == map[] {
    }
    hide Emitted;
  }

  lemma NoDocuments(ix: Indexer, walked: Tree, affected: set<string>)
    ensures DocumentsToIndex(ix, Tracked(walked, false), affected) == {}
  {
  }

  method Prune(graph: KnowledgeGraph) returns (count: nat)
    requires graph.Valid() && Healthy(graph.nodes)
    modifies graph
    ensures graph.Valid() && Healthy(graph.nodes) && Plain(graph.nodes) == Plain(old(graph.nodes))
    ensures forall id | id in graph.nodes && graph.nodes[id].kind.Folder? :: HasChild(graph.relationships, id)
  {
    hide Healthy, Plain, Indexes, HasChild;
    count := graph.RemoveEmptyFolders();
    ghost var gone := old(graph.nodes).Keys - graph.nodes.Keys;
    assert forall id | id in gone :: IsFolder(old(graph.nodes), id);
    FoldersPruned(old(graph.nodes), gone);
  }

  /** What an update makes of a graph and the manifest of its last indexing: whether documents are
      tracked is read off the graph. */
  ghost predicate IsUpdate(ix: Indexer, walked: Tree, oldManifest: FileManifest, before: Nodes,
                           newManifest: FileManifest, after: Nodes) {
    var tree := Tracked(walked, HasDocuments(before));
    IsManifestOf(ix, tree, newManifest) && UpdatedTo(ix, tree, before, oldManifest, newManifest, after)
  }

  method IncrementalUpdate(graph: KnowledgeGraph, ix: Indexer, oldManifest: FileManifest, walked: Tree)
    returns (result: IncrementalResult)
    requires graph.Valid() && Healthy(graph.nodes) && TreeOk(ix, walked)
    modifies graph
    ensures graph.Valid() && Healthy(graph.nodes)
    ensures IsUpdate(ix, walked, oldManifest, old(graph.nodes), result.newManifest, graph.nodes)
    ensures result.added
         == |set p | p in result.newManifest && ChangeOf(oldManifest, result.newManifest, p) == Some(Added(p))|
    ensures result.modified
         == |set p | p in result.newManifest && ChangeOf(oldManifest, result.newManifest, p) == Some(Modified(p))|
    ensures result.removed
         == |set p | p in oldManifest && ChangeOf(oldManifest, result.newManifest, p) == Some(Removed(p))|
    ensures result.documentsUpdated == |ChangedDocuments(ix, Tracked(walked, HasDocuments(old(graph.nodes))),
                                                         oldManifest, result.newManifest)|
    ensures result.added + result.modified + result.removed > 0 ==>
      forall id | id in graph.nodes && graph.nodes[id].kind.Folder? :: HasChild(graph.relationships, id)
  {
    hide *;
    var track := HasDocuments(graph.nodes);
    var tree := Tracked(walked, track);
    TrackedOk(ix, walked, track);
    var newManifest := BuildManifest(ix, tree);
    var changes := DiffManifests(oldManifest, newManifest);
    var added, modified, removed, affected := CountChanges(changes);
    KindsCount(oldManifest, newManifest, changes);
    DocumentsAre(ix, tree, oldManifest, newManifest, changes);
    if |changes| == 0 {
      NoKinds(changes);
      NothingToUpdate(ix, tree, oldManifest, newManifest, changes, graph.nodes);
      UpdateIs(ix, walked, oldManifest, graph.nodes, newManifest, graph.nodes);
      return IncrementalResult(0, 0, 0, 0, 0, newManifest);
    }

    ghost var before := graph.nodes;
    DropOutdated(graph, changes);
    ghost var dropped := Plain(graph.nodes);
    ReparseCode(graph, ix, tree, changes, affected);
    var updated := 0;
    if track {
      updated := ReindexDocuments(graph, ix, tree, affected);
    } else {
      NoDocuments(ix, walked, affected);
      EmittedByNone(ix, tree);
      PlusNothing(Plain(graph.nodes));
    }
    OutdatedAre(oldManifest, newManifest, changes);
    ReindexedAre(ix, tree, oldManifest, newManifest, changes);
    PlusPlus(dropped, EmittedBy(ix, tree, CodeToParse(tree, changes, affected)),
      EmittedBy(ix, tree, DocumentsToIndex(ix, tree, affected)));
    var pruned := Prune(graph);
    UpdateComplete(ix, tree, before, oldManifest, newManifest, graph.nodes);
    UpdateIs(ix, walked, oldManifest, before, newManifest, graph.nodes);
    result := IncrementalResult(added, modified, removed, updated, pruned, newManifest);
  }

  lemma PlusNothing(nodes: Nodes)
    ensures nodes + map[] == nodes && map[] + nodes == nodes
  {
  }

  lemma UpdateComplete(ix: Indexer, tree: Tree, before: Nodes, oldManifest: FileManifest, newManifest: FileManifest,
                       after: Nodes)
    requires Plain(after) == WithoutFiles(Plain(before), Dropped(oldManifest, newManifest))
                             + EmittedBy(ix, tree, Reindexed(tree, oldManifest, newManifest))
    ensures UpdatedTo(ix, tree, before, oldManifest, newManifest, after)
  {
  }

  lemma UpdateIs(ix: Indexer, walked: Tree, oldManifest: FileManifest, before: Nodes, newManifest: FileManifest,
                 after: Nodes)
    requires IsManifestOf(ix, Tracked(walked, HasDocuments(before)), newManifest)
    requires UpdatedTo(ix, Tracked(walked, HasDocuments(before)), before, oldManifest, newManifest, after)
    ensures IsUpdate(ix, walked, oldManifest, before, newManifest, after)
  {
  }
}
