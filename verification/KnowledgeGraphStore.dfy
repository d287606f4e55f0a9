/** The in-memory knowledge graph: nodes and relationships by id, and an index from file path to
    the ids of the nodes of that file.

    The index stays exact under every change; removing a file's nodes or the empty folders removes
    exactly what it should, and the relationships that touch it. */
module KnowledgeGraphStore {
  import opened GraphTypes
  import opened Sorting

  type Nodes = map<Id, GraphNode>
  type Relationships = map<Id, GraphRelationship>
  type FileIndex = map<string, seq<Id>>

  /** The index lists, sorted and once each, the nodes of every file that has some. */
  ghost predicate Indexes(nodes: Nodes, fileIndex: FileIndex) {
    && (forall f | f in fileIndex :: IndexesFile(nodes, fileIndex[f], f))
    && (forall id | id in nodes :: nodes[id].filePath in fileIndex)
  }

  ghost predicate IndexesFile(nodes: Nodes, ids: seq<Id>, f: string) {
    && ids != [] && SortedBy(ids, StringLe) && NoDuplicates(ids)
    && forall id :: id in ids <==> id in nodes && nodes[id].filePath == f
  }

  function NodesOfFile(nodes: Nodes, f: string): set<Id> {
    set id | id in nodes && nodes[id].filePath == f
  }

  function Touches(rel: GraphRelationship, ids: set<Id>): bool {
    rel.sourceId in ids || rel.targetId in ids
  }

  function Untouched(rels: Relationships, ids: set<Id>): Relationships {
    map r | r in rels && !Touches(rels[r], ids) :: rels[r]
  }

  function Without(ids: seq<Id>, id: Id): seq<Id> {
    if ids == [] then [] else (if ids[0] == id then [] else [ids[0]]) + Without(ids[1..], id)
  }

  lemma {:induction false} WithoutKeeps(ids: seq<Id>, id: Id)
    ensures forall x :: x in Without(ids, id) <==> x in ids && x != id
    ensures NoDuplicates(ids) ==> NoDuplicates(Without(ids, id))
    ensures SortedBy(ids, StringLe) ==> SortedBy(Without(ids, id), StringLe)
  {
    hide StringLe;
    if ids != [] {
      WithoutKeeps(ids[1..], id);
      var rest := Without(ids[1..], id);
      assert ids == [ids[0]] + ids[1..];
      assert forall k | 0 <= k < |rest| :: rest[k] in rest;
      if NoDuplicates(ids) { assert ids[0] !in ids[1..]; }
      if SortedBy(ids, StringLe) {
        forall x | x in ids[1..] ensures StringLe(ids[0], x) {
          var k :| 0 <= k < |ids[1..]| && ids[1..][k] == x;
          assert x == ids[k + 1];
        }
      }
    }
  }

  /** Sorted insertion of an id that is not there yet (`binary_search` and `insert`). */
  function Insert(ids: seq<Id>, id: Id): seq<Id> {
    if id in ids then ids else InsertBy(id, ids, StringLe)
  }

  lemma InsertKeeps(ids: seq<Id>, id: Id)
    requires SortedBy(ids, StringLe) && NoDuplicates(ids)
    ensures SortedBy(Insert(ids, id), StringLe) && NoDuplicates(Insert(ids, id)) && Insert(ids, id) != []
    ensures forall x :: x in Insert(ids, id) <==> x in ids || x == id
  {
    if id !in ids {
      StringLeOrders();
      InsertBySorts(id, ids, StringLe);
      InsertByPermutes(id, ids, StringLe);
      NoDuplicatesByCount(ids);
      NoDuplicatesByCount(Insert(ids, id));
      hide StringLe, NoDuplicates, SortedBy, TotalPreorder, InsertBy;
      var inserted := Insert(ids, id);
      forall x ensures x in inserted <==> x in ids || x == id {
        assert x in inserted <==> x in multiset(inserted);
        assert x in ids <==> x in multiset(ids);
      }
      assert id in inserted;
    }
  }

  // ------------------------------------------------------------------
  // The index after one node is added or removed
  // ------------------------------------------------------------------

  function IndexWithout(fileIndex: FileIndex, f: string, id: Id): FileIndex {
    if f !in fileIndex then fileIndex
    else if Without(fileIndex[f], id) == [] then fileIndex - {f}
    else fileIndex[f := Without(fileIndex[f], id)]
  }

  lemma RemovalIndexed(nodes: Nodes, fileIndex: FileIndex, id: Id)
    requires Indexes(nodes, fileIndex) && id in nodes
    ensures Indexes(nodes - {id}, IndexWithout(fileIndex, nodes[id].filePath, id))
  {
    hide SortedBy, NoDuplicates, StringLe, Without;
    var f := nodes[id].filePath;
    var nodesAfter, indexAfter := nodes - {id}, IndexWithout(fileIndex, f, id);
    assert IndexesFile(nodes, fileIndex[f], f);
    WithoutKeeps(fileIndex[f], id);
    forall g | g in indexAfter ensures IndexesFile(nodesAfter, indexAfter[g], g) {
      assert IndexesFile(nodes, fileIndex[g], g);
    }
    forall x | x in nodesAfter ensures nodesAfter[x].filePath in indexAfter {
      if nodesAfter[x].filePath == f { assert x in Without(fileIndex[f], id); }
    }
  }

  lemma InsertionIndexed(nodes: Nodes, fileIndex: FileIndex, node: GraphNode)
    requires Indexes(nodes, fileIndex) && node.id !in nodes
    ensures var f := node.filePath;
            Indexes(nodes[node.id := node], fileIndex[f := Insert(if f in fileIndex then fileIndex[f] else [], node.id)])
  {
    hide SortedBy, NoDuplicates, StringLe, Insert;
    var f, id := node.filePath, node.id;
    var ids := if f in fileIndex then fileIndex[f] else [];
    if f in fileIndex {
      assert IndexesFile(nodes, fileIndex[f], f);
    } else {
      EmptyIsSorted();
    }
    InsertKeeps(ids, id);
    var nodesAfter, indexAfter := nodes[id := node], fileIndex[f := Insert(ids, id)];
    forall g | g in indexAfter ensures IndexesFile(nodesAfter, indexAfter[g], g) {
      if g in fileIndex { assert IndexesFile(nodes, fileIndex[g], g); }
      forall x ensures x in indexAfter[g] <==> x in nodesAfter && nodesAfter[x].filePath == g {
        if f !in fileIndex && x in nodes { assert nodes[x].filePath in fileIndex; }
      }
    }
  }

  lemma EmptyIsSorted()
    ensures SortedBy<Id>([], StringLe) && NoDuplicates<Id>([])
  {
  }

  lemma ReplacementIndexed(nodes: Nodes, fileIndex: FileIndex, node: GraphNode)
    requires Indexes(nodes, fileIndex) && node.id in nodes && nodes[node.id].filePath == node.filePath
    ensures Indexes(nodes[node.id := node], fileIndex)
    ensures node.filePath in fileIndex && node.id in fileIndex[node.filePath]
  {
    hide SortedBy, NoDuplicates, StringLe;
    forall f | f in fileIndex ensures IndexesFile(nodes[node.id := node], fileIndex[f], f) {
      assert IndexesFile(nodes, fileIndex[f], f);
    }
    assert IndexesFile(nodes, fileIndex[node.filePath], node.filePath);
  }

  lemma FileRemovalIndexed(nodes: Nodes, fileIndex: FileIndex, f: string)
    requires Indexes(nodes, fileIndex)
    ensures Indexes(nodes - NodesOfFile(nodes, f), fileIndex - {f})
    ensures f in fileIndex ==> forall id :: id in fileIndex[f] <==> id in NodesOfFile(nodes, f)
    ensures f in fileIndex ==> NoDuplicates(fileIndex[f])
    ensures f !in fileIndex ==> NodesOfFile(nodes, f) == {}
  {
    hide SortedBy, NoDuplicates, StringLe;
    forall g | g in fileIndex - {f} ensures IndexesFile(nodes - NodesOfFile(nodes, f), fileIndex[g], g) {
      assert IndexesFile(nodes, fileIndex[g], g);
    }
    if f in fileIndex { assert IndexesFile(nodes, fileIndex[f], f); }
  }

  // ------------------------------------------------------------------
  // Folders that hold nothing
  // ------------------------------------------------------------------

  ghost predicate HasChild(rels: Relationships, id: Id) {
    exists r :: r in rels && rels[r].relType.Contains? && rels[r].sourceId == id
  }

  predicate IsFolder(nodes: Nodes, id: Id) {
    id in nodes && nodes[id].kind.Folder?
  }

  /** Folders each containing something that is not a folder, or another of them. */
  ghost predicate Supported(nodes: Nodes, rels: Relationships, folders: set<Id>) {
    forall id {:trigger IsFolder(nodes, id)} :: id in folders ==>
      (IsFolder(nodes, id)
       && exists r :: r in rels && rels[r].relType.Contains? && rels[r].sourceId == id
                      && (rels[r].targetId in folders || !IsFolder(nodes, rels[r].targetId)))
  }

  /** What pruning may have removed so far. */
  ghost predicate Prunable(nodes: Nodes, rels: Relationships, removed: set<Id>) {
    && (forall id | id in removed :: IsFolder(nodes, id))
    && (forall folders :: Supported(nodes, rels, folders) ==> folders !! removed)
  }

  /** A folder left without any child joins the prunable ones. */
  lemma ChildlessIsPrunable(nodes: Nodes, rels: Relationships, removed: set<Id>, empty: set<Id>)
    requires Prunable(nodes, rels, removed)
    requires forall id | id in empty :: IsFolder(nodes, id) && id !in removed && !HasChild(Untouched(rels, removed), id)
    ensures Prunable(nodes, rels, removed + empty)
  {
    forall folders | Supported(nodes, rels, folders) ensures folders !! (removed + empty) {
      forall id | id in folders ensures id !in empty {
        assert IsFolder(nodes, id);
        var r :| r in rels && rels[r].relType.Contains? && rels[r].sourceId == id
                 && (rels[r].targetId in folders || !IsFolder(nodes, rels[r].targetId));
        assert r in Untouched(rels, removed);
      }
    }
  }

  lemma UntouchedTwice(rels: Relationships, a: set<Id>, b: set<Id>)
    ensures Untouched(Untouched(rels, a), b) == Untouched(rels, a + b)
  {
  }

  /** The graph less the nodes `gone` and the relationships touching them. */
  ghost predicate Lacks(nodes0: Nodes, rels0: Relationships, gone: set<Id>, nodes: Nodes, rels: Relationships) {
    gone <= nodes0.Keys && nodes == nodes0 - gone && rels == Untouched(rels0, gone)
  }

  lemma LacksMore(nodes0: Nodes, rels0: Relationships, gone: set<Id>, nodes: Nodes, rels: Relationships, more: set<Id>)
    requires Lacks(nodes0, rels0, gone, nodes, rels) && more <= nodes.Keys
    ensures Lacks(nodes0, rels0, gone + more, nodes - more, Untouched(rels, more))
    ensures gone !! more && |gone + more| == |gone| + |more|
    ensures |nodes - more| == |nodes| - |more|
  {
    UntouchedTwice(rels0, gone, more);
    assert nodes.Keys == (nodes - more).Keys + more;
    assert |nodes.Keys| == |(nodes - more).Keys| + |more|;
  }

  lemma LacksNothing(nodes0: Nodes, rels0: Relationships)
    ensures Lacks(nodes0, rels0, {}, nodes0, rels0)
  {
    UntouchedByNone(rels0);
    assert nodes0 - {} == nodes0;
  }

  lemma LacksIs(nodes0: Nodes, rels0: Relationships, gone: set<Id>, nodes: Nodes, rels: Relationships)
    requires Lacks(nodes0, rels0, gone, nodes, rels)
    ensures nodes0.Keys - nodes.Keys == gone && nodes.Keys <= nodes0.Keys
    ensures nodes == nodes0 - gone && rels == Untouched(rels0, gone)
  {
  }

  lemma ChildlessNow(nodes0: Nodes, rels0: Relationships, gone: set<Id>, nodes: Nodes, rels: Relationships, empty: set<Id>)
    requires Lacks(nodes0, rels0, gone, nodes, rels) && Prunable(nodes0, rels0, gone)
    requires forall id :: id in empty <==> IsFolder(nodes, id) && !HasChild(rels, id)
    ensures Prunable(nodes0, rels0, gone + empty)
  {
    hide HasChild, Prunable, Untouched;
    ChildlessIsPrunable(nodes0, rels0, gone, empty);
  }

  lemma NothingPruned(nodes: Nodes, rels: Relationships)
    ensures Prunable(nodes, rels, {})
  {
    hide Supported;
  }

  class KnowledgeGraph {
    var nodes: Nodes
    var relationships: Relationships
    var fileIndex: FileIndex

    ghost predicate Valid()
      reads this
    {
      Indexes(nodes, fileIndex) && forall id | id in nodes :: nodes[id].id == id
    }

    constructor ()
      ensures Valid() && nodes == map[] && relationships == map[]
    {
      nodes, relationships, fileIndex := map[], map[], map[];
    }

    /** Adds a node, or replaces the one of the same id. */
    method AddNode(node: GraphNode)
      requires Valid()
      modifies this
      ensures Valid() && nodes == old(nodes)[node.id := node] && relationships == old(relationships)
    {
      hide Indexes, Insert, IndexWithout;
      var id, filePath := node.id, node.filePath;
      if id in nodes {
        var previous := nodes[id];
        if previous.filePath != filePath {
          RemovalIndexed(nodes, fileIndex, id);
          InsertionIndexed(nodes - {id}, IndexWithout(fileIndex, previous.filePath, id), node);
          assert (nodes - {id})[id := node] == nodes[id := node];
          fileIndex := IndexWithout(fileIndex, previous.filePath, id);
        } else {
          ReplacementIndexed(nodes, fileIndex, node);
          nodes := nodes[id := node];
          return;
        }
      } else {
        InsertionIndexed(nodes, fileIndex, node);
      }
      nodes := nodes[id := node];
      fileIndex := fileIndex[filePath := Insert(if filePath in fileIndex then fileIndex[filePath] else [], id)];
    }

    method AddRelationship(rel: GraphRelationship)
      requires Valid()
      modifies this`relationships
      ensures relationships == old(relationships)[rel.id := rel]
    {
      relationships := relationships[rel.id := rel];
    }

    method RemoveNode(id: Id) returns (removed: bool)
      requires Valid()
      modifies this
      ensures Valid() && removed == (id in old(nodes))
      ensures nodes == old(nodes) - {id}
      ensures relationships == if removed then Untouched(old(relationships), {id}) else old(relationships)
    {
      if id !in nodes {
        return false;
      }
      hide Indexes, IndexWithout, Untouched;
      RemovalIndexed(nodes, fileIndex, id);
      fileIndex := IndexWithout(fileIndex, nodes[id].filePath, id);
      nodes := nodes - {id};
      relationships := Untouched(relationships, {id});
      removed := true;
    }

    /** Removes exactly the nodes of a file, and counts them. */
    method RemoveNodesByFile(filePath: string) returns (count: nat)
      requires Valid()
      modifies this
      ensures Valid() && nodes == old(nodes) - NodesOfFile(old(nodes), filePath)
      ensures relationships == Untouched(old(relationships), NodesOfFile(old(nodes), filePath))
      ensures count == |NodesOfFile(old(nodes), filePath)|
    {
      hide Indexes, Untouched, NoDuplicates;
      FileRemovalIndexed(nodes, fileIndex, filePath);
      if filePath !in fileIndex {
        UntouchedByNone(relationships);
        assert nodes - {} == nodes && fileIndex - {filePath} == fileIndex;
        return 0;
      }
      ghost var mine := NodesOfFile(nodes, filePath);
      var ids := fileIndex[filePath];
      fileIndex := fileIndex - {filePath};
      count := DropNodes(ids, mine);
      relationships := Untouched(relationships, set id | id in ids);
      assert (set id | id in ids) == mine;
    }

    method DropNodes(ids: seq<Id>, ghost mine: set<Id>) returns (count: nat)
      requires NoDuplicates(ids) && mine <= nodes.Keys && forall id :: id in ids <==> id in mine
      modifies this`nodes
      ensures nodes == old(nodes) - mine && count == |mine|
    {
      count := 0;
      ghost var gone := {};
      for i := 0 to |ids|
        invariant gone == set id | id in ids[..i]
        invariant nodes == old(nodes) - gone && count == |gone|
      {
        assert ids[..i + 1] == ids[..i] + [ids[i]];
        assert ids[i] in ids && ids[i] !in gone;
        if ids[i] in nodes {
          count := count + 1;
        }
        nodes := nodes - {ids[i]};
        gone := gone + {ids[i]};
      }
      assert ids[..|ids|] == ids && gone == mine;
    }

    /** Prunes folders with nothing in them until none is left. */
    method RemoveEmptyFolders() returns (count: nat)
      requires Valid()
      modifies this
      ensures Valid()
      ensures forall id | id in nodes && nodes[id].kind.Folder? :: HasChild(relationships, id)
      ensures nodes.Keys <= old(nodes).Keys && count == |old(nodes).Keys - nodes.Keys|
      ensures nodes == old(nodes) - (old(nodes).Keys - nodes.Keys)
      ensures relationships == Untouched(old(relationships), old(nodes).Keys - nodes.Keys)
      ensures Prunable(old(nodes), old(relationships), old(nodes).Keys - nodes.Keys)
    {
      hide Indexes, Lacks, Prunable, HasChild, Untouched;
      count := 0;
      ghost var removed := {};
      LacksNothing(nodes, relationships);
      NothingPruned(nodes, relationships);
      while true
        invariant Valid() && count == |removed|
        invariant Lacks(old(nodes), old(relationships), removed, nodes, relationships)
        invariant Prunable(old(nodes), old(relationships), removed)
        decreases |nodes|
      {
        var empty := ChildlessFolders();
        LacksIs(old(nodes), old(relationships), removed, nodes, relationships);
        if empty == {} {
          return;
        }
        ChildlessNow(old(nodes), old(relationships), removed, nodes, relationships, empty);
        LacksMore(old(nodes), old(relationships), removed, nodes, relationships, empty);
        var dropped := RemoveAll(empty);
        removed := removed + empty;
        count := count + dropped;
      }
    }

    method ChildlessFolders() returns (empty: set<Id>)
      ensures empty <= nodes.Keys
      ensures forall id :: id in empty <==> IsFolder(nodes, id) && !HasChild(relationships, id)
    {
      var hasChild := set r | r in relationships && relationships[r].relType.Contains? :: relationships[r].sourceId;
      empty := set id | id in nodes && nodes[id].kind.Folder? && id !in hasChild;
      forall id ensures id in hasChild <==> HasChild(relationships, id) {
        if HasChild(relationships, id) {
          var r :| r in relationships && relationships[r].relType.Contains? && relationships[r].sourceId == id;
        }
      }
    }

    method RemoveAll(ids: set<Id>) returns (count: nat)
      requires Valid() && ids <= nodes.Keys
      modifies this
      ensures Valid() && nodes == old(nodes) - ids && count == |ids|
      ensures relationships == Untouched(old(relationships), ids)
      ensures ids != {} ==> |nodes| < |old(nodes)|
    {
      hide Indexes, Lacks, Untouched;
      count := 0;
      var rest := ids;
      ghost var gone := {};
      LacksNothing(nodes, relationships);
      while rest != {}
        invariant Valid() && gone + rest == ids && gone !! rest && count == |gone|
        invariant rest <= nodes.Keys && |nodes| + |gone| == |old(nodes)|
        invariant Lacks(old(nodes), old(relationships), gone, nodes, relationships)
        decreases rest
      {
        var id :| id in rest;
        LacksMore(old(nodes), old(relationships), gone, nodes, relationships, {id});
        var removed := RemoveNode(id);
        if removed {
          count := count + 1;
        }
        rest, gone := rest - {id}, gone + {id};
      }
      LacksIs(old(nodes), old(relationships), gone, nodes, relationships);
    }
  }

  lemma UntouchedByNone(rels: Relationships)
    ensures Untouched(rels, {}) == rels
  {
  }
}
