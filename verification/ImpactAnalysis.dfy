/** Blast radius: what a symbol reaches, and what reaches it, within a depth. */
module ImpactAnalysis {
  import opened GraphTypes
  import opened Options
  import opened Sorting

  /** A graph as the analysis reads it: nodes by id, relationships in id order. */
  datatype Graph = Graph(nodes: map<Id, GraphNode>, relationships: seq<GraphRelationship>)

  type Adjacency = map<Id, seq<Id>>

  datatype ImpactNode = ImpactNode(id: Id, depth: nat)

  datatype ImpactDirectionResult = ImpactDirectionResult(nodes: seq<ImpactNode>, depthCounts: seq<nat>)

  // ------------------------------------------------------------------
  // Adjacency
  // ------------------------------------------------------------------

  predicate IsImpactTraversalEdge(relType: RelationshipType) {
    !(relType.Contains? || relType.StepInProcess? || relType.Defines? || relType.MemberOf? || relType.BelongsToArea?)
  }

  function Neighbors(adjacency: Adjacency, x: Id): seq<Id> {
    if x in adjacency then adjacency[x] else []
  }

  /** Targets of the traversable relationships leaving `x`, in relationship order. */
  function Targets(rels: seq<GraphRelationship>, x: Id): seq<Id> {
    if rels == [] then [] else
      var last := rels[|rels| - 1];
      Targets(rels[..|rels| - 1], x) +
      if IsImpactTraversalEdge(last.relType) && last.sourceId == x then [last.targetId] else []
  }

  /** The same relationships read backwards. */
  function Reversed(rels: seq<GraphRelationship>): seq<GraphRelationship> {
    seq(|rels|, i requires 0 <= i < |rels| =>
      GraphRelationship(rels[i].id, rels[i].targetId, rels[i].sourceId, rels[i].relType))
  }

  /** How many traversable relationships go from `x` to `y`. */
  function EdgeCount(rels: seq<GraphRelationship>, x: Id, y: Id): nat {
    if rels == [] then 0 else
      var last := rels[|rels| - 1];
      EdgeCount(rels[..|rels| - 1], x, y) +
      if IsImpactTraversalEdge(last.relType) && last.sourceId == x && last.targetId == y then 1 else 0
  }

  ghost predicate ListsTargets(adjacency: Adjacency, rels: seq<GraphRelationship>) {
    forall x :: Neighbors(adjacency, x) == Targets(rels, x) && (x in adjacency <==> Targets(rels, x) != [])
  }

  lemma ListOneMore(adjacency: Adjacency, rels: seq<GraphRelationship>, rel: GraphRelationship)
    requires ListsTargets(adjacency, rels)
    ensures ListsTargets(
              if IsImpactTraversalEdge(rel.relType)
              then adjacency[rel.sourceId := Neighbors(adjacency, rel.sourceId) + [rel.targetId]]
              else adjacency,
              rels + [rel])
  {
    assert (rels + [rel])[..|rels|] == rels;
    forall x ensures Targets(rels + [rel], x) ==
                     Targets(rels, x) + if IsImpactTraversalEdge(rel.relType) && rel.sourceId == x then [rel.targetId] else []
    {
    }
  }

  lemma ReversedOneMore(rels: seq<GraphRelationship>, i: nat)
    requires i < |rels|
    ensures rels[..i + 1] == rels[..i] + [rels[i]]
    ensures Reversed(rels[..i + 1]) == Reversed(rels[..i]) + [Reversed(rels)[i]]
  {
  }

  method BuildImpactAdjacency(graph: Graph) returns (forward: Adjacency, reverse: Adjacency)
    ensures ListsTargets(forward, graph.relationships)
    ensures ListsTargets(reverse, Reversed(graph.relationships))
  {
    var rels := graph.relationships;
    forward, reverse := map[], map[];
    assert rels[..0] == [] && Reversed(rels[..0]) == [];
    for i := 0 to |rels|
      invariant ListsTargets(forward, rels[..i]) && ListsTargets(reverse, Reversed(rels[..i]))
    {
      hide ListsTargets;
      var rel := rels[i];
      ReversedOneMore(rels, i);
      ListOneMore(forward, rels[..i], rel);
      ListOneMore(reverse, Reversed(rels[..i]), Reversed(rels)[i]);
      if !IsImpactTraversalEdge(rel.relType) {
        continue;
      }
      forward := forward[rel.sourceId := Neighbors(forward, rel.sourceId) + [rel.targetId]];
      reverse := reverse[rel.targetId := Neighbors(reverse, rel.targetId) + [rel.sourceId]];
    }
    assert rels[..|rels|] == rels;
  }

  lemma {:induction false} TargetsCountEdges(rels: seq<GraphRelationship>, x: Id, y: Id)
    ensures multiset(Targets(rels, x))[y] == EdgeCount(rels, x, y)
  {
    if rels != [] {
      TargetsCountEdges(rels[..|rels| - 1], x, y);
    }
  }

  lemma {:induction false} EdgeCountReverses(rels: seq<GraphRelationship>, x: Id, y: Id)
    ensures EdgeCount(Reversed(rels), y, x) == EdgeCount(rels, x, y)
  {
    if rels != [] {
      var n := |rels| - 1;
      assert Reversed(rels)[..n] == Reversed(rels[..n]);
      EdgeCountReverses(rels[..n], x, y);
    }
  }

  /** The reverse adjacency is the transpose of the forward one, multiplicities included. */
  lemma ReverseIsTranspose(rels: seq<GraphRelationship>, forward: Adjacency, reverse: Adjacency, x: Id, y: Id)
    requires ListsTargets(forward, rels) && ListsTargets(reverse, Reversed(rels))
    ensures multiset(Neighbors(forward, x))[y] == multiset(Neighbors(reverse, y))[x] == EdgeCount(rels, x, y)
    ensures y in Neighbors(forward, x) <==> x in Neighbors(reverse, y)
  {
    TargetsCountEdges(rels, x, y);
    TargetsCountEdges(Reversed(rels), y, x);
    EdgeCountReverses(rels, x, y);
    assert y in Neighbors(forward, x) <==> y in multiset(Neighbors(forward, x));
    assert x in Neighbors(reverse, y) <==> x in multiset(Neighbors(reverse, y));
  }

  // ------------------------------------------------------------------
  // What the search promises
  // ------------------------------------------------------------------

  /** Nodes the search neither reports nor walks through; an id missing from the graph is not one. */
  predicate Blocked(graph: Graph, id: Id) {
    id in graph.nodes
    && (|| graph.nodes[id].kind.Community?
        || ContainsText(graph.nodes[id].filePath, "/obj/")
        || ContainsText(graph.nodes[id].filePath, "\\obj\\"))
  }

  predicate Step(graph: Graph, adjacency: Adjacency, x: Id, y: Id) {
    y in Neighbors(adjacency, x) && !Blocked(graph, y)
  }

  /** A path whose nodes after the first all pass the filter. */
  ghost predicate IsWalk(graph: Graph, adjacency: Adjacency, p: seq<Id>) {
    p != [] && forall i {:trigger p[i]} :: 0 <= i < |p| - 1 ==> Step(graph, adjacency, p[i], p[i + 1])
  }

  /** Some walk of `d` steps leads from a seed to `x`. */
  ghost predicate Reaches(graph: Graph, adjacency: Adjacency, seeds: seq<Id>, x: Id, d: nat) {
    exists p :: IsWalk(graph, adjacency, p) && |p| == d + 1 && p[0] in seeds && p[d] == x
  }

  /** `d` is the length of the shortest walk from a seed to `x`. */
  ghost predicate AtDistance(graph: Graph, adjacency: Adjacency, seeds: seq<Id>, x: Id, d: nat) {
    Reaches(graph, adjacency, seeds, x, d) && forall e: nat :: e < d ==> !Reaches(graph, adjacency, seeds, x, e)
  }

  function CountAtDepth(nodes: seq<ImpactNode>, depth: nat): nat {
    if nodes == [] then 0 else
      CountAtDepth(nodes[..|nodes| - 1], depth) + if nodes[|nodes| - 1].depth == depth then 1 else 0
  }

  /** Ids once each, by non-decreasing depth, and counted per depth. */
  ghost predicate WellReported(r: ImpactDirectionResult, maxDepth: nat) {
    && (forall i, j | 0 <= i < j < |r.nodes| :: r.nodes[i].id != r.nodes[j].id)
    && (forall i, j | 0 <= i < j < |r.nodes| :: r.nodes[i].depth <= r.nodes[j].depth)
    && |r.depthCounts| == maxDepth
    && (forall k | 0 <= k < maxDepth :: r.depthCounts[k] == CountAtDepth(r.nodes, k + 1))
  }

  ghost predicate IsImpact(graph: Graph, adjacency: Adjacency, seeds: seq<Id>, maxDepth: nat, r: ImpactDirectionResult) {
    && WellReported(r, maxDepth)
    && forall x, d: nat :: ImpactNode(x, d) in r.nodes
         <==> x !in seeds && 1 <= d <= maxDepth && AtDistance(graph, adjacency, seeds, x, d)
  }

  lemma SeedIsReached(graph: Graph, adjacency: Adjacency, seeds: seq<Id>, x: Id)
    ensures Reaches(graph, adjacency, seeds, x, 0) <==> x in seeds
  {
    hide Step;
    if x in seeds {
      assert IsWalk(graph, adjacency, [x]) && [x][0] in seeds;
    }
  }

  lemma StepReaches(graph: Graph, adjacency: Adjacency, seeds: seq<Id>, x: Id, y: Id, d: nat)
    requires Reaches(graph, adjacency, seeds, x, d) && Step(graph, adjacency, x, y)
    ensures Reaches(graph, adjacency, seeds, y, d + 1)
  {
    hide Step;
    var p :| IsWalk(graph, adjacency, p) && |p| == d + 1 && p[0] in seeds && p[d] == x;
    var q := p + [y];
    assert forall i :: 0 <= i < |p| ==> q[i] == p[i];
    assert IsWalk(graph, adjacency, q) && q[0] in seeds && q[d + 1] == y;
  }

  lemma ReachedByStep(graph: Graph, adjacency: Adjacency, seeds: seq<Id>, y: Id, d: nat) returns (x: Id)
    requires d > 0 && Reaches(graph, adjacency, seeds, y, d)
    ensures Reaches(graph, adjacency, seeds, x, d - 1) && Step(graph, adjacency, x, y)
  {
    hide Step;
    var p :| IsWalk(graph, adjacency, p) && |p| == d + 1 && p[0] in seeds && p[d] == y;
    var q := p[..d];
    x := p[d - 1];
    assert IsWalk(graph, adjacency, q) && q[0] in seeds && q[d - 1] == x;
  }

  // ------------------------------------------------------------------
  // The search
  // ------------------------------------------------------------------

  type Queue = seq<(Id, nat)>

  predicate Queued(queue: Queue, x: Id) {
    exists i :: 0 <= i < |queue| && queue[i].0 == x
  }

  /** Every known id has a walk of the length recorded for it; length zero means seed. */
  ghost predicate DepthsReached(graph: Graph, adjacency: Adjacency, seeds: seq<Id>, maxDepth: nat,
                                depthOf: map<Id, nat>, current: nat) {
    && (forall x | x in depthOf :: Reaches(graph, adjacency, seeds, x, depthOf[x]))
    && (forall x | x in depthOf :: depthOf[x] <= maxDepth && depthOf[x] <= current + 1)
    && (forall x :: x in seeds <==> x in depthOf && depthOf[x] == 0)
  }

  ghost predicate QueueSorted(depthOf: map<Id, nat>, queue: Queue, current: nat) {
    && (forall i | 0 <= i < |queue| :: queue[i].0 in depthOf && depthOf[queue[i].0] == queue[i].1)
    && (forall i | 0 <= i < |queue| :: current <= queue[i].1 <= current + 1)
    && (forall i, j | 0 <= i < j < |queue| :: queue[i].1 <= queue[j].1)
  }

  /** Whatever one step leads to from `x` is known, at most one deeper. */
  ghost predicate Expanded(graph: Graph, adjacency: Adjacency, depthOf: map<Id, nat>, x: Id)
    requires x in depthOf
  {
    forall y :: Step(graph, adjacency, x, y) ==> y in depthOf && depthOf[y] <= depthOf[x] + 1
  }

  ghost predicate DequeuedExpanded(graph: Graph, adjacency: Adjacency, maxDepth: nat, depthOf: map<Id, nat>, queue: Queue) {
    forall x {:trigger Queued(queue, x)} ::
      x in depthOf && depthOf[x] < maxDepth && !Queued(queue, x) ==> Expanded(graph, adjacency, depthOf, x)
  }

  ghost predicate Searching(graph: Graph, adjacency: Adjacency, seeds: seq<Id>, maxDepth: nat,
                            depthOf: map<Id, nat>, queue: Queue, current: nat) {
    && DepthsReached(graph, adjacency, seeds, maxDepth, depthOf, current)
    && QueueSorted(depthOf, queue, current)
    && DequeuedExpanded(graph, adjacency, maxDepth, depthOf, queue)
  }

  function AtDepth(ids: seq<Id>, depth: nat): (q: Queue)
    ensures |q| == |ids| && forall i | 0 <= i < |ids| :: q[i] == (ids[i], depth)
  {
    seq(|ids|, i requires 0 <= i < |ids| => (ids[i], depth))
  }

  ghost function Deepen(depthOf: map<Id, nat>, found: seq<Id>, depth: nat): map<Id, nat> {
    depthOf + map x | x in found :: depth
  }

  /** The neighbors of the dequeued id that the search finds. */
  ghost predicate FindsNew(graph: Graph, adjacency: Adjacency, maxDepth: nat, depthOf: map<Id, nat>,
                           x: Id, depth: nat, found: seq<Id>) {
    && NoDuplicates(found)
    && (depth >= maxDepth ==> found == [])
    && (depth < maxDepth ==> forall y :: y in found <==> Step(graph, adjacency, x, y) && y !in depthOf)
  }

  lemma DepthsStep(graph: Graph, adjacency: Adjacency, seeds: seq<Id>, maxDepth: nat,
                   depthOf: map<Id, nat>, current: nat, x: Id, depth: nat, found: seq<Id>)
    requires DepthsReached(graph, adjacency, seeds, maxDepth, depthOf, current)
    requires x in depthOf && depthOf[x] == depth && current <= depth
    requires FindsNew(graph, adjacency, maxDepth, depthOf, x, depth, found)
    ensures DepthsReached(graph, adjacency, seeds, maxDepth, Deepen(depthOf, found, depth + 1), depth)
  {
    hide Reaches, NoDuplicates, Step;
    var deeper := Deepen(depthOf, found, depth + 1);
    forall y | y in deeper ensures Reaches(graph, adjacency, seeds, y, deeper[y]) {
      if y in found { StepReaches(graph, adjacency, seeds, x, y, depth); }
    }
    forall y ensures y in seeds <==> y in deeper && deeper[y] == 0 {
      assert y in found ==> y !in depthOf;
    }
  }

  lemma QueueStep(depthOf: map<Id, nat>, queue: Queue, current: nat, found: seq<Id>)
    requires QueueSorted(depthOf, queue, current) && queue != []
    requires forall y | y in found :: y !in depthOf
    ensures QueueSorted(Deepen(depthOf, found, queue[0].1 + 1), queue[1..] + AtDepth(found, queue[0].1 + 1), queue[0].1)
  {
    var depth := queue[0].1;
    var rest, more := queue[1..], AtDepth(found, depth + 1);
    var q := rest + more;
    forall i | 0 <= i < |q|
      ensures q[i] == if i < |rest| then queue[i + 1] else (found[i - |rest|], depth + 1)
    {
      if i >= |rest| { assert more[i - |rest|] == (found[i - |rest|], depth + 1); }
    }
  }

  lemma QueuedLater(queue: Queue, found: seq<Id>, depth: nat, z: Id)
    requires queue != []
    ensures z in found ==> Queued(queue[1..] + AtDepth(found, depth), z)
    ensures Queued(queue, z) && queue[0].0 != z ==> Queued(queue[1..] + AtDepth(found, depth), z)
  {
    var q := queue[1..] + AtDepth(found, depth);
    forall i | 0 <= i < |found| ensures Queued(q, found[i]) {
      assert q[|queue| - 1 + i].0 == found[i];
    }
    forall i | 1 <= i < |queue| ensures Queued(q, queue[i].0) {
      assert q[i - 1] == queue[i];
    }
  }

  lemma ExpandedStep(graph: Graph, adjacency: Adjacency, maxDepth: nat, depthOf: map<Id, nat>,
                     queue: Queue, found: seq<Id>, z: Id)
    requires queue != [] && queue[0].0 in depthOf && depthOf[queue[0].0] == queue[0].1
    requires forall y | y in depthOf :: depthOf[y] <= queue[0].1 + 1
    requires DequeuedExpanded(graph, adjacency, maxDepth, depthOf, queue)
    requires FindsNew(graph, adjacency, maxDepth, depthOf, queue[0].0, queue[0].1, found)
    requires z in Deepen(depthOf, found, queue[0].1 + 1) && Deepen(depthOf, found, queue[0].1 + 1)[z] < maxDepth
    requires !Queued(queue[1..] + AtDepth(found, queue[0].1 + 1), z)
    ensures Expanded(graph, adjacency, Deepen(depthOf, found, queue[0].1 + 1), z)
  {
    hide Step, NoDuplicates;
    var x, depth := queue[0].0, queue[0].1;
    QueuedLater(queue, found, depth + 1, z);
    if z != x {
      assert Expanded(graph, adjacency, depthOf, z);
    }
  }

  lemma SearchStep(graph: Graph, adjacency: Adjacency, seeds: seq<Id>, maxDepth: nat,
                   depthOf: map<Id, nat>, queue: Queue, current: nat, found: seq<Id>)
    requires Searching(graph, adjacency, seeds, maxDepth, depthOf, queue, current) && queue != []
    requires FindsNew(graph, adjacency, maxDepth, depthOf, queue[0].0, queue[0].1, found)
    ensures Searching(graph, adjacency, seeds, maxDepth, Deepen(depthOf, found, queue[0].1 + 1),
                      queue[1..] + AtDepth(found, queue[0].1 + 1), queue[0].1)
  {
    var x, depth := queue[0].0, queue[0].1;
    assert x in depthOf && depthOf[x] == depth && current <= depth;
    assert forall y | y in depthOf :: depthOf[y] <= depth + 1;
    assert forall y | y in found :: y !in depthOf;
    hide Step, Reaches, NoDuplicates, Deepen, Queued, Expanded, DepthsReached, QueueSorted, FindsNew;
    DepthsStep(graph, adjacency, seeds, maxDepth, depthOf, current, x, depth, found);
    QueueStep(depthOf, queue, current, found);
    var deeper, q := Deepen(depthOf, found, depth + 1), queue[1..] + AtDepth(found, depth + 1);
    forall z | z in deeper && deeper[z] < maxDepth && !Queued(q, z) ensures Expanded(graph, adjacency, deeper, z) {
      ExpandedStep(graph, adjacency, maxDepth, depthOf, queue, found, z);
    }
  }

  /** With the queue empty, recorded lengths are shortest, and nothing within the depth is missing. */
  lemma {:induction false} NothingMissed(graph: Graph, adjacency: Adjacency, seeds: seq<Id>, maxDepth: nat,
                                         depthOf: map<Id, nat>, current: nat, x: Id, d: nat)
    requires Searching(graph, adjacency, seeds, maxDepth, depthOf, [], current)
    requires Reaches(graph, adjacency, seeds, x, d) && d <= maxDepth
    ensures x in depthOf && depthOf[x] <= d
    decreases d
  {
    hide Reaches, Step;
    if d == 0 {
      SeedIsReached(graph, adjacency, seeds, x);
    } else {
      var w := ReachedByStep(graph, adjacency, seeds, x, d);
      NothingMissed(graph, adjacency, seeds, maxDepth, depthOf, current, w, d - 1);
      assert !Queued([], w);
      assert Expanded(graph, adjacency, depthOf, w);
    }
  }

  lemma DepthsAreDistances(graph: Graph, adjacency: Adjacency, seeds: seq<Id>, maxDepth: nat,
                           depthOf: map<Id, nat>, current: nat, x: Id, d: nat)
    requires Searching(graph, adjacency, seeds, maxDepth, depthOf, [], current)
    ensures x in depthOf && depthOf[x] == d <==> d <= maxDepth && AtDistance(graph, adjacency, seeds, x, d)
  {
    hide Reaches, Step, QueueSorted, DequeuedExpanded;
    if x in depthOf && depthOf[x] == d {
      forall e: nat | e < d ensures !Reaches(graph, adjacency, seeds, x, e) {
        if Reaches(graph, adjacency, seeds, x, e) {
          NothingMissed(graph, adjacency, seeds, maxDepth, depthOf, current, x, e);
        }
      }
    }
    if d <= maxDepth && AtDistance(graph, adjacency, seeds, x, d) {
      NothingMissed(graph, adjacency, seeds, maxDepth, depthOf, current, x, d);
      assert Reaches(graph, adjacency, seeds, x, depthOf[x]);
    }
  }

  // ------------------------------------------------------------------
  // The report kept along the way
  // ------------------------------------------------------------------

  /** The report lists the known ids that are not seeds, with their lengths. */
  ghost predicate Reports(depthOf: map<Id, nat>, r: ImpactDirectionResult, maxDepth: nat, current: nat) {
    && WellReported(r, maxDepth)
    && ReportsExactly(depthOf, r.nodes)
    && (forall i | 0 <= i < |r.nodes| :: r.nodes[i].depth <= current + 1)
  }

  lemma WellReportedOneMore(r: ImpactDirectionResult, maxDepth: nat, x: Id, d: nat)
    requires WellReported(r, maxDepth) && 0 < d <= maxDepth
    ensures |r.depthCounts| == maxDepth
    requires forall i | 0 <= i < |r.nodes| :: r.nodes[i].id != x && r.nodes[i].depth <= d
    ensures WellReported(ImpactDirectionResult(r.nodes + [ImpactNode(x, d)],
                                               r.depthCounts[d - 1 := r.depthCounts[d - 1] + 1]), maxDepth)
  {
    assert (r.nodes + [ImpactNode(x, d)])[..|r.nodes|] == r.nodes;
  }

  /** The same nodes by membership. */
  ghost predicate ReportsExactly(depthOf: map<Id, nat>, nodes: seq<ImpactNode>) {
    forall n :: n in nodes <==> n.id in depthOf && depthOf[n.id] == n.depth && n.depth > 0
  }

  lemma ReportsExactlyOneMore(depthOf: map<Id, nat>, nodes: seq<ImpactNode>, x: Id, d: nat)
    requires ReportsExactly(depthOf, nodes) && x !in depthOf && d > 0
    ensures ReportsExactly(depthOf[x := d], nodes + [ImpactNode(x, d)])
    ensures forall i | 0 <= i < |nodes| :: nodes[i].id != x
  {
    forall i | 0 <= i < |nodes| ensures nodes[i].id != x {
      assert nodes[i] in nodes;
    }
  }

  lemma ReportOneMore(depthOf: map<Id, nat>, r: ImpactDirectionResult, maxDepth: nat, current: nat, x: Id)
    requires Reports(depthOf, r, maxDepth, current) && current < maxDepth && x !in depthOf
    ensures |r.depthCounts| == maxDepth
    ensures Reports(depthOf[x := current + 1],
                    ImpactDirectionResult(r.nodes + [ImpactNode(x, current + 1)],
                                          r.depthCounts[current := r.depthCounts[current] + 1]),
                    maxDepth, current)
  {
    hide WellReported, ReportsExactly;
    ReportsExactlyOneMore(depthOf, r.nodes, x, current + 1);
    WellReportedOneMore(r, maxDepth, x, current + 1);
  }

  lemma ReportsLater(depthOf: map<Id, nat>, r: ImpactDirectionResult, maxDepth: nat, current: nat, later: nat)
    requires Reports(depthOf, r, maxDepth, current) && current <= later
    ensures Reports(depthOf, r, maxDepth, later)
  {
  }

  ghost function Universe(adjacency: Adjacency, seeds: seq<Id>): set<Id> {
    (set x | x in seeds) + set x, y | x in adjacency && y in adjacency[x] :: y
  }

  /** What has been found among the neighbors seen so far. */
  ghost predicate FoundAmong(graph: Graph, seen: seq<Id>, depthOf: map<Id, nat>, found: seq<Id>) {
    && NoDuplicates(found)
    && forall y :: y in found <==> y in seen && !Blocked(graph, y) && y !in depthOf
  }

  lemma NothingFoundYet(graph: Graph, depthOf: map<Id, nat>)
    ensures FoundAmong(graph, [], depthOf, [])
  {
  }

  lemma FoundOneMore(graph: Graph, neighbors: seq<Id>, i: nat, depthOf: map<Id, nat>, found: seq<Id>)
    requires i < |neighbors| && FoundAmong(graph, neighbors[..i], depthOf, found)
    ensures var y := neighbors[i];
            if y in depthOf || y in found || Blocked(graph, y)
            then FoundAmong(graph, neighbors[..i + 1], depthOf, found)
            else FoundAmong(graph, neighbors[..i + 1], depthOf, found + [y])
  {
    hide Blocked;
    assert neighbors[..i + 1] == neighbors[..i] + [neighbors[i]];
  }

  lemma DeepenOneMore(depthOf: map<Id, nat>, found: seq<Id>, y: Id, depth: nat)
    ensures Deepen(depthOf, found + [y], depth) == Deepen(depthOf, found, depth)[y := depth]
    ensures AtDepth(found + [y], depth) == AtDepth(found, depth) + [(y, depth)]
    ensures y in Deepen(depthOf, found, depth) <==> y in depthOf || y in found
  {
  }

  /** The inner loop: neighbors that are new and not blocked are recorded and queued. */
  method ExpandNeighbors(graph: Graph, neighbors: seq<Id>, depth: nat, ghost maxDepth: nat,
                         visited0: set<Id>, queue0: Queue, nodes0: seq<ImpactNode>, depthCounts0: seq<nat>,
                         ghost depthOf: map<Id, nat>)
    returns (visited: set<Id>, queue: Queue, nodes: seq<ImpactNode>, depthCounts: seq<nat>, ghost found: seq<Id>)
    requires depth < maxDepth && visited0 == depthOf.Keys
    requires Reports(depthOf, ImpactDirectionResult(nodes0, depthCounts0), maxDepth, depth)
    ensures FoundAmong(graph, neighbors, depthOf, found)
    ensures visited == Deepen(depthOf, found, depth + 1).Keys
    ensures queue == queue0 + AtDepth(found, depth + 1)
    ensures Reports(Deepen(depthOf, found, depth + 1), ImpactDirectionResult(nodes, depthCounts), maxDepth, depth)
  {
    hide *;
    visited, queue, nodes, depthCounts, found := visited0, queue0, nodes0, depthCounts0, [];
    assert neighbors[..0] == [];
    NothingFoundYet(graph, depthOf);
    DeepenByNone(depthOf, depth + 1);
    for i := 0 to |neighbors|
      invariant FoundAmong(graph, neighbors[..i], depthOf, found)
      invariant visited == Deepen(depthOf, found, depth + 1).Keys
      invariant queue == queue0 + AtDepth(found, depth + 1)
      invariant Reports(Deepen(depthOf, found, depth + 1), ImpactDirectionResult(nodes, depthCounts), maxDepth, depth)
    {
      var neighbor := neighbors[i];
      FoundOneMore(graph, neighbors, i, depthOf, found);
      DeepenOneMore(depthOf, found, neighbor, depth + 1);
      if neighbor in visited {
        continue;
      }
      if Blocked(graph, neighbor) {
        continue;
      }
      ReportOneMore(Deepen(depthOf, found, depth + 1), ImpactDirectionResult(nodes, depthCounts), maxDepth, depth, neighbor);
      visited := visited + {neighbor};
      nodes := nodes + [ImpactNode(neighbor, depth + 1)];
      depthCounts := depthCounts[depth := depthCounts[depth] + 1];
      queue := queue + [(neighbor, depth + 1)];
      found := found + [neighbor];
    }
    assert neighbors[..|neighbors|] == neighbors;
  }

  lemma FoundIsNew(graph: Graph, adjacency: Adjacency, maxDepth: nat, depthOf: map<Id, nat>, x: Id, depth: nat, found: seq<Id>)
    requires FoundAmong(graph, Neighbors(adjacency, x), depthOf, found) && depth < maxDepth
    ensures FindsNew(graph, adjacency, maxDepth, depthOf, x, depth, found)
  {
    hide Blocked;
  }

  lemma NothingToFind(graph: Graph, adjacency: Adjacency, maxDepth: nat, depthOf: map<Id, nat>, x: Id, depth: nat)
    requires depth >= maxDepth || x !in adjacency
    ensures FindsNew(graph, adjacency, maxDepth, depthOf, x, depth, [])
    ensures Deepen(depthOf, [], depth + 1) == depthOf && AtDepth([], depth + 1) == []
  {
    hide Blocked;
  }

  lemma HeadOfQueue(depthOf: map<Id, nat>, queue: Queue, current: nat)
    requires QueueSorted(depthOf, queue, current) && queue != []
    ensures queue[0].0 in depthOf && depthOf[queue[0].0] == queue[0].1 && current <= queue[0].1
  {
  }

  lemma SearchGrows(adjacency: Adjacency, seeds: seq<Id>, graph: Graph, depthOf: map<Id, nat>,
                    x: Id, depth: nat, found: seq<Id>)
    requires FoundAmong(graph, Neighbors(adjacency, x), depthOf, found)
    requires depthOf.Keys <= Universe(adjacency, seeds)
    ensures Deepen(depthOf, found, depth).Keys <= Universe(adjacency, seeds)
    ensures found == [] ==> Deepen(depthOf, found, depth).Keys == depthOf.Keys
    ensures found != [] ==> (found[0] in Deepen(depthOf, found, depth).Keys
                             && found[0] !in depthOf && found[0] in Universe(adjacency, seeds))
    ensures depthOf.Keys <= Deepen(depthOf, found, depth).Keys
  {
    hide Blocked, NoDuplicates;
    forall y | y in found ensures y in Universe(adjacency, seeds) && y !in depthOf {
      assert x in adjacency && y in adjacency[x];
    }
    if found != [] { assert found[0] in found; }
  }

  method BfsImpact(graph: Graph, seeds: seq<Id>, adjacency: Adjacency, maxDepth: nat) returns (r: ImpactDirectionResult)
    ensures IsImpact(graph, adjacency, seeds, maxDepth, r)
  {
    hide *;
    var visited, queue := EnqueueSeeds(seeds);
    var nodes: seq<ImpactNode>, depthCounts := [], Zeroes(maxDepth);
    ghost var depthOf: map<Id, nat> := map x | x in visited :: 0;
    ghost var current: nat := 0;
    SeedsSearched(graph, adjacency, seeds, maxDepth, visited, queue);
    while queue != []
      invariant Searching(graph, adjacency, seeds, maxDepth, depthOf, queue, current)
      invariant Reports(depthOf, ImpactDirectionResult(nodes, depthCounts), maxDepth, current)
      invariant visited == depthOf.Keys && visited <= Universe(adjacency, seeds)
      decreases Universe(adjacency, seeds) - visited, |queue|
    {
      var (nodeId, depth) := queue[0];
      ghost var previous := queue;
      SearchingParts(graph, adjacency, seeds, maxDepth, depthOf, queue, current);
      HeadOfQueue(depthOf, queue, current);
      ReportsLater(depthOf, ImpactDirectionResult(nodes, depthCounts), maxDepth, current, depth);
      queue := queue[1..];
      if depth >= maxDepth || nodeId !in adjacency {
        NothingToFind(graph, adjacency, maxDepth, depthOf, nodeId, depth);
        SearchStep(graph, adjacency, seeds, maxDepth, depthOf, previous, current, []);
        assert queue + [] == queue;
        current := depth;
        continue;
      }
      ghost var found;
      NeighborsOf(adjacency, nodeId);
      visited, queue, nodes, depthCounts, found :=
        ExpandNeighbors(graph, adjacency[nodeId], depth, maxDepth, visited, queue, nodes, depthCounts, depthOf);
      FoundIsNew(graph, adjacency, maxDepth, depthOf, nodeId, depth, found);
      SearchStep(graph, adjacency, seeds, maxDepth, depthOf, previous, current, found);
      SearchGrows(adjacency, seeds, graph, depthOf, nodeId, depth + 1, found);
      if found == [] { DeepenByNone(depthOf, depth + 1); }
      depthOf, current := Deepen(depthOf, found, depth + 1), depth;
    }
    r := ImpactDirectionResult(nodes, depthCounts);
    SearchFinished(graph, adjacency, seeds, maxDepth, depthOf, current, r);
  }

  lemma NeighborsOf(adjacency: Adjacency, x: Id)
    requires x in adjacency
    ensures Neighbors(adjacency, x) == adjacency[x]
  {
  }

  lemma DeepenByNone(depthOf: map<Id, nat>, depth: nat)
    ensures Deepen(depthOf, [], depth) == depthOf && AtDepth([], depth) == []
  {
  }

  lemma SearchingParts(graph: Graph, adjacency: Adjacency, seeds: seq<Id>, maxDepth: nat,
                       depthOf: map<Id, nat>, queue: Queue, current: nat)
    requires Searching(graph, adjacency, seeds, maxDepth, depthOf, queue, current)
    ensures QueueSorted(depthOf, queue, current)
  {
  }

  function Zeroes(n: nat): seq<nat> {
    seq(n, _ => 0)
  }

  /** Seeds enter the queue once each, at depth zero. */
  method EnqueueSeeds(seeds: seq<Id>) returns (visited: set<Id>, queue: Queue)
    ensures visited == set s | s in seeds
    ensures forall x :: x in seeds <==> Queued(queue, x)
    ensures forall i | 0 <= i < |queue| :: queue[i].1 == 0
  {
    visited, queue := {}, [];
    for i := 0 to |seeds|
      invariant visited == set s | s in seeds[..i]
      invariant forall x :: x in visited <==> Queued(queue, x)
      invariant forall i | 0 <= i < |queue| :: queue[i].1 == 0
    {
      assert seeds[..i + 1] == seeds[..i] + [seeds[i]];
      if seeds[i] !in visited {
        QueuedAppend(queue, seeds[i]);
        hide Queued;
        visited := visited + {seeds[i]};
        queue := queue + [(seeds[i], 0)];
      }
    }
    assert seeds[..|seeds|] == seeds;
  }

  lemma QueuedAppend(queue: Queue, x: Id)
    ensures forall y :: Queued(queue + [(x, 0)], y) <==> Queued(queue, y) || y == x
  {
    var q := queue + [(x, 0)];
    assert q[|queue|].0 == x;
    forall y | Queued(queue, y) ensures Queued(q, y) {
      var i :| 0 <= i < |queue| && queue[i].0 == y;
      assert q[i].0 == y;
    }
  }

  lemma SeedsSearched(graph: Graph, adjacency: Adjacency, seeds: seq<Id>, maxDepth: nat, visited: set<Id>, queue: Queue)
    requires visited == set s | s in seeds
    requires forall x :: x in seeds <==> Queued(queue, x)
    requires forall i | 0 <= i < |queue| :: queue[i].1 == 0
    ensures var depthOf := map x | x in visited :: 0;
            && Searching(graph, adjacency, seeds, maxDepth, depthOf, queue, 0)
            && depthOf.Keys == visited && visited <= Universe(adjacency, seeds)
            && Reports(depthOf, ImpactDirectionResult([], Zeroes(maxDepth)), maxDepth, 0)
  {
    hide Step, Expanded, Reaches;
    var depthOf := map x | x in visited :: 0;
    forall x ensures Reaches(graph, adjacency, seeds, x, 0) <==> x in seeds {
      SeedIsReached(graph, adjacency, seeds, x);
    }
    forall i | 0 <= i < |queue| ensures queue[i].0 in depthOf {
      assert Queued(queue, queue[i].0);
    }
  }

  lemma SearchFinished(graph: Graph, adjacency: Adjacency, seeds: seq<Id>, maxDepth: nat,
                       depthOf: map<Id, nat>, current: nat, r: ImpactDirectionResult)
    requires Searching(graph, adjacency, seeds, maxDepth, depthOf, [], current)
    requires Reports(depthOf, r, maxDepth, current)
    ensures IsImpact(graph, adjacency, seeds, maxDepth, r)
  {
    hide WellReported, AtDistance, Searching;
    forall x, d: nat
      ensures ImpactNode(x, d) in r.nodes
         <==> x !in seeds && 1 <= d <= maxDepth && AtDistance(graph, adjacency, seeds, x, d)
    {
      DepthsAreDistances(graph, adjacency, seeds, maxDepth, depthOf, current, x, d);
      DepthsAreDistances(graph, adjacency, seeds, maxDepth, depthOf, current, x, 0);
      SeedsAtZero(graph, adjacency, seeds, x);
    }
  }

  lemma SeedsAtZero(graph: Graph, adjacency: Adjacency, seeds: seq<Id>, x: Id)
    ensures AtDistance(graph, adjacency, seeds, x, 0) <==> x in seeds
  {
    SeedIsReached(graph, adjacency, seeds, x);
  }

  // ------------------------------------------------------------------
  // Downstream and upstream
  // ------------------------------------------------------------------

  lemma StepReverses(graph: Graph, forward: Adjacency, reverse: Adjacency, x: Id, y: Id)
    requires ListsTargets(forward, graph.relationships) && ListsTargets(reverse, Reversed(graph.relationships))
    requires !Blocked(graph, x) && Step(graph, forward, x, y)
    ensures Step(graph, reverse, y, x)
  {
    hide Blocked;
    ReverseIsTranspose(graph.relationships, forward, reverse, x, y);
  }

  function Backwards(p: seq<Id>): (q: seq<Id>)
    ensures |q| == |p| && forall i | 0 <= i < |p| :: q[i] == p[|p| - 1 - i]
  {
    seq(|p|, i requires 0 <= i < |p| => p[|p| - 1 - i])
  }

  /** A walk read backwards is a walk of the reverse adjacency, once its first node passes the filter. */
  lemma WalkReverses(graph: Graph, forward: Adjacency, reverse: Adjacency, p: seq<Id>)
    requires ListsTargets(forward, graph.relationships) && ListsTargets(reverse, Reversed(graph.relationships))
    requires IsWalk(graph, forward, p) && !Blocked(graph, p[0])
    ensures IsWalk(graph, reverse, Backwards(p))
  {
    hide ListsTargets, Blocked;
    var q := Backwards(p);
    forall i | 0 <= i < |q| - 1 ensures Step(graph, reverse, q[i], q[i + 1]) {
      var j := |p| - 2 - i;
      assert Step(graph, forward, p[j], p[j + 1]);
      assert j > 0 ==> Step(graph, forward, p[j - 1], p[j - 1 + 1]);
      StepReverses(graph, forward, reverse, p[j], p[j + 1]);
    }
  }

  lemma ReachReverses(graph: Graph, forward: Adjacency, reverse: Adjacency, x: Id, y: Id, d: nat)
    requires ListsTargets(forward, graph.relationships) && ListsTargets(reverse, Reversed(graph.relationships))
    requires !Blocked(graph, x) && Reaches(graph, forward, [x], y, d)
    ensures Reaches(graph, reverse, [y], x, d)
  {
    hide ListsTargets, Blocked, Step;
    var p :| IsWalk(graph, forward, p) && |p| == d + 1 && p[0] in [x] && p[d] == y;
    WalkReverses(graph, forward, reverse, p);
    var q := Backwards(p);
    assert q[0] in [y] && q[d] == x;
  }

  lemma ReversedTwice(rels: seq<GraphRelationship>)
    ensures Reversed(Reversed(rels)) == rels
  {
  }

  /** Blast radius is symmetric: for two distinct nodes passing the filter, one is
      downstream of the other at a depth exactly when that other is upstream of it
      at the same depth. */
  lemma DownstreamIsUpstreamReversed(graph: Graph, forward: Adjacency, reverse: Adjacency, maxDepth: nat,
                                     x: Id, down: ImpactDirectionResult, y: Id, up: ImpactDirectionResult, d: nat)
    requires ListsTargets(forward, graph.relationships) && ListsTargets(reverse, Reversed(graph.relationships))
    requires x != y && !Blocked(graph, x) && !Blocked(graph, y)
    requires IsImpact(graph, forward, [x], maxDepth, down) && IsImpact(graph, reverse, [y], maxDepth, up)
    ensures ImpactNode(y, d) in down.nodes <==> ImpactNode(x, d) in up.nodes
  {
    hide ListsTargets, Blocked, Reaches, WellReported;
    forall e: nat ensures Reaches(graph, forward, [x], y, e) <==> Reaches(graph, reverse, [y], x, e) {
      var mirrored := Graph(graph.nodes, Reversed(graph.relationships));
      if Reaches(graph, forward, [x], y, e) { ReachReverses(graph, forward, reverse, x, y, e); }
      if Reaches(graph, reverse, [y], x, e) {
        ReversedTwice(graph.relationships);
        SameFilter(graph, mirrored, reverse, [y], x, e);
        SameFilter(graph, mirrored, forward, [x], y, e);
        ReachReverses(mirrored, reverse, forward, y, x, e);
      }
    }
  }

  lemma SameFilter(graph: Graph, other: Graph, adjacency: Adjacency, seeds: seq<Id>, x: Id, d: nat)
    requires other.nodes == graph.nodes
    ensures forall y :: Blocked(graph, y) == Blocked(other, y)
    ensures Reaches(graph, adjacency, seeds, x, d) <==> Reaches(other, adjacency, seeds, x, d)
  {
    assert forall p :: IsWalk(graph, adjacency, p) <==> IsWalk(other, adjacency, p);
  }

  // ------------------------------------------------------------------
  // Seeds and the whole analysis
  // ------------------------------------------------------------------

  datatype ImpactTarget = ImpactTarget(id: Id, name: string, kind: NodeLabel, filePath: string)

  datatype ImpactAnalysis =
    ImpactAnalysis(target: ImpactTarget, seedIds: seq<Id>, downstream: ImpactDirectionResult, upstream: ImpactDirectionResult)

  predicate HasMembers(kind: NodeLabel) {
    kind.Class? || kind.Service? || kind.Interface? || kind.Controller?
  }

  /** The nodes whose members are seeded: the target, and for a controller its class twins. */
  ghost predicate IsSeedSource(graph: Graph, target: ImpactTarget, id: Id) {
    || id == target.id
    || (target.kind.Controller? && id in graph.nodes && IsTwin(graph.nodes[id], target))
  }

  predicate IsTwin(node: GraphNode, target: ImpactTarget) {
    node.kind.Class? && node.name == target.name && node.filePath == target.filePath
  }

  predicate IsMembership(relType: RelationshipType) {
    relType.HasMethod? || relType.HasProperty? || relType.HasAction?
  }

  ghost predicate IsSeed(graph: Graph, target: ImpactTarget, id: Id) {
    || id == target.id
    || (HasMembers(target.kind)
        && exists rel :: rel in graph.relationships && IsMembership(rel.relType)
                         && rel.targetId == id && IsSeedSource(graph, target, rel.sourceId))
  }

  method CollectSeedSources(graph: Graph, target: ImpactTarget) returns (sourceIds: seq<Id>)
    requires forall id | id in graph.nodes :: graph.nodes[id].id == id
    ensures forall id :: id in sourceIds <==> IsSeedSource(graph, target, id)
  {
    sourceIds := [target.id];
    if target.kind.Controller? {
      var rest := graph.nodes.Keys;
      ghost var seen := {};
      while rest != {}
        invariant seen + rest == graph.nodes.Keys && seen !! rest
        invariant forall id :: id in sourceIds <==>
          id == target.id || (id in seen && IsTwin(graph.nodes[id], target))
        decreases rest
      {
        var id :| id in rest;
        if IsTwin(graph.nodes[id], target) {
          sourceIds := sourceIds + [graph.nodes[id].id];
        }
        rest, seen := rest - {id}, seen + {id};
      }
    }
  }

  method CollectImpactSeedIds(graph: Graph, target: ImpactTarget) returns (seedIds: seq<Id>)
    requires forall id | id in graph.nodes :: graph.nodes[id].id == id
    ensures seedIds != [] && seedIds[0] == target.id
    ensures forall id :: id in seedIds <==> IsSeed(graph, target, id)
  {
    seedIds := [target.id];
    if !HasMembers(target.kind) {
      return;
    }
    var sourceIds := CollectSeedSources(graph, target);
    var rels := graph.relationships;
    for i := 0 to |rels|
      invariant seedIds != [] && seedIds[0] == target.id
      invariant forall id :: id in seedIds <==> (id == target.id ||
        exists j :: 0 <= j < i && IsMembership(rels[j].relType) && rels[j].targetId == id && rels[j].sourceId in sourceIds)
    {
      if rels[i].sourceId in sourceIds && IsMembership(rels[i].relType) {
        seedIds := seedIds + [rels[i].targetId];
      }
    }
    hide IsSeedSource, IsMembership;
    forall id ensures id in seedIds <==> IsSeed(graph, target, id) {
      if exists j :: 0 <= j < |rels| && IsMembership(rels[j].relType) && rels[j].targetId == id
                     && rels[j].sourceId in sourceIds {
        var j :| 0 <= j < |rels| && IsMembership(rels[j].relType) && rels[j].targetId == id && rels[j].sourceId in sourceIds;
        assert rels[j] in rels;
      }
    }
  }

  /** The whole analysis of a resolved symbol; symbol lookup itself is the caller's. */
  method AnalyzeImpact(graph: Graph, resolved: Option<ImpactTarget>, maxDepth: nat) returns (analysis: Option<ImpactAnalysis>)
    requires forall id | id in graph.nodes :: graph.nodes[id].id == id
    ensures analysis.None? <==> resolved.None?
    ensures analysis.Some? ==>
      var a := analysis.value;
      && a.target == resolved.value
      && (forall id :: id in a.seedIds <==> IsSeed(graph, a.target, id))
      && exists forward, reverse ::
           && ListsTargets(forward, graph.relationships) && ListsTargets(reverse, Reversed(graph.relationships))
           && IsImpact(graph, forward, a.seedIds, maxDepth, a.downstream)
           && IsImpact(graph, reverse, a.seedIds, maxDepth, a.upstream)
  {
    hide *;
    match resolved
    case None => analysis := None;
    case Some(target) =>
      var seedIds := CollectImpactSeedIds(graph, target);
      var forward, reverse := BuildImpactAdjacency(graph);
      var downstream := BfsImpact(graph, seedIds, forward, maxDepth);
      var upstream := BfsImpact(graph, seedIds, reverse, maxDepth);
      analysis := Some(ImpactAnalysis(target, seedIds, downstream, upstream));
  }
}
