/** Import levelling: Kahn's algorithm by levels, with a residue for cycles. */
module ImportLevels {
  import opened Sorting

  type File = string
  type ImportMap = map<File, set<File>>

  datatype TopologicalResult = TopologicalResult(levels: seq<seq<File>>, cycleCount: nat)

  // ------------------------------------------------------------------
  // The graph and what a level means
  // ------------------------------------------------------------------

  /** What a file imports, self-imports left out. */
  function Imports(m: ImportMap, f: File): set<File> {
    if f in m then m[f] - {f} else {}
  }

  /** Every file the import map names, as importer or as imported. */
  function AllFiles(m: ImportMap): set<File> {
    NamedBy(m, m.Keys)
  }

  function NamedBy(m: ImportMap, done: set<File>): set<File>
    requires done <= m.Keys
  {
    done + set f, g | f in done && g in m[f] :: g
  }

  /** Each file of `p` imports the next one. */
  ghost predicate IsChain(m: ImportMap, p: seq<File>) {
    p != [] && forall i {:trigger Imports(m, p[i])} :: 0 <= i < |p| - 1 ==> p[i + 1] in Imports(m, p[i])
  }

  /** The longest import chain starting at `f` has exactly `k` imports. */
  ghost predicate LongestChain(m: ImportMap, f: File, k: nat) {
    && (exists p :: IsChain(m, p) && p[0] == f && |p| == k + 1)
    && (forall p :: IsChain(m, p) && p[0] == f ==> |p| <= k + 1)
  }

  /** Following imports from `f` one can come back to a file already visited. */
  ghost predicate ReachesCycle(m: ImportMap, f: File) {
    exists p, i :: IsChain(m, p) && p[0] == f && 0 <= i < |p| - 1 && p[i] == p[|p| - 1]
  }

  ghost predicate Acyclic(m: ImportMap) {
    forall f :: !ReachesCycle(m, f)
  }

  function ProperLevels(r: TopologicalResult): seq<seq<File>>
    requires r.cycleCount > 0 ==> r.levels != []
  {
    if r.cycleCount > 0 then r.levels[..|r.levels| - 1] else r.levels
  }

  function Residue(r: TopologicalResult): seq<File>
    requires r.cycleCount > 0 ==> r.levels != []
  {
    if r.cycleCount > 0 then r.levels[|r.levels| - 1] else []
  }

  /** The files whose longest import chain has `k` imports, sorted, once each. */
  ghost predicate IsLevel(m: ImportMap, level: seq<File>, k: nat) {
    && level != [] && NoDuplicates(level) && SortedBy(level, StringLe)
    && forall f :: f in level <==> f in AllFiles(m) && LongestChain(m, f, k)
  }

  /** The promise of the level sort. */
  ghost predicate IsLevelling(m: ImportMap, r: TopologicalResult) {
    && (r.cycleCount > 0 ==> r.levels != [])
    && (forall k | 0 <= k < |ProperLevels(r)| :: IsLevel(m, ProperLevels(r)[k], k))
    && (forall f :: f in AllFiles(m) && !ReachesCycle(m, f)
          ==> exists k :: 0 <= k < |ProperLevels(r)| && f in ProperLevels(r)[k])
    && NoDuplicates(Residue(r)) && |Residue(r)| == r.cycleCount
    && (forall f :: f in Residue(r) <==> f in AllFiles(m) && ReachesCycle(m, f))
  }

  // ------------------------------------------------------------------
  // Ranks: the proof's view of the levels
  // ------------------------------------------------------------------

  /** `rank` gives every file it knows a number above all of its imports', and
      a non-zero number only one above some import's. */
  ghost predicate Ranked(m: ImportMap, rank: map<File, nat>) {
    && (forall f, g {:trigger g in Imports(m, f)} :: f in rank && g in Imports(m, f) ==> g in rank && rank[g] < rank[f])
    && (forall f {:trigger Imports(m, f)} :: f in rank && rank[f] > 0 ==>
          exists g :: g in Imports(m, f) && g in rank && rank[g] == rank[f] - 1)
  }

  lemma ChainStep(m: ImportMap, p: seq<File>, i: nat)
    requires IsChain(m, p) && i + 1 < |p|
    ensures p[i + 1] in Imports(m, p[i])
  {
  }

  lemma RankFalls(m: ImportMap, rank: map<File, nat>, f: File, g: File)
    requires Ranked(m, rank) && f in rank && g in Imports(m, f)
    ensures g in rank && rank[g] < rank[f]
  {
  }

  lemma {:induction false} ChainRanksFall(m: ImportMap, rank: map<File, nat>, p: seq<File>, i: nat, j: nat)
    requires Ranked(m, rank) && IsChain(m, p) && p[0] in rank && i <= j < |p|
    ensures p[i] in rank && p[j] in rank
    ensures rank[p[j]] <= rank[p[i]] - (j - i)
    decreases j
  {
    hide *;
    if j > 0 {
      ChainRanksFall(m, rank, p, if i < j then i else j - 1, j - 1);
      ChainStep(m, p, j - 1);
      RankFalls(m, rank, p[j - 1], p[j]);
    }
  }

  lemma {:induction false} ChainOfRank(m: ImportMap, rank: map<File, nat>, f: File) returns (p: seq<File>)
    requires Ranked(m, rank) && f in rank
    ensures IsChain(m, p) && p[0] == f && |p| == rank[f] + 1
    decreases rank[f]
  {
    if rank[f] == 0 {
      p := [f];
    } else {
      var g :| g in Imports(m, f) && g in rank && rank[g] == rank[f] - 1;
      var q := ChainOfRank(m, rank, g);
      p := [f] + q;
    }
  }

  lemma RankIsLongestChain(m: ImportMap, rank: map<File, nat>, f: File, k: nat)
    requires Ranked(m, rank) && f in rank
    ensures LongestChain(m, f, k) <==> rank[f] == k
  {
    var q := ChainOfRank(m, rank, f);
    forall p | IsChain(m, p) && p[0] == f ensures |p| <= rank[f] + 1 {
      ChainRanksFall(m, rank, p, 0, |p| - 1);
    }
  }

  lemma RankedMeetsNoCycle(m: ImportMap, rank: map<File, nat>, f: File)
    requires Ranked(m, rank) && f in rank
    ensures !ReachesCycle(m, f)
  {
    forall p, i | IsChain(m, p) && p[0] == f && 0 <= i < |p| - 1
      ensures p[i] != p[|p| - 1]
    {
      ChainRanksFall(m, rank, p, i, |p| - 1);
    }
  }

  /** A set of files each importing another of the set. */
  ghost predicate SelfFeeding(m: ImportMap, s: set<File>) {
    forall f {:trigger Imports(m, f)} :: f in s ==> exists g :: g in Imports(m, f) && g in s
  }

  lemma {:induction false} ChainInside(m: ImportMap, s: set<File>, f: File, n: nat) returns (p: seq<File>)
    requires SelfFeeding(m, s) && f in s
    ensures IsChain(m, p) && p[0] == f && |p| == n + 1
    ensures forall i | 0 <= i < |p| :: p[i] in s
    decreases n
  {
    if n == 0 {
      p := [f];
    } else {
      var g :| g in Imports(m, f) && g in s;
      var q := ChainInside(m, s, g, n - 1);
      p := [f] + q;
    }
  }

  /** More positions than members force a repetition. */
  lemma {:induction false} Pigeonhole(p: seq<File>, s: set<File>) returns (i: nat, j: nat)
    requires |p| > |s| && forall k | 0 <= k < |p| :: p[k] in s
    ensures i < j < |p| && p[i] == p[j]
    decreases |p|
  {
    var last := |p| - 1;
    if exists k :: 0 <= k < last && p[k] == p[last] {
      i :| 0 <= i < last && p[i] == p[last];
      j := last;
    } else {
      i, j := Pigeonhole(p[..last], s - {p[last]});
    }
  }

  lemma SelfFeedingReachesCycle(m: ImportMap, s: set<File>, f: File)
    requires SelfFeeding(m, s) && f in s
    ensures ReachesCycle(m, f)
  {
    var p := ChainInside(m, s, f, |s|);
    var i, j := Pigeonhole(p, s);
    var q := p[..j + 1];
    assert IsChain(m, q) && q[0] == f && q[i] == q[|q| - 1];
  }

  lemma SelfFeedingHasNoLongestChain(m: ImportMap, s: set<File>, f: File, k: nat)
    requires SelfFeeding(m, s) && f in s
    ensures !LongestChain(m, f, k)
  {
    var p := ChainInside(m, s, f, k + 1);
  }

  // ------------------------------------------------------------------
  // Building the in-degrees and the reverse dependencies
  // ------------------------------------------------------------------

  function Dependents(reverseDeps: map<File, seq<File>>, f: File): seq<File> {
    if f in reverseDeps then reverseDeps[f] else []
  }

  /** The dependents of each file are its importers among `done`, once each. */
  ghost predicate DependentsAmong(m: ImportMap, reverseDeps: map<File, seq<File>>, done: set<File>) {
    forall g :: ListsImporters(m, Dependents(reverseDeps, g), g, done)
  }

  ghost predicate ListsImporters(m: ImportMap, fs: seq<File>, g: File, done: set<File>) {
    NoDuplicates(fs) && forall f :: f in fs <==> f in done && g in Imports(m, f)
  }

  /** `reverseDeps` is `reverseDeps0` with `file` appended to the dependents of `named`. */
  ghost predicate Gained(reverseDeps0: map<File, seq<File>>, reverseDeps: map<File, seq<File>>,
                         named: set<File>, file: File) {
    forall g :: Dependents(reverseDeps, g) == Dependents(reverseDeps0, g) + if g in named then [file] else []
  }

  lemma GainOne(reverseDeps0: map<File, seq<File>>, reverseDeps: map<File, seq<File>>,
                named: set<File>, file: File, g: File)
    requires Gained(reverseDeps0, reverseDeps, named, file) && g !in named
    ensures Gained(reverseDeps0, reverseDeps[g := Dependents(reverseDeps, g) + [file]], named + {g}, file)
  {
  }

  lemma OneMoreImporter(m: ImportMap, reverseDeps0: map<File, seq<File>>, reverseDeps: map<File, seq<File>>,
                        done: set<File>, file: File)
    requires DependentsAmong(m, reverseDeps0, done) && file !in done
    requires Gained(reverseDeps0, reverseDeps, Imports(m, file), file)
    ensures DependentsAmong(m, reverseDeps, done + {file})
  {
    forall g ensures ListsImporters(m, Dependents(reverseDeps, g), g, done + {file}) {
      assert ListsImporters(m, Dependents(reverseDeps0, g), g, done);
    }
  }

  lemma NamedByOneMore(m: ImportMap, done: set<File>, f: File)
    requires done <= m.Keys && f in m
    ensures NamedBy(m, done + {f}) == NamedBy(m, done) + {f} + Imports(m, f)
  {
    forall g ensures g in NamedBy(m, done + {f}) <==> g in NamedBy(m, done) + {f} + Imports(m, f) {
      if g in NamedBy(m, done + {f}) && g !in done + {f} {
        var h :| h in done + {f} && g in m[h];
      }
    }
  }

  lemma TakeImport(m: ImportMap, file: File, imports: set<File>, imported: File)
    requires file in m && imported in imports && imports <= m[file]
    ensures Imports(m, file) - (imports - {imported})
         == (Imports(m, file) - imports) + if imported == file then {} else {imported}
    ensures imported !in Imports(m, file) - imports
  {
  }

  lemma NoImportTaken(m: ImportMap, file: File)
    requires file in m
    ensures Imports(m, file) - m[file] == {} && Imports(m, file) - {} == Imports(m, file)
  {
  }

  lemma ImportersAreNamed(m: ImportMap)
    ensures m.Keys <= AllFiles(m) && AllFiles(m) == NamedBy(m, m.Keys)
  {
  }

  lemma NoImportersYet(m: ImportMap)
    ensures DependentsAmong(m, map[], {}) && NamedBy(m, {}) == {}
  {
  }

  /** One file's pass: its non-self imports raise its in-degree and gain it as a dependent. */
  method CountImports(m: ImportMap, file: File, ghost done: set<File>, reverseDeps0: map<File, seq<File>>)
    returns (degree: nat, reverseDeps: map<File, seq<File>>, named: set<File>)
    requires file in m && file !in done && DependentsAmong(m, reverseDeps0, done)
    ensures degree == |Imports(m, file)| && named == Imports(m, file)
    ensures DependentsAmong(m, reverseDeps, done + {file})
  {
    hide DependentsAmong, Imports;
    degree, reverseDeps, named := 0, reverseDeps0, {};
    var imports := m[file];
    NoImportTaken(m, file);
    assert Gained(reverseDeps0, reverseDeps, named, file);
    hide Gained, Dependents;
    while imports != {}
      invariant imports <= m[file]
      invariant named == Imports(m, file) - imports && degree == |named|
      invariant Gained(reverseDeps0, reverseDeps, named, file)
      decreases imports
    {
      var imported :| imported in imports;
      TakeImport(m, file, imports, imported);
      imports := imports - {imported};
      if imported != file {
        GainOne(reverseDeps0, reverseDeps, named, file, imported);
        named := named + {imported};
        degree := degree + 1;
        reverseDeps := reverseDeps[imported := Dependents(reverseDeps, imported) + [file]];
      }
    }
    OneMoreImporter(m, reverseDeps0, reverseDeps, done, file);
  }

  /** Files that were only ever imported start with in-degree zero. */
  method FillDegrees(m: ImportMap, inDegree0: map<File, nat>, allFiles: set<File>)
    returns (inDegree: map<File, nat>)
    requires inDegree0.Keys == m.Keys
    requires forall f | f in inDegree0 :: inDegree0[f] == |Imports(m, f)|
    ensures inDegree.Keys == m.Keys + allFiles
    ensures forall f | f in inDegree :: inDegree[f] == |Imports(m, f)|
  {
    inDegree := inDegree0;
    var rest := allFiles;
    while rest != {}
      invariant rest <= allFiles
      invariant inDegree.Keys == m.Keys + (allFiles - rest)
      invariant forall f | f in inDegree :: inDegree[f] == |Imports(m, f)|
      decreases rest
    {
      var file :| file in rest;
      if file !in inDegree {
        inDegree := inDegree[file := 0];
      }
      rest := rest - {file};
    }
  }

  method BuildDegrees(m: ImportMap)
    returns (inDegree: map<File, nat>, reverseDeps: map<File, seq<File>>, allFiles: set<File>)
    ensures allFiles == AllFiles(m) && inDegree.Keys == allFiles
    ensures forall f | f in inDegree :: inDegree[f] == |Imports(m, f)|
    ensures DependentsAmong(m, reverseDeps, m.Keys)
  {
    NoImportersYet(m);
    ImportersAreNamed(m);
    hide *;
    inDegree, reverseDeps, allFiles := map[], map[], {};
    var todo := m.Keys;
    ghost var done := {};
    while todo != {}
      invariant done + todo == m.Keys && done !! todo
      invariant inDegree.Keys == done
      invariant forall f | f in inDegree :: inDegree[f] == |Imports(m, f)|
      invariant allFiles == NamedBy(m, done)
      invariant DependentsAmong(m, reverseDeps, done)
      decreases todo
    {
      var file :| file in todo;
      var degree, named;
      degree, reverseDeps, named := CountImports(m, file, done, reverseDeps);
      inDegree := inDegree[file := degree];
      allFiles := allFiles + {file} + named;
      NamedByOneMore(m, done, file);
      todo, done := todo - {file}, done + {file};
    }
    inDegree := FillDegrees(m, inDegree, allFiles);
  }

  // ------------------------------------------------------------------
  // The level loop
  // ------------------------------------------------------------------

  /** Imports of `f` not yet in a level: the value the in-degree must have. */
  ghost function Remaining(m: ImportMap, done: set<File>, f: File): nat {
    |Imports(m, f) - done|
  }

  ghost predicate Counts(m: ImportMap, inDegree: map<File, nat>, done: set<File>) {
    && inDegree.Keys == AllFiles(m)
    && forall f | f in inDegree :: inDegree[f] == Remaining(m, done, f)
  }

  ghost predicate Ready(m: ImportMap, done: set<File>, f: File) {
    f in AllFiles(m) && Imports(m, f) <= done
  }

  lemma RemainingDrops(m: ImportMap, done: set<File>, f: File, g: File)
    requires g !in done
    ensures g in Imports(m, f) ==> Remaining(m, done, f) == Remaining(m, done + {g}, f) + 1
    ensures g !in Imports(m, f) ==> Remaining(m, done, f) == Remaining(m, done + {g}, f)
  {
    if g in Imports(m, f) {
      assert Imports(m, f) - done == (Imports(m, f) - (done + {g})) + {g};
    } else {
      assert Imports(m, f) - done == Imports(m, f) - (done + {g});
    }
  }

  lemma RemainingZero(m: ImportMap, done: set<File>, f: File)
    ensures Remaining(m, done, f) == 0 <==> Imports(m, f) <= done
  {
    if Imports(m, f) <= done { assert Imports(m, f) - done == {}; }
  }

  /** In-degrees while the dependents of `g` are being released, `handled` of them already. */
  ghost predicate PartlyReleased(m: ImportMap, inDegree: map<File, nat>, done: set<File>, g: File, handled: seq<File>) {
    && inDegree.Keys == AllFiles(m)
    && forall f | f in inDegree :: inDegree[f] == Remaining(m, if f in handled then done + {g} else done, f)
  }

  lemma ImporterIsNamed(m: ImportMap, f: File, g: File)
    requires g in Imports(m, f)
    ensures f in AllFiles(m) && g in AllFiles(m)
  {
  }

  lemma ReleaseOne(m: ImportMap, inDegree: map<File, nat>, done: set<File>, g: File, handled: seq<File>, f: File)
    requires PartlyReleased(m, inDegree, done, g, handled) && g !in done
    requires f !in handled && g in Imports(m, f)
    ensures f in inDegree && inDegree[f] > 0
    ensures PartlyReleased(m, inDegree[f := inDegree[f] - 1], done, g, handled + [f])
    ensures inDegree[f] == 1 <==> Ready(m, done + {g}, f)
  {
    hide Imports, Remaining, AllFiles;
    ImporterIsNamed(m, f, g);
    RemainingDrops(m, done, f, g);
    RemainingZero(m, done + {g}, f);
    var after := inDegree[f := inDegree[f] - 1];
    forall h | h in after
      ensures after[h] == Remaining(m, if h in handled + [f] then done + {g} else done, h)
    {
      assert h in handled + [f] <==> h in handled || h == f;
    }
  }

  lemma AllReleased(m: ImportMap, inDegree: map<File, nat>, done: set<File>, g: File, handled: seq<File>)
    requires PartlyReleased(m, inDegree, done, g, handled) && g !in done
    requires forall f :: f in handled <==> f in m.Keys && g in Imports(m, f)
    ensures Counts(m, inDegree, done + {g})
  {
    forall f | f in inDegree ensures inDegree[f] == Remaining(m, done + {g}, f) {
      RemainingDrops(m, done, f, g);
    }
  }

  /** Files that become ready when `g` joins `done`. */
  ghost predicate ReadiedBy(m: ImportMap, done: set<File>, g: File, f: File) {
    g in Imports(m, f) && Ready(m, done + {g}, f)
  }

  lemma PrefixOfImporters(m: ImportMap, fs: seq<File>, g: File, j: nat)
    requires ListsImporters(m, fs, g, m.Keys) && j < |fs|
    ensures fs[..j + 1] == fs[..j] + [fs[j]]
    ensures fs[j] !in fs[..j] && g in Imports(m, fs[j])
  {
    assert fs[j] in fs;
  }

  ghost function Members(s: seq<File>): set<File> {
    set f | f in s
  }

  lemma NothingReleased(m: ImportMap, queue: seq<File>, done: set<File>)
    ensures done + Members(queue[..0]) == done && NoDuplicates<File>([])
  {
  }

  lemma NextOfLevel(queue: seq<File>, done: set<File>, i: nat)
    requires i < |queue| && NoDuplicates(queue) && forall f | f in queue :: f !in done
    ensures done + Members(queue[..i + 1]) == done + Members(queue[..i]) + {queue[i]}
    ensures queue[i] !in done + Members(queue[..i])
  {
    assert queue[..i + 1] == queue[..i] + [queue[i]];
    assert queue[i] in queue && queue[i] !in queue[..i];
  }

  lemma DependentsListed(m: ImportMap, reverseDeps: map<File, seq<File>>, g: File)
    requires DependentsAmong(m, reverseDeps, m.Keys)
    ensures ListsImporters(m, Dependents(reverseDeps, g), g, m.Keys)
  {
  }

  lemma ReadiedIsNew(m: ImportMap, done: set<File>, soFar: set<File>, g: File)
    requires done <= soFar && g !in soFar
    ensures forall f :: ReadiedBy(m, soFar, g, f) ==> !Ready(m, soFar, f)
    ensures forall f :: Ready(m, soFar + {g}, f) && !Ready(m, done, f)
                   <==> (Ready(m, soFar, f) && !Ready(m, done, f)) || ReadiedBy(m, soFar, g, f)
  {
    forall f | Ready(m, soFar + {g}, f) && !ReadiedBy(m, soFar, g, f) ensures Ready(m, soFar, f) {
      assert Imports(m, f) <= soFar;
    }
  }

  /** Lowers the in-degree of every dependent of `g` and queues those that reach zero. */
  method ReleaseDependents(m: ImportMap, g: File, dependents: seq<File>, inDegree0: map<File, nat>, ghost done: set<File>)
    returns (inDegree: map<File, nat>, readied: seq<File>)
    requires Counts(m, inDegree0, done) && g !in done && ListsImporters(m, dependents, g, m.Keys)
    ensures Counts(m, inDegree, done + {g})
    ensures NoDuplicates(readied)
    ensures forall f :: f in readied <==> ReadiedBy(m, done, g, f)
  {
    assert PartlyReleased(m, inDegree0, done, g, []);
    hide *;
    inDegree, readied := inDegree0, [];
    assert dependents[..0] == [];
    NoDuplicatesAppend<File>([], []);
    for j := 0 to |dependents|
      invariant PartlyReleased(m, inDegree, done, g, dependents[..j])
      invariant NoDuplicates(readied)
      invariant forall f :: f in readied <==> f in dependents[..j] && Ready(m, done + {g}, f)
    {
      var dep := dependents[j];
      PrefixOfImporters(m, dependents, g, j);
      ReleaseOne(m, inDegree, done, g, dependents[..j], dep);
      inDegree := inDegree[dep := inDegree[dep] - 1];
      if inDegree[dep] == 0 {
        NoDuplicatesAppend(readied, [dep]);
        readied := readied + [dep];
      }
    }
    assert dependents[..|dependents|] == dependents;
    AllReleased(m, inDegree, done, g, dependents);
  }

  /** Releases a whole level: its files join `done`, the newly ready ones are queued. */
  method ReleaseLevel(m: ImportMap, queue: seq<File>, reverseDeps: map<File, seq<File>>,
                      inDegree0: map<File, nat>, ghost done: set<File>)
    returns (inDegree: map<File, nat>, nextQueue: seq<File>)
    requires Counts(m, inDegree0, done) && DependentsAmong(m, reverseDeps, m.Keys)
    requires NoDuplicates(queue) && forall f | f in queue :: f !in done
    ensures Counts(m, inDegree, done + Members(queue))
    ensures NoDuplicates(nextQueue)
    ensures forall f :: f in nextQueue <==> Ready(m, done + Members(queue), f) && !Ready(m, done, f)
  {
    hide *;
    inDegree, nextQueue := inDegree0, [];
    NothingReleased(m, queue, done);
    for i := 0 to |queue|
      invariant Counts(m, inDegree, done + Members(queue[..i]))
      invariant NoDuplicates(nextQueue)
      invariant forall f :: f in nextQueue <==> Ready(m, done + Members(queue[..i]), f) && !Ready(m, done, f)
    {
      ghost var soFar := done + Members(queue[..i]);
      NextOfLevel(queue, done, i);
      DependentsListed(m, reverseDeps, queue[i]);
      var readied;
      inDegree, readied := ReleaseDependents(m, queue[i], Dependents(reverseDeps, queue[i]), inDegree, soFar);
      ReadiedIsNew(m, done, soFar, queue[i]);
      NoDuplicatesAppend(nextQueue, readied);
      nextQueue := nextQueue + readied;
    }
    assert queue[..|queue|] == queue;
  }

  /** The levels pushed so far are exactly the ranked files, rank by rank. */
  ghost predicate LevelsHold(m: ImportMap, levels: seq<seq<File>>, rank: map<File, nat>) {
    && Ranked(m, rank) && rank.Keys <= AllFiles(m)
    && (forall f | f in rank :: rank[f] < |levels|)
    && (forall k | 0 <= k < |levels| :: LevelHolds(levels[k], rank, k))
  }

  ghost predicate LevelHolds(level: seq<File>, rank: map<File, nat>, k: nat) {
    && level != [] && NoDuplicates(level) && SortedBy(level, StringLe)
    && forall f :: f in level <==> f in rank && rank[f] == k
  }

  /** The queue is the next level: unranked files whose imports are all ranked. */
  ghost predicate QueueHolds(m: ImportMap, queue: seq<File>, rank: map<File, nat>, n: nat) {
    && NoDuplicates(queue) && SortedBy(queue, StringLe)
    && (forall f {:trigger f in queue} :: f in queue <==> f !in rank && Ready(m, rank.Keys, f))
    && (n > 0 ==> forall f {:trigger Imports(m, f)} :: f in queue ==>
          exists g :: g in Imports(m, f) && g in rank && rank[g] == n - 1)
  }

  ghost function RankNext(rank: map<File, nat>, queue: seq<File>, n: nat): map<File, nat> {
    rank + map f | f in queue :: n
  }

  /** The queue holds unranked files just above rank `n - 1`. */
  ghost predicate RanksNext(m: ImportMap, rank: map<File, nat>, queue: seq<File>, n: nat) {
    && (forall f | f in rank :: rank[f] < n)
    && (forall f {:trigger f in queue} :: f in queue ==> f !in rank && Imports(m, f) <= rank.Keys)
    && (n > 0 ==> forall f {:trigger Imports(m, f)} :: f in queue ==>
          exists g :: g in Imports(m, f) && g in rank && rank[g] == n - 1)
  }

  lemma RankNextFalls(m: ImportMap, rank: map<File, nat>, queue: seq<File>, n: nat, f: File, g: File)
    requires Ranked(m, rank) && RanksNext(m, rank, queue, n)
    requires f in RankNext(rank, queue, n) && g in Imports(m, f)
    ensures g in RankNext(rank, queue, n) && RankNext(rank, queue, n)[g] < RankNext(rank, queue, n)[f]
  {
    hide Imports;
    assert f !in rank ==> f in queue;
    assert g in rank.Keys;
    assert g !in queue;
  }

  lemma RankNextSteps(m: ImportMap, rank: map<File, nat>, queue: seq<File>, n: nat, f: File) returns (g: File)
    requires Ranked(m, rank) && RanksNext(m, rank, queue, n)
    requires f in RankNext(rank, queue, n) && RankNext(rank, queue, n)[f] > 0
    ensures g in Imports(m, f) && g in RankNext(rank, queue, n)
    ensures RankNext(rank, queue, n)[g] == RankNext(rank, queue, n)[f] - 1
  {
    hide Imports;
    assert f !in rank ==> f in queue && RankNext(rank, queue, n)[f] == n;
    g :| g in Imports(m, f) && g in rank && rank[g] == RankNext(rank, queue, n)[f] - 1;
    assert g !in queue;
  }

  lemma RankNextRanked(m: ImportMap, rank: map<File, nat>, queue: seq<File>, n: nat)
    requires Ranked(m, rank) && RanksNext(m, rank, queue, n)
    ensures Ranked(m, RankNext(rank, queue, n))
  {
    hide Imports, RanksNext, RankNext;
    var nextRank := RankNext(rank, queue, n);
    forall f, g {:trigger g in Imports(m, f)} | f in nextRank && g in Imports(m, f)
      ensures g in nextRank && nextRank[g] < nextRank[f]
    {
      RankNextFalls(m, rank, queue, n, f, g);
    }
    forall f {:trigger Imports(m, f)} | f in nextRank && nextRank[f] > 0
      ensures exists g :: g in Imports(m, f) && g in nextRank && nextRank[g] == nextRank[f] - 1
    {
      var g := RankNextSteps(m, rank, queue, n, f);
    }
  }

  lemma PushLevel(m: ImportMap, levels: seq<seq<File>>, queue: seq<File>, rank: map<File, nat>)
    requires LevelsHold(m, levels, rank) && QueueHolds(m, queue, rank, |levels|) && queue != []
    ensures LevelsHold(m, levels + [queue], RankNext(rank, queue, |levels|))
    ensures RankNext(rank, queue, |levels|).Keys == rank.Keys + Members(queue)
    ensures forall f | f in queue :: f !in rank
  {
    hide Ranked, NoDuplicates, SortedBy, AllFiles, Imports;
    RankNextRanked(m, rank, queue, |levels|);
    var n, nextRank := |levels|, RankNext(rank, queue, |levels|);
    forall k | 0 <= k < n ensures LevelHolds((levels + [queue])[k], nextRank, k) {
      assert LevelHolds(levels[k], rank, k);
    }
    assert LevelHolds(queue, nextRank, n);
  }

  lemma NextQueueHolds(m: ImportMap, levels: seq<seq<File>>, queue: seq<File>, rank: map<File, nat>, next: seq<File>)
    requires LevelsHold(m, levels, rank) && QueueHolds(m, queue, rank, |levels|)
    requires NoDuplicates(next)
    requires forall f :: f in next <==> Ready(m, rank.Keys + Members(queue), f) && !Ready(m, rank.Keys, f)
    ensures QueueHolds(m, SortBy(next, StringLe), RankNext(rank, queue, |levels|), |levels| + 1)
  {
    hide SortBy, SortedBy, NoDuplicates, StringLe, AllFiles, TotalPreorder, LevelHolds, Imports;
    var n, nextRank, sorted := |levels|, RankNext(rank, queue, |levels|), SortBy(next, StringLe);
    StringLeOrders();
    SortBySorts(next, StringLe);
    SortByKeepsNoDuplicates(next, StringLe);
    SortByKeepsMembers(next, StringLe);
    assert nextRank.Keys == rank.Keys + Members(queue);
    forall f ensures f in sorted <==> f !in nextRank && Ready(m, nextRank.Keys, f) {
      if f in rank && f in AllFiles(m) { assert Ready(m, rank.Keys, f); }
    }
    forall f | f in sorted ensures exists g :: g in Imports(m, f) && g in nextRank && nextRank[g] == n {
      var g :| g in Imports(m, f) && g !in rank.Keys;
      assert g in Members(queue);
    }
  }

  lemma {:induction false} MembersCount(s: seq<File>, members: set<File>)
    requires NoDuplicates(s) && forall f :: f in s <==> f in members
    ensures |s| == |members|
  {
    if s == [] {
      assert members == {};
    } else {
      var t := s[1..];
      assert s == [s[0]] + t;
      assert forall f :: f in t <==> f in members - {s[0]};
      MembersCount(t, members - {s[0]});
    }
  }

  lemma CardinalitySplits(all: set<File>, part: set<File>)
    requires part <= all
    ensures |all| - |part| == |all - part| >= 0
  {
    assert all == part + (all - part);
  }

  lemma QueueIsNew(m: ImportMap, levels: seq<seq<File>>, queue: seq<File>, rank: map<File, nat>)
    requires QueueHolds(m, queue, rank, |levels|) && queue != []
    ensures NoDuplicates(queue) && |rank.Keys + Members(queue)| == |rank.Keys| + |queue|
    ensures rank.Keys + Members(queue) <= AllFiles(m) + rank.Keys
    ensures queue[0] in AllFiles(m) && queue[0] !in rank && queue[0] in Members(queue)
  {
    MembersCount(queue, Members(queue));
    assert queue[0] in queue;
    assert rank.Keys !! Members(queue);
  }

  /** The files whose in-degree is zero, or those whose is not, in no particular order. */
  method CollectByDegree(inDegree: map<File, nat>, zero: bool) returns (files: seq<File>)
    ensures NoDuplicates(files)
    ensures forall f :: f in files <==> f in inDegree && (inDegree[f] == 0) == zero
  {
    files := [];
    var rest := inDegree.Keys;
    ghost var seen := {};
    while rest != {}
      invariant seen + rest == inDegree.Keys && seen !! rest
      invariant NoDuplicates(files)
      invariant forall f :: f in files <==> f in seen && (inDegree[f] == 0) == zero
      decreases rest
    {
      hide NoDuplicates;
      var file :| file in rest;
      if (inDegree[file] == 0) == zero {
        NoDuplicatesAppend(files, [file]);
        files := files + [file];
      }
      rest, seen := rest - {file}, seen + {file};
    }
  }

  lemma FirstQueueHolds(m: ImportMap, inDegree: map<File, nat>, files: seq<File>)
    requires Counts(m, inDegree, {}) && NoDuplicates(files)
    requires forall f :: f in files <==> f in inDegree && inDegree[f] == 0
    ensures LevelsHold(m, [], map[]) && QueueHolds(m, SortBy(files, StringLe), map[], 0)
  {
    hide SortBy, SortedBy, NoDuplicates, StringLe, AllFiles, TotalPreorder, Imports, Remaining;
    var sorted := SortBy(files, StringLe);
    var none: map<File, nat> := map[];
    assert none.Keys == {};
    StringLeOrders();
    SortBySorts(files, StringLe);
    SortByKeepsNoDuplicates(files, StringLe);
    SortByKeepsMembers(files, StringLe);
    forall f ensures f in sorted <==> f !in none && Ready(m, none.Keys, f) {
      RemainingZero(m, {}, f);
    }
  }

  lemma InitialCounts(m: ImportMap, inDegree: map<File, nat>)
    requires inDegree.Keys == AllFiles(m)
    requires forall f | f in inDegree :: inDegree[f] == |Imports(m, f)|
    ensures Counts(m, inDegree, {})
  {
    forall f | f in inDegree ensures inDegree[f] == Remaining(m, {}, f) {
      assert Imports(m, f) - {} == Imports(m, f);
    }
  }

  /** With the queue empty, the unranked files are those of non-zero in-degree. */
  lemma StuckFiles(m: ImportMap, levels: seq<seq<File>>, rank: map<File, nat>, inDegree: map<File, nat>)
    requires LevelsHold(m, levels, rank) && QueueHolds(m, [], rank, |levels|)
    requires Counts(m, inDegree, rank.Keys)
    ensures forall f :: f in inDegree && inDegree[f] != 0 <==> f in AllFiles(m) - rank.Keys
    ensures SelfFeeding(m, AllFiles(m) - rank.Keys)
  {
    hide AllFiles, NoDuplicates, SortedBy, LevelHolds, Remaining;
    forall f | f in AllFiles(m)
      ensures inDegree[f] != 0 <==> f !in rank
      ensures f !in rank ==> exists g :: g in Imports(m, f) && g in AllFiles(m) - rank.Keys
    {
      RemainingZero(m, rank.Keys, f);
      assert f !in [];
      if f !in rank {
        assert !Ready(m, rank.Keys, f);
        var g :| g in Imports(m, f) && g !in rank.Keys;
        ImporterIsNamed(m, f, g);
      } else {
        assert Imports(m, f) <= rank.Keys;
      }
    }
  }

  /** Once nothing is left to release, being ranked decides chains and cycles. */
  lemma RankDecides(m: ImportMap, rank: map<File, nat>, f: File)
    requires Ranked(m, rank) && SelfFeeding(m, AllFiles(m) - rank.Keys) && f in AllFiles(m)
    ensures ReachesCycle(m, f) <==> f !in rank
    ensures forall k: nat :: LongestChain(m, f, k) <==> f in rank && rank[f] == k
  {
    hide *;
    if f in rank {
      RankedMeetsNoCycle(m, rank, f);
      forall k: nat ensures LongestChain(m, f, k) <==> rank[f] == k { RankIsLongestChain(m, rank, f, k); }
    } else {
      var rest := AllFiles(m) - rank.Keys;
      SelfFeedingReachesCycle(m, rest, f);
      forall k: nat ensures !LongestChain(m, f, k) { SelfFeedingHasNoLongestChain(m, rest, f, k); }
    }
  }

  lemma LevelIsRank(m: ImportMap, levels: seq<seq<File>>, rank: map<File, nat>, k: nat)
    requires LevelsHold(m, levels, rank) && SelfFeeding(m, AllFiles(m) - rank.Keys) && k < |levels|
    ensures IsLevel(m, levels[k], k)
  {
    hide Ranked, NoDuplicates, SortedBy, AllFiles, SelfFeeding, LongestChain, ReachesCycle;
    assert LevelHolds(levels[k], rank, k);
    forall f | f in AllFiles(m) ensures LongestChain(m, f, k) <==> f in rank && rank[f] == k {
      RankDecides(m, rank, f);
    }
  }

  lemma RankedIsPlaced(m: ImportMap, levels: seq<seq<File>>, rank: map<File, nat>, f: File)
    requires LevelsHold(m, levels, rank) && f in rank
    ensures rank[f] < |levels| && f in levels[rank[f]]
  {
    assert LevelHolds(levels[rank[f]], rank, rank[f]);
  }

  lemma LevellingHolds(m: ImportMap, levels: seq<seq<File>>, rank: map<File, nat>, residue: seq<File>, r: TopologicalResult)
    requires LevelsHold(m, levels, rank) && SelfFeeding(m, AllFiles(m) - rank.Keys)
    requires NoDuplicates(residue) && |residue| == r.cycleCount
    requires forall f :: f in residue <==> f in AllFiles(m) - rank.Keys
    requires r.levels == if r.cycleCount > 0 then levels + [residue] else levels
    ensures IsLevelling(m, r)
  {
    assert ProperLevels(r) == levels && Residue(r) == residue;
    hide IsLevel, Ranked, NoDuplicates, AllFiles, SelfFeeding, LongestChain, ReachesCycle, ProperLevels, Residue,
      LevelHolds, SortedBy;
    forall f | f in AllFiles(m)
      ensures ReachesCycle(m, f) <==> f !in rank
      ensures f in rank ==> exists k :: 0 <= k < |ProperLevels(r)| && f in ProperLevels(r)[k]
    {
      RankDecides(m, rank, f);
      if f in rank { RankedIsPlaced(m, levels, rank, f); }
    }
    forall k | 0 <= k < |ProperLevels(r)|
      ensures IsLevel(m, ProperLevels(r)[k], k)
    {
      LevelIsRank(m, levels, rank, k);
    }
  }

  /** What no level took goes to the residue. */
  method CloseLevels(m: ImportMap, levels: seq<seq<File>>, processed: nat, inDegree: map<File, nat>,
                     allFiles: set<File>, ghost rank: map<File, nat>) returns (r: TopologicalResult)
    requires LevelsHold(m, levels, rank) && QueueHolds(m, [], rank, |levels|)
    requires Counts(m, inDegree, rank.Keys)
    requires allFiles == AllFiles(m) && rank.Keys <= allFiles && processed == |rank.Keys|
    ensures IsLevelling(m, r)
  {
    hide *;
    StuckFiles(m, levels, rank, inDegree);
    CardinalitySplits(allFiles, rank.Keys);
    var cycleCount: nat := |allFiles| - processed;
    var residue := [];
    if cycleCount > 0 {
      residue := CollectByDegree(inDegree, false);
      r := TopologicalResult(levels + [residue], cycleCount);
    } else {
      NoDuplicatesAppend<File>([], []);
      assert [] + residue == residue;
      r := TopologicalResult(levels, cycleCount);
    }
    MembersCount(residue, allFiles - rank.Keys);
    LevellingHolds(m, levels, rank, residue, r);
  }

  method TopologicalLevelSort(m: ImportMap) returns (r: TopologicalResult)
    ensures IsLevelling(m, r)
  {
    hide *;
    var inDegree, reverseDeps, allFiles := BuildDegrees(m);
    InitialCounts(m, inDegree);
    var zeroes := CollectByDegree(inDegree, true);
    var queue := SortBy(zeroes, StringLe);
    var levels: seq<seq<File>>, processed: nat := [], 0;
    ghost var rank: map<File, nat> := map[];
    FirstQueueHolds(m, inDegree, zeroes);
    assert rank.Keys == {};
    while queue != []
      invariant LevelsHold(m, levels, rank) && QueueHolds(m, queue, rank, |levels|)
      invariant Counts(m, inDegree, rank.Keys)
      invariant rank.Keys <= allFiles && processed == |rank.Keys|
      decreases allFiles - rank.Keys
    {
      PushLevel(m, levels, queue, rank);
      QueueIsNew(m, levels, queue, rank);
      var nextQueue;
      inDegree, nextQueue := ReleaseLevel(m, queue, reverseDeps, inDegree, rank.Keys);
      NextQueueHolds(m, levels, queue, rank, nextQueue);
      rank := RankNext(rank, queue, |levels|);
      processed := processed + |queue|;
      levels := levels + [queue];
      queue := SortBy(nextQueue, StringLe);
    }

    r := CloseLevels(m, levels, processed, inDegree, allFiles, rank);
  }
}
