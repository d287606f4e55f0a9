# Code Explorer: verified kernels

Dafny models of the algorithmic and stateful kernels of Code Explorer, a tool that indexes source
repositories into a knowledge graph and answers questions about them, and proofs of what each kernel
is for. `dafny verify dfyconfig.toml` checks the whole project.

| file | kernel |
|---|---|
| `ImportLevels.dfy`, `LevellingLaws.dfy` | import levelling: Kahn's algorithm by levels, with a residue for cycles |
| `ImpactAnalysis.dfy` | blast radius: depth-bounded breadth-first search over forward and reverse edges |
| `SourceText.dfy`, `SourceCache.dfy` | truncation, line index and extraction of source text; the LRU cache with an entry cap and a byte budget |
| `SseStream.dfy` | the incremental reader of server-sent events, against their encoding |
| `CypherText.dfy` | escaping, comment stripping and the write-query check |
| `KnowledgeGraphStore.dfy`, `Manifests.dfy`, `Incremental.dfy`, `IncrementalLaws.dfy` | the graph with its file index, the manifest diff, the incremental update, what it reaches and its crash safety |
| `SnapshotProtocol.dfy`, `WindowsSnapshotProtocol.dfy` | saving a file through a temporary one, with concurrent and dying writers |
| `ConnectionPool.dfy`, `RepoLoading.dfy` | two concurrent protocols as transition systems over any number of callers |
| `Coupling.dfy`, `TraceLog.dfy` | commit coupling counts and the trace-log state machine |
| `SourceReferences.dfy`, `WorkDocAnswers.dfy` | grouping references and restoring them, placing answers in a document |
| `ProbeScheduler.dfy` | the backend status hook |
| `ChatStore.dfy`, `ChatMigration.dfy`, `ChatRoundTrip.dfy`, `ChatSaving.dfy` | the chat store's actions, the reading of saved states, and saving |
| `Sorting.dfy`, `Options.dfy`, `GraphTypes.dfy`, `ChatTypes.dfy` | shared definitions |

Loops of the program are methods proved against a specification; the specification's own laws are
lemmas. Objects that change in place (the cache, the stream reader, the graph, the status hook) are
classes. Protocols of several threads or processes are transition systems, one step for each atomic
section, and their theorems range over all runs.

Parameters stand for what is outside the kernels: regular expressions, JSON parsing, SHA-256 and the
language parsers, Unicode case mapping and white space, the clock, file contents, the outcome of opening
a database or of a request. What is assumed of them is a `requires` clause of the member that needs it:

- of indexing (`TreeOk`): an id names the path its node has; a file gives nodes of its own path, or of paths
  that no walk finds, such as `page.cshtml#script-0` and the empty path of libraries; files that give a
  node of one id agree on it; a path is that of code or of a document in every tree, and exactly the
  readable documents give document nodes;
- of digests (`DigestsTell`): for the files both trees hold, equal digests mean equal content;
- digits are injective and hold no colon; `trim` does not remove underscores.

Where the code departs from its own comments, the model follows the code:

- `snapshot.rs` announces an explicit fsync, but only flushes and closes the file; the crash theorems
  are about a process that dies, not about power loss.
- `snapshot.rs` says that on Windows the path is valid at every moment; `GapIsReached` shows that it is
  not, and `WholeCopyAlwaysExists` what holds instead.
- An incremental update reaches the full index at every path a walk finds (`IncrementalIsFull`), but nodes
  that a Razor page gave under other paths, those of its scripts and libraries, are never dropped: the
  whole graph is the full index exactly when those of changed pages are still given (`WholeIsFullIff`);
  a page that loses its script shows that they need not be (`RazorScriptStays`).
- `use-backend-status.ts` rules out overlapping requests; that holds within one run of the effect
  (`OneInFlight`) and over whole runs exactly when no timer fires while a request of an earlier run of the
  effect is in flight (`NeverOverlapsIff`), which changed options can bring about (`RerunOverlaps`). Its `nextProbeAt` is later than the armed timer by the time the
  probe took (`NextProbeDue`).
- The event reader flushes an unfinished event at the end of the stream, unlike section 9.2.6 of the
  WHATWG HTML Living Standard.
- With questions that share an id an answer can be lost (`SharedIdLosesAnswer`); `AlwaysKeptIff` says for
  which questions that can never happen, `AllKeptIffNotShared` in which documents it does.
- A number too large for JavaScript is read as infinite and saved as null, so a clean chat state with one
  in a tool call does not survive saving (`InfiniteResultIsLost`); `ReadBackIffClean` gives the exact
  condition.
- A cache entry that a full `LruCache` dropped on its own would stay in the byte count; the eviction before
  each `put` rules that out (`PutIsCountedIff`).

## Model

| member | source | states |
|---|---|---|
| ImportLevels.TopologicalLevelSort | crates/code-explorer-ingest/src/pipeline.rs:586-661 | every proper level k is sorted, free of duplicates and holds exactly the files whose longest import chain has k imports; the residue holds, once each, exactly the files that can reach an import cycle of two or more files; `cycle_count` is its size; terminates |
| ImportLevels.BuildDegrees | crates/code-explorer-ingest/src/pipeline.rs:587-611 | the in-degree of every named file is the number of its imports other than itself, and `reverse_deps` lists for each file exactly its importers, once each |
| ImportLevels.CountImports | crates/code-explorer-ingest/src/pipeline.rs:592-606 | one file's pass, whatever order its imports come in |
| ImportLevels.FillDegrees | crates/code-explorer-ingest/src/pipeline.rs:608-611 | files that are only imported get in-degree zero |
| ImportLevels.CollectByDegree | crates/code-explorer-ingest/src/pipeline.rs:613-617 | collects once each the files whose in-degree is zero, or those whose is not |
| ImportLevels.ReleaseDependents | crates/code-explorer-ingest/src/pipeline.rs:628-637 | `*deg -= 1` never underflows, and a dependent is queued exactly when this file was its last unprocessed import |
| ImportLevels.ReleaseLevel | crates/code-explorer-ingest/src/pipeline.rs:625-638 | after a level, in-degrees count the imports still unprocessed and the next queue holds exactly the files newly without any |
| ImportLevels.CloseLevels | crates/code-explorer-ingest/src/pipeline.rs:646-661 | `all_files.len() - processed` never underflows, and the files of non-zero in-degree are as many as it says |
| ImportLevels.RankIsLongestChain | crates/code-explorer-ingest/src/pipeline.rs:623-644 | a ranking that only drops along imports, and by one along some import, is the longest-chain length |
| ImportLevels.SelfFeedingReachesCycle | crates/code-explorer-ingest/src/pipeline.rs:646-655 | in a set of files each importing another of the set, every file reaches a cycle |
| ImportLevels.RankedMeetsNoCycle | crates/code-explorer-ingest/src/pipeline.rs:623-644 | a ranked file reaches no cycle |
| ImportLevels.RankDecides | crates/code-explorer-ingest/src/pipeline.rs:623-655 | once the queue is empty, a file reaches a cycle exactly when no level took it, and its longest chain is its level's number exactly when one did |
| LevellingLaws.EveryFileInOneLevel | crates/code-explorer-ingest/src/pipeline.rs:586-661 | a file is named by the import map exactly when it stands somewhere in the levels, and it stands at one place only |
| LevellingLaws.ImportsComeEarlier | crates/code-explorer-ingest/src/pipeline.rs:586-661 | outside the residue every import of a file other than itself stands in a strictly earlier level |
| LevellingLaws.CycleCountZeroIffAcyclic | crates/code-explorer-ingest/src/pipeline.rs:646-655 | `cycle_count` is zero exactly when the import graph without self-imports has no cycle |
| LevellingLaws.CyclicFilesHaveNoLongestChain | crates/code-explorer-ingest/src/pipeline.rs:586-661 | a file that reaches a cycle has chains of every length, so no level number fits it |
| LevellingLaws.LevellingIsDetermined | crates/code-explorer-ingest/src/pipeline.rs:613-655 | hash-map order cannot show: any two results have the same proper levels, the same count and the same files in the residue |
| ImpactAnalysis.BuildImpactAdjacency | crates/code-explorer-core/src/impact.rs:140-161 | both adjacencies list, in order and with repetitions, the targets of exactly the traversable relationships, the second of the reversed ones |
| ImpactAnalysis.ReverseIsTranspose | crates/code-explorer-core/src/impact.rs:146-158 | the reverse adjacency is the transpose of the forward one as multisets of edges |
| ImpactAnalysis.EnqueueSeeds | crates/code-explorer-core/src/impact.rs:174-178 | every seed is queued at depth zero |
| ImpactAnalysis.ExpandNeighbors | crates/code-explorer-core/src/impact.rs:187-210 | records and queues exactly the neighbours that are new and pass the Community and `obj` filter, once each, and counts them at their depth |
| ImpactAnalysis.BfsImpact | crates/code-explorer-core/src/impact.rs:163-217 | reports an id at depth d exactly when it is no seed, 1 <= d <= max_depth, and d is the length of a shortest walk from a seed whose nodes after the seed pass the filter; each id once, depths never decreasing, `depth_counts[k]` counting exactly depth k+1; terminates |
| ImpactAnalysis.DepthsAreDistances | crates/code-explorer-core/src/impact.rs:180-211 | with the queue empty, recorded depths within the bound are exactly the shortest distances |
| ImpactAnalysis.NothingMissed | crates/code-explorer-core/src/impact.rs:180-211 | with the queue empty, everything reachable within the bound has been recorded, no later than its distance |
| ImpactAnalysis.WalkReverses | crates/code-explorer-core/src/impact.rs:140-161 | a walk whose first node passes the filter, read backwards, is a walk of the reverse adjacency |
| ImpactAnalysis.DownstreamIsUpstreamReversed | crates/code-explorer-core/src/impact.rs:54-65 | for two distinct nodes that pass the filter, y is downstream of x at depth d exactly when x is upstream of y at depth d |
| ImpactAnalysis.CollectSeedSources | crates/code-explorer-core/src/impact.rs:112-122 | the sources are the target and, for a controller, the classes of the same name and file |
| ImpactAnalysis.CollectImpactSeedIds | crates/code-explorer-core/src/impact.rs:103-138 | the seeds are the target first and the members of its sources, for the four type labels only |
| ImpactAnalysis.AnalyzeImpact | crates/code-explorer-core/src/impact.rs:55-65 | from the resolved symbol, both directions are the exact blast radius of the same seeds over the two adjacencies; none exactly when no symbol was resolved |
| SourceText.TruncateContent | crates/code-explorer-db/src/csv_generator.rs:58-68 | the cut at the last character boundary at or below the limit |
| SourceText.TruncatedIsLongestPrefix | crates/code-explorer-db/src/csv_generator.rs:57-68 | for valid UTF-8 (section 3 of RFC 3629) truncation gives a valid prefix within the limit, the longest such, and a cut one is at most three bytes short |
| SourceText.InsideCharacter | crates/code-explorer-db/src/csv_generator.rs:62-66 | a cut inside a character leaves no valid text |
| SourceText.TruncatedOfEarlyCut | crates/code-explorer-db/src/csv_generator.rs:219-223 | truncating a prefix that is long enough equals truncating the whole text |
| SourceText.SanitizeKeepsUtf8 | crates/code-explorer-db/src/csv_generator.rs:46-55 | removing the control bytes of valid UTF-8 leaves valid UTF-8, so working on bytes is working on characters |
| SourceText.SanitizeLeavesOnlyKept | crates/code-explorer-db/src/csv_generator.rs:48-55 | exactly the kept characters stay, and sanitizing twice changes nothing |
| SourceText.IndexLines | crates/code-explorer-db/src/csv_generator.rs:77-98 | the spans of `CachedFile::new` cut the text into exactly the lines of `str::lines`, for every text |
| SourceText.JoinUpTo | crates/code-explorer-db/src/csv_generator.rs:211-223 | the loop with its early break gives what joining all the lines and truncating gives |
| SourceText.StopEarly | crates/code-explorer-db/src/csv_generator.rs:219-221 | once the limit is met, the lines left out cannot change the truncated text |
| SourceCache.WithinBudgetIsLongestPrefix | crates/code-explorer-db/src/csv_generator.rs:143-145 | eviction keeps the longest most-recently-used prefix within the budget: no entry more than needed goes |
| SourceCache.FileContentCache.EvictLru | crates/code-explorer-db/src/csv_generator.rs:151-156 | drops the least recently used entry, its bytes with it, and counts it |
| SourceCache.FileContentCache.ReadFile | crates/code-explorer-db/src/csv_generator.rs:125-136 | a readable, non-binary, valid file gives its sanitized text with a line index equal to `str::lines`; any other gives none |
| SourceCache.FileContentCache.EvictToBudget | crates/code-explorer-db/src/csv_generator.rs:143-145 | terminates within the budget, each drop counted |
| SourceCache.FileContentCache.PutFront | crates/code-explorer-db/src/csv_generator.rs:141-142 | the new entry's bytes are counted whatever `put` does: replace an entry, or silently drop the last one of a full cache |
| SourceCache.PutIsCountedIff | crates/code-explorer-db/src/csv_generator.rs:138-142 | `bytes` stays exact over a `put` exactly when the cache is not full or its last entry retains nothing, so the eviction before it is what keeps the count |
| SourceCache.FileContentCache.Load | crates/code-explorer-db/src/csv_generator.rs:124-147 | a miss keeps the invariant and evicts exactly what the cap and the budget require |
| SourceCache.FileContentCache.GetContent | crates/code-explorer-db/src/csv_generator.rs:123-149 | keeps `bytes` the sum of retained sizes, `bytes` and `peak_bytes` within the budget, the length within the capacity; a hit only moves the entry to the front; a miss evicts exactly what the two limits need; the result is the direct sanitized read exactly when a hit or the file fits the budget alone, else none |
| SourceCache.AfterMiss | crates/code-explorer-db/src/csv_generator.rs:124-147 | what a miss leaves satisfies both limits, holds the new entry in front if it fits alone, and nothing at all if it does not |
| SourceCache.FittingFileIsCached | crates/code-explorer-db/src/csv_generator.rs:100-103 | a loaded file is within the budget exactly when its text and index, with their slack, fit it alone |
| SourceCache.ExtractFrom | crates/code-explorer-db/src/csv_generator.rs:183-223 | the node's lines of a cached file, joined and truncated, for every line range, malformed ones included |
| SourceCache.ExtractNodeContent | crates/code-explorer-db/src/csv_generator.rs:161-224 | through any cache state the content is the one read straight from disk as soon as the file fits the budget alone; a folder touches nothing; else the content is empty |
| SourceCache.ExtractAll | crates/code-explorer-db/src/csv_generator.rs:112-224 | in every run over a fixed disk each content equals the direct read, and loads equal the entries held plus `evictions` |
| SseStream.ChatStream | chat-ui/src/api/mcp-client.ts:721-805 | for every way of cutting the text into chunks, the callbacks and the ending (end of stream, `[DONE]`, error) are those of reading the whole text, followed by two line feeds, at once |
| SseStream.StreamReader.Flush | chat-ui/src/api/mcp-client.ts:728-767 | ends the open event: nothing without data, else exactly its dispatch |
| SseStream.StreamReader.TakeLine | chat-ui/src/api/mcp-client.ts:780-796 | one line more has the effect it has in the one-shot reading |
| SseStream.StreamReader.DrainBuffer | chat-ui/src/api/mcp-client.ts:778-797 | takes out every complete line and leaves the unfinished one in the buffer, unless an event ends the stream |
| SseStream.EndedStaysEnded | chat-ui/src/api/mcp-client.ts:738-743 | once `[DONE]` or an error is met, later text changes nothing |
| SseStream.SplitExtends | chat-ui/src/api/mcp-client.ts:779-781 | lines complete in a prefix are lines of the whole text |
| SseStream.EventRead | chat-ui/src/api/mcp-client.ts:783-796 | an event sent as an event line, data lines and an empty line is read as that event |
| SseStream.SentIsReceived | chat-ui/src/api/mcp-client.ts:721-805 | every list of events, sent as an event line, data lines and an empty line each, is dispatched in order, each line less a final carriage return; `ChatStream` makes this the reading of any chunks |
| SseStream.DataSurvives | chat-ui/src/api/mcp-client.ts:780 | the data lines arrive as sent exactly when none ends in a carriage return |
| SseStream.EventSurvives | chat-ui/src/api/mcp-client.ts:780 | an event arrives as sent exactly when no line of its data or type ends in a carriage return |
| SseStream.AllSurvive | chat-ui/src/api/mcp-client.ts:780 | a list of events arrives as sent exactly when each event does |
| CypherText.EscapeCypherString | crates/code-explorer-db/src/query.rs:9-24 | character by character, NULs dropped |
| CypherText.UnescapeInvertsEscape | crates/code-explorer-db/src/query.rs:9-24 | unescaping the escaped text gives the text without its NULs, for every text |
| CypherText.StripCypherComments | crates/code-explorer-db/src/query.rs:33-78 | the index loop computes the recursive scanner, ends of unclosed comments and of a final backslash included |
| CypherText.SkipLine | crates/code-explorer-db/src/query.rs:62-64 | stops at the line feed, which stays, or at the end |
| CypherText.SkipBlock | crates/code-explorer-db/src/query.rs:65-71 | stops behind the closing mark, or past the end when there is none |
| CypherText.StripDistributes | crates/code-explorer-db/src/query.rs:33-78 | stripping distributes over a cut where the scanner is in its normal state and no comment mark straddles it |
| CypherText.EscapedIsCopied | crates/code-explorer-db/src/query.rs:40-54 | inside a literal an escaped text is copied verbatim and the literal stays open |
| CypherText.LiteralIsVerbatim | crates/code-explorer-db/src/query.rs:26-78 | a quoted escaped text where the scanner is normal comes through verbatim and leaves it normal, so prefix and suffix are stripped separately, for every text |
| CypherText.StripIsIdempotent | crates/code-explorer-db/src/query.rs:33-78 | stripping twice is stripping once |
| CypherText.Find | crates/code-explorer-db/src/query.rs:101 | the first occurrence at or after the start, or none |
| CypherText.FindWord | crates/code-explorer-db/src/query.rs:100-122 | looks at all occurrences: true exactly when one stands between word boundaries |
| CypherText.IsWriteQuery | crates/code-explorer-db/src/query.rs:88-126 | true exactly when one of the eight keywords stands as a word in the upper-cased stripped query |
| CypherText.LiteralHidesNoWrite | crates/code-explorer-db/src/query.rs:28-32 | no embedded literal, whatever it holds, hides a write keyword that stands as a word before or behind it, at the start and the end of the query too |
| KnowledgeGraphStore.KnowledgeGraph.AddNode | crates/code-explorer-core/src/graph/knowledge_graph.rs:31-59 | adds or replaces by id and keeps the file index exact: the sorted ids of each file's nodes and no others |
| KnowledgeGraphStore.KnowledgeGraph.AddRelationship | crates/code-explorer-core/src/graph/knowledge_graph.rs:195-197 | adds or replaces by id |
| KnowledgeGraphStore.KnowledgeGraph.RemoveNode | crates/code-explorer-core/src/graph/knowledge_graph.rs:69-85 | removes the node and exactly the relationships that touch it |
| KnowledgeGraphStore.KnowledgeGraph.RemoveNodesByFile | crates/code-explorer-core/src/graph/knowledge_graph.rs:92-109 | removes and counts exactly the nodes of the file, and the relationships that touch them |
| KnowledgeGraphStore.KnowledgeGraph.RemoveEmptyFolders | crates/code-explorer-core/src/graph/knowledge_graph.rs:119-146 | leaves no folder without a child, removes only folders that had to go, and counts them; terminates |
| KnowledgeGraphStore.ChildlessIsPrunable | crates/code-explorer-core/src/graph/knowledge_graph.rs:132-138 | a folder left childless once prunable folders are gone is prunable with them |
| KnowledgeGraphStore.FileRemovalIndexed | crates/code-explorer-core/src/graph/knowledge_graph.rs:92-100 | the index entry of a file lists exactly its nodes, and dropping it keeps the index exact |
| KnowledgeGraphStore.InsertionIndexed | crates/code-explorer-core/src/graph/knowledge_graph.rs:55-58 | inserting into the sorted entry keeps the index exact |
| Manifests.DiffManifests | crates/code-explorer-ingest/src/manifest.rs:129-163 | one change for each path that is new, gone, or whose hash or size differs, no other, sorted by path |
| Manifests.NoChangeMeansSame | crates/code-explorer-ingest/src/manifest.rs:129-163 | an empty diff means the same paths with the same hashes and sizes, and conversely |
| Incremental.BuildManifest | crates/code-explorer-ingest/src/incremental.rs:96-109 | the manifest holds exactly the digests of the walked code files and of the documents whose bytes can be read, valid UTF-8 or not |
| Incremental.AddFile | crates/code-explorer-ingest/src/incremental.rs:190-194 | folders apart, exactly the nodes given are added or replaced, whatever paths they name |
| Incremental.AddFolders | crates/code-explorer-ingest/src/incremental.rs:190-191 | folder nodes change no other node |
| Incremental.CountChanges | crates/code-explorer-ingest/src/incremental.rs:121-138 | the three counters count the changes of each kind |
| Incremental.DropOutdated | crates/code-explorer-ingest/src/incremental.rs:157-166 | folders apart, exactly the nodes go that name a modified or removed path |
| Incremental.ReparseCode | crates/code-explorer-ingest/src/incremental.rs:168-194 | exactly the nodes come that parsing the affected code files not removed gives |
| Incremental.ReindexDocuments | crates/code-explorer-ingest/src/incremental.rs:247-272 | exactly the nodes come that indexing the affected readable documents gives, and those are counted |
| Incremental.Prune | crates/code-explorer-ingest/src/incremental.rs:274-283 | pruning folders changes no other node, and leaves no childless one |
| Incremental.IncrementalUpdate | crates/code-explorer-ingest/src/incremental.rs:66-292 | whether documents are tracked is read off the graph; the new manifest is that of the tree; folders apart, the graph loses the nodes that name changed paths and gains what indexing the changed files gives; the counters are the numbers of paths added, modified and removed, and of documents indexed again; no childless folder stays after a change |
| IncrementalLaws.IncrementalIsFull | crates/code-explorer-ingest/src/incremental.rs:82-112 | at every path a walk can find, of code and of tracked documents: if the graph matched the full index of the old tree there and the old manifest is of the old tree, then after the update it holds exactly the nodes of indexing the new tree from scratch there |
| IncrementalLaws.FileAfter | crates/code-explorer-ingest/src/incremental.rs:157-272 | what the update makes of one path: its nodes go if it changed, and those that indexing its own file gives under it come |
| IncrementalLaws.OwnNodes | crates/code-explorer-ingest/src/incremental.rs:190-194 | of what several files give together, the nodes of a path a walk finds come from the file of that path alone |
| IncrementalLaws.WholeIsFullIff | crates/code-explorer-ingest/src/incremental.rs:157-272 | started from the full index of the old tree, the whole graph becomes the full index of the new one exactly when every node that a changed file gave under another path is in the new full index |
| IncrementalLaws.FullIsThere | crates/code-explorer-ingest/src/incremental.rs:168-272 | every node of the new full index is in the updated graph, the same |
| IncrementalLaws.StaleStays | crates/code-explorer-ingest/src/incremental.rs:157-166 | a node that a changed file gave under another path is never dropped |
| IncrementalLaws.RazorScriptStays | crates/code-explorer-ingest/src/phases/parsing/csharp.rs:230-286 | a Razor page with a script, edited to drop the script or deleted: the script's function stays in the graph, a full index lacks it, and every real path matches nevertheless |
| IncrementalLaws.SameDigestSameNodes | crates/code-explorer-ingest/src/manifest.rs:124-129 | a file without a change gives the same nodes in both trees, given that for files both trees hold equal digests mean equal content |
| IncrementalLaws.UpdateKeepsMatch | crates/code-explorer-ingest/src/incremental.rs:285-289 | a graph that matches the tree at a path keeps matching it there, whatever the old manifest |
| IncrementalLaws.RerunKeepsMatch | crates/code-explorer-ingest/src/incremental.rs:85-94 | a rerun over the unchanged walk keeps a match, though it decides again from the graph whether documents are tracked |
| IncrementalLaws.GraphFirstSurvivesCrash | crates/code-explorer-ingest/src/incremental.rs:42-48 | graph saved before manifest: whatever write the process dies after, rerunning over the unchanged walk reaches, at every path a walk can find, what the run that died was to reach |
| IncrementalLaws.ManifestFirstStrandsGraph | crates/code-explorer-ingest/src/incremental.rs:42-48 | manifest saved first and the process dead before the graph: the rerun sees no change and keeps every node, and is right, as a whole and path by path, exactly where the old graph already was |
| SnapshotProtocol.TargetAlwaysComplete | crates/code-explorer-db/src/snapshot.rs:33-109 | outside Windows, with unique temporary names, at every moment of every run of any number of writers that may die anywhere the target is one whole payload: that of the last rename, or what was there at first |
| SnapshotProtocol.UniqueTempsIsExact | crates/code-explorer-db/src/snapshot.rs:35-46 | the target stays whole in every run exactly when temporary names are unique |
| SnapshotProtocol.SharedTempBreaksTarget | crates/code-explorer-ingest/src/manifest.rs:167-173 | two writers sharing a temporary name can rename half a payload over the target |
| WindowsSnapshotProtocol.WholeCopyAlwaysExists | crates/code-explorer-db/src/snapshot.rs:61-97 | on Windows, at every moment of every run a whole snapshot is at the target, or at a backup while the target is missing |
| WindowsSnapshotProtocol.OnlyBackUpRemovesTarget | crates/code-explorer-db/src/snapshot.rs:79-84 | only the renaming to the backup takes the target away |
| WindowsSnapshotProtocol.TargetAlwaysThereIff | crates/code-explorer-db/src/snapshot.rs:66-90 | in a run that starts with a target, the target is there at every moment exactly when no save moves it to a backup |
| WindowsSnapshotProtocol.GapIsReached | crates/code-explorer-db/src/snapshot.rs:68-70 | a save with nobody else running passes through a moment without target, against the comment there |
| ConnectionPool.RunIsSafe | crates/code-explorer-db/src/pool.rs:51-122 | the invariant of every interleaving of any number of callers |
| ConnectionPool.CallsShareAdapter | crates/code-explorer-db/src/pool.rs:46-50 | two calls on one key that return an adapter, with no disconnection of it between them, return the same one, and the later opens nothing |
| ConnectionPool.ReturnedWasOpenedOnce | crates/code-explorer-db/src/pool.rs:64-79 | every adapter returned comes from exactly one successful open, of its path |
| ConnectionPool.ClosedIsUnused | crates/code-explorer-db/src/pool.rs:110-122 | an adapter is closed only when no caller holds it, and is never reached again |
| ConnectionPool.LoopNeverExhausted | crates/code-explorer-db/src/pool.rs:64-104 | at most three attempts a call, and the error behind the loop is unreachable |
| ConnectionPool.RefusalHasCause | crates/code-explorer-db/src/pool.rs:80-95 | a call is refused only by a failed open or by a third busy one |
| RepoLoading.RunIsSafe | crates/code-explorer-desktop/src/state.rs:119-200 | the invariant of every interleaving of concurrent opens and gets |
| RepoLoading.LoadedOnceAndKept | crates/code-explorer-desktop/src/state.rs:126-135 | each repository is inserted at most once, and its entry is never dropped or replaced |
| RepoLoading.LoadedAtMostOnce | crates/code-explorer-desktop/src/state.rs:126-135 | after a successful load of a name no load of it is even tried again |
| RepoLoading.ActiveIsAlwaysLoaded | crates/code-explorer-desktop/src/state.rs:196-197 | the active repository is none or a loaded one |
| RepoLoading.GetsAgree | crates/code-explorer-desktop/src/state.rs:218-251 | all gets of a name that succeed return the same graph and indexes, those inserted for it |
| RepoLoading.ActiveGetSucceeds | crates/code-explorer-desktop/src/state.rs:230-243 | a get of the active repository finds it, whatever runs between its two reads |
| RepoLoading.LockHolderCanMove | crates/code-explorer-desktop/src/state.rs:126-128 | exactly the holder of the load lock is in the guarded part, and it can always take its next step |
| Coupling.GroupCommits | crates/code-explorer-git/src/coupling.rs:51-73 | the loop computes the file lists of the log |
| Coupling.LogRead | crates/code-explorer-git/src/coupling.rs:51-73 | from the log text of any commits the parser recovers the file list of every non-empty commit, in order, for names that are trimmed, not empty and not like a commit mark |
| Coupling.CountFiles | crates/code-explorer-git/src/coupling.rs:89-91 | one commit of distinct files raises by one the total of exactly its files |
| Coupling.CountPairs | crates/code-explorer-git/src/coupling.rs:93-103 | one commit of distinct files raises by one exactly the ordered pairs of its files, each once |
| Coupling.PairIsNew | crates/code-explorer-git/src/coupling.rs:93-103 | among distinct files no two pairs of positions give one pair |
| Coupling.CountCommits | crates/code-explorer-git/src/coupling.rs:80-104 | `pair_counts[(a, b)]` is exactly the number of commits of at most 50 files that contain both, a < b always, and totals count the same commits |
| Coupling.SharedWithinTotals | crates/code-explorer-git/src/coupling.rs:75-79 | shared commits never exceed either file's total |
| Coupling.CouplingHolds | crates/code-explorer-git/src/coupling.rs:106-127 | a reported strength is shared commits over the larger total, in (0, 1] |
| Coupling.Report | crates/code-explorer-git/src/coupling.rs:106-134 | exactly the pairs shared often enough, sorted by falling strength |
| Coupling.ReportIsRight | crates/code-explorer-git/src/coupling.rs:106-127 | every reported pair is right and every pair shared often enough is reported |
| Coupling.PairsReportedOnce | crates/code-explorer-git/src/coupling.rs:107-127 | no pair is reported twice |
| Coupling.AnalyzeCoupling | crates/code-explorer-git/src/coupling.rs:51-134 | all of it, from the log text to the report, for commits that list distinct files |
| SourceReferences.GroupSourceReferences | chat-ui/src/utils/source-references.ts:54-68 | the loop over a map of lists computes the grouping |
| SourceReferences.KeyDecidesEquality | chat-ui/src/utils/source-references.ts:110-112 | two references have one key exactly when they are equal with normalized paths, even for paths that hold colons and digits |
| SourceReferences.GroupKeepsReferences | chat-ui/src/utils/source-references.ts:54-68 | no distinct reference is lost or duplicated, each stands in its path's group, and groups are ordered by line |
| SourceReferences.CollectFlattened | chat-ui/src/utils/analysis-snapshots.ts:23 | adding well-formed groups reference by reference rebuilds them in order |
| SourceReferences.SortedGroupsStay | chat-ui/src/utils/analysis-snapshots.ts:33-35 | well-formed sorted groups, saved flat and regrouped, come back the same |
| SourceReferences.SnapshotRoundTrip | chat-ui/src/utils/analysis-snapshots.ts:15-35 | groups of a grouping, saved flat in a snapshot and regrouped, come back the same: same order, same references |
| TraceLog.ParseTrace | crates/code-explorer-core/src/trace.rs:33-140 | an array gives its values; else an error exactly when every line is blank; else the steps of the log's events, one pass with the pending method and its values equal to cutting the log into segments |
| TraceLog.ReadLogLine | crates/code-explorer-core/src/trace.rs:62-123 | one line: variable, then START, then EF INSERT, then result, in that order |
| TraceLog.ReadLine | crates/code-explorer-core/src/trace.rs:49-63 | a blank line does nothing, a JSON line is a step and nothing else |
| TraceLog.StepsInOrder | crates/code-explorer-core/src/trace.rs:77-132 | every accepted START becomes exactly one method step, in order, with the last values seen until the next START, EF INSERT or the end; JSON and insert steps keep their order |
| TraceLog.StepCount | crates/code-explorer-core/src/trace.rs:43-140 | the number of steps is the JSON lines plus the accepted START lines plus the EF INSERT lines |
| TraceLog.LastValueWins | crates/code-explorer-core/src/trace.rs:65-75 | the value recorded for a name is the last one assigned |
| TraceLog.UnassignedUnchanged | crates/code-explorer-core/src/trace.rs:65-123 | a name that is not assigned keeps what it had |
| WorkDocAnswers.BuildSourceMarkdownWithAnswers | chat-ui/src/utils/workdoc.ts:966-997 | the loop computes the layout: source lines, placed answers, missed answers |
| WorkDocAnswers.FirstFit | chat-ui/src/utils/workdoc.ts:971-976 | the first question that has an answer, is not placed yet and is named by the line; none exactly when there is none |
| WorkDocAnswers.SourceKept | chat-ui/src/utils/workdoc.ts:969-981 | the source lines of the layout are the source, all of it, in order |
| WorkDocAnswers.SourceIsSubsequence | chat-ui/src/utils/workdoc.ts:966-997 | the source lines are an ordered subsequence of the lines of the document |
| WorkDocAnswers.PlacedAtMostOnce | chat-ui/src/utils/workdoc.ts:974-978 | no id is placed twice, and only answered questions are placed |
| WorkDocAnswers.PlacedAfterMatch | chat-ui/src/utils/workdoc.ts:971-980 | a placed answer stands right after a source line that names its question |
| WorkDocAnswers.UnplacedHadNoLine | chat-ui/src/utils/workdoc.ts:971-984 | a question is left unplaced only if every line that names it took another answer |
| WorkDocAnswers.AnsweredOnce | chat-ui/src/utils/workdoc.ts:966-997 | with distinct ids each non-blank answer stands in the document exactly once, and no blank one does |
| WorkDocAnswers.OccurrencesAre | chat-ui/src/utils/workdoc.ts:966-997 | for any questions, a placed id occurs once and any other as often as it has answers |
| WorkDocAnswers.AllKeptIffNotShared | chat-ui/src/utils/workdoc.ts:974-984 | in one document all answers of an id are kept exactly unless it is placed and shared by several answered questions |
| WorkDocAnswers.AlwaysKeptIff | chat-ui/src/utils/workdoc.ts:966-1008 | a condition on the questions alone: all answers of an id are kept in every document exactly when at most one answered question has the id, or no line can match those that do |
| WorkDocAnswers.PlacedHasName | chat-ui/src/utils/workdoc.ts:971-980 | a placed id belongs to an answered question that some line matches |
| WorkDocAnswers.RepeatedLinePlaces | chat-ui/src/utils/workdoc.ts:971-980 | a line repeated often enough places every answered question it matches |
| WorkDocAnswers.SharedIdLosesAnswer | chat-ui/src/utils/workdoc.ts:974-984 | two answered questions under one id and a line naming the first: the second answer is lost |
| ProbeScheduler.RunKeepsInv | chat-ui/src/hooks/use-backend-status.ts:73-164 | the invariant of every run of timers, answers, wake-ups, mounts and unmounts |
| ProbeScheduler.OneInFlight | chat-ui/src/hooks/use-backend-status.ts:85-94 | each run of the effect has at most one request in flight, so the hook has at most one until the effect is run again |
| ProbeScheduler.StepOverlapsIff | chat-ui/src/hooks/use-backend-status.ts:85-92 | with at most one request in flight, a step leads to a second exactly if a timer fires while a request of a cleaned-up run of the effect is in flight |
| ProbeScheduler.NeverOverlapsIff | chat-ui/src/hooks/use-backend-status.ts:85-92 | over whole runs: requests never overlap exactly when no timer fires while a request of a cleaned-up run of the effect is in flight |
| ProbeScheduler.ArmedWhileMounted | chat-ui/src/hooks/use-backend-status.ts:126-141 | while mounted a timer is pending or the probe runs; never two timers; none after unmount |
| ProbeScheduler.SilentAfterUnmount | chat-ui/src/hooks/use-backend-status.ts:154-163 | after unmount nothing but mounting again changes the health shown or arms a timer |
| ProbeScheduler.OnlyLiveAnswersShow | chat-ui/src/hooks/use-backend-status.ts:93-125 | only an answer to the mounted effect's request changes the health, and a failure keeps the last success; a late answer changes neither health nor timers |
| ProbeScheduler.NextProbeDue | chat-ui/src/hooks/use-backend-status.ts:126-141 | after an answer one timer is armed: at once if a probe was asked for meanwhile, else one interval after the request; the time shown is later, unless the probe took no time or the interval is zero |
| ProbeScheduler.WakeUpDuringProbe | chat-ui/src/hooks/use-backend-status.ts:126-147 | a wake-up during a probe brings a probe at once exactly if its timer fires before the answer; else it is lost to the regular interval |
| ProbeScheduler.RerunOverlaps | chat-ui/src/hooks/use-backend-status.ts:154-164 | changed options can put a second request in flight |
| ProbeScheduler.Hook.ArmProbe | chat-ui/src/hooks/use-backend-status.ts:78-83 | replaces the pending timer |
| ProbeScheduler.Hook.Mount | chat-ui/src/hooks/use-backend-status.ts:149-152 | the mount step, keeping the invariant |
| ProbeScheduler.Hook.Unmount | chat-ui/src/hooks/use-backend-status.ts:154-163 | the clean-up step, keeping the invariant |
| ProbeScheduler.Hook.FireTimer | chat-ui/src/hooks/use-backend-status.ts:85-92 | the timer step, keeping the invariant |
| ProbeScheduler.Hook.Answer | chat-ui/src/hooks/use-backend-status.ts:93-142 | the answer step, keeping the invariant |
| ProbeScheduler.Hook.ProbeWhenVisible | chat-ui/src/hooks/use-backend-status.ts:144-147 | the wake-up step, keeping the invariant |
| ChatStore.ApplyKeepsInv | chat-ui/src/stores/chat-store.ts:467-637 | every action keeps the invariant (sessions sorted by recency, current session none or present, at most 12 analyses a session and those sorted, at most 8 work documents, current document none or present) exactly when it is allowed: a new session's clock not behind the newest, a selected session present, a patch of the current document keeping its id |
| ChatStore.RunKeepsInv | chat-ui/src/stores/chat-store.ts:452-643 | with a clock that never falls behind stored times, every run of actions that select present sessions and keep document ids keeps the invariant |
| ChatStore.CreateSessionOk | chat-ui/src/stores/chat-store.ts:467-482 | prepending a session without sorting keeps the order exactly when the clock is not behind the first session |
| ChatStore.UpdateWorkDocumentOk | chat-ui/src/stores/chat-store.ts:538-543 | a patch keeps the current document present exactly unless it renames it |
| ChatStore.UpdateSessionOk | chat-ui/src/stores/chat-store.ts:121-130 | any update through `updateSessionByRecentActivity` leaves the sessions sorted, whatever the clock, with the same ids |
| ChatStore.SavedAnalysesFit | chat-ui/src/stores/chat-store.ts:503-517 | saving an analysis leaves at most 12, sorted |
| ChatStore.TouchedComesFirst | chat-ui/src/stores/chat-store.ts:121-130 | a session updated later than all others moves to the front, the others keep their order |
| ChatStore.TouchingNoneChangesNothing | chat-ui/src/stores/chat-store.ts:121-130 | an update of a session that is not there changes nothing |
| ChatStore.UpsertIsStable | chat-ui/src/stores/chat-store.ts:608-624 | a tool call is there once after an upsert, the others unchanged, and upserting it again changes nothing |
| ChatStore.CurrentSessionFound | chat-ui/src/stores/chat-store.ts:639-642 | a current session is found exactly when one is set |
| ChatMigration.SanitizeToolCalls | chat-ui/src/stores/chat-store.ts:370-390 | the loop collects exactly the items that can be read, in order |
| ChatMigration.SanitizeMessages | chat-ui/src/stores/chat-store.ts:323-350 | the loop collects exactly the items that can be read, in order |
| ChatMigration.SanitizeReferences | chat-ui/src/stores/chat-store.ts:213-232 | the loop with its set of seen keys reads each distinct reference once |
| ChatMigration.SanitizeAnalyses | chat-ui/src/stores/chat-store.ts:189-211 | the loop collects exactly the items that can be read, in order, then sorts and caps them |
| ChatMigration.SanitizeQuestions | chat-ui/src/stores/chat-store.ts:281-309 | the loop, which numbers questions by those kept so far, reads at most 120 and sorts them |
| ChatMigration.SanitizeDocuments | chat-ui/src/stores/chat-store.ts:255-279 | the loop collects exactly the items that can be read, in order, then sorts and caps them |
| ChatMigration.SanitizeSessions | chat-ui/src/stores/chat-store.ts:163-187 | the loop collects exactly the items that can be read, in order |
| ChatMigration.MigratePersistedChatState | chat-ui/src/stores/chat-store.ts:132-153 | any JSON value is read into a state that keeps the invariant of the store, whatever `trim` and `Number` do, and is the one the next rows are about |
| ChatMigration.MigratedKeepsInv | chat-ui/src/stores/chat-store.ts:132-153 | whatever value is read, the state keeps the invariant of the store |
| ChatRoundTrip.MigratedIsClean | chat-ui/src/stores/chat-store.ts:132-390 | from any JSON value the state read is clean: caps, orders, ids present, non-empty ids and titles, positive line numbers, no reference twice, no blank assistant message |
| ChatRoundTrip.CleanKeepsInv | chat-ui/src/stores/chat-store.ts:132-153 | a clean state satisfies the invariant of the store |
| ChatRoundTrip.ReferencesRead | chat-ui/src/stores/chat-store.ts:213-232 | clean references written and read are the same |
| ChatRoundTrip.QuestionRead | chat-ui/src/stores/chat-store.ts:281-309 | a clean question written and read is the same, whatever number it would get by default |
| ChatSaving.ReadBackIffClean | chat-ui/src/stores/chat-store.ts:88-115 | a state saved as JSON text and migrated comes back the same exactly when it is clean and holds no infinite number in the arguments and results of its tool calls |
| ChatSaving.MigrationIsIdempotent | chat-ui/src/stores/chat-store.ts:132-153 | migrating what was migrated changes nothing; with a save in between it changes nothing exactly when no number is infinite, as when the value first read held none; after one save it never changes anything again |
| ChatSaving.FiniteIsMigrated | chat-ui/src/stores/chat-store.ts:132-390 | from a value without infinite numbers comes a state without |
| ChatSaving.FiniteIsWritten | chat-ui/src/stores/chat-store.ts:88-115 | a state without infinite numbers is written without |
| ChatSaving.InfiniteResultIsLost | chat-ui/src/stores/chat-store.ts:370-390 | a clean tool call whose result was read as infinite comes back with the result null |

## Left out

- Edges of the incremental update: call, import and heritage resolution runs for changed files only, so equality with a full index is claimed for nodes, not for relationships.
- Folder nodes of the incremental update: which folders exist is not compared with a full index, only that no childless one stays after a change.
- Incremental.IncrementalUpdate: does not model `nodes_removed`, `nodes_added`, `edges_added` and `unchanged`, which only feed log lines, and does not say which folders `folders_pruned` counts.
- Node properties other than kind, name, path and the kind of a document, such as the description of a library, which two pages may give differently; libraries that project files bring in, which a later phase adds.
- IncrementalLaws.GraphFirstSurvivesCrash: assumes that the rerun walks the same files; whether it tracks documents is derived.
- Community, process and LLM phases, and the rest of the indexing pipeline.
- `remove_nodes_by_label`, lookups and iterators of the knowledge graph, which would only add easy members.
- Labels and relationship types the kernels do not look at are one constructor each.
- ImpactAnalysis.AnalyzeImpact: takes the resolved symbol as a parameter; the search for it is not modelled.
- SourceCache.FileContentCache.GetContent: takes the allocator's spare capacity as a parameter of each load, and does not model a disk that changes during a run.
- The binary check and coupling strengths use exact rationals where the program uses `f64`.
- CSV quoting, flushing and the tables themselves.
- SseStream.SentIsReceived: the encoding of events is that of section 9.2.6 of the WHATWG HTML Living Standard; the server (`crates/code-explorer-cli/src/commands/serve.rs`) only builds events for a library that writes them, so that encoding is assumed of it, and so is whether a line that holds a carriage return can be sent at all.
- SseStream.ChatStream: takes decoded text, so the incremental UTF-8 decoder and network errors are outside it, and callbacks do not throw; characters stand for UTF-16 units.
- CypherText.IsWriteQuery: takes the upper-casing of a character as a parameter; that a keyword may also be found inside a literal is accepted by the program and by the model.
- ConnectionPool.CallsShareAdapter: a path is the key the pool computes; `canonicalize` falls back to the path as given, so one path can have two keys once it comes to exist, and two adapters.
- `disconnect_all` and the counters of the connection pool, back-off times, and a caller that holds two adapters at once, which is two callers here.
- `reload_repo` racing with `open_repo`, for which the code gives no clean guarantee, and the embeddings of a repository.
- Power loss, directory creation and the JSON form of snapshots and manifests.
- Coupling.CountCommits: counts without the `u32` bound of the program.
- The git call itself, and commits that list a file twice, for which git gives no example.
- TraceLog.ParseTrace: takes the lines and the parse of the whole text as a JSON array; the name-to-node index and method resolution are not modelled.
- Extraction of source references from text, links and hrefs to them.
- WorkDocAnswers.BuildSourceMarkdownWithAnswers: takes the source already split into lines; the formatting of answers and the final trimming are parameters, and the rest of the work-document export is not modelled.
- ProbeScheduler.Next: reads the clock once a step where the program reads it twice, and leaves out the texts of the health messages.
- The panel and streaming flags of the chat store, which no action but their own setter reads; `addWorkDocument` opens a panel.
- ChatStore.PatchDocument: takes what a patch does to fields other than the id as a function; likewise for patches of questions.
- ChatMigration.SanitizeReferences: compares references instead of their keys, which `KeyDecidesEquality` shows to be the same.
- Zustand's own storage and merging of a saved state, and `cancel` racing with `sendMessage`.
- `repairMermaidSource`, `normalizeBareMermaid` and their fences, which nested brackets and indented fences break.
- UI components, templates, command-line tables, scoring tables and wire formats.
