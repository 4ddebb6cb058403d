# Verification of the ULTRA kernel

A Dafny model of seven parts of ULTRA's C++ core, with machine-checked proofs of what those parts are for. Code that
changes state step by step is modelled by classes, methods and loops; each method is proved against a value-level
specification, and the theorems are lemmas about those specifications, over all inputs or all runs. `dafny verify
dfyconfig.toml` checks everything.

## What is modelled

| part of ULTRA | files |
|---|---|
| dependency graphs: adjacency map with an edge count, three-colour cycle search, smallest-first topological sort, rebuild sets, execution graphs | `Graphs`, `AdjacencyLists`, `DependencyGraph`, `IncrementalAnalyzer`, `ExecutionGraph` |
| branches: overlay-over-base store with a linked recency list, eviction, lifecycle with governance, snapshots, ids, files | `Branches`, `BranchStore`, `BranchTree`, `BranchEvictionPolicy`, `SnapshotChain`, `LifecycleSpec`, `LifecycleRuns`, `LifecycleTheorems`, `LifecycleEffects`, `LifecycleHistory`, `BranchLifecycle`, `BranchPersistence` |
| streaming SHA-256 and the index hashes | `Sha256Spec`, `Sha256KnownAnswer`, `Sha256`, `IntegrityManager` |
| scanner over files, symbols, edges and index: incremental, parallel, and the daemon's events | `Symbols`, `SymbolTable`, `DependencyTable`, `SymbolIndex`, `Scanner`, `FullScan`, `IndexingService`, `IndexContents`, `FileLinks`, `FileTable` |
| optimistic mutations of the kernel state | `StateManager` |
| binary index files and the change log | `Bytes`, `BinaryTables`, `BinaryIndex`, `IndexFiles`, `IndexLayout`, `IndexStore`, `ChangeLog` |
| structural diffs of symbols and of branches | `SymbolDiff`, `TraversalDepth`, `BranchDiff`, `BranchImpact`, `BranchReport` |
| shared: orders, sorting, filtering, multisets, decimal numbers | `Orders`, `Decimals` |

## Main results

- **Graphs.** Every mutator changes the edge set by exactly what it names and keeps the counter equal to its size.
  `hasCycle` is true exactly when a closed walk exists. On acyclic graphs `topologicalSort` gives the
  lexicographically least topological order, which is unique, so no iteration order shows in it; its final size test
  never fires. `computeRebuildSet` gives the least closed superset of the changed files.
- **SHA-256.** However a message is cut into updates, `finalize` gives the FIPS 180-4 digest of the whole, in both
  padding cases, and gives it again when called again. The constants are proved from their definition: the roots by
  integer inequalities, and their bases to be the first primes. The digest of "abc" is proved to be the one the
  standard prints.
- **Branches.** `BranchStore` refines one map from id to record with a recency list. Over all runs that mix lifecycle
  operations with edits of the active graph by its owner, executions, and restarts after a complete save: no branch is
  lost, terminal states stay terminal, each snapshot reference can be loaded, and a resume or rollback gives exactly
  the graph that was active when the branch was spawned. A branch that is active or suspended stays so until a
  successful operation names it: governance only suspends, takes the branches its policy chooses and no more than the
  caps ask for, and what it suspended can be resumed as long as its reference is kept. Both caps hold after each
  successful operation, sparing only the active branch and executing ones, and stay in force until a branch stops
  executing; they hold outright while nothing executes. No text is hashed for an id twice unless a restart goes back;
  the theorems ask of the digest only that it does not collide on the texts hashed in the run.
- **Kernel state.** Every run of many clients ends as the serial run of the operations that took effect; a committed
  mutation ran on the very state its client had seen; at most one commits per version; the newest snapshot is current;
  and a snapshot shows the tables of the last write that stored a state.
- **Index files.** Written tables read back exactly when counts and lengths fit their 32-bit fields (and, for files,
  equal ids carry equal times); where each field of a record stands in a file is stated byte by byte; no strict prefix
  of a table is accepted; a cut log reads as a prefix of its records or fails, and what a log reads as that was cut
  and then appended to is stated for every cut.
- **Diffs.** `SymbolDiff` is silent exactly for equal multisets of symbols, conserves keys and mirrors. `diffBranches`
  lists exactly what differs, mirrors, and is empty with score 0 on equal inputs. Lists, risk and score are stated in
  terms of the nodes and edges of the two snapshots, the score up to half a millionth.
- **Scanner.** The tables are sound when ids, paths and links are in order and the derived tables equal their
  recomputation. A full scan gives sound tables, and without ties in the symbol order the same tables however its
  files are shared out among threads. Over every run of the daemon, rebuilds and failed events included, the tables
  are sound and each file has exactly the symbols, name by name and line by line, and the named dependencies of the
  content whose digest is recorded for it, and the file table is in the order of the paths; after an event that was
  applied, the file and all it depended on are recorded as found on disk. A caller that, unlike the daemon, keeps the
  tables a failed call leaves has sound tables except between a call that failed on too many symbols and the next one
  that changes the tables and succeeds. Adding a new file and removing it again restores every table.

## Where the code falls short of what one would expect

For each of these a concrete input is given, and the exact condition under which the expected property holds.

- The text hashed for an id determines the counter, but not parent and goal (`Branches.IdTextMergesParentAndGoal`): it does
  exactly when neither contains a bar (`Branches.IdTextDeterminesIff`); for parents without bars it always determines both.
- Saving and loading loses a branch with the id `metadata`, whose file is the store's own, and one with an empty id, whose
  file has no extension (`BranchFiles.TwoBranchesLost`), and brings removed branches back whose files were left
  (`BranchFiles.RemovedComesBack`). Apart from these exactly the saved branches are there (`BranchFiles.SaveThenLoad`),
  each as it was unless a file later by name claims its id (`BranchFiles.SavedComesBack`).
- The same text is hashed for two ids (`BranchFiles.TextHashedTwice`) exactly when an id is generated after a restart from
  a directory that did not hold the current counter (`BranchFiles.IdsRepeatIff`).
- After such a restart snapshot numbers are drawn again, and a branch would be rolled back to a graph that is not the one
  at its spawn (`LifecycleHistories.LostSaveMisleads`): exactly when an older snapshot in the chain has its number and
  shows another graph (`LifecycleHistories.NewNumberIff`).
- Setting the recency order breaks the store (`BranchStores.RepeatedOrderBreaks`) exactly when the order has repeats,
  unknown ids or lacks a resident (`BranchStores.BranchStore.SetLruOrder`).
- A branch merged into itself stays active (`LifecycleTheorems.SelfMergeKeepsActive`): a successful merge leaves the source
  merged exactly when it is not merged into itself (`LifecycleTheorems.MergedIff`).
- Appending to a log after a torn write gives wrong records without notice (`ChangeLogs.TornLogMisreads`): a write torn one
  to three bytes into a record goes unnoticed and shifts all that follow; one torn later makes the log unreadable
  (`ChangeLogs.TornLogOutcome`). All is well exactly when it stopped between records (`ChangeLogs.AppendSafeIff`).
- A cut `files.meta` is accepted with missing times (`IndexFiles.TimeLost`); nothing shows exactly when the cut is not
  inside a time and every record with a time has an entry before it (`IndexFiles.CutHarmlessIff`).
- Writing the files table and failing at its side table leaves new records under old times (`IndexFiles.TimeStale`);
  nothing shows exactly when each record has the time last written for its id (`IndexFiles.HalfWrittenHarmlessIff`).
- Records that share an id but not a time do not come back (`IndexFiles.TimesMerged`, `IndexFiles.FilesRoundTrip`).
- The next file id is taken (`Scanners.NextIdTaken`) exactly when it wraps to an id 0 in use (`Scanners.NextIdFresh`).
- A rescan that failed has stored the digest already. To a caller that keeps these tables the next rescan of the file
  succeeds without reading it (`Scanners.SymbolNeverFound`), exactly when the file was known or could be parsed
  (`Scanners.FailedRescanSticks`). The daemon is not such a caller: it drops the copy a failed call has worked on.
- A reference to a file that is added later stays unresolved, although another full scan resolves it
  (`FileLinks.LateFileUnlinked`): a successful call leaves the links complete exactly when the references of every other
  file resolve to the same paths with the paths there are after it, but for one that is gone (`FileLinks.StaysLinkedIff`).
- Different file lists can have one project root hash (`IntegrityManagement.RootBytesMerge`): the hashed bytes determine a
  list exactly when it is empty or a single file whose path is shorter than a digest
  (`IntegrityManagement.RootBytesDetermineIff`).

One name misleads: `computeRebuildSet` follows `getDependencies`, although its loop variable is called `dependent`. The
model follows the code, so an event rescans what a file depends on and not what depends on it.

## Model

| member | source | states |
|---|---|---|
| DependencyGraphs.DependencyGraph.AddNode | src/graph/DependencyGraph.cpp:8-10 | adds the node and no edge; lists stay duplicate-free with known targets |
| DependencyGraphs.DependencyGraph.AddEdge | src/graph/DependencyGraph.cpp:12-20 | adds both nodes and exactly this edge; the kept edge count stays the number of edges |
| DependencyGraphs.DependencyGraph.Append | src/graph/DependencyGraph.cpp:15-19 | the edge set grows by this edge, and by one exactly when it was not listed yet |
| DependencyGraphs.DependencyGraph.RemoveEdge | src/graph/DependencyGraph.cpp:27-38 | removes exactly this edge; nodes and the count's meaning stay |
| DependencyGraphs.DependencyGraph.RemoveNode | src/graph/DependencyGraph.cpp:45-58 | removes the node and exactly the edges into or out of it, in every list |
| DependencyGraphs.DependencyGraph.UpdateNode | src/graph/DependencyGraph.cpp:60-74 | replaces the outgoing edges by those to the listed dependencies, which become nodes |
| DependencyGraphs.DependencyGraph.AppendAll | src/graph/DependencyGraph.cpp:67-72 | the loop of updateNode adds an edge for each dependency, repeats included once |
| DependencyGraphs.DependencyGraph.HasCycleFrom | src/graph/DependencyGraph.cpp:76-93 | the three-colour search from one node terminates and answers true only for a closed walk, false only with everything reached finished |
| DependencyGraphs.DependencyGraph.HasCycle | src/graph/DependencyGraph.cpp:95-101 | true exactly when some closed walk exists, self-loops included |
| DependencyGraphs.DependencyGraph.InDegrees | src/graph/DependencyGraph.cpp:105-113 | counts for every node its predecessors |
| DependencyGraphs.DependencyGraph.TopologicalSort | src/graph/DependencyGraph.cpp:103-141 | on acyclic graphs the lexicographically least topological order of all nodes, else nothing; the final size test never fires |
| DependencyGraphs.DependencyGraph.Relax | src/graph/DependencyGraph.cpp:128-137 | taking a node lowers exactly its successors' counts and readies those at zero |
| DependencyGraphs.DependencyGraph.GetDependencies | src/graph/DependencyGraph.cpp:143-150 | the successors, sorted, without repeats |
| DependencyGraphs.DependencyGraph.GetNodes | src/graph/DependencyGraph.cpp:152-160 | all nodes, sorted |
| Graphs.TopologicalIsAcyclic | src/graph/DependencyGraph.cpp:103-104 | a graph with a topological order has no closed walk |
| Graphs.StuckIsCyclic | src/graph/DependencyGraph.cpp:123-139 | if nodes remain and none is ready, the graph has a closed walk |
| Graphs.FinishingIsAcyclic | src/graph/DependencyGraph.cpp:76-101 | a search that finishes every node without meeting a grey one proves there is no closed walk |
| Graphs.GreedyIsLeast | src/graph/DependencyGraph.cpp:123-128 | always taking the smallest ready node gives the lexicographically least topological order |
| Graphs.LeastTopologicalUnique | src/graph/DependencyGraph.cpp:115-119 | that order is unique, so it does not depend on any iteration order |
| Orders.LtIff | src/graph/DependencyGraph.cpp:116 | lexicographic order, in which sets and maps of strings are visited: a proper prefix, or smaller at the first difference |
| IncrementalAnalysis.ComputeRebuildSet | src/incremental/IncrementalAnalyzer.cpp:9-29 | terminates with the sorted least set that holds the changed files and is closed under getDependencies |
| IncrementalAnalysis.RebuildSetIsReachability | src/incremental/IncrementalAnalyzer.cpp:17-25 | that set is exactly what walks from the changed files reach |
| IncrementalAnalysis.RebuildSetUnique | src/incremental/IncrementalAnalyzer.cpp:9-29 | the result is determined by graph and changed files |
| IncrementalAnalysis.RebuildSetIdempotent | src/incremental/IncrementalAnalyzer.cpp:9-29 | computing the rebuild set of a rebuild set changes nothing |
| IncrementalAnalysis.RebuildSetUnion | src/incremental/IncrementalAnalyzer.cpp:9-29 | the rebuild set of a union is the union of the rebuild sets |
| ExecutionGraphs.ExecutionGraph.AddNode | src/intelligence/ExecutionGraph.cpp:7-9 | registers the node and leaves all dependencies |
| ExecutionGraphs.ExecutionGraph.AddDependency | src/intelligence/ExecutionGraph.cpp:17-27 | adds exactly this edge to both maps, whether or not its ends are registered |
| ExecutionGraphs.ExecutionGraph.GetDependencies | src/intelligence/ExecutionGraph.cpp:49-55 | the sources of edges into the node, once each |
| ExecutionGraphs.ExecutionGraph.InDegrees | src/intelligence/ExecutionGraph.cpp:61-73 | counts edges into registered nodes from any source, registered or not |
| ExecutionGraphs.ExecutionGraph.TopologicalOrder | src/intelligence/ExecutionGraph.cpp:57-102 | a topological order of the registered nodes exactly when their edges are acyclic and none enters from an unregistered source, else empty |
| ExecutionGraphs.CompleteIsSchedulable | src/intelligence/ExecutionGraph.cpp:80-101 | a complete run of the queue is possible only for such graphs |
| ExecutionGraphs.StuckIsUnschedulable | src/intelligence/ExecutionGraph.cpp:98-100 | a queue that runs dry early means a closed walk or an unregistered source |
| Sha256Spec.CubeRootsCorrect | src/ai/Hashing.cpp:13-26 | each of the 64 listed constants is the first 32 fraction bits of the cube root of its base, by integer inequalities; the round constants are read from this list |
| Sha256Spec.CubeBasesArePrimes | src/ai/Hashing.cpp:13-26 | the bases are ascending and exactly the primes up to 311, so the first 64 primes |
| Sha256Spec.InitialHashIsSquareRoots | src/ai/Hashing.cpp:28-30 | the eight words of the initial state are the first 32 fraction bits of the square roots of the first 8 primes, in order |
| Sha256Spec.ChChooses | src/ai/Hashing.cpp:37-41 | the result has the bits of the second argument where the first has ones and those of the third elsewhere |
| Sha256Spec.MajAgrees | src/ai/Hashing.cpp:43-47 | wherever two of the three arguments agree the result agrees with them |
| Sha256Spec.PaddingZerosSmallest | src/ai/Hashing.cpp:139-149 | the padding is the smallest that leaves 64 bits for the length, as section 5.1.1 of FIPS 180-4 asks |
| Sha256Spec.BigEndianRoundTrip | src/ai/Hashing.cpp:151-155 | the stored length bytes are the base-256 digits of the length |
| Sha256Spec.HashBlocksAppend | src/ai/Hashing.cpp:86-89 | hashing block after block composes |
| Sha256Streaming.RotrIsRotation | src/ai/Hashing.cpp:32-35 | the shifted and or-ed form is a rotation |
| Sha256Streaming.SigmasAgree | src/ai/Hashing.cpp:49-63 | the four sigma functions are those of section 4.1.2 of FIPS 180-4 |
| Sha256Streaming.PadOneBlock | src/ai/Hashing.cpp:139-157 | with at most 55 bytes kept the padding fits the current block |
| Sha256Streaming.PadTwoBlocks | src/ai/Hashing.cpp:140-146 | with more it spills into a second block, and both give the padded message |
| Sha256Streaming.FinishedIsSha256 | src/ai/Hashing.cpp:126-169 | what finalize computes is the FIPS 180-4 digest for messages below 2^64 bits |
| Sha256Streaming.Sha256Accumulator.Update | src/ai/Hashing.cpp:69-91 | after any sequence of updates the state is that of the concatenated message; refused once finalized |
| Sha256Streaming.Sha256Accumulator.UpdateFromFile | src/ai/Hashing.cpp:99-124 | feeds the file's bytes however its reads are cut; on a finalized accumulator the first bytes are refused and nothing is fed |
| Sha256Streaming.Sha256Accumulator.Finalize | src/ai/Hashing.cpp:126-169 | the SHA-256 digest of everything fed in; a second call returns the same digest |
| Sha256Streaming.Sha256Accumulator.TransformBlock | src/ai/Hashing.cpp:171-218 | one application of the compression function of section 6.2.2 |
| Sha256Streaming.Sha256OfBytes | src/ai/Hashing.cpp:220-224 | the padded and compressed bytes for every input, which is the FIPS 180-4 digest below 2^64 bits |
| Sha256Streaming.Sha256OfFile | src/ai/Hashing.cpp:231-240 | the digest of the file's bytes, or a failed read |
| Sha256KnownAnswer.AbcDigest | src/ai/Hashing.cpp:126-218 | the digest of "abc" is the one printed in the standard, computed stage by stage through padding, schedule, all 64 rounds, sums and byte order |
| Sha256KnownAnswer.WordBytesAt | src/ai/Hashing.cpp:160-167 | bytes 4 i to 4 i + 3 of the digest are those of word i |
| IntegrityManagement.ComputeProjectRootHash | src/ai/IntegrityManager.cpp:25-33 | the digest of path and hash of every file, one after another |
| IntegrityManagement.RootBytesDetermineIff | src/ai/IntegrityManager.cpp:28-31 | a list of files is determined by the bytes hashed for it exactly when it is empty or a single file whose path is shorter than a digest |
| IntegrityManagement.RootBytesMerge | src/ai/IntegrityManager.cpp:28-31 | two different lists with one root hash, because nothing separates paths from digests |
| IntegrityManagement.ComputeIndexHash | src/ai/IntegrityManager.cpp:41-58 | the digest of the three files concatenated |
| Decimals.DecInjective | src/intelligence/BranchIdGenerator.cpp:11 | different counters print differently |
| Decimals.ParseDec | src/intelligence/BranchLifecycle.cpp:15-26 | a printed number below 2^64 parses back to itself, and nothing larger parses |
| Decimals.ParseIff | src/intelligence/BranchLifecycle.cpp:15-26 | exactly the texts of white space, perhaps a sign, and digits up to the end parse whose number is below 2^64, and a minus sign negates it modulo 2^64 |
| Decimals.DecPositional | src/intelligence/BranchIdGenerator.cpp:11 | positional notation: one more digit makes ten times the number and the digit |
| Branches.IdTextSeparatesCounters | src/intelligence/BranchIdGenerator.cpp:8-14 | the hashed text determines the counter even when parent or goal contain bars |
| Branches.IdTextParts | src/intelligence/BranchIdGenerator.cpp:11 | two texts are equal exactly when the counters are and parent and goal joined by a bar are |
| Branches.BarFreeParents | src/intelligence/BranchIdGenerator.cpp:8-14 | parents without bars, as hexadecimal ids are, can be told apart whatever the goals contain |
| Branches.IdTextDeterminesIff | src/intelligence/BranchIdGenerator.cpp:11 | the text determines parent and goal exactly when neither contains a bar |
| Branches.IdTextMergesParentAndGoal | src/intelligence/BranchIdGenerator.cpp:11 | a concrete pair of inputs with one text |
| Branches.NextIdIsFresh | src/intelligence/BranchIdGenerator.cpp:8-14 | the next id differs from every id issued, or two texts hashed in the run collide |
| Branches.NormalizeFills | src/intelligence/BranchStore.cpp:32-39 | an empty one of the two parent fields takes the value of the other, and nothing else changes |
| BranchStores.BranchStore.TouchLru | src/intelligence/BranchStore.cpp:43-54 | list and index keep agreeing; the id moves to the front |
| BranchStores.BranchStore.EraseLru | src/intelligence/BranchStore.cpp:56-63 | list and index keep agreeing; only this id goes |
| BranchStores.BranchStore.Create | src/intelligence/BranchStore.cpp:68-91 | on the plain map: the completed record is stored, resident, most recent; counters advance only where used |
| BranchStores.BranchStore.Prepare | src/intelligence/DeterministicSequence.h:13-16 | id and sequence are drawn from the counters exactly when missing |
| BranchStores.BranchStore.InsertLoaded | src/intelligence/BranchStore.cpp:93-100 | changes the base only, never counters or recency; hidden by a resident record of that id |
| BranchStores.BranchStore.Get | src/intelligence/BranchStore.cpp:104-127 | the record of the plain map, moved to the front or off the list by residency |
| BranchStores.BranchStore.Update | src/intelligence/BranchStore.cpp:129-160 | replaces an existing record, stamps it with the next sequence, and moves it between the layers by residency |
| BranchStores.BranchStore.Remove | src/intelligence/BranchStore.cpp:228-245 | the id leaves map and list |
| BranchStores.BranchStore.EvictOverlay | src/intelligence/BranchStore.cpp:247-265 | the record stays, non-resident and unlisted: eviction never loses an id |
| BranchStores.BranchStore.Clear | src/intelligence/BranchStore.cpp:267-280 | empties map and list, keeps counters |
| BranchStores.BranchStore.SetLruOrder | src/intelligence/BranchStore.cpp:295-303 | the store stays valid exactly when the order has no repeats, lists every resident id and only existing ids |
| BranchStores.RepeatedOrderBreaks | src/intelligence/BranchStore.cpp:295-303 | a concrete order that breaks a store |
| BranchStores.GetEffect | src/intelligence/BranchStore.cpp:104-127 | a lookup makes a resident branch the most recent one and unlists any other; the rest of the order and all records stay |
| BranchStores.UpdateEffect | src/intelligence/BranchStore.cpp:129-160 | an update stores the record given under the next sequence number and changes no other record |
| BranchStores.CreateEffect | src/intelligence/BranchStore.cpp:68-91 | a creation draws id and sequence only where they are missing, keeps the other fields, and makes the branch the most recent one |
| BranchStores.EvictAndRemoveEffect | src/intelligence/BranchStore.cpp:228-265 | an eviction keeps the record, a removal drops exactly this one; either unlists the id only |
| BranchStores.BranchStore.ReserveSequence | src/intelligence/BranchStore.cpp:327 | the next sequence number, nothing else |
| BranchStores.BranchStore.BranchSnapshot | src/intelligence/BranchStore.cpp:316-324 | the record without touching the list |
| BranchStores.BranchStore.GetAll | src/intelligence/BranchStore.cpp:215-226 | every record once, by ascending id |
| BranchStores.BranchStore.ListByState | src/intelligence/BranchStore.cpp:162-175 | exactly the records in that state, by ascending id |
| BranchStores.BranchStore.GetChildren | src/intelligence/BranchStore.cpp:177-190 | exactly the records with that parent, by ascending id |
| BranchStores.BranchStore.BranchIdSnapshot | src/intelligence/BranchStore.cpp:305-314 | all ids, ascending |
| BranchStores.OverlayIsResidents | src/intelligence/BranchStore.cpp:143-158 | overlay keys are exactly the resident ids |
| BranchTrees.GetTree | src/intelligence/BranchStore.cpp:192-213 | the branch first, then once each exactly the branches reachable over children; terminates on cyclic parents |
| BranchTrees.Descend | src/intelligence/BranchStore.cpp:197-209 | the recursive step sees everything below the branch that was not visited |
| BranchEviction.SelectEvictionCandidate | src/intelligence/BranchEvictionPolicy.cpp:22-75 | empty exactly when nothing unprotected is resident, else the one candidate evicted before all others |
| BranchEviction.LeastRetained | src/intelligence/BranchEvictionPolicy.cpp:63-74 | the candidate has the smallest retention score of all that may be evicted, and is the least recently used of those with this score |
| Snapshots.SnapshotChain.Append | src/memory/SnapshotChain.cpp:19-39 | keeps the newest three |
| Snapshots.SnapshotChain.EnforceRetentionCap | src/memory/SnapshotChain.cpp:41-45 | drops from the front down to three |
| Snapshots.SnapshotChain.Rollback | src/memory/SnapshotChain.cpp:87-97 | cuts behind the first snapshot of that id, which becomes the newest |
| Snapshots.CutAfterFirst | src/memory/SnapshotChain.cpp:87-97 | the first snapshot of that id ends the chain and everything before it stays |
| Snapshots.SnapshotChain.Restore | src/intelligence/BranchLifecycle.cpp:330-333 | clearing and re-appending a history gives its newest three, so a chain's own history gives the chain back |
| Snapshots.SnapshotPersistence.SaveGraph | src/memory/SnapshotPersistence.cpp:34-51 | success stores the snapshot under its id; failure leaves the old, the new or an unreadable file |
| Snapshots.SavedThenLoaded | src/memory/SnapshotPersistence.cpp:34-78 | what was saved is loaded again; after a failed save the old snapshot, the new one or none is, never another; other ids load as before |
| Snapshots.LoadedIff | src/memory/SnapshotPersistence.cpp:66-78 | exactly a readable file that carries the number asked for loads, with the graph, branch and name saved |
| LifecycleSpec.CapsUnconditional | src/intelligence/BranchLifecycle.cpp:134-236 | with no executing branch both caps hold outright |
| LifecycleSpec.EvictedStateEffect | src/intelligence/BranchLifecycle.cpp:257-286 | one eviction takes exactly this branch out of the residents, demotes active to suspended and touches no other record |
| LifecycleSpec.GovernedCompose | src/intelligence/BranchLifecycle.cpp:134-189 | evictions followed by clearing stale references keep the caps and all other content |
| BranchLifecycles.ProtectedIds | src/intelligence/BranchLifecycle.cpp:202-218 | exactly the given branch, the active one, and the executing ones |
| BranchLifecycles.CandidateChosen | src/intelligence/BranchLifecycle.cpp:220-224 | no candidate means everything counted is protected; a candidate never is |
| BranchLifecycles.BranchLifecycle.HasSnapshotReference | src/intelligence/BranchLifecycle.cpp:94-109 | in the chain by name, or stored under the parsed number |
| BranchLifecycles.BranchLifecycle.LoadSnapshot | src/intelligence/BranchLifecycle.cpp:111-125 | the chain's snapshot if it has one, else the stored one |
| BranchLifecycles.BranchLifecycle.EvictBranch | src/intelligence/BranchLifecycle.cpp:257-286 | succeeds exactly for resident branches |
| BranchLifecycles.BranchLifecycle.EvictDownTo | src/intelligence/BranchLifecycle.cpp:149-182 | the loop makes the evictions the policy chooses, one after the other, and terminates at the cap or with only protected branches counted; one eviction counted per branch that left memory |
| BranchLifecycles.BranchLifecycle.EnforceActiveBranchCap | src/intelligence/BranchLifecycle.cpp:191-236 | at most three resident active branches remain unless all are protected |
| BranchLifecycles.BranchLifecycle.InvalidateStaleSnapshotReferences | src/intelligence/BranchLifecycle.cpp:238-255 | clears exactly the references that are not held |
| BranchLifecycles.BranchLifecycle.RunMemoryGovernance | src/intelligence/BranchLifecycle.cpp:134-189 | active branches first, then all resident ones, each eviction the choice of the policy and no more than the caps ask for; both caps, no stale reference, and nothing else changed but evictions |
| BranchLifecycles.BranchLifecycle.Create | src/intelligence/BranchLifecycle.cpp:288-290 | spawning without a parent |
| BranchLifecycles.BranchLifecycle.Spawn | src/intelligence/BranchLifecycle.cpp:292-368 | a fresh active branch that refers to the graph captured now, or nothing but used-up numbers when saving fails |
| BranchLifecycles.BranchLifecycle.LinkParent | src/intelligence/BranchLifecycle.cpp:346-357 | the child is added to an existing parent's sorted list and to nothing else |
| BranchLifecycles.BranchLifecycle.Suspend | src/intelligence/BranchLifecycle.cpp:370-384 | one suspend step: only an active branch, with its error cases |
| BranchLifecycles.BranchLifecycle.Resume | src/intelligence/BranchLifecycle.cpp:386-439 | one resume step: only a suspended branch whose snapshot is found, restoring its graph |
| BranchLifecycles.BranchLifecycle.Merge | src/intelligence/BranchLifecycle.cpp:441-470 | one merge step, source before target |
| BranchLifecycles.BranchLifecycle.Archive | src/intelligence/BranchLifecycle.cpp:472-489 | one archive step |
| BranchLifecycles.BranchLifecycle.RewindChain | src/intelligence/BranchLifecycle.cpp:512-528 | the snapshot becomes the newest of the chain, undone when the chain cannot be saved |
| BranchLifecycles.BranchLifecycle.Rollback | src/intelligence/BranchLifecycle.cpp:491-547 | one rollback step: the graph captured at the spawn is restored |
| LifecycleRuns.InitialInv | src/intelligence/BranchLifecycle.cpp:59-92 | a new store with empty snapshots meets the invariant |
| LifecycleRuns.GovernanceKeepsInv | src/intelligence/BranchLifecycle.cpp:134-189 | after governance no record refers to a lost snapshot |
| LifecycleRuns.TargetIsOwnCapture | src/intelligence/BranchLifecycle.cpp:397-410 | the snapshot found for a branch is the one captured when it was spawned |
| LifecycleRuns.SuspendKeepsInv | src/intelligence/BranchLifecycle.cpp:370-384 | keeps the invariant; no branch is lost and terminal ones stay terminal |
| LifecycleRuns.ResumeKeepsInv | src/intelligence/BranchLifecycle.cpp:386-439 | keeps the invariant and restores a graph captured for this branch |
| LifecycleRuns.RollbackKeepsInv | src/intelligence/BranchLifecycle.cpp:491-547 | keeps the invariant and restores a graph captured for this branch |
| LifecycleRuns.MergeKeepsInv | src/intelligence/BranchLifecycle.cpp:441-470 | keeps the invariant, for all pairs of branches |
| LifecycleRuns.MergedRecords | src/intelligence/BranchLifecycle.cpp:441-470 | the source ends merged and the target unchanged; merged into itself a branch keeps its status |
| LifecycleRuns.ArchiveKeepsInv | src/intelligence/BranchLifecycle.cpp:472-489 | keeps the invariant |
| LifecycleTheorems.SpawnIsFresh | src/intelligence/BranchLifecycle.cpp:303-341 | the new id was never used before, for a record or a snapshot |
| LifecycleTheorems.SpawnKeepsInv | src/intelligence/BranchLifecycle.cpp:292-368 | keeps the invariant; a failed spawn leaves the records as they were |
| LifecycleTheorems.StepKeeps | src/intelligence/BranchLifecycle.cpp:292-547 | every operation keeps the invariant: all references live, all stored snapshots authentic, ids issued once |
| LifecycleTheorems.SuccessEnforcesCaps | src/intelligence/BranchLifecycle.cpp:134-236 | after every successful operation at most three active and twelve resident branches remain, unless all counted are the active branch or executing |
| LifecycleTheorems.FailureChangesNothing | src/intelligence/BranchLifecycle.cpp:326-342 | a failed operation leaves records, graph, chain and active branch as they were |
| LifecycleTheorems.SubjectStaysResident | src/intelligence/BranchLifecycle.cpp:360-361 | a branch just spawned or resumed is never evicted by the governance that follows |
| LifecycleTheorems.ReferenceLoads | src/intelligence/BranchLifecycle.cpp:94-125 | a reference that governance kept can be loaded, and gives the graph captured for this very branch |
| LifecycleTheorems.ResumeFails | src/intelligence/BranchLifecycle.cpp:386-439 | a suspended branch fails to resume only when its reference was cleared or the chain cannot be saved |
| LifecycleTheorems.MergedIff | src/intelligence/BranchLifecycle.cpp:441-470 | after a successful merge the source is merged exactly when it was not merged into itself |
| LifecycleTheorems.SelfMergeKeepsActive | src/intelligence/BranchLifecycle.cpp:441-470 | a concrete branch that is merged into itself and stays active |
| LifecycleEffects.SucceedsIff | src/intelligence/BranchLifecycle.cpp:292-547 | by statuses and references alone, when each operation succeeds; only where snapshots are saved can a spawn, resume or rollback fail otherwise |
| LifecycleEffects.HasIff | src/intelligence/BranchLifecycle.cpp:94-109 | exactly a reference by whose name the chain has a snapshot, or by whose number there is a file, is kept |
| LifecycleEffects.TargetIs | src/intelligence/BranchLifecycle.cpp:111-125 | a reference means the first snapshot of the chain under its number, and otherwise the one in the file of that number |
| LifecycleEffects.GovernanceEffect | src/intelligence/BranchLifecycle.cpp:134-286 | field by field: only a resident branch that is not spared leaves memory, and with it an active one becomes suspended; a reference is cleared exactly when nothing can load it; nothing else changes |
| LifecycleEffects.QuietGovernance | src/intelligence/BranchLifecycle.cpp:149-236 | no more evictions than the caps ask for, and none while both hold |
| LifecycleEffects.StatusAfter | src/intelligence/BranchLifecycle.cpp:292-547 | a successful operation gives the branch it names its status; any other branch keeps its own or, if active, is suspended; a failed operation changes no status |
| LifecycleEffects.ActiveAfter | src/intelligence/BranchLifecycle.cpp:360-545 | which branch is the active one after each operation |
| LifecycleEffects.EvictedCanResume | src/intelligence/BranchLifecycle.cpp:257-439 | an evicted branch whose reference was kept is suspended, and a resume finds its snapshot and fails only where the chain cannot be saved |
| LifecycleEffects.SpawnedRecord | src/intelligence/BranchLifecycle.cpp:303-360 | the new branch with its goal and parent, listed as a child of its parent and of no other branch, and the graph as the newest snapshot under the number it refers to |
| LifecycleEffects.RestoredChain | src/intelligence/BranchLifecycle.cpp:405-530 | a rollback makes the snapshot the newest of the chain; a resume leaves the chain alone or appends it; the graph is that of the snapshot |
| LifecycleHistories.StepFiled | src/intelligence/BranchLifecycle.cpp:290-355 | when snapshots are saved, every operation leaves each reference with its file |
| LifecycleHistories.RestartKeeps | src/memory/SnapshotPersistence.cpp:117-163 | after a save in full, reading store and chain back keeps the invariant: no reference is lost, whatever the age of the chain list |
| LifecycleHistories.ExecuteKeeps | src/intelligence/BranchLifecycle.cpp:159-213 | a caller that sets what a branch executes keeps the invariant |
| LifecycleHistories.RunKeeps | src/intelligence/BranchLifecycle.cpp:292-547 | operations, edits of the graph by its owner, executions and restarts in any order: all references live and filed, all stored snapshots authentic, ids issued once; what follows loses no branch and no capture |
| LifecycleHistories.TerminalForever | src/intelligence/BranchLifecycle.cpp:370-547 | in any such run: once merged, archived or rolled back, never active or suspended again; no branch is ever lost |
| LifecycleHistories.LivesUntilNamed | src/intelligence/BranchLifecycle.cpp:257-547 | in any such run a branch that is active or suspended stays so until a successful operation names it, and only a resume makes a suspended one active |
| LifecycleHistories.RestoresSpawnGraph | src/intelligence/BranchLifecycle.cpp:386-547 | in any such run, whatever became of the graph meanwhile: a resume or rollback gives exactly the graph at the moment that branch was spawned |
| LifecycleHistories.RunWithinCaps | src/intelligence/BranchLifecycle.cpp:134-236 | while no branch executes, the caps hold after every event of a run |
| LifecycleHistories.RunStaysGuarded | src/intelligence/BranchLifecycle.cpp:134-236 | once in force, as after every successful operation, the caps stay in force, sparing only the active branch and executing ones, until a branch stops executing |
| LifecycleHistories.FreshRuns | src/intelligence/BranchLifecycle.cpp:134-236 | every run from a new store meets these premises |
| LifecycleHistories.NewNumberIff | src/intelligence/BranchLifecycle.cpp:300-332 | a new branch would be rolled back to the graph at its spawn exactly when no older snapshot in the chain has its number, or the first that has shows the same graph |
| LifecycleHistories.NumberIsNew | src/intelligence/BranchLifecycle.cpp:308-310 | in states that keep the invariant none has |
| LifecycleHistories.LostSaveMisleads | src/authority/UltraAuthorityAPI.cpp:97-138 | a concrete restart after a save of the store that failed: a number is drawn again, and the branch would be rolled back to another graph |
| BranchFiles.StatusRoundTrip | src/intelligence/BranchState.h:19-38 | every status is read back from its text |
| BranchFiles.StatusNames | src/intelligence/BranchState.h:19-38 | the names of the statuses, and that any other text is an unknown status |
| BranchFiles.JsonNameIff | src/intelligence/BranchPersistence.cpp:122 | exactly names with something before `.json` are taken for branch files |
| BranchFiles.Save | src/intelligence/BranchPersistence.cpp:15-89 | success leaves the metadata and one record per branch and touches no other file; failure leaves nothing new, an empty directory, or the metadata and the files of some branches, each whole |
| BranchFiles.Load | src/intelligence/BranchPersistence.cpp:91-206 | exactly the ids stored in files with the extension `.json`, the last file by name counting when several carry one id; none resident, counters from the metadata if it is readable, recency rebuilt; the store is valid exactly when the saved order had no repeats |
| BranchFiles.RebuildLru | src/intelligence/BranchPersistence.cpp:184-203 | the saved order as far as its ids exist, then the other ids in order |
| BranchFiles.RelistedElems | src/intelligence/BranchPersistence.cpp:188-200 | the rebuilt order lists exactly the existing ids |
| BranchFiles.RelistedOrder | src/intelligence/BranchPersistence.cpp:184-206 | the ids of the saved order come first and in that order, then those it lacks in the order of the alphabet |
| BranchFiles.RecordRestored | src/intelligence/BranchPersistence.cpp:43-176 | a record survives saving and loading but for residency, the second parent field and the order of two lists |
| BranchFiles.SaveThenLoad | src/intelligence/BranchPersistence.cpp:15-206 | after a restart through any directory exactly these branches are there: the saved ones, but for the ids `metadata` and the empty one, and those with a file left from before; the counters are kept unless the metadata file was overwritten, and the recency order comes back |
| BranchFiles.SavedComesBack | src/intelligence/BranchPersistence.cpp:15-206 | a saved branch comes back as it was, unless a file left from before claims its id and is later by name; then that file counts |
| BranchFiles.RemovedComesBack | src/intelligence/BranchPersistence.cpp:43-87 | a concrete removed branch that comes back from a file left behind |
| BranchFiles.TwoBranchesLost | src/intelligence/BranchPersistence.cpp:118-128 | a concrete store of two branches of which neither comes back |
| BranchFiles.CounterKept | src/intelligence/BranchPersistence.cpp:27-41 | a restart goes on with the counter on disk, which a complete save brings up to date unless a branch is named `metadata`; a failed save leaves the old one, the new one or none |
| BranchFiles.IdsNeverRepeat | src/intelligence/BranchIdGenerator.cpp:8-14 | between two ids without a restart that goes back no text is hashed twice, so a repeated id is a collision of the digest at two texts of the run |
| BranchFiles.IdsRepeatIff | src/intelligence/BranchPersistence.cpp:15-206 | in the life of a store, failed saves and restarts included, a counter is used twice exactly when an id is generated after a restart from a directory that did not hold the current counter |
| BranchFiles.TextHashedTwice | src/intelligence/BranchIdGenerator.cpp:8-14 | a concrete text hashed twice: the program starts again before anything was saved |
| StateManagers.StateManager.GetSnapshot | src/core/state_manager.cpp:405-414 | graph, tables, version and branch of one moment |
| StateManagers.StateManager.RunMemoryGovernance | src/core/state_manager.cpp:315-326 | caps the chain and the branch recency |
| StateManagers.StateManager.ReplaceState | src/core/state_manager.cpp:328-360 | one step: the new tables at the next version, snapshot appended |
| StateManagers.StateManager.UpdateCore | src/core/state_manager.cpp:362-370 | one step: only the core index changes |
| StateManagers.StateManager.SetActiveBranch | src/core/state_manager.cpp:372-381 | one step: branch and its recency |
| StateManagers.StateManager.LoadPersistedGraph | src/core/state_manager.cpp:488-510 | one step that starts the chain anew, or nothing at all |
| StateManagers.StateManager.ApplyOverlayMutation | src/core/state_manager.cpp:599-809 | one step: every refusal, rejection and rollback leaves all restored fields unchanged, a commit is the callback's result at the next version |
| StateManagers.StateManager.WithWriteLock | src/core/state_manager.cpp:816-821 | alone it is never refused as out of date |
| StateManagers.StepEffect | src/core/state_manager.cpp:328-381 | a step without effect changes nothing, one with effect advances the version by one |
| StateManagers.WriteShows | src/core/state_manager.cpp:328-510 | the next snapshot shows a replaced or loaded state as it was given, a new core with the old tables, a new branch; and the newest kept snapshot is of this version and graph |
| StateManagers.OverlayOutcomes | src/core/state_manager.cpp:599-809 | every way a mutation can end and exactly when; only a commit changes anything, and it leaves what the callback made |
| StateManagers.TouchedLeads | src/core/state_manager.cpp:315-321 | the branch touched leads the recency list and the others follow in order as far as the cap lets them |
| StateManagers.VersionCountsCommits | src/core/state_manager.cpp:705-710 | the version counts the operations that took effect |
| StateManagers.VersionsGrow | src/core/state_manager.cpp:705-710 | a version names one state of the run |
| StateManagers.CurrentIffUnwritten | src/core/state_manager.cpp:585-597 | an earlier snapshot is current exactly when no operation has taken effect since, and then shows the whole current state |
| StateManagers.AcceptedIffCurrent | src/core/state_manager.cpp:618-654 | a genuine snapshot is refused exactly when a write took effect since; its hash then never matters |
| StateManagers.CommittedOnSeenState | src/core/state_manager.cpp:618-710 | no lost update: a committed mutation ran on the very state its client had seen |
| StateManagers.OneCommitPerVersion | src/core/state_manager.cpp:618-626 | of all holders of snapshots of one version at most one commits |
| StateManagers.Serializable | src/core/state_manager.cpp:599-809 | every run of many clients ends as the serial run of the operations that took effect |
| StateManagers.SnapshotShowsLastWrite | src/core/state_manager.cpp:328-510 | over runs a snapshot shows the tables of the last write that stored a state, and that whole state as long as no core was written since |
| StateManagers.ChainStaysCurrent | src/core/state_manager.cpp:338-346 | after any commit the newest snapshot carries the current version, the others the versions just before |
| StateManagers.ChainHoldsHistory | src/core/state_manager.cpp:338-346 | every kept snapshot shows the graph that was current at its version |
| Bytes.LittleReads | src/ai/BinaryIndexWriter.cpp:14-26 | little-endian bytes read back to the number |
| Bytes.StrsRead | src/ai/BinaryIndexReader.cpp:251-267 | a counted list of strings reads back |
| Bytes.PrefixRefused | src/ai/BinaryIndexReader.cpp:22-81 | what reads back in full and reads the same from longer input cannot be read from a strict prefix |
| Bytes.OutputStream.PutUint32 | src/ai/BinaryIndexWriter.cpp:14-19 | appends the four bytes |
| Bytes.OutputStream.PutUint64 | src/ai/BinaryIndexWriter.cpp:21-26 | appends the eight bytes |
| Bytes.InputStream.GetUint32 | src/ai/BinaryIndexReader.cpp:22-33 | the number at the position, or failure near the end |
| Bytes.InputStream.GetUint64 | src/ai/BinaryIndexReader.cpp:35-47 | the number at the position, or failure near the end |
| Bytes.InputStream.GetString | src/ai/BinaryIndexReader.cpp:74-81 | the counted bytes, or failure |
| BinaryTables.TableReads | src/ai/BinaryIndexReader.cpp:49-72 | a table whose records read back reads back |
| BinaryTables.ForeignTable | src/ai/BinaryIndexReader.cpp:62-69 | another magic or schema version is refused |
| BinaryTables.LogPrefix | src/ai/BinaryIndexReader.cpp:187-200 | reading an uncounted list cut anywhere gives the whole records before the cut or fails |
| BinaryIndex.CoreRoundTrip | src/ai/BinaryIndexReader.cpp:85-128 | the core index reads back whatever follows it and from nothing shorter than its 176 bytes |
| BinaryIndex.FileReads | src/ai/BinaryIndexReader.cpp:149-174 | one file record reads back, from schema version 2 without its time |
| BinaryIndex.SymbolReads | src/ai/BinaryIndexReader.cpp:231-308 | one symbol record with its three nested lists reads back |
| BinaryIndex.EdgeReads | src/ai/BinaryIndexReader.cpp:333-356 | one edge of either kind reads back |
| IndexLayouts.FileLayout | src/ai/BinaryIndexWriter.cpp:140-152 | at which offsets of a file record the digits of its numbers, the path, the digest and the language stand |
| IndexLayouts.StampLayout | src/ai/BinaryIndexWriter.cpp:164-167 | id and time of one entry of files.meta |
| IndexLayouts.SymbolLayout | src/ai/BinaryIndexWriter.cpp:182-213 | at which offsets of a symbol record its numbers, texts and three lists stand |
| IndexLayouts.EdgeLayout | src/ai/BinaryIndexWriter.cpp:230-239 | one byte for the kind and eight for either end |
| IndexLayouts.CoreLayout | src/ai/BinaryIndexWriter.cpp:109-125 | the 176 bytes of the core index |
| IndexLayouts.TablesBegin | src/ai/BinaryIndexWriter.cpp:93-101 | the three tables begin with the letters ILES, SYMB and DEPS |
| IndexLayouts.ChangeLayout | src/ai/ChangeTracker.cpp:53-78 | the 13 bytes of a record of the change log |
| IndexFiles.FilesRoundTrip | src/ai/BinaryIndexWriter.cpp:130-170 | files read back, times included, exactly when counts and lengths fit 32 bits and equal ids have equal times |
| IndexFiles.TimesMerged | src/ai/BinaryIndexReader.cpp:186-206 | two concrete records with one id and two times that do not come back |
| IndexFiles.FilesPrefixRefused | src/ai/BinaryIndexReader.cpp:130-175 | no strict prefix of files.tbl is accepted |
| IndexFiles.CutSideTable | src/ai/BinaryIndexReader.cpp:177-206 | a cut files.meta dates the records of its whole entries; only a cut inside a time is noticed |
| IndexFiles.CutHarmlessIff | src/ai/BinaryIndexReader.cpp:177-206 | nothing shows of a cut exactly when it is not inside a time and every record with a time has an entry before it |
| IndexFiles.TimeLost | src/ai/BinaryIndexReader.cpp:177-206 | a concrete record that comes back without its time from a cut that is not noticed |
| IndexFiles.HalfWrittenReads | src/ai/BinaryIndexWriter.cpp:130-168 | a write that fails between its two files leaves the new records under the old times of their ids |
| IndexFiles.HalfWrittenHarmlessIff | src/ai/BinaryIndexWriter.cpp:130-168 | nothing shows of it exactly when each new record has the time last written for its id, or none when there was none |
| IndexFiles.TimeStale | src/ai/BinaryIndexWriter.cpp:130-168 | a concrete record that comes back under its old time |
| IndexFiles.SymbolsRoundTrip | src/ai/BinaryIndexWriter.cpp:172-216 | symbols read back exactly when counts and lengths fit 32 bits |
| IndexFiles.SymbolsPrefixRefused | src/ai/BinaryIndexReader.cpp:211-311 | no strict prefix of symbols.tbl is accepted |
| IndexFiles.DepsRoundTrip | src/ai/BinaryIndexWriter.cpp:218-242 | edges read back exactly when their number fits 32 bits |
| IndexFiles.DepsPrefixRefused | src/ai/BinaryIndexReader.cpp:313-360 | no strict prefix of deps.tbl is accepted |
| IndexStore.OtherVersionRefused | src/ai/BinaryIndexReader.cpp:66-69 | tables of another schema version are refused |
| IndexStore.OtherTableRefused | src/ai/BinaryIndexReader.cpp:62-65 | one table is never taken for another |
| IndexStore.IndexDirectory.WriteAtomic | src/ai/BinaryIndexWriter.cpp:44-91 | the new file, the old one or none, never a part |
| IndexStore.WriteCoreIndex | src/ai/BinaryIndexWriter.cpp:105-128 | the encoded core index, replaced as a whole |
| IndexStore.WriteFilesTable | src/ai/BinaryIndexWriter.cpp:130-170 | both files on success; after a failure each is whole or missing |
| IndexStore.WriteSymbolsTable | src/ai/BinaryIndexWriter.cpp:172-216 | the encoded symbols, replaced as a whole |
| IndexStore.WriteDependenciesTable | src/ai/BinaryIndexWriter.cpp:218-242 | the encoded edges, file edges first, replaced as a whole |
| IndexStore.ReadCoreIndex | src/ai/BinaryIndexReader.cpp:85-128 | the stored core index, or failure |
| IndexStore.ReadFilesTable | src/ai/BinaryIndexReader.cpp:130-209 | the stored records with the side table's times |
| IndexStore.ReadSymbolsTable | src/ai/BinaryIndexReader.cpp:211-311 | the stored records |
| IndexStore.ReadDependenciesTable | src/ai/BinaryIndexReader.cpp:313-360 | the stored edges, sorted into their two lists |
| IndexStore.ReadMeta | src/ai/BinaryIndexReader.cpp:186-200 | the last time stored for each id |
| ChangeLogs.ChangeLog.Append | src/ai/ChangeTracker.cpp:53-78 | adds the encoded records behind what is there; a failed write leaves a part of them |
| ChangeLogs.ChangeLog.ReadAll | src/ai/ChangeTracker.cpp:80-123 | the records of the log, or failure |
| ChangeLogs.LogCut | src/ai/ChangeTracker.cpp:94-120 | any prefix of a log reads as a prefix of its records or fails, and fails exactly when four or more bytes of a record are left |
| ChangeLogs.AppendedRoundTrip | src/ai/ChangeTracker.cpp:53-123 | two appends read back as both lists |
| ChangeLogs.TornLogOutcome | src/ai/ChangeTracker.cpp:53-123 | what any log cut anywhere and then appended to reads as: everything after a cut between records, an error when four or more bytes of a record are left, else as many records as were written whole, those before the cut intact |
| ChangeLogs.AppendSafeIff | src/ai/ChangeTracker.cpp:53-123 | appending after a torn write gives back what was whole and every list appended exactly when the write stopped between two records |
| ChangeLogs.TornLogMisreads | src/ai/ChangeTracker.cpp:94-120 | a concrete torn log: nothing is noticed, and the next record appended comes back as another one |
| SymbolDiffs.Compare | src/diff/SymbolDiff.cpp:37-123 | up to ties, the pairwise comparison of the uniquely sorted keys of each name, every side taken from its input |
| SymbolDiffs.GroupByName | src/diff/SymbolDiff.cpp:44-51 | the records of each name in their order |
| SymbolDiffs.PairDeltas | src/diff/SymbolDiff.cpp:75-110 | differing pairs, then the surplus of either side |
| SymbolDiffs.SilentIffSame | src/diff/SymbolDiff.cpp:37-123 | no deltas exactly when both sides have the same multiset of name, type, visibility and signature |
| SymbolDiffs.SilentIffEquallyMany | src/diff/SymbolDiff.cpp:26-32 | no deltas exactly when both sides have equally many records of each name, type, visibility and signature, whatever their ids, files and lines |
| SymbolDiffs.ReportedByPosition | src/diff/SymbolDiff.cpp:75-110 | name by name, with the records of either side in order, the report holds the pairs at the same positions that differ and what only the longer side has |
| SymbolDiffs.KeyOrder | src/diff/SymbolDiff.cpp:13-24 | records of one name are ordered by the number of the type, then of the visibility, then by the signature |
| SymbolDiffs.ReportOrder | src/diff/SymbolDiff.cpp:113-120 | the report is ordered by name, and within one name additions come first and modifications last |
| SymbolDiffs.SwapMirrors | src/diff/SymbolDiff.cpp:37-123 | swapping the arguments swaps additions and removals and the sides of modifications |
| SymbolDiffs.Balanced | src/diff/SymbolDiff.cpp:79-110 | of the deltas that compare returns: old keys plus new sides are new keys plus old sides; no key is reported more often than it occurs |
| SymbolDiffs.Surpluses | src/diff/SymbolDiff.cpp:94-110 | of the deltas that compare returns: per name, removals and additions number exactly the surplus of either side |
| SymbolDiffs.NothingReported | src/diff/SymbolDiff.cpp:67-111 | the reference comparison is silent exactly for equal multisets |
| SymbolDiffs.Mirrored | src/diff/SymbolDiff.cpp:67-111 | the reference comparison mirrors |
| SymbolDiffs.ArrangedUnique | src/diff/SymbolDiff.cpp:13-24 | within one name the sorted keys are unique, so the unstable sort does not matter |
| TraversalDepths.ComputeTraversalDepth | src/diff/DiffEngine.cpp:181-230 | terminates with the greatest shortest distance from the roots, cut off at eight |
| TraversalDepths.AtDepthIsDistance | src/diff/DiffEngine.cpp:205-227 | first reached at a step means a shortest walk of that length |
| TraversalDepths.AdjacencyOf | src/diff/DiffEngine.cpp:187-195 | exactly the successors of each node |
| BranchDiffs.CollectSymbols | src/diff/DiffEngine.cpp:148-166 | symbol nodes by id, the first of an id counting |
| BranchDiffs.CollectDependencies | src/diff/DiffEngine.cpp:168-179 | the dependency pairs with both ends named |
| BranchDiffs.SymbolsListedUnique | src/diff/DiffEngine.cpp:506-513 | the list of changed symbols is determined |
| BranchDiffs.SymbolsMirror | src/diff/DiffEngine.cpp:401-464 | the changed symbols of the swapped inputs are the same with additions and removals swapped |
| BranchDiffs.SignaturesMirror | src/diff/DiffEngine.cpp:435-452 | the signature changes of the swapped inputs are the same |
| BranchDiffs.DependenciesMirror | src/diff/DiffEngine.cpp:469-504 | the changed dependencies of the swapped inputs are the same, swapped |
| BranchImpacts.ScanSymbol | src/diff/DiffEngine.cpp:401-464 | one symbol is classified once, with its file as a root and its public weight |
| BranchImpacts.ScanSymbols | src/diff/DiffEngine.cpp:385-464 | sorted, once each, exactly the symbols whose presence, name, file or uses differ |
| BranchImpacts.DiffDependencies | src/diff/DiffEngine.cpp:466-533 | sorted, once each, exactly the symmetric difference of the dependency pairs |
| BranchImpacts.HasCentralitySpike | src/diff/DiffEngine.cpp:270-301 | some weighed symbol on both sides moved by more than the threshold |
| BranchImpacts.ComputeCentralityDelta | src/diff/DiffEngine.cpp:232-268 | the clamped mean change over the weighed symbols on both sides |
| BranchImpacts.DiffBranches | src/diff/DiffEngine.cpp:375-570 | the three lists, the risk level and the rounded score in terms of what changed |
| BranchImpacts.NothingListed | src/diff/DiffEngine.cpp:375-570 | empty lists exactly when nothing differs; the score lies between 0 and 1 |
| BranchImpacts.EqualInputs | src/diff/DiffEngine.cpp:375-570 | equal inputs give an empty report of low risk and score 0 |
| BranchImpacts.ReportMirrors | src/diff/DiffEngine.cpp:375-533 | swapped inputs give the same three lists, entry by entry, with additions and removals swapped |
| BranchReports.HeaderIff | src/diff/DiffEngine.cpp:92-106 | a path is public exactly when, separators and case ignored, it holds `/include/` or ends as a header |
| BranchReports.ModuleIff | src/diff/DiffEngine.cpp:130-146 | the module of a file node is the first part of its path; other nodes and rooted paths have none |
| BranchReports.CollectedIff | src/diff/DiffEngine.cpp:148-166 | exactly the symbols present are collected, each with the fields of the first node of its id |
| BranchReports.SymbolEntries | src/diff/DiffEngine.cpp:401-464 | for the nodes of the two snapshots: the symbols listed, in the order of their ids, are those that differ, each with its first difference of presence, name, file and uses |
| BranchReports.SignatureEntries | src/diff/DiffEngine.cpp:435-452 | the signature changes are the listed symbols present on both sides |
| BranchReports.DependencyEntries | src/diff/DiffEngine.cpp:466-533 | for the edges of the two snapshots: the dependencies listed, in order, are those of one snapshot only |
| BranchReports.RiskExplained | src/diff/DiffEngine.cpp:535-545 | high exactly when a public symbol is gone, an added dependency joins two modules or a centrality jumped; otherwise medium exactly when a symbol present on both sides changed or a dependency within one module did |
| BranchReports.ScoreExplained | src/diff/DiffEngine.cpp:546-567 | the score is a whole number of millionths within half a millionth of the weighted sum of nodes named, distance travelled, mean move of centrality and public weight, at most 1 |
| BranchReports.PublicRemovalScores | src/diff/DiffEngine.cpp:561-567 | a public symbol gone gives a score above 0.149 |
| SymbolTables.SymbolIdRoundTrip | src/ai/SymbolTable.cpp:75-87 | file id and local index are read back from a composed id |
| SymbolTables.BuildFromExtracted | src/ai/SymbolTable.cpp:19-51 | sorted and numbered from one; fails exactly above 2^20 - 1 symbols |
| SymbolTables.BuiltSound | src/ai/SymbolTable.cpp:41-49 | all ids decode to the file and none is zero |
| SymbolTables.BuiltReadsBack | src/ai/SymbolTable.cpp:27-39 | reading back the symbols of a file gives what was extracted from it, no more and no less |
| SymbolTables.BuiltInOrder | src/ai/SymbolTable.cpp:41-49 | by line, name, signature, type and visibility, numbered from one behind the id of the file |
| SymbolTables.OrderIs | src/ai/SymbolTable.cpp:10-15 | sorted symbols are grouped by file and ordered so within each file |
| Symbols.CodesIndex | src/ai/SemanticExtractor.h:12-28 | the numbers of the types and visibilities |
| DependencyTables.SortFileEdges | src/ai/DependencyTable.cpp:76-80 | sorted, without repeats, the same edges |
| DependencyTables.ResolveSymbolId | src/ai/DependencyTable.cpp:32-72 | the smallest id of that name, imports only for want of anything else |
| DependencyTables.GroupByFileId | src/ai/SymbolTable.cpp:93-104 | the symbols of each file, sorted |
| DependencyTables.BuildSymbolEdgesFromFileEdges | src/ai/DependencyTable.cpp:89-116 | an edge between the first symbols of the two files, for each file edge |
| DependencyTables.BuildSymbolEdgesFromSemanticDependencies | src/ai/DependencyTable.cpp:118-174 | an edge between the best symbols for each named dependency, never from a symbol to itself |
| DependencyTables.DeriveSymbolEdges | src/engine/scanner.cpp:237-251 | both kinds together, sorted, without repeats |
| DependencyTables.NothingDangles | src/engine/scanner.cpp:239-251 | every derived edge joins existing symbols |
| DependencyTables.DerivedUnique | src/engine/scanner.cpp:234-251 | without ties in the symbol order the derived edges are a function of the tables |
| SymbolIndexes.BuildSymbolIndex | src/engine/scanner.cpp:121-232 | exactly the defined names, each with its least defining path, its users and their share |
| SymbolIndexes.EntryExplained | src/engine/scanner.cpp:106-232 | a name is indexed exactly when a file holds a symbol of that name that is no import, export or unknown; its entry has the least such file, all users, their share of the other files, and one and a quarter of it as weight |
| SymbolIndexes.IndexedUnique | src/engine/scanner.cpp:121-232 | the index is a function of the tables |
| Scanners.NextFileId | src/engine/scanner.cpp:96-104 | one more than the largest id, in 32 bits |
| Scanners.NextIdFresh | src/engine/scanner.cpp:96-104 | that id is new exactly unless it wrapped around to an id 0 in use |
| Scanners.NextIdTaken | src/engine/scanner.cpp:96-104 | a concrete table whose next id is taken |
| Scanners.RuntimeState.RebuildSymbolEdges | src/engine/scanner.cpp:234-253 | sorts the tables and recomputes edges and index |
| Scanners.Scanner.IncrementalAdd | src/engine/scanner.cpp:358-438 | one step with all its early exits; ids, paths and links stay in order, and the logged change is what became of the file |
| Scanners.Scanner.IncrementalRemove | src/engine/scanner.cpp:440-485 | drops the file with all that belongs to it, and logs a removal exactly when there was such a file |
| Scanners.Scanner.IncrementalModify | src/engine/scanner.cpp:487-579 | one step with all its early exits, passing on to add or remove; a success that logs nothing has changed nothing |
| Scanners.RebuildSound | src/engine/scanner.cpp:234-253 | rebuilding edited tables makes the derived ones equal their recomputation |
| Scanners.SoundEdges | src/engine/scanner.cpp:234-253 | in sound tables no symbol edge dangles |
| Scanners.AddNewKeepsSound | src/engine/scanner.cpp:358-438 | a successful add keeps all tables sound, and makes them so when it changes them |
| Scanners.RemoveKeepsSound | src/engine/scanner.cpp:440-485 | a remove keeps all tables sound |
| Scanners.ModifyOldKeepsSound | src/engine/scanner.cpp:487-579 | a successful modify keeps all tables sound and makes them so when it changes them; a failed one keeps them sound unless the file has too many symbols |
| Scanners.RunKeepsSound | src/engine/scanner.cpp:358-579 | over any run from sound tables ids, paths and links stay in order, and the derived tables equal their recomputation except between a call that failed on too many symbols and the next one that changes the tables and succeeds |
| Scanners.LastChangeSound | src/engine/scanner.cpp:358-579 | in particular whenever the last call that changed the tables succeeded, or none changed them |
| Scanners.RescanSucceedsIff | src/engine/scanner.cpp:358-579 | a rescan of a file on disk succeeds exactly when the file is up to date or can be read and parsed and has not too many symbols |
| Scanners.FailureMarks | src/engine/scanner.cpp:387-408 | a failed rescan marks a readable file as up to date, except a new file that could not be parsed |
| Scanners.FailedRescanSticks | src/engine/scanner.cpp:358-579 | for a caller that keeps the tables a failed rescan leaves: the next one of the same content succeeds without reading it exactly when the file was known or could be parsed; else the file is taken up as if for the first time |
| Scanners.SymbolNeverFound | src/engine/scanner.cpp:512-527 | a concrete file that stays without its symbol for such a caller |
| Scanners.AddThenRemove | src/engine/scanner.cpp:358-485 | adding a new file and removing it again restores every table exactly |
| FullScans.ScanFile | src/engine/parallel/ParallelScanner.cpp:167-246 | nothing exactly when the file cannot be read and parsed or holds too many symbols, else its numbered symbols, its sorted dependencies and an edge for each reference that resolves |
| FullScans.FullScan | src/engine/parallel/ParallelScanner.cpp:90-346 | succeeds exactly when every file found can be read and parsed, has a digest other than zero and not too many symbols; in whatever order the findings are joined the tables are a full scan of the disk, and sound |
| FullScans.FullScanSound | src/engine/parallel/ParallelScanner.cpp:255-325 | every full scan gives sound tables |
| FileTables.FullScanRecords | src/engine/parallel/ParallelScanner.cpp:100-325 | one record per file found, with digest, language and time as found, numbered from one in the order of the paths; the named dependencies of each file once each and in order |
| FileTables.DaemonFilesOrdered | src/indexing/IndexingService.cpp:180-285 | over every run of the daemon the file table stays in the order of the paths |
| FullScans.ScheduleDoesNotShow | src/engine/parallel/ParallelScanner.cpp:162-325 | no matter how the files were shared out among the threads, all full scans of a project without tied symbols give the same tables |
| IndexingServices.DependencyGraphFromState | src/indexing/IndexingService.cpp:128-147 | nodes are the paths, edges the file edges between them |
| IndexingServices.RebuildSetForChange | src/indexing/IndexingService.cpp:149-157 | exactly what the file depends on, directly or not, ascending |
| IndexingServices.ApplyIncrementalMutation | src/indexing/IndexingService.cpp:180-257 | the file is handled and what it depends on rescanned on a copy, stopping at the first failure; the copy replaces the tables exactly when every call succeeded and the write lock accepts it, else nothing changes |
| IndexingServices.MutationKeepsSound | src/indexing/IndexingService.cpp:180-257 | an event keeps the tables sound, whichever of its calls failed |
| IndexingServices.StepFrame | src/engine/scanner.cpp:358-579 | no call touches the record of another file |
| IndexingServices.AppliedIsCurrent | src/indexing/IndexingService.cpp:180-257 | after an event that was applied, the file and all that it depended on are known as their calls found them on disk |
| IndexingServices.DaemonStaysSound | src/indexing/IndexingService.cpp:270-285 | over every run of the daemon, rebuilds and failures included, all tables are sound |
| IndexContents.SuccessReflects | src/engine/scanner.cpp:358-579 | a successful call leaves every file with the symbols and dependencies of its recorded content |
| IndexContents.FullScanReflects | src/engine/parallel/ParallelScanner.cpp:90-346 | and so does a full scan |
| IndexContents.DaemonReflects | src/indexing/IndexingService.cpp:180-285 | over every run of the daemon each file has exactly the symbols, name by name and line by line, and named dependencies of the content whose digest is recorded for it |
| IndexContents.FreshDaemon | src/indexing/IndexingService.cpp:180-285 | in particular in every run from empty tables |
| FileLinks.FullScanLinks | src/engine/parallel/ParallelScanner.cpp:231-243 | a full scan links every file to all that its references resolve to |
| FileLinks.TargetsAre | src/engine/scanner.cpp:552-566 | the edges of a file lead to exactly the files its references resolve to |
| FileLinks.StaysLinkedIff | src/engine/scanner.cpp:358-579 | a successful call leaves the links complete exactly when the references of every other file resolve to the same paths with the paths there are after the call, but for one that is gone |
| FileLinks.RescanStaysLinked | src/engine/scanner.cpp:487-579 | a rescan of a known file that is still on disk always keeps the links complete |
| FileLinks.LateFileUnlinked | src/engine/scanner.cpp:358-438 | a concrete reference that an added file does not resolve, and that another full scan does |

## Left out

Contracts that say less than the whole source:

- Scanners.Scanner.IncrementalAdd: asks that a file id is left when the path is new (`Scanners.NextIdFresh` says exactly when one is) and that no discovered path is empty; error texts and the copy of all tables into the output are not modelled, only the logged change is.
- Scanners.Scanner.IncrementalModify: as IncrementalAdd.
- Scanners.RuntimeState.RebuildSymbolEdges: asks for tables in order (different ids and paths, ids of symbols not zero, no dangling link), which every operation keeps.
- SymbolIndexes.BuildSymbolIndex: asks for different file ids, different symbol ids and non-empty paths, as tables in order have them.
- FullScans.FullScan: for directories whose files have non-empty paths and are fewer than 2^32; the list of changes for the log, the queue and the threads are not modelled, only the order in which the findings end up.
- FullScans.ScheduleDoesNotShow: without ties in the symbol order, as `DependencyTables.DerivedUnique`; with ties the unstable sort may exchange the tied records.
- IndexingServices.ApplyIncrementalMutation: as IncrementalAdd for the file of the event; weights, recency and the core index beside the tables are not modelled, nor is writing the tables out afterwards, whose failure is reported although the tables have been replaced.
- IndexContents.DaemonReflects: for files that do not change between being hashed and being parsed in one call.
- Scanners.AddThenRemove: for tables as the scanner leaves them, files ascending by path and no two symbols tied in the symbol order; with ties the unstable sort may exchange the tied records.
- Snapshots.SnapshotPersistence.SaveChain: only success or failure; reading the list back is not modelled.
- LifecycleTheorems.FailureChangesNothing: recency list, counters and stored snapshot files may change in a failed operation, as in the code.
- LifecycleTheorems.ReferenceLoads: while the sequence counter is below 2^64, which its 64 bits always are.
- LifecycleHistories.RunKeeps: restarts need saved snapshots and follow a save of the store in full, into a directory of this store alone and without a branch named `metadata`; after a restart with an older store the invariant can fail, as `LifecycleHistories.LostSaveMisleads` shows. Callers change the graph and the execution node, and no other field of a record. The list file of the chain is not modelled as text: any chain of loadable snapshots may be read from it.
- BranchFiles.IdsRepeatIff: for histories that begin with a new store and no directory; `BranchFiles.IdsNeverRepeat` is for any.
- IndexFiles.FilesPrefixRefused: for tables whose counts and lengths fit 32 bits, as for the symbols and dependencies tables; others do not read back at all.
- SymbolDiffs.SwapMirrors: deltas are compared by name, type, visibility and signature; which of several tied records is shown is left open by the unstable sort.
- BranchImpacts.DiffBranches: real numbers instead of floating point, so a score near the middle of two multiples of a millionth may round the other way; the set of using files instead of its sorted list.
- StateManagers.StateManager.ApplyOverlayMutation: graph updates (`applyPrecisionInvalidation`, `rebuildGraphLocked`) and the diff result are arbitrary. The hot slice is not modelled: a rollback rebuilds it from its nodes, size and version, and whether that gives the old one back depends on `HotSlice`. Nor are exceptions after the new state has been moved in (allocation failures; no statement there throws), which no rollback answers, and semantic memory and governance counters, which no rollback restores.

Not modelled:

- Machine widths of sequence numbers, id counters, versions and eviction counts: unbounded natural numbers.
- Failing I/O is nondeterminism; file systems are maps from names to contents; clocks, locks and threads do not occur.
- The retention score of eviction is an arbitrary function into the reals; graph contents are opaque values.
- The JSON text of branch files, files with missing fields, the old confidence format, and ids that are not plain file names.
- Strings are sequences of characters, one per byte; order is by character.
- Symbol and file records occur twice: as bytes for the index format, as strings elsewhere.
- Tree-sitter extraction, directory discovery, path normalisation and reference resolution: arbitrary inputs of the scanner.
- `DependencyGraph`: the alias names of the mutators and the size getters. `ExecutionGraph`: payloads, `getActivePath`, `getNodesByBranch`.
- Loading the tables back from disk at the start of the daemon; its runs begin from any sound tables.
- `IntegrityManager`: `verify`, `buildCoreIndex` and the hexadecimal printing of digests.
- `StateManager`: `createCognitiveState`, `persistGraphStore`, kernel health, query methods, the event bus, the hot slice.
- `BranchLifecycle`: metrics, logging, CPU governor, epoch retirement. 
- `LruManager`: only its order of paths and its cap, not its index.
- Risk scoring, signature diffs, impact analysis and delta computation in the diff directory.
- CLI, terminal UI, event queue and file watching of the daemon, IPC, adapters, configuration and everything else outside the seven parts.
