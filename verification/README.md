# Exocortex: a model of the cache and the source adapters, with proofs

Exocortex keeps one knowledge graph per organisation in memory and feeds it from source adapters. This
project models the parts of it whose specification is short and whose code is not, and proves that the
code reaches the specification.

| part | what it is for | modules |
|---|---|---|
| Published snapshots | readers see immutable graphs while one writer publishes deltas, reusing retired buffers | `PlainGraphs`, `Slots`, `LocalBatches` |
| Graph snapshot | one graph under several indexes and a packed, blanked, compacted search arena | `Arena`, `Indexes`, `Bitmaps`, `Snapshots`, `Search`, `Exactness`, `Traversal` |
| Admission | 2Q eviction under a byte budget | `Admission` |
| Batch splitter | union-find components packed under three ceilings | `UnionFind`, `Splitter`, `Splitting`, `Ceilings`, `Packing` |
| Adapter session | retry, settle, then move the cursor | `Delivery`, `History`, `Session` |
| Git history | commits sliced into bounded units with a completion frontier | `GitHistory`, `GitUnits` |
| GitHub | windows that keep a pull with what it closes, and a cursor over two truncated walks | `GithubWindows`, `GithubCursors`, `GithubChunking`, `GithubUnits`, `GithubRuns`, `GithubStops`, `GithubChecks`, `GithubAdapter`, `GithubProgress`, `GithubSessions` |
| Avro | varints and object container framing | `AvroVarint`, `AvroContainer`, `AvroGrammar` |
| Delta | log replay from any checkpoint | `DeltaLog`, `DeltaScan`, `DeltaCases` |

`Common`, `Sorting`, `Keys`, `Grouping` and `Decimal` hold shared vocabulary. `dafny verify dfyconfig.toml`
checks everything.

How the parts join. `PlainGraphs.Apply` is the meaning of one delta. `Snapshots.GraphSnapshot.ApplyDelta`
shows that the indexed, in-place snapshot does exactly that; `Slots` shows that the publication protocol
folds exactly those deltas; `Search` and `Traversal` read a snapshot in any state those methods can leave it
in. `Splitter.Split` is the meaning of a split and `Splitting.SplitUnit` computes it; the git and GitHub
unit builders are shown to produce units it accepts, and `Session` prepares and delivers its batches.

Where a method is proved to compute a specification function, a theorem says what that function means without
naming it: what a local batch writes (`LocalBatches.LocalBatchIsPublished`), which drafts are one component and how
full batches are (`Packing.TogetherIffJoined`, `Packing.SplitIsGreedy`), which replies settle a batch
(`Delivery.VerdictReadsRows`), what a unit's rows and edges are (`GithubUnits.UnitDescribes`, `GitUnits.UnitRecords`),
which byte sequences are containers (`AvroGrammar.AcceptsExactly`), and what the rows of a checkpoint in parts stand
for (`DeltaScan.CheckpointLive`).

Where a promise turned out not to hold of the code, the code is modelled as it is, and both sides are
stated:

- The arena scan finds only memories whose key contains the query, on every arena of every graph, if and only
  if the query has no newline and no leading space (`Exactness.ScanIsExactIff`).
- A GitHub run that stops between windows may leave a pull or an issue behind a written cursor
  (`GithubStops.NewerReferenceStrandsPull`, `GithubStops.StraddlingPullStrandsIssue`). For a given backend it can
  stop anywhere safely if and only if no window writes a cursor past an unsettled row of a later window
  (`GithubStops.StopsAreSafeIff`, over many runs `GithubAdapter.RunsAreSafeIff`). The adapter does not know what the
  backend has settled: it can stop anywhere safely whatever that is, if and only if a check over the rows it fetched
  and the windows it made passes (`GithubChecks.SafeToStopIff`); runs that each pass it are safe throughout
  (`GithubAdapter.CheckedRunsAreSafe`). The check passes when no pull closes an issue updated after it. Runs that
  settle every window lose nothing in any case.
- A fetch that is cut at its bound says that a re-run continues after it. Without a seed it does not: with as many
  rows as the bound in the repository no cursor is ever written and every run fetches the same rows, and with fewer
  the first run writes one (`GithubProgress.CursorAppearsIff`). From a cursor on, a settled run moves it forward if and
  only if the pulls walk was not cut and the rest brought something newer (`GithubProgress.SettledRunAdvancesIff`).
- Window cursors never move back, whatever is fetched and however wide windows are, if and only if every pull
  shows the newest row it is placed by (`GithubCursors.CursorsNeverRegressIff`). Distinct references suffice; an issue
  listed twice at two times hides the newer one (`GithubCursors.RepeatedReferenceHidesRow`).
- When window cursors do not move back, the cursor file still does during a run if and only if a window writes a cursor behind the
  file the run started from; a page of pulls that is kept whole can bring one (`GithubStops.FileNeverMovesBackIff`,
  `GithubStops.KeptPageMovesFileBack`).
- The session's snapshot history can repeat an entry when one window names several snapshots; for sessions with a
  projection, which refuse a rewind, the exact condition is `History.HistoryDistinctIff`. Without a projection
  nothing is refused, and windows of one snapshot each can bring one back as well.
- The byte counter stays within budget over any run of events (`Admission.Cache.Serve`), also when a full Am queue
  pushes out an organisation whose graph then no queue can evict. But an evict message drops a graph without
  lowering the counter, so its bytes are lost to every later graph; after one as large as the budget nothing stays
  resident (`Admission.DroppedGraphStarves`).
- A scan of a Delta log does not notice a missing commit. It is right for every history its directory
  records if and only if no commit after the chosen checkpoint is missing (`DeltaScan.MissingCommitMatters`).
- `prepare_batches` says every round shrinks the budget. Below 64 bytes the budget grows to 64; it ends all
  the same (`Session.NextBudgetMoves`).
- `split_unit` says the edge check fires before the memory check, so that the memory ceiling is never the one
  reported. It is the other way round. A refusal names the memory ceiling if and only if the first component
  that breaks is over it (`Ceilings.RefusalNamesFirstBreak`), and every star of more than 256 drafts is such a
  unit (`Ceilings.StarRefusedForMemories`).
- The live files and metadata of a Delta scan do not depend on the checkpoint it starts from, but whether it is
  refused does. Mapped columns refuse it as of the checkpoint and as of the end (`DeltaScan.MappingRefusesIff`,
  `DeltaCases.MappingDependsOnCheckpoint`). Of a protocol action a checkpoint keeps the reader version alone, so a
  protocol refused for a feature alone is accepted from a checkpoint of it; no other refusal is lost
  (`DeltaScan.ProtocolRefusesIff`, `DeltaCases.FeatureIsForgotten`).
- The version a scan reports is the newest if and only if that commit's own file is still there
  (`DeltaScan.VersionIsNewestIff`, `DeltaCases.VersionCanBeStale`).
- The Delta transaction log protocol numbers the parts of a checkpoint from 1; the reader numbers them from 0, so
  it refuses such a checkpoint of two or more parts as incomplete (`DeltaCases.PartsFromOneAreRefused`).
- Type and tag bitmaps are keyed on the low 32 bits of an id. They list only live rows in every run, and
  they stay exact if and only if no step takes away a bit that another live row shares
  (`Bitmaps.RunStaysExactIff`); two ids 2^32 apart with one tag make such a step (`Bitmaps.SharedBitIsLost`).
- A traversal depth of 0 behaves as 1 (`Traversal.Traverse`).

## Model

| member | source | states |
|---|---|---|
| `Slots.NextKeepsInv` | crates/exocortex-cache/src/lib.rs:493-599 | Every step of the protocol, reader steps interleaved with the writer's own small steps, keeps the invariant: the current buffer is the fold of all deltas since the last store, each retired buffer is the fold up to its generation, the journal covers the generations after it, and the buffer the writer works on is private |
| `Slots.PublishedIsTheFold` | crates/exocortex-cache/src/lib.rs:493-599 | In every run of stores, publications, loads, clones and releases the published snapshot equals folding the deltas callers passed in since the last graph they stored, whether buffers were cloned or reused, and between publications the journal holds exactly the generations after the oldest retired one |
| `Slots.LogIsRequested` | crates/exocortex-cache/src/lib.rs:493-545 | Over any run the publications are exactly what callers asked for, in order: each store as the graph handed over, each publication as the delta its own beginning was given |
| `Slots.ReadersAreIsolated` | crates/exocortex-cache/src/lib.rs:452-491 | As long as a reader keeps a reference, the graph behind it is the same at the end of any run as at the start |
| `Slots.HeldIsUnchanged` | crates/exocortex-cache/src/lib.rs:547-583 | No single step changes a graph some reader holds |
| `Slots.OutOfReachStays` | crates/exocortex-cache/src/lib.rs:547-583 | No step creates a reader reference to a retired or claimed buffer that has none |
| `Slots.UnwrapFindsItUnique` | crates/exocortex-cache/src/lib.rs:547-556 | The retired buffer whose count was seen as one still has count one when it is unwrapped, whatever readers did between, so the unreachable arm is unreachable |
| `Slots.UnwrapCatchesUp` | crates/exocortex-cache/src/lib.rs:557-572 | The journal after a retired generation, followed by the new delta, takes that buffer to the next fold |
| `Slots.TrimIsExact` | crates/exocortex-cache/src/lib.rs:583-597 | Trimming leaves exactly the generations after the oldest retired one |
| `Slots.SkippedLocalIsNoOp` | crates/exocortex-cache/src/lib.rs:501-527 | A local batch that is skipped would not have changed the graph |
| `LocalBatches.LocalBatchIsPublished` | crates/exocortex-cache/src/lib.rs:501-545 | Whatever readers do meanwhile and whichever buffer is used, the graph published after a local batch is the one before it with exactly the batch written: each memory named is its last row, each relationship whose endpoints are then live is a link with the weight of its last such row and, if new, the endpoints of its first, the local frontier is the larger, and nothing else changes; a skipped batch would write nothing |
| `PlainGraphs.ApplyKeepsWellFormed` | crates/exocortex-cache/src/lib.rs:431-450 | No delta leaves a link without both of its memories |
| `PlainGraphs.MemoryIsLastUpsert` | crates/exocortex-cache/src/lib.rs:431-450 | After any deltas a memory is live, with given contents, if and only if the last delta naming it wrote them |
| `PlainGraphs.LinkIsLast` | crates/exocortex-cache/src/lib.rs:431-450 | A link is live if and only if a delta made it between live endpoints and none has severed it since; it joins the source and target it was made with and has the weight of the last delta that found its endpoints live |
| `PlainGraphs.FrontiersAreFurthest` | crates/exocortex-cache/src/lib.rs:431-450 | Each frontier is the furthest that any delta named |
| `Snapshots.GraphSnapshot.ApplyDelta` | crates/exocortex-cache/src/lib.rs:431-450 | Applying one delta in place keeps every index in agreement and changes the graph exactly as the plain graph changes |
| `Snapshots.GraphSnapshot.InsertMemory` | crates/exocortex-cache/src/lib.rs:140-161 | Insert or replace: all indexes and both byte counters stay exact, and the arena is at most max(2 * live, live + 1023) |
| `Snapshots.GraphSnapshot.RemoveMemory` | crates/exocortex-cache/src/lib.rs:236-257 | Removing a memory removes it and every incident link, from every index and both counters, and nothing else |
| `Snapshots.GraphSnapshot.InsertRelationship` | crates/exocortex-cache/src/lib.rs:303-317 | A new relationship joins its two live endpoints; a known id replaces the weight and keeps the endpoints; a dangling one is dropped |
| `Snapshots.GraphSnapshot.RemoveRelationship` | crates/exocortex-cache/src/lib.rs:319-325 | Removes that one link and its 256 bytes |
| `Snapshots.GraphSnapshot.IndexMemory` | crates/exocortex-cache/src/lib.rs:163-181 | Indexing a memory at a vacant node keeps entity index, arena, slot owners and live byte count in agreement with the rows |
| `Snapshots.GraphSnapshot.RemoveMemoryIndexes` | crates/exocortex-cache/src/lib.rs:183-234 | Unindexing blanks the node's slots and leaves the indexes of the remaining rows exact |
| `Snapshots.GraphSnapshot.CompactSearchIndexIfNeeded` | crates/exocortex-cache/src/lib.rs:259-298 | Compaction keeps the arena showing exactly the live keys and bounds its size |
| `Snapshots.GraphSnapshot.Clone` | crates/exocortex-cache/src/lib.rs:1496-1516 | A clone stands for the same graph with the same byte estimate |
| `Indexes.PackKeys` | crates/exocortex-cache/src/lib.rs:259-298 | The rebuilt arena holds one slot per live node, showing its key, and is exactly as long as the live keys |
| `Indexes.KeySpellsRow` | crates/exocortex-cache/src/lib.rs:163-181 | A search key is the title and each tag behind a space, in order and in lower case, and nothing else |
| `Indexes.ForgetIncident` | crates/exocortex-cache/src/lib.rs:236-257 | Forgets exactly the relationships incident to the node and hands back 256 bytes for each |
| `Bitmaps.RunIsSound` | crates/exocortex-cache/src/lib.rs:163-212 | In every run of inserts, replacements, removals and compactions each bit stands for a live memory with that type or tag |
| `Bitmaps.ForgetIsExactIff` | crates/exocortex-cache/src/lib.rs:192-211 | Removing a memory keeps the bitmaps exact if and only if no other live memory shares a bit with it |
| `Bitmaps.ReplaceIsExactIff` | crates/exocortex-cache/src/lib.rs:140-161 | Replacing one does, if and only if none shares a bit of a tag it loses |
| `Bitmaps.RunIsExact` | crates/exocortex-cache/src/lib.rs:95-97 | Over ids that differ in their low 32 bits the bitmaps are exact in every run |
| `Bitmaps.RunStaysExactIff` | crates/exocortex-cache/src/lib.rs:140-257 | A run's bitmaps are exact throughout if and only if no removal or replacement in it takes a bit that another live memory shares |
| `Bitmaps.SharedBitIsLost` | crates/exocortex-cache/src/lib.rs:192-211 | Two ids with the same low bits and one tag: dropping one empties the bitmap while the other is live |
| `Arena.BlankSlot` | crates/exocortex-cache/src/lib.rs:83-90 | Blanking one slot, separator included, changes what that slot shows and no other |
| `Arena.OccurrenceIsInKey` | crates/exocortex-cache/src/lib.rs:1126-1145 | A clean query found in the arena lies inside the key of the slot it was found in |
| `Search.Scan` | crates/exocortex-cache/src/lib.rs:1126-1190 | The scan loop (leftmost find, binary-searched slot, repeated slot passed over, cap) computes the reference scan for any query |
| `Search.CleanScan` | crates/exocortex-cache/src/lib.rs:1126-1190 | For a clean query the scan finds exactly the matching slots' owners in slot order, up to the cap |
| `Exactness.ScanIsExactIff` | crates/exocortex-cache/src/lib.rs:1122-1190 | For a lower-cased query, everything found matches on every arena of every graph if and only if the query has no newline and does not start with a space |
| `Search.SlotAt` | crates/exocortex-cache/src/lib.rs:1133-1137 | The binary search finds the slot a position falls in |
| `Search.MatchingIsExact` | crates/exocortex-cache/src/lib.rs:1130-1190 | The slots list every visible memory whose key contains the query once, and nothing else, through node reuse and deletion |
| `Search.SearchMemories` | crates/exocortex-cache/src/lib.rs:1105-1198 | For a clean query with at most 4 * limit visible matches the result is the best `limit` by score of exactly the visible memories whose key contains it, each once; every result of any query is live and visible |
| `Traversal.WithinIsPaths` | crates/exocortex-cache/src/lib.rs:1038-1101 | Being within k hops is having a path of at most k allowed hops through visible memories |
| `Traversal.WithinIsRoutes` | crates/exocortex-cache/src/lib.rs:1064-1098 | Being within k hops is having a route of at most k links, each followed in a direction asked for (with or against its own, or either), of a kind asked for where kinds are given, and no more private than asked for |
| `Traversal.BreadthFirst` | crates/exocortex-cache/src/lib.rs:1052-1098 | The queue-driven search meets only nodes within the radius, each once and nearest first, and all of them unless the cap is reached |
| `Traversal.Traverse` | crates/exocortex-cache/src/lib.rs:1038-1101 | Without duplicates and without the start, exactly the visible memories within the radius when fewer than `max_nodes` are returned; every result is sound even at the cap, and at the cap nothing left out is nearer than anything returned; an unknown or invisible start yields nothing |
| `Admission.PlaceQueues` | crates/exocortex-cache/src/lib.rs:943-967 | After placing, the three queues stay duplicate-free and disjoint, the org is queued, and the only entry that stopped being queued is the one a full Am pushed out |
| `Admission.PlaceIsMostRecent` | crates/exocortex-cache/src/lib.rs:943-967 | A known org becomes the most recent of Am and leaves the other queues, a new one becomes the last of A1in, and every other entry keeps its order |
| `Admission.PlaceStrands` | crates/exocortex-cache/src/lib.rs:943-967 | Exactly which resident graphs no queue can evict any more after a placement |
| `Admission.Cache.EvictNext` | crates/exocortex-cache/src/lib.rs:971-989 | One eviction drops the oldest of A1in, or else the least recent of Am, keeps counter and queues exact, and makes progress |
| `Admission.Cache.Admit` | crates/exocortex-cache/src/lib.rs:943-991 | The eviction loop ends and the counter stays exact; a counter within budget stays within it, Am overflow or not; from any other state it ends within budget if and only if what no queue can evict, with what evict messages lost, fits; the graphs dropped are the first in line, A1in before Am, no more of them than the budget needs, and those from A1in are the newest ghosts |
| `Admission.Cache.Publish` | crates/exocortex-cache/src/lib.rs:1394-1412 | A reseed or direct publication keeps the counter exact and within budget, keeps every graph when all fit, and without Am overflow strands none |
| `Admission.Cache.ApplyDelta` | crates/exocortex-cache/src/lib.rs:1268-1298 | A delta publication does the same by adjusting the difference |
| `Admission.Cache.EvictMessage` | crates/exocortex-cache/src/lib.rs:770-773 | The evict message leaves the counter too high by exactly the dropped graph's size |
| `Admission.Cache.Serve` | crates/exocortex-cache/src/lib.rs:694-782 | Over any run of events the counter stays within budget, and the resident graphs within the budget less everything evict messages dropped |
| `Admission.DroppedGraphStarves` | crates/exocortex-cache/src/lib.rs:770-773 | After an evict message for a graph as large as the budget, a graph that is not empty cannot stay |
| `UnionFind.Find` | crates/exocortex-adapter-sdk/src/split.rs:34-49 | Returns the root and compresses the path; it ends because depth falls along every link, and compression keeps the forest and its classes |
| `UnionFind.WeldAll` | crates/exocortex-adapter-sdk/src/split.rs:29-56 | Welding all relationships leaves a forest whose roots are the reference roots |
| `UnionFind.EdgesShareRoots` | crates/exocortex-adapter-sdk/src/split.rs:50-56 | Both endpoints of every relationship end under one root |
| `UnionFind.SameRootIffJoined` | crates/exocortex-adapter-sdk/src/split.rs:29-56 | Two keys end under one root if and only if a chain of relationships, followed either way, joins them |
| `UnionFind.ClassSize` | crates/exocortex-adapter-sdk/src/split.rs:50-68 | A class with k edges has at most k + 1 members |
| `Splitting.ValidateUnit` | crates/exocortex-adapter-sdk/src/split.rs:242-282 | Accepts exactly the units with distinct draft keys, resolved endpoints and, under a snapshot, external keys everywhere |
| `Splitting.SplitUnit` | crates/exocortex-adapter-sdk/src/split.rs:20-238 | The imperative splitter (parent map, path compression, component maps, running counters) computes the reference split, errors included; `Packing` says what that split is |
| `Splitter.ComponentsPartition` | crates/exocortex-adapter-sdk/src/split.rs:58-76 | The components hold every memory and relationship of the unit exactly once |
| `Packing.TogetherIffJoined` | crates/exocortex-adapter-sdk/src/split.rs:58-76 | Two drafts are in one component if and only if a chain of relationships joins them |
| `Splitter.SplitIsPartition` | crates/exocortex-adapter-sdk/src/split.rs:20-238 | A successful split has each memory and relationship in exactly one batch, every relationship with both endpoints, and every batch within all three ceilings |
| `Packing.SplitIsGreedy` | crates/exocortex-adapter-sdk/src/split.rs:78-238 | A successful split fills batches with whole components in order, each kind of row sorted: with the first component of the next batch any batch would pass 256 memories, 64 relationships or the summed estimate, and none is estimated over the budget |
| `Packing.FittingUnitIsOneBatch` | crates/exocortex-adapter-sdk/src/split.rs:148-215 | A unit whose components together pass none of the three is at most one batch, if it splits |
| `Packing.BytesRefusalHasCause` | crates/exocortex-adapter-sdk/src/split.rs:148-238 | A valid unit is refused for bytes only for a component estimated over the budget by itself or for a greedily packed batch that turns out to be over it |
| `Splitter.ComponentSize` | crates/exocortex-adapter-sdk/src/split.rs:50-68 | A component with k relationships has at most k + 1 memories |
| `Splitter.MemoryCeilingNeedsEdges` | crates/exocortex-adapter-sdk/src/split.rs:150-174 | With the memory ceiling above the edge ceiling, a component over the first is over the second |
| `Ceilings.RefusalNamesFirstBreak` | crates/exocortex-adapter-sdk/src/split.rs:148-215 | A valid unit is refused for memories if and only if the first component that breaks has more than 256, and for edges if and only if it has at most 256 memories and more than 64 relationships |
| `Ceilings.CountRefusalIff` | crates/exocortex-adapter-sdk/src/split.rs:148-215 | Under some sizes and budget a valid unit is refused for a count if and only if some component has more than 64 relationships; the first such component settles which count, memories if it has more than 256 |
| `Ceilings.WeldedRefusedForMemories` | crates/exocortex-adapter-sdk/src/split.rs:150-174 | Every unit of more than 256 drafts in one component is refused for its memories, whatever the sizes and the byte budget |
| `Ceilings.StarRefusedForMemories` | crates/exocortex-adapter-sdk/src/split.rs:150-174 | Every star of more than 256 drafts is such a unit, though it is over the edge ceiling too |
| `Splitter.SplitForgetsOrder` | crates/exocortex-adapter-sdk/src/split.rs:84-215 | Permuting a unit's memories changes neither a successful split nor a refusal |
| `Splitter.SmallUnitRefusedForBytesOnly` | crates/exocortex-adapter-sdk/src/split.rs:148-174 | A valid unit without a component of more than 64 relationships is never refused for a count |
| `Delivery.TriageAck` | crates/exocortex-adapter-sdk/src/lib.rs:801-878 | The loop over reject rows settles the reply if and only if no row is fatal and none asks for a retry, retries it if and only if one does and none is fatal, and fails it if and only if one is fatal; the tally counts a duplicate once, permanent rows all, accepted rows when nothing was rejected or the batch is a replay |
| `Delivery.VerdictReadsRows` | crates/exocortex-adapter-sdk/src/lib.rs:797-860 | A reply settles, asks for another send, or is fatal exactly by its rows and status: a status is fatal unless transient, a fatal row outranks a retry, and a retry outranks the rest |
| `Delivery.PermanentsAreTheRows` | crates/exocortex-adapter-sdk/src/lib.rs:801-860 | The rows reported as rejected are those permanently rejected, each as often as named |
| `Delivery.SendBatch` | crates/exocortex-adapter-sdk/src/lib.rs:615-672 | The retry loop computes the reference delivery; it succeeds if and only if a reply within its attempts settles by its rows after replies that each ask for a retry by theirs, and fails as fatal if and only if the deciding reply is fatal by its rows or its status |
| `Delivery.DeliveryIsDecided` | crates/exocortex-adapter-sdk/src/lib.rs:615-672 | Whatever the server answers: every reply before the last asked for a retry, the last decides, a batch is sent at most max(1, max_attempts) times, and exhaustion means exactly that many |
| `Delivery.WindowSettlesIff` | crates/exocortex-adapter-sdk/src/lib.rs:611-674 | A window settles if and only if each of its batches meets a reply without fatal or retry rows within its attempts, after nothing but replies to retry; it fails as fatal if and only if some batch meets a fatal one so, after batches that settled |
| `History.HistoryIsNewest` | crates/exocortex-adapter-sdk/src/lib.rs:683-692 | The history is the newest sixteen of everything pushed |
| `History.HistoryDistinctIff` | crates/exocortex-adapter-sdk/src/lib.rs:578-593 | Exactly which admissible windows leave a duplicate-free history |
| `History.HistoryStaysDistinct` | crates/exocortex-adapter-sdk/src/lib.rs:578-593 | Over any sequence of one-snapshot windows the history is duplicate-free and at most 16 long |
| `History.ReturningSnapshotRepeats` | crates/exocortex-adapter-sdk/src/lib.rs:683-692 | A window naming a snapshot, another and the first again leaves a repeat |
| `Session.PrepareBatches` | crates/exocortex-adapter-sdk/src/lib.rs:701-752 | The re-split loop ends for every budget and computes the reference preparation |
| `Session.NextBudgetMoves` | crates/exocortex-adapter-sdk/src/lib.rs:731-749 | The next budget is smaller above 64, equal at 64 and larger below |
| `Session.FullBudgetIsKept` | crates/exocortex-adapter-sdk/src/lib.rs:701-752 | A split at the full budget whose batches fit as they go out is sent as it is |
| `Session.PreparedIsTheWindow` | crates/exocortex-adapter-sdk/src/lib.rs:701-752 | What goes on the wire holds every memory and relationship of every unit exactly once, relationships beside their endpoints, and no stamped batch is over the limit |
| `Session.AdapterSession.Check` | crates/exocortex-adapter-sdk/src/lib.rs:556-609 | Passes if and only if bounds, rewind check, local rulebook and preparation all pass, before any wire traffic, and otherwise names the first of them that fails |
| `Session.AdapterSession.SubmitWindow` | crates/exocortex-adapter-sdk/src/lib.rs:545-696 | Succeeds if and only if the window is admitted, prepared, every batch settles by the rows of its replies and the cursor can be written, and fails as fatal if and only if an admitted window meets a fatal reply; on error cursor, row count and history are unchanged; on success the cursor moves once and rows and history advance exactly; rows stay within the run bound |
| `GitHistory.MapHistoryBounded` | crates/exocortex-adapter-git/src/lib.rs:197-288 | Slices of each commit in unit order spell out its file list, every commit has a row, no unit holds a commit twice, edges stay within the bound and rows too but for commits without files, and each unit's frontier is the newest commit complete with all earlier ones; a unit is closed only when the next commit is in it already or would take it over its rows or edges, and a slice that leaves files for later takes all the room there is |
| `GitHistory.CloseGroup` | crates/exocortex-adapter-git/src/lib.rs:163-185 | Closing a group reports the sound and maximal frontier |
| `GitHistory.PlaceCommit` | crates/exocortex-adapter-git/src/lib.rs:211-280 | Placing one commit, sliced over as many units as it takes, keeps all of that |
| `GitHistory.UnitsKeepBounds` | crates/exocortex-adapter-git/src/lib.rs:197-288 | With at least one edge and two rows allowed, edges stay within max_edges, and rows within max_rows when every commit touches a file |
| `GitHistory.FrontiersAdvance` | crates/exocortex-adapter-git/src/lib.rs:163-185 | Frontiers never go back |
| `GitUnits.PathOrderCovers` | crates/exocortex-adapter-git/src/lib.rs:290-336 | The emitted path order lists every path of the unit exactly once |
| `GitUnits.UnitRecords` | crates/exocortex-adapter-git/src/lib.rs:290-416 | The unit has a row per slice under its sha and a row per path, once and in ascending order, and slice by slice and path by path an edge `Modifies` from the commit's row to the path's, and its snapshot is the last commit |
| `GitUnits.UnitIsValid` | crates/exocortex-adapter-git/src/lib.rs:290-345 | With distinct shas the emitted unit passes validation and has exactly the rows and edges counted |
| `GitUnits.UnitsSplitByCount` | crates/exocortex-adapter-git/src/lib.rs:187-288 | The splitter never refuses such a unit for a count |
| `GithubWindows.WindowsAreSound` | crates/exocortex-adapter-github/src/lib.rs:627-724 | Every window has 1 to max(1, max_window) rows, no identity twice, and every closing reference of its pulls |
| `GithubWindows.WindowsAreGreedy` | crates/exocortex-adapter-github/src/lib.rs:684-724 | The windows are the groups, oldest first, cut so that no group opening a window would have fitted the one before |
| `GithubWindows.PullsConserved` | crates/exocortex-adapter-github/src/lib.rs:627-724 | Every fetched pull is in exactly one window |
| `GithubWindows.WindowsCover` | crates/exocortex-adapter-github/src/lib.rs:627-724 | The identities in the windows are exactly the fetched issues and the references of fetched pulls |
| `GithubCursors.CursorsNeverRegressIff` | crates/exocortex-adapter-github/src/lib.rs:657-734 | Exactly which pulls keep window cursors non-decreasing in every fetch drawn from them and for every window bound: those that show the newest row they are placed by |
| `GithubCursors.DistinctReferencesNeverRegress` | crates/exocortex-adapter-github/src/lib.rs:613-734 | With distinct references per pull, window cursors are non-decreasing |
| `GithubCursors.HiddenRowRegresses` | crates/exocortex-adapter-github/src/lib.rs:657-724 | Any pull that does not show that row makes the cursor fall back behind a single issue as new as the row, in windows just wide enough for the pull |
| `GithubCursors.RepeatedReferenceHidesRow` | crates/exocortex-adapter-github/src/lib.rs:613-724 | A pull that lists one issue twice, the newer time being the newest of all, does not show that row |
| `GithubCursors.OlderGroupsCameBefore` | crates/exocortex-adapter-github/src/lib.rs:684-724 | A group older than a window's cursor is in that window or an earlier one |
| `GithubChunking.ChunkWindows` | crates/exocortex-adapter-github/src/lib.rs:627-724 | The one-pass chunker with its row counter and running seen-set computes the reference windows, and refuses exactly when a pull cannot fit |
| `GithubUnits.IssueKeysIdentify` | crates/exocortex-adapter-github/src/lib.rs:392-405 | Two rows share a draft key, and an external key, if and only if they are the same issue once same-repository references are folded |
| `GithubUnits.NormalizeClosingRepos` | crates/exocortex-adapter-github/src/lib.rs:411-423 | Folds in place every reference back at this repository and nothing else |
| `GithubUnits.MapWindow` | crates/exocortex-adapter-github/src/lib.rs:469-607 | A row per issue and pull under its source's name, and one edge per pull and closing reference, from the pull's row to the row of the folded issue, `Fixes` exactly for a fix of a problem, `Solves` for a solution of one, otherwise `RelatedTo`; the snapshot is the newest moment |
| `GithubUnits.UnitDescribes` | crates/exocortex-adapter-github/src/lib.rs:469-607 | The reference unit meets the description of `GithubUnits.MapWindow` for every window |
| `GithubUnits.FoldIsLocalIff` | crates/exocortex-adapter-github/src/lib.rs:411-436 | Normalising leaves a reference local if and only if it names no repository or this one, whatever the case of its letters, and otherwise leaves it as it is |
| `GithubUnits.UnitValidIff` | crates/exocortex-adapter-github/src/lib.rs:469-607 | For any window, the unit passes validation if and only if no issue and no pull is in the window twice and every reference is among its issues |
| `GithubUnits.ChunkedUnitsAreValid` | crates/exocortex-adapter-github/src/lib.rs:469-724 | Every window of folded references and distinct pulls maps to a unit that passes validation, within the row bound |
| `GithubRuns.WalkIssues` | crates/exocortex-adapter-github/src/main.rs:171-225 | Brings home a prefix of the ascending listing, all of it unless the fetch bound was reached |
| `GithubRuns.WalkPulls` | crates/exocortex-adapter-github/src/main.rs:227-286 | Brings home a prefix of the descending listing that reaches behind the resume point or is everything, unless the bound cut it first |
| `GithubRuns.CeilingHolds` | crates/exocortex-adapter-github/src/lib.rs:446-464 | A written cursor passes neither the newest fetched issue of a cut issues walk nor the resume point of a cut pulls walk |
| `GithubRuns.IssueIsFetched` | crates/exocortex-adapter-github/src/main.rs:171-225 | No issue between the resume point and a written cursor stays unfetched |
| `GithubRuns.PullIsFetched` | crates/exocortex-adapter-github/src/main.rs:227-286 | No pull between the resume point and a written cursor stays unfetched |
| `GithubRuns.RunUnitsAreValid` | crates/exocortex-adapter-github/src/main.rs:287-327 | Every window a run submits maps to a unit that passes validation, when no pull was fetched twice |
| `GithubAdapter.SettledRunsLoseNothing` | crates/exocortex-adapter-github/src/main.rs:168-340 | Over any number of fully settled runs, every issue and pull from the seed up to the saved cursor has been settled, however the walks were cut |
| `GithubStops.StopsAreSafeIff` | crates/exocortex-adapter-github/src/main.rs:308-340 | A run may stop after any window, with everything older than the cursor settled or (an issue) still carried by a pull ahead of it, if and only if no window writes a cursor past an unsettled row of a later window |
| `GithubStops.NoNewerRefsStrandNothing` | crates/exocortex-adapter-github/src/main.rs:308-340 | That condition holds when no pull closes an issue updated after it |
| `GithubChecks.SafeToStopIff` | crates/exocortex-adapter-github/src/main.rs:308-340 | When no issue or pull is listed twice: a check over cursor file, seed, fetched rows and windows passes if and only if, whatever a safe backend has settled, the run may stop after any window |
| `GithubChecks.NoNewerRefsPass` | crates/exocortex-adapter-github/src/main.rs:308-340 | The check passes when no pull closes an issue updated after it |
| `GithubAdapter.RunsAreSafeIff` | crates/exocortex-adapter-github/src/main.rs:168-340 | Over any number of runs, each free to stop after any window: every state passed through is safe in that sense if and only if no run strands a row |
| `GithubAdapter.CheckedRunsAreSafe` | crates/exocortex-adapter-github/src/main.rs:168-340 | Any number of runs that each pass the check, each stopping anywhere, are safe throughout |
| `GithubAdapter.AnyRunsAreSafe` | crates/exocortex-adapter-github/src/main.rs:168-340 | So are any runs when no pull closes an issue updated after it |
| `GithubStops.NewerReferenceStrandsPull` | crates/exocortex-adapter-github/src/main.rs:308-340 | A family of runs that strand a pull: its closing issue was updated later, and a window in between writes past it |
| `GithubStops.StraddlingPullStrandsIssue` | crates/exocortex-adapter-github/src/main.rs:308-340 | A family of runs that strand an issue: it waits for its pull's window, the window before writes past it, and the pull is too old to come again |
| `GithubStops.FileNeverMovesBackIff` | crates/exocortex-adapter-github/src/main.rs:328-340 | With pulls that show their newest rows, the cursor file never moves back while a run settles its windows if and only if no window writes a cursor behind the file the run started from |
| `GithubStops.KeptPageMovesFileBack` | crates/exocortex-adapter-github/src/main.rs:255-275 | A page kept whole for its newer pull brings an older one whose window moves the file back |
| `GithubAdapter.Adapter.Run` | crates/exocortex-adapter-github/src/main.rs:168-340 | One run ends in exactly the state after the windows that settled, changes nothing when chunking refuses, loses nothing when all settle, and stays safe when nothing strands |
| `GithubProgress.CursorAppearsIff` | crates/exocortex-adapter-github/src/main.rs:163-275 | Without a seed and once a first run has settled a window, any number of runs under one fetch bound, wherever they stop, have a cursor if and only if the repository has fewer rows than the bound |
| `GithubProgress.SettledRunAdvancesIff` | crates/exocortex-adapter-github/src/main.rs:227-340 | A settled run from a cursor ends with a newer one if and only if the pulls walk was not cut, a cut issues walk brought something newer, and so did the last window |
| `GithubSessions.OnlyTheRunBoundRefuses` | crates/exocortex-adapter-github/src/lib.rs:737-772 | With pulls that show their newest rows: in a fresh session the adapter's own projection refuses a window of a run for the run's rows and for nothing else, as it is never too wide and never a rewind |
| `AvroVarint.ReadLong` | crates/exocortex-adapter-iceberg/src/lib.rs:513-531 | The shift-and-or loop reads the zig-zag value of the seven-bit groups modulo 2^64, at most ten bytes, and stops right after them; truncation and over-length are told apart |
| `AvroVarint.LongRoundTrip` | crates/exocortex-adapter-iceberg/src/lib.rs:513-531 | For every 64-bit integer, reading its printed form gives it back and consumes exactly its one to ten bytes |
| `AvroContainer.BytesRoundTrip` | crates/exocortex-adapter-iceberg/src/lib.rs:533-545 | The same for length-prefixed bytes |
| `AvroContainer.MetasRoundTrip` | crates/exocortex-adapter-iceberg/src/lib.rs:605-636 | Header metadata in any mix of both count forms reads back as the pairs it stated, later ones overriding |
| `AvroContainer.HeaderIsLastPairs` | crates/exocortex-adapter-iceberg/src/lib.rs:605-660 | The schema is the value of the last pair named so, if any, and the codec that of the last pair named so, or else no compression |
| `AvroContainer.FileRoundTrip` | crates/exocortex-adapter-iceberg/src/lib.rs:599-686 | A printed container reads back to its schema, codec, sync marker and raw blocks with nothing left over, or is refused for exactly the fault in its header |
| `AvroContainer.ReadContainer` | crates/exocortex-adapter-iceberg/src/lib.rs:599-686 | The position-advancing reader computes the reference parse, errors included |
| `AvroGrammar.AcceptsExactly` | crates/exocortex-adapter-iceberg/src/lib.rs:513-686 | On every input: the reader accepts the bytes as a given file if and only if they are the magic, header blocks in either count form whose last schema and codec pairs are the file's, a zero count, its sync marker, and its blocks up to the end, each behind its two lengths and before the same marker, every integer written in one to ten bytes |
| `DeltaLog.LiveIsLastAdd` | crates/exocortex-adapter-delta/src/lib.rs:364-399 | A path is live, with a given partition, if and only if the last action naming it is that add |
| `DeltaLog.FaithfulReplays` | crates/exocortex-adapter-delta/src/lib.rs:607-772 | A faithful checkpoint replays, whatever the order of its rows, to its table with the protocol reduced to its reader version |
| `DeltaLog.CheckpointDoesNotMatter` | crates/exocortex-adapter-delta/src/lib.rs:126-169 | From any faithful checkpoint, replaying all later commits gives the table of the whole history, but for protocol features no later commit states |
| `DeltaScan.LatestCheckpoint` | crates/exocortex-adapter-delta/src/lib.rs:191-290 | Exactly when the choice is none, a single file, a complete set of parts, or one of the four errors, the two of the `_last_checkpoint` hint first; the newest single file wins over any newer set of parts |
| `DeltaScan.ListingIsTheFiles` | crates/exocortex-adapter-delta/src/lib.rs:104-124 | The listed versions are exactly those with a commit file in the directory |
| `DeltaScan.ActionsAreRows` | crates/exocortex-adapter-delta/src/lib.rs:607-772 | An action is replayed from a checkpoint if and only if some row of some part sets it |
| `DeltaScan.CheckpointLive` | crates/exocortex-adapter-delta/src/lib.rs:607-772 | From a checkpoint a file is live, with a given partition, if and only if the last of the rows of all parts to name it adds it |
| `DeltaScan.ReplayCheckpoint` | crates/exocortex-adapter-delta/src/lib.rs:607-772 | Replays all rows of all parts in order, the first reader version counting, refusing an unreadable row, and a table whose columns are mapped by then |
| `DeltaScan.ApplyCommit` | crates/exocortex-adapter-delta/src/lib.rs:364-399 | Replays one commit, refusing it if any action is malformed |
| `DeltaScan.ScanTable` | crates/exocortex-adapter-delta/src/lib.rs:95-169 | Succeeds if and only if hint, checkpoint, commits, metadata, protocol and columns all stand, reports the table reached from the chosen checkpoint and the newest listed version, and returns each error in exactly its case |
| `DeltaScan.ScanIsTheTable` | crates/exocortex-adapter-delta/src/lib.rs:126-169 | With every later commit file present, the scan has the files and metadata of the whole history, and its protocol as far as the checkpoint kept it, from any checkpoint whose rows, over all its parts, describe the table of its version: each live file is added by some row and only those, none removes one, and metadata and reader version stand in some row |
| `DeltaScan.MissingCommitMatters` | crates/exocortex-adapter-delta/src/lib.rs:126-156 | The scan is right for every history the directory records if and only if no commit after the checkpoint is missing |
| `DeltaScan.MappingRefusesIff` | crates/exocortex-adapter-delta/src/lib.rs:146-161 | Columns mapped when the checkpoint was written refuse a scan, and columns mapped at the end do |
| `DeltaCases.MappingDependsOnCheckpoint` | crates/exocortex-adapter-delta/src/lib.rs:766-772 | One history and two faithful checkpoints of it, refused from the one and accepted from the other |
| `DeltaScan.ProtocolRefusesIff` | crates/exocortex-adapter-delta/src/lib.rs:444-480 | The scan refuses the protocol exactly when the history's own protocol is refused, unless a checkpoint stands for a protocol that only a feature refuses |
| `DeltaCases.FeatureIsForgotten` | crates/exocortex-adapter-delta/src/lib.rs:735-772 | A protocol with deletion vectors and a reader version of at most 2 is refused, and accepted from a faithful checkpoint of it |
| `DeltaScan.VersionIsNewestIff` | crates/exocortex-adapter-delta/src/lib.rs:104-124 | The version reported is the history's newest if and only if that commit's own file is still there |
| `DeltaCases.VersionCanBeStale` | crates/exocortex-adapter-delta/src/lib.rs:104-124 | A complete log whose scan reports version 0 of a table at version 1 |
| `DeltaCases.PartsFromOneAreRefused` | crates/exocortex-adapter-delta/src/lib.rs:214-262 | A checkpoint whose parts are numbered from 1 is refused as missing parts |
| `DeltaCases.GapIsNotNoticed` | crates/exocortex-adapter-delta/src/lib.rs:126-156 | A concrete log with a missing commit that is accepted, with a removed file among the live ones |

## Left out

- Slots.PublishedIsTheFold: the generation counter is unbounded, so saturation at its maximum is not captured; the byte estimates that a publication returns are not either. The slot is a state machine over values: a buffer stands for the graph that `Snapshots` shows it to have, and in-place update is a change of that graph.
- Snapshots.GraphSnapshot.ApplyDelta: the type and tag bitmaps are modelled apart, in `Bitmaps`, because they agree with the graph only under a condition on ids.
- Snapshots.GraphSnapshot.InsertMemory: the same of the bitmaps; arena offsets are unbounded, so truncation to 32 bits is not captured; node and edge slots are chosen freely among vacant ones, and lower-casing is ASCII only.
- Snapshots.GraphSnapshot.RemoveMemory: the same of the bitmaps.
- Snapshots.GraphSnapshot.IndexMemory: the same of the bitmaps.
- Snapshots.GraphSnapshot.RemoveMemoryIndexes: the same of the bitmaps.
- Snapshots.GraphSnapshot.CompactSearchIndexIfNeeded: the rebuilt tag map is the `Rebuild` step of `Bitmaps`; the tag interner is not modelled.
- Search.SearchMemories: the score is any real-valued function of the node; floating-point arithmetic and the recency clock are not captured.
- Traversal.Traverse: neighbours may be visited in any order, so the order of results at one distance is not captured.
- Admission.Cache.Admit: one caller at a time; the interleaving of the lock and the graph map is not captured.
- Delivery.TriageAck: reject codes are represented by their disposition, and the fingerprint re-negotiation behind one fatal code by that code alone.
- Session.AdapterSession.SubmitWindow: delays, metrics and authentication are left out; lengths before and after stamping are abstract functions; the row count does not saturate.
- GithubAdapter.Adapter.Run: the source does not change while a run walks it, pages are well formed, and a page with a successor names it.
- GithubUnits.MapWindow: row text, memory types and validity times are given, not derived from titles, labels, branches and dates.
- AvroContainer.ReadContainer: text and schema validity are parameters; inflating blocks and decoding records are not modelled.
- DeltaScan.ScanTable: file names are already parsed; schema rendering and path resolution are not modelled.
- DeltaScan.ReplayCheckpoint: every reason a row or a file cannot be read is one, and an unreadable reader version counts as one even where an earlier row settled the protocol.
- Batch ids, checksums and signatures: opaque, and nothing modelled depends on them.
- The other adapters (Postgres, Linear, Parquet, tables), the API client, the manifest rulebook and the backoff schedule: they would only add easier versions of the same claims.
- The storage, change log, lease and cluster code: not part of this model.
