# Verified model of the graph stores and graph kernels

This project models, in Dafny, the concurrent and in-place cores of three graph systems and the kernels
that run on them, and proves what those cores are for:

* **GraphOne's versioned store.** A circular edge log with a lap-polarity bit (`EdgeLog`, with runs that lose
  edges in `EdgeLogRuns` and the end of every batch in `EdgeLogProgress`), the parallel stable partition of a
  batch by vertex range (`Sharding`), and per vertex a chain of record chunks (`EdgeChains`), a short recycled
  chain of degree snapshots (`SnapChains`, with a concurrent reader in `SnapRaces`), the two-pass archive on both
  (`VertexUnits`), and the read that moves overflow records into the holes deletes leave (`HoleReading`).
  `RecordLog` and `VertexLog` say what a log of insert and delete records means; `ArchivePipeline` leads from an
  append to the log all the way to a read of a snapshot.
* **Connectivity.** Afforest with sampling and one skipped label, as the sequential program (`Afforest`) and
  as interleaved reads and compare-and-swaps (`AfforestRuns`, `CompressRuns`), Shiloach-Vishkin as interleaved
  atomic reads and writes and as the sequential program (`ShiloachVishkin`), its verifier
  (`ComponentVerifier`), and streaming union-find (`StreamingWcc`), all against plain undirected
  connectivity (`Graphs`, `Forests`).
* **Traversal.** Direction-optimizing breadth-first search and its verifier (`DirectionBfs`), the same search with
  its top-down steps racing (`TopDownRuns`, `HybridRuns`), Brandes betweenness with blocked edge numbering and its
  independent verifier (`EdgeNumbering`, `PathCounting`, `ForwardSearch`, `Brandes`, `BrandesVerifier`), the same
  scores over racing searches (`ForwardRuns`, `BrandesRuns`), its path counts in 32 bits (`PathWidths`), and
  incremental breadth-first search on a growing graph (`StreamBfs`, with racing sweeps in `SweepRuns`), against hop
  distance and walk counting.
* **BAL storage and queues.** The blocked adjacency list with its iterator (`BlockedAdjacency`), the
  sliding queue (`SlidingQueues`), and concurrent buffer flushes as interleaved atomic steps
  (`QueueFlushes`).

Pointer structures are classes over objects with ghost sequences; buffers are arrays updated in place;
bit masks and shifts are arithmetic on bounded ids: 32-bit neighbour ids with the top bit as delete mark,
30-bit vertex ids, byte levels with 255 as "none". The log length, the range and thread counts and the number
of snapshots kept are any positive numbers (at least two snapshots), where the code fixes 2^27, 256 and 3.
Where a property is about concurrency the program is a state machine of atomic steps, or a loop that lets
any thread go next, and the result holds for every interleaving. Other parallel loops are taken in
sequence. Memory allocation always succeeds.

`dafny verify dfyconfig.toml` checks everything.

## Findings

The model keeps the code as it is, so some promises come with an exact condition.

* A second delete of the same neighbour names the position the first delete already names, because the
  search looks for the latest record with that id whether or not it is still live. A logged delete cancels
  a live insert if and only if the latest insert of the id is live (`VertexLog.DeleteIsSound`); over a whole
  history every delete does so if and only if no neighbour is deleted again before it is inserted again
  (`VertexLog.WellFormedIff`), which a caller can check before the call. One insert and two deletes already
  leave a degree of one insert and two deletes (`VertexLog.SecondDeleteUnderflows`).
* The archive is the appended edges in order exactly when every batch fitted when it was archived: its marker
  no further than one log length ahead of the tail, and not behind it (`EdgeLog.FaithfulIffBatchesFit`,
  `EdgeLog.ValuesIffBatchesFit`). When a marker was queued does not matter, and a writer's own marker is never
  too far ahead, and a batch that fits always ends (`EdgeLogProgress.BatchEnds`). `create_marker(0)` takes the head,
  which waiting writers have moved out of reach. With two or more polling threads there is, for every log length
  and every border between their chunks, a run in which the last index is polled while the first edge's writer is
  held up: the state an earlier lap left its slot in passes for the current one, so that one edge is archived twice
  and one never (`EdgeLogRuns.OverlongMarkerLosesAnEdge`). With one polling thread no edge is lost that way
  (`EdgeLog.OneThreadFaithfulIff`); the archiver and the writer then wait for each other for good
  (`EdgeLogRuns.OverlongMarkerHangs`). A marker behind the tail, queued by a slower writer after a faster one's
  was taken, moves the tail back, and the archive is never faithful again (`EdgeLogRuns.MarkerBehindBreaks`).
* An edge is two words and only the second is polled. On laps that set no mark the source has to be stored
  first, which a plain structure assignment does not say; the log is faithful over all runs whose batches fit
  exactly if it is, with one polling thread as with many (`EdgeLogRuns.FaithfulIffSourceFirst`,
  `EdgeLogRuns.TornCopyIsArchived`).
* A reader that walks a vertex's snapshot chain while the next batch recycles the oldest blob is exact in every
  interleaving if and only if its snapshot is not older than the oldest blob but one (`SnapRaces.SafeIffNotOldest`),
  as all but the oldest of the last K snapshots are (`SnapRaces.RecentReadersAreSafe`). Otherwise it can find no degree at
  all (`SnapRaces.CutOff`) or the running batch's (`SnapRaces.Overtaken`).
* The parallel sweep of the incremental search tests a level and stores a lower one in two steps, so a longer way
  can be stored over a shorter one whose vertex is no longer marked. Sweeps are exact over every graph and every
  interleaving if and only if the store is conditional (`SweepRuns.ExactIffAtomic`); with the code's store a
  graph of four vertices ends with a wrong level (`SweepRuns.PlainStoreLosesALevel`). A single sweeping thread is
  exact (`StreamBfs.StreamSerialBfs`).
* `out_neigh(n, start)` starts in the head block whatever the offset. It walks the destinations it promises
  exactly if the offset is below the block size or past the end (`BlockedAdjacency.StartCondition`); otherwise
  it starts outside the block and then finds earlier destinations, as from offset 1022 of a vertex with 1024
  (`BlockedAdjacency.FarStart`).
* When no source has an edge to another vertex, all betweenness scores are zero divided by zero. The kernel's scores
  are numbers if and only if some source has one (`Brandes.AnyTotalIffSomeLeaves`, `Brandes.BetweennessCentrality`),
  and otherwise the verifier rejects them, as it rejects every array (`BrandesVerifier.BCVerifier`); one vertex
  without edges is such an input (`Brandes.IsolatedSourceHasNoScore`).
* Path counts are kept in 32 bits and added with wrap-around. A vertex's count is its number of shortest paths if and
  only if that number is below 2^31 (`PathWidths.CountToldIffFits`). On 31 diamonds in a row, 94 vertices, the last
  vertex gets -2^31, and on more it gets zero, by which the backward pass divides (`PathWidths.DiamondsOverflow`).
* The bit shift in `classify_d` keeps every vertex below the range count (`Sharding.ShiftFits`). `classify_u` lacks
  its test for a zero base and takes the leading zeros of zero, which have no defined number, exactly for vertex
  counts up to the range count (`Sharding.BaseIsZero`), such as 256 vertices in 256 ranges.

## Model

| member | source | states |
|---|---|---|
| `Afforest.Link` | XPGraph/apps/connected_components.hpp:36-50 | Whatever the forest, the root labelling afterwards is the one before with exactly the classes of u and v united under the smaller root, including the retries from the grandparents |
| `Afforest.Compress` | XPGraph/apps/connected_components.hpp:53-60 | Every entry ends as the root its tree had at the start; no tree changes |
| `Afforest.SampleNeighbours` | XPGraph/apps/connected_components.hpp:95-116 | After the sampling rounds every vertex is in one class with each of its first `rounds` out-neighbours |
| `Afforest.SkippingIsHarmless` | XPGraph/apps/connected_components.hpp:122-151 | An edge of a skipped vertex is still united, through the other end or because that end is skipped with the same label; needs in-lists that invert out-lists |
| `Afforest.ConnectedComponents` | XPGraph/apps/connected_components.hpp:84-160 | For any number of rounds and any sampled label, every entry is the smallest vertex of its undirected component and the count is the number of components |
| `AfforestRuns.RunKeepsInv` | XPGraph/apps/connected_components.hpp:36-50 | With every vertex task reading single labels and swapping in any interleaving, labels stay a forest, roots stay in their component, and links once made are never undone |
| `AfforestRuns.StepDescends` | XPGraph/apps/connected_components.hpp:39-49 | Every action, a failed compare-and-swap included, lowers one sum, so no schedule of links goes on forever |
| `AfforestRuns.PassLinks` | XPGraph/apps/connected_components.hpp:122-151 | When any schedule of a pass is complete, every vertex shares its root with all its targets, or was skipped and shares the root of the skipped label |
| `AfforestRuns.CanPass` | XPGraph/apps/connected_components.hpp:122-151 | From any forest and any tasks there is a complete pass |
| `AfforestRuns.AnyInterleavingFindsComponents` | XPGraph/apps/connected_components.hpp:84-152 | For any number of sampling rounds, any skipped label and any interleaving within each pass and each compression, the labels end as the smallest vertices of the components |
| `CompressRuns.RunKeepsRoots` | XPGraph/apps/connected_components.hpp:53-60 | With every vertex reading and moving its own label in any interleaving, no step changes a root |
| `CompressRuns.StepDescends` | XPGraph/apps/connected_components.hpp:56-58 | Every read and write lowers one sum, so no compression goes on forever |
| `CompressRuns.CompressedToRoots` | XPGraph/apps/connected_components.hpp:53-60 | However it interleaves, a complete compression leaves exactly the roots of the labels it started from |
| `CompressRuns.CanCompress` | XPGraph/apps/connected_components.hpp:53-60 | From any forest there is a complete compression, which ends at its roots |
| `Forests.HookMerges` | XPGraph/apps/connected_components.hpp:44-46 | Hooking one root below another node moves exactly that root's tree |
| `Forests.ShortcutKeepsRoots` | XPGraph/apps/connected_components.hpp:56-58 | Pointing a node at another node of its own tree changes no root; path compression, halving and pointer jumping rest on it |
| `Graphs.LabelsAreMinima` | bal/src/cc_sv.cc:47-49 | Labels that never exceed their vertex, stay in its component and agree along edges are component minima |
| `ShiloachVishkin.RunKeepsInv` | bal/src/cc_sv.cc:50-84 | The invariant of the interleaved machine holds in every state of every run, each vertex task reading and writing single labels in any order |
| `ShiloachVishkin.LabelsAlwaysSound` | bal/src/cc_sv.cc:60-80 | In every state of every interleaving each label is at most its vertex and lies in its component |
| `ShiloachVishkin.DoneLabelsAreMinima` | bal/src/cc_sv.cc:57-83 | When any interleaving ends, every label is the smallest vertex of its component |
| `ShiloachVishkin.PassBound` | bal/src/cc_sv.cc:57-59 | No interleaving takes more than vertices minus components plus one outer passes |
| `ShiloachVishkin.EveryStepDescends` | bal/src/cc_sv.cc:57-81 | Every atomic step lowers one rank, so no schedule runs forever |
| `ShiloachVishkin.NeverStuck` | bal/src/cc_sv.cc:57-81 | A run that has not ended always has a next step |
| `ShiloachVishkin.CanFinish` | bal/src/cc_sv.cc:57-84 | So every run can be carried on to its end, the rank being well founded |
| `ShiloachVishkin.HookPass` | bal/src/cc_sv.cc:61-74 | The sequential hook loop hooks edge after edge, reports a change exactly when it lost a root, and otherwise all edges agree |
| `ShiloachVishkin.ShiloachVishkin` | bal/src/cc_sv.cc:50-84 | The sequential program ends with component minima within the same bound; its count is that of the first pass that hooks nothing |
| `ComponentVerifier.Search` | bal/src/cc_sv.cc:121-134 | The search from one representative either explores its whole component under one label or has found an edge between two labels |
| `ComponentVerifier.CCVerifier` | bal/src/cc_sv.cc:110-140 | For every symmetric graph and label array, and any order in which the label map is walked, true is returned exactly when equal labels mean connected |
| `StreamingWcc.Wcc.Find` | GraphOne/analytics/stream_analytics.h:68-77 | Returns the root of the class and leaves every root as it was while it halves the path; terminates because links point down |
| `StreamingWcc.Wcc.WccEdge` | GraphOne/analytics/stream_analytics.h:79-127 | All four cases and self loops keep: touched vertices share a root exactly when the stream so far connects them, every root is in use, classes number at most half the touched vertices |
| `StreamingWcc.Wcc.StreamWcc` | GraphOne/analytics/stream_analytics.h:144-159 | A batch on top of any earlier stream keeps all of that |
| `StreamingWcc.Wcc.SameRootIffConnected` | GraphOne/analytics/stream_analytics.h:79-127 | Two vertices touched by edges other than self loops have the same root if and only if they are connected |
| `StreamingWcc.Wcc.Summary` | GraphOne/analytics/stream_analytics.h:130-141 | The count printed is the number of components with at least one edge |
| `StreamingWcc.Wcc.ClassBound` | GraphOne/analytics/stream_analytics.h:91-97 | Twice the class count never exceeds the vertex count, so class ids stay inside the array |
| `StreamingWcc.Wcc.constructor` | GraphOne/analytics/stream_analytics.h:27-36 | No vertex has a class before the first edge |
| `DirectionBfs.TDStep` | bal/src/bfs.cc:67-89 | From all vertices up to level d visited to all up to d + 1; exactly level d + 1 is appended to the queue, each vertex once; the count returned is the out-degrees of that level added up, a vertex without edges counting one |
| `TopDownRuns.RunKeepsInv` | bal/src/bfs.cc:74-85 | With all window vertices racing on compare-and-swaps in any interleaving, every new parent is a vertex of level d with that edge, and no vertex is pushed twice |
| `TopDownRuns.StepDescends` | bal/src/bfs.cc:76-85 | Every read and swap, failed ones included, lowers one sum |
| `TopDownRuns.ExpandedExactly` | bal/src/bfs.cc:67-89 | A complete step visits exactly level d + 1, pushes each of its vertices once, and the queue has room, whatever the interleaving |
| `DirectionBfs.BottomUpExact` | bal/src/bfs.cc:46-64 | With every unvisited vertex taking its first in-neighbour in the front, on its own, the next bits are exactly level d + 1, stale bits included in the front |
| `HybridRuns.AnyInterleavingFindsTree` | bal/src/bfs.cc:122-173 | Whatever direction every turn takes, so for every alpha and beta, and however each top-down step interleaves, the search ends in a breadth-first tree |
| `HybridRuns.CanGoDown` | bal/src/bfs.cc:157-162 | From any view a top-down step can be taken to its end |
| `HybridRuns.CanGoUp` | bal/src/bfs.cc:140-156 | From any view a bottom-up phase of any number of steps can be taken |
| `HybridRuns.SearchEnds` | bal/src/bfs.cc:138-167 | Whatever the turns, there are no more of them than vertices before the window is empty |
| `DirectionBfs.BUStep` | bal/src/bfs.cc:46-64 | In the loop every unvisited vertex takes its first in-neighbour in the front, stale bits of earlier levels included, and the next bits are exactly level d + 1; the count returned is the size of level d + 1, the number of vertices that got a parent |
| `DirectionBfs.StaleBitsAreHarmless` | bal/src/bfs.cc:134-160 | Front bits left over from an earlier level have no unvisited out-neighbour, so re-entering bottom-up is safe |
| `DirectionBfs.QueueToBitmap` | bal/src/bfs.cc:92-98 | Adds exactly the window's vertices to the bits |
| `DirectionBfs.BitmapToQueue` | bal/src/bfs.cc:100-112 | The new window lists exactly the level the bits hold, and no vertex was ever queued twice, so the queue never overflows |
| `DirectionBfs.BottomUpPhase` | bal/src/bfs.cc:145-155 | Ends with the front bits at the first deeper level that is smaller than the one before and no more than 1/beta of the vertices |
| `DirectionBfs.SearchLevels` | bal/src/bfs.cc:138-167 | For every alpha and beta of at least one the alternation ends, with every vertex before an empty level visited; each turn goes bottom-up exactly when the edges out of its level are more than 1/alpha of those not yet explored |
| `DirectionBfs.DOBFS` | bal/src/bfs.cc:122-173 | The result is a breadth-first tree: the source is its own parent, every other reachable vertex has an edge from a parent one level closer, unreachable ones hold -1; the turns on the way are those the sizes and out-degrees of the levels prescribe |
| `DirectionBfs.SerialDepths` | bal/src/bfs.cc:197-210 | The serial search records exactly the hop distances |
| `DirectionBfs.BFSVerifier` | bal/src/bfs.cc:195-241 | Accepts a parent array if and only if it is a breadth-first tree |
| `SlidingQueues.SlidingQueue.PushBack` | bal/src/sliding_queue.h:47-49 | Appends behind the window, which does not change |
| `SlidingQueues.SlidingQueue.SlideWindow` | bal/src/sliding_queue.h:61-64 | The window becomes exactly what was pending |
| `SlidingQueues.QueueBuffer.PushBack` | bal/src/sliding_queue.h:97-101 | Queue and buffer together grow by the element, through a flush or not |
| `SlidingQueues.QueueBuffer.Flush` | bal/src/sliding_queue.h:103-108 | The held elements follow what was pushed, in order, and the window is untouched |
| `QueueFlushes.RunKeepsInv` | bal/src/sliding_queue.h:97-108 | The invariant of several buffers pushing, reserving and copying holds after any steps in any order |
| `QueueFlushes.FlushesNeverOverlap` | bal/src/sliding_queue.h:103-107 | In every reachable state no buffer holds more than its size, and the regions being copied are in bounds, pairwise disjoint and behind the window |
| `QueueFlushes.WindowStable` | bal/src/sliding_queue.h:61-64 | No interleaving without a slide changes the window |
| `QueueFlushes.SlideDelivers` | bal/src/sliding_queue.h:61-64 | Once all buffers are flushed, sliding shows exactly the multiset pushed since the last slide |
| `QueueFlushes.NextWindowIsPushes` | bal/src/sliding_queue.h:97-108 | From slide to slide, the next window is the multiset of the pushes in between, for every interleaving |
| `QueueFlushes.FlushProgress` | bal/src/sliding_queue.h:103-108 | In every state of the invariant the window may slide, or a step of some flush is enabled that lowers the number of steps left |
| `QueueFlushes.PushesAreDelivered` | bal/src/sliding_queue.h:97-108 | From every such state steps of flushes alone lead to a slide, and the window is then exactly the multiset pushed |
| `QueueFlushes.RoomMeansPush` | bal/src/sliding_queue.h:97-101 | While the queue has room a thread can push, after flushing its own buffer if that is full |
| `EdgeNumbering.ParallelPrefixSum` | bal/src/bc.cc:46-74 | The blocked two-level sum equals the plain prefix sum for every block size |
| `EdgeNumbering.EdgeIdInRange` | bal/src/bc.cc:83-85 | An edge id is below the total degree |
| `EdgeNumbering.EdgeIdsInjective` | bal/src/bc.cc:83-85 | No two edges share an id |
| `EdgeNumbering.EdgeIdsCover` | bal/src/bc.cc:83-85 | And every number below the number of edges is some edge's id |
| `PathCounting.WalksByLastEdge` | bal/src/bc.cc:109-117 | Walks counted by first edge equal walks counted by last edge, which is what the forward pass accumulates |
| `PathCounting.DependencyRecurrence` | bal/src/bc.cc:156-168 | The dependency defined by shortest-path counts over all targets below equals the successor sum Brandes accumulates |
| `PathCounting.LeavingCounts` | bal/src/bc.cc:156-168 | A source with an edge to another vertex has a positive dependency on itself |
| `PathCounting.StayingCountsNothing` | bal/src/bc.cc:156-168 | A source without one has no dependency on any vertex |
| `ForwardSearch.PBFS` | bal/src/bc.cc:87-128 | Path counts are the numbers of shortest paths, an edge's successor bit is set exactly if the edge goes one level down from a reached vertex, and the depth index slices the queue into the exact levels |
| `ForwardRuns.RunKeepsInv` | bal/src/bc.cc:106-120 | With all window vertices racing on depths, bits and counts in any interleaving, depths stay exact, no vertex is pushed twice, every count below is the paths added so far, and exactly the passed edges one level down have their bit |
| `ForwardRuns.StepDescends` | bal/src/bc.cc:109-119 | Every atomic action, failed swaps included, lowers one sum |
| `ForwardRuns.SpreadExactly` | bal/src/bc.cc:100-125 | A complete level is found exactly, each vertex pushed once, with final path counts and bits, whatever the interleaving |
| `ForwardRuns.AnyInterleavingCountsPaths` | bal/src/bc.cc:87-128 | Level after level in any interleaving, path counts end as the numbers of shortest paths, bits as the edges one level down, and the depth index slices the queue into the exact levels |
| `ForwardRuns.CanSpread` | bal/src/bc.cc:100-125 | From any arrays and window a level can be run to its end |
| `ForwardRuns.SearchEnds` | bal/src/bc.cc:100-125 | There are no more levels than vertices before the window is empty |
| `PathWidths.StepCommutes` | bal/src/bc.cc:114-118 | No test depends on a count, so every action on 32-bit counts is the action on exact counts with only the low words kept |
| `PathWidths.CountToldIffFits` | bal/src/bc.cc:87-128 | Under any interleaving a vertex's 32-bit count is its number of shortest paths if and only if that is below 2^31; bits and depth index are exact regardless, and when all counts fit the backward pass gets what it asks for |
| `PathWidths.DiamondsOverflow` | bal/src/bc.cc:117 | For every n of at least 31, on n diamonds in a row, a complete search leaves -2^31 for 31 and zero for more where there are 2^n paths |
| `BrandesRuns.SearchFeedsBackward` | bal/src/bc.cc:144-153 | Whatever its interleaving, a racing search leaves the counts, bits, queue and depth index that the backward pass asks for |
| `BrandesRuns.AddRun` | bal/src/bc.cc:144-170 | On the arrays of any racing search the backward pass adds exactly its source's dependencies |
| `BrandesRuns.BetweennessCentrality` | bal/src/bc.cc:131-180 | With every search in its own interleaving the scores are the normalized dependencies, and numbers if and only if some source has an edge to another vertex |
| `Brandes.Accumulate` | bal/src/bc.cc:156-165 | One vertex's inner loop yields its dependency when all deeper vertices are settled |
| `Brandes.Backward` | bal/src/bc.cc:153-169 | The backward pass adds to every score the vertex's dependency, zero where unreached |
| `Brandes.AddSource` | bal/src/bc.cc:144-170 | One iteration adds exactly the dependencies of its source |
| `Brandes.AddSources` | bal/src/bc.cc:146-170 | After any number of iterations every score is the sum of its dependencies on the sources picked |
| `Brandes.Normalize` | bal/src/bc.cc:171-178 | Scores become the totals divided by the largest one, or are no numbers exactly if no total is positive |
| `Brandes.ScoresInUnit` | bal/src/bc.cc:171-178 | Normalized scores lie between zero and one and are one exactly for the vertices of the largest total |
| `Brandes.AnyTotalIffSomeLeaves` | bal/src/bc.cc:171-178 | Some score is positive if and only if some source has an edge to another vertex |
| `Brandes.IsolatedSourceHasNoScore` | bal/src/bc.cc:171-178 | One vertex without edges as the source: no array holds its normalized scores |
| `Brandes.BetweennessCentrality` | bal/src/bc.cc:131-180 | In exact arithmetic the scores are the normalized sums of dependencies over the sources, and numbers if and only if some source has an edge to another vertex |
| `BrandesVerifier.SerialSearch` | bal/src/bc.cc:204-222 | The serial queue search yields distances and shortest-path counts, vertex by vertex |
| `BrandesVerifier.GroupByDepth` | bal/src/bc.cc:223-231 | Each list holds exactly the vertices of its depth, once |
| `BrandesVerifier.AddSourceByDepth` | bal/src/bc.cc:203-245 | The verifier's pass adds the same dependencies, successors recognized by depth and deltas summed in place |
| `BrandesVerifier.BCVerifier` | bal/src/bc.cc:199-259 | Accepts exactly the normalized dependencies, so the kernel's scores when they are numbers, and no array at all unless some source has an edge to another vertex |
| `StreamBfs.UpdateView` | GraphOne/gview/sstream_view.h:77-97 | Takes over the new degrees and marks exactly the vertices whose degree changed |
| `StreamBfs.MarksSuffice` | GraphOne/gview/sstream_view.h:88-94 | For batches that only append, these marks, replacing all older ones, leave no stale neighbour unmarked |
| `StreamBfs.Sweep` | GraphOne/analytics/sstream_analytics.h:157-181 | Keeps levels sound; lowers the sum of levels by at least the frontier count; a zero count means no marked vertex has a level |
| `StreamBfs.SettledIsExact` | GraphOne/analytics/sstream_analytics.h:149-218 | A quiet state holds min(distance, 255) everywhere |
| `StreamBfs.Settle` | GraphOne/analytics/sstream_analytics.h:149-217 | The do-while ends, and then every level is min(distance, 255) |
| `StreamBfs.StreamSerialBfs` | GraphOne/analytics/sstream_analytics.h:107-219 | After every batch of insertions the levels, carried over from the batch before, are those of a search from scratch |
| `SweepRuns.RunKeepsInv` | GraphOne/analytics/sstream_analytics.h:157-187 | With conditional stores, whatever the interleaving of single reads, stores and marks: levels stay walk lengths, and no vertex that could improve a neighbour is forgotten |
| `SweepRuns.StepDescends` | GraphOne/analytics/sstream_analytics.h:157-187 | Every read, store and mark, of either kind of sweep, lowers one sum, so every schedule of a sweep ends |
| `SweepRuns.AtomicSweepsAreExact` | GraphOne/analytics/sstream_analytics.h:149-218 | Then sweeps in any interleaving, until one counts nothing, end at min(distance, 255) |
| `SweepRuns.SweepsEnd` | GraphOne/analytics/sstream_analytics.h:149-218 | And there is such a sweep: while every sweep counts something, each lowers the sum of the levels, so there are no more of them than levels to fall |
| `SweepRuns.PlainStoreLosesALevel` | GraphOne/analytics/sstream_analytics.h:181-187 | With the code's store, one sweep over four vertices leaves a level too high and nothing marked |
| `SweepRuns.ExactIffAtomic` | GraphOne/analytics/sstream_analytics.h:149-218 | Parallel sweeps are exact over every graph, batch and interleaving if and only if the store is conditional |
| `BlockedAdjacency.Vertex.Append` | bal/src/graph.h:414-456 | The list grows by the destination whether a first, a further or no new block is needed; existing blocks stay where they are |
| `BlockedAdjacency.BlockedGraph.Insert` | bal/src/graph.h:401-465 | Only the source's list grows, and the edge count stays the sum of the degrees |
| `BlockedAdjacency.BlockedGraph.constructor` | bal/src/graph.h:258-374 | After the base load every list holds its vertex's destinations in load order, and the edge count is the sum of degrees |
| `BlockedAdjacency.Iterator.Advance` | bal/src/graph.h:202-213 | The iterator moves to the next destination across block borders and ends exactly at its degree |
| `BlockedAdjacency.Iterate` | bal/src/graph.h:159-251 | Walking a neighbourhood from any offset finds what the pointer then designates: from the head block on, in insertion order, as many blocks behind the offset as the offset is block sizes in |
| `BlockedAdjacency.IterateAcrossInserts` | bal/src/graph.h:492-495 | A neighbourhood taken before any later inserts still walks exactly the old list, and finds it as promised from a usable offset |
| `BlockedAdjacency.StartCondition` | bal/src/graph.h:165-172 | The walk finds the destinations from its offset on if and only if the offset is below the block size or past the end |
| `BlockedAdjacency.FarStart` | bal/src/graph.h:165-172 | A vertex with 1024 destinations read from offset 1022: the first pointer is outside the block, the second finds destination 1 |
| `RecordLog.LiveCount` | GraphOne/onedata/vunit.h:112-126 | Of a well-formed log as many records are live as its inserts minus its deletes |
| `HoleReading.HolesFit` | GraphOne/onedata/onegraph.h:333-335 | The position buffer of twice the delete count is large enough at every moment of the scan |
| `HoleReading.ScanStartsFilling` | GraphOne/onedata/onegraph.h:342-370 | After the scan there are exactly as many holes in the prefix as live records in the overflow buffer |
| `HoleReading.HoleReader.Step` | GraphOne/onedata/onegraph.h:347-366 | One record of any kind, in prefix or overflow, naming either, keeps the account of holes and marked overflow records |
| `HoleReading.HoleReader.Fill` | GraphOne/onedata/onegraph.h:375-379 | The filled buffer holds exactly the live neighbours, as a multiset, and no delete record |
| `SnapChains.RecentSnapshotsExact` | GraphOne/onedata/vunit.h:190-212 | With K blobs kept, each of the last K snapshots is answered exactly, whatever was recycled |
| `SnapChains.OpenKeeps` | GraphOne/onedata/onegraph.h:52-66 | Opening a blob, recycled or new, in a batch keeps the chain descending, bounded and exact |
| `SnapChains.CountKeeps` | GraphOne/onedata/onegraph.h:67-71 | Counting in the current batch changes that batch's degree and no other answer |
| `SnapChains.NextBatch` | GraphOne/onedata/vunit.h:190-212 | A batch that does not touch the vertex answers with the degree before it |
| `SnapChains.SnapChain.GetDegreeAt` | GraphOne/onedata/vunit.h:190-212 | The walk returns the newest degree not younger than the snapshot, or zero |
| `SnapChains.SnapChain.SetSnapblob` | GraphOne/onedata/vunit.h:235-245 | The blob becomes the head and the rest of the chain is unchanged |
| `SnapChains.SnapChain.RecycleSnapblob` | GraphOne/onedata/vunit.h:247-268 | Null below capacity; at capacity the oldest blob moves to the front with the newest degree and the new id |
| `SnapChains.SnapChain.CompressDegree` | GraphOne/onedata/vunit.h:183-189 | The newest degree loses its deletes and as many inserts |
| `SnapChains.SnapChain.Count` | GraphOne/onedata/onegraph.h:43-102 | Counting an insert or delete keeps the chain exact for the history with this batch's degree one higher |
| `SnapRaces.SafeIffNotOldest` | GraphOne/onedata/vunit.h:190-268 | While a batch recycles the oldest blob and counts in it, a reader at a kept snapshot is exact in every interleaving of single reads and writes if and only if its snapshot is not older than the oldest blob but one |
| `SnapRaces.RecentReadersAreSafe` | GraphOne/onedata/vunit.h:190-268 | So the last K snapshots, the running batch's among them, are read exactly |
| `SnapRaces.ReadersFinish` | GraphOne/onedata/vunit.h:190-212 | However the writes fall between them, four reads for every blob end a walk for any snapshot, and a walk for a recent one with its degree |
| `SnapRaces.CutOff` | GraphOne/onedata/vunit.h:263 | A reader overtaken before the oldest blob finds no degree |
| `SnapRaces.Overtaken` | GraphOne/onedata/vunit.h:263-267 | A reader overtaken at it finds the running batch's degree |
| `EdgeChains.EdgeChain.AddNebr` | GraphOne/onedata/onegraph.h:108-129 | The chain's records grow by the one record; a chunk is opened exactly when the last one is full, with room for what is wanted and the slots the allocation rounds up to |
| `EdgeChains.EdgeChain.SetDeltaAdjlist` | GraphOne/onedata/vunit.h:222-230 | Links a chunk at the end without changing the records |
| `EdgeChains.EdgeChain.FindNebr` | GraphOne/onedata/onegraph.h:627-678 | Backward through the last chunk, then forward through the others: the result is the log position of the latest record with the id, or none |
| `EdgeChains.EdgeChain.CopyRecords` | GraphOne/onedata/onegraph.h:315-324 | Without deletes exactly the first records are copied, across chunks |
| `EdgeChains.EdgeChain.ReadRecords` | GraphOne/onedata/onegraph.h:342-370 | The reader sees exactly the first records, across chunks, stopping inside the last one needed |
| `EdgeChains.EdgeChain.Start` | GraphOne/onedata/onegraph.h:465-489 | The cursor stands at the record of the given offset |
| `EdgeChains.EdgeChain.Next` | GraphOne/onedata/onegraph.h:492-505 | Returns the record at the cursor and moves to the following one, over chunk borders |
| `VertexLog.DeleteIsSound` | GraphOne/onedata/onegraph.h:168-202 | A logged delete keeps the log well formed if and only if there is no such insert or its latest one is live |
| `VertexLog.WellFormedIff` | GraphOne/onedata/onegraph.h:168-202 | The log of any history is well formed if and only if no neighbour is deleted twice without an insert in between |
| `VertexLog.SecondDeleteUnderflows` | GraphOne/onedata/onegraph.h:168-202 | One insert and two deletes of a neighbour give an ill-formed log with more deletes than inserts |
| `VertexLog.LiveDelete` | GraphOne/onedata/onegraph.h:173-192 | Logging the position of a live insert removes exactly that neighbour |
| `VertexLog.LogMeansNeighbours` | GraphOne/onedata/onegraph.h:10-40 | While the log is well formed its live records are the multiset the batch's updates ask for |
| `VertexLog.RunMeansNeighbours` | GraphOne/onedata/onegraph.h:10-40 | The same over any sequence of batches |
| `VertexUnits.VertexUnit.CountAll` | GraphOne/onedata/onegraph.h:17-27 | The first pass leaves the batch's degree counted ahead and every other kept snapshot exact |
| `VertexUnits.VertexUnit.LogAll` | GraphOne/onedata/onegraph.h:29-39 | The second pass appends the batch's records, uncounts deletes that find nothing, ends with the degree of the log, and opens one chunk at most |
| `VertexUnits.VertexUnit.Room` | GraphOne/onedata/onegraph.h:115-120 | A chunk is opened with room for what the batch counts, which is at least one |
| `VertexUnits.VertexUnit.RecordFor` | GraphOne/onedata/onegraph.h:171-174 | The record logged for an update: the id, the marked position of the latest insert, or none |
| `VertexUnits.VertexUnit.Archive` | GraphOne/onedata/onegraph.h:10-40 | Both passes: the log becomes the old one followed by the batch, and chunks, degree and all kept snapshots agree with it; a delete may come first as soon as the vertex has a chunk |
| `VertexUnits.VertexUnit.GetNebrs` | GraphOne/onedata/onegraph.h:297-407 | With the degree of any well-formed prefix: as many entries as inserts minus deletes, a permutation of that prefix's live neighbours |
| `VertexUnits.VertexUnit.GetNebrsAt` | GraphOne/onedata/onegraph.h:452-461 | Snapshot isolation: after any archives, a read at one of the last K snapshots returns that snapshot's neighbours |
| `VertexUnits.VertexUnit.ChunksMatchDegree` | GraphOne/onedata/vunit.h:112-118 | Chunk counts add up to the newest degree's total, all chunks but the last are full, none behind the first is empty |
| `VertexUnits.VertexUnit.CompressNebrs` | GraphOne/onedata/onegraph.h:217-257 | The current neighbours are the same multiset, no delete record is left, and the unit can be archived into and read from as before |
| `VertexUnits.ArchiveAll` | GraphOne/onedata/onegraph.h:10-40 | After any sequence of batches the unit's history holds, for every batch, the log of the batches up to it |
| `VertexUnits.ArchiveThenRead` | GraphOne/onedata/onegraph.h:297-407 | Archive any batches, then read any of the last K snapshots: the result is the multiset of neighbours that the batches up to it ask for, whatever came later |
| `EdgeLog.RunKeepsInv` | GraphOne/src/sgraph.h:157-189 | The log's invariant holds after any interleaving of reserving, waiting, storing two words, marking, queueing markers in any order and archiving, as long as every archived batch fitted |
| `EdgeLog.PolarityExact` | GraphOne/src/edge_sharding.h:477-483 | Within reach of the tail the polarity test passes exactly if the slot holds this lap's complete edge |
| `EdgeLog.NoUnarchivedOverwrite` | GraphOne/src/sgraph.h:164-177 | A writer reuses only the slot of an archived edge and leaves every other unarchived edge as it was |
| `EdgeLog.FaithfulIffBatchesFit` | GraphOne/src/sgraph.h:157-189 | Over every run, each archived word is the one its own index appended, in order and once, if and only if every batch fitted when it was archived |
| `EdgeLog.ValuesIffBatchesFit` | GraphOne/src/sgraph.h:157-189 | The same told by values alone, when destinations tell the edges apart |
| `EdgeLog.ArchivedInOrder` | GraphOne/src/sgraph.h:157-189 | At any moment of any run whose batches fitted the archive is the first `tail` appended edges: each once, in order |
| `EdgeLog.PollingNeverStuck` | GraphOne/src/edge_sharding.h:480-483 | For every slot within reach that is still polled, the poll or a step of its writer is enabled |
| `EdgeLog.HungForever` | GraphOne/src/edge_sharding.h:480-483 | A batch past the reach whose first edge is written before the far slot was polled never ends, in any continuation |
| `EdgeLog.OwnMarkerFits` | GraphOne/src/sgraph.h:179-187 | The marker a writer queues behind its own edge is within one log length of the tail |
| `EdgeLog.OneThreadFaithfulIff` | GraphOne/src/edge_sharding.h:475-483 | With one thread polling in ascending order, the archive is faithful if and only if no archived batch had its marker behind the tail: a marker too far ahead loses nothing |
| `EdgeLogProgress.BatchStepDescends` | GraphOne/src/edge_sharding.h:475-483 | Every step a taken batch waits for, of its writers or the archiver, lowers one number |
| `EdgeLogProgress.BatchEnds` | GraphOne/src/edge_sharding.h:475-483 | No other step raises it, and until the tail moves there is a next one, so a batch that fits ends under every schedule that keeps taking its steps |
| `EdgeLogProgress.FinishBatch` | GraphOne/src/edge_sharding.h:475-483 | A taken batch that fits is brought to its end by its own steps and the move of the tail |
| `EdgeLogProgress.EveryEdgeCanBeArchived` | GraphOne/src/sgraph.h:157-275 | From every idle state reached by a run whose batches fit, writers waiting for room included, such a run goes on until every appended edge is archived, in order and once |
| `EdgeLog.BatchAsWritten` | GraphOne/src/log.h:54-57 | Before the tail moves to a marker that fits, every edge up to it is written and was read as appended |
| `EdgeLogRuns.OverlongMarkerLosesAnEdge` | GraphOne/src/edge_sharding.h:475-483 | For every log length and every border between two polling threads' chunks, each polled in ascending order, a run with a marker one past the reach archives the first edge twice and the last never |
| `EdgeLogRuns.OverlongMarkerHangs` | GraphOne/src/sgraph.h:238-257 | For every log length, a run with the same marker that hangs for good |
| `EdgeLogRuns.TornCopyIsArchived` | GraphOne/src/sgraph.h:170-177 | For every log length, storing the destination first has a run with one polling thread whose batches fit and which archives one edge's destination with another's source |
| `EdgeLogRuns.FaithfulIffSourceFirst` | GraphOne/src/sgraph.h:170-177 | All runs whose batches fit are faithful if and only if the source is stored first on laps without a mark |
| `EdgeLogRuns.MarkerBehindBreaks` | GraphOne/src/sgraph.h:250-275 | From every reachable idle log, a marker behind the tail moves it back, and the archive is never faithful again |
| `Sharding.Estimate` | GraphOne/src/edge_sharding.h:466-504 | However threads take turns, each row counts its chunk per range |
| `Sharding.PrefixSum` | GraphOne/src/edge_sharding.h:594-622 | Counts become each thread's first slot per range, and each range's total |
| `Sharding.Classify` | GraphOne/src/edge_sharding.h:660-700 | However threads take turns, each range's buffer ends as exactly its records in batch order |
| `Sharding.Partition` | GraphOne/src/edge_sharding.h:416-426 | The three passes are a stable partition for any chunks |
| `Sharding.SlotInRange` | GraphOne/src/edge_sharding.h:679-681 | A record's slot lies inside its range's buffer |
| `Sharding.SlotsDiffer` | GraphOne/src/edge_sharding.h:679-681 | Two records of a range have different slots, in batch order |
| `Sharding.SlotSource` | GraphOne/src/edge_sharding.h:679-681 | Every slot has a record, so each is written exactly once |
| `Sharding.PartitionConserves` | GraphOne/src/edge_sharding.h:660-700 | All buffers together hold the batch, nothing lost or doubled |
| `Sharding.PlacementsFiled` | GraphOne/src/edge_sharding.h:672-699 | Out- and in-records are filed in the range of the vertex they belong to, the delete mark moving to the new source |
| `Sharding.PartitionKeepsOps` | GraphOne/src/edge_sharding.h:660-700 | A vertex's updates all sit in its range, in log order |
| `Sharding.ShiftFits` | GraphOne/src/edge_sharding.h:377-400 | The shift computed from the vertex count sends every vertex below it to a range below the range count |
| `Sharding.ShiftsAdd` | GraphOne/src/edge_sharding.h:676-679 | Shifting by one halves, and shifts add up, so a vertex's range is its id over a power of two |
| `Sharding.ShrIsQuotient` | GraphOne/src/edge_sharding.h:676-679 | The shifted id is the quotient by that power, with a remainder below it |
| `Sharding.ShiftIsLeast` | GraphOne/src/edge_sharding.h:377-400 | With more vertices than ranges one bit less no longer fits the last vertex; with fewer the shift is the bit length of the range count and sends every vertex to the first range |
| `Sharding.ClassifyD` | GraphOne/src/edge_sharding.h:375-426 | For a directed batch each vertex finds its out- and in-updates complete and in log order in its one range |
| `Sharding.ClassifyU` | GraphOne/src/edge_sharding.h:163-190 | For an undirected batch, with both directions in the same ranges, each vertex finds all its updates in log order in its one range |
| `Sharding.BaseIsZero` | GraphOne/src/edge_sharding.h:172-181 | The base whose leading zeros are counted is zero if and only if there are no more vertices than ranges; otherwise the missing test changes nothing |
| `Sharding.WorkDivision` | GraphOne/src/edge_sharding.h:626-647 | From zeroed ends and at least one thread: each interval but the last is cut at the first range that no longer fits beside the work it has, and not before; the last one takes the rest; the ends rise to the last range and the unused ones stay zero |
| `Sharding.OneOwner` | GraphOne/src/edge_sharding.h:442-450 | Every range belongs to exactly one thread |
| `Sharding.OneOwnerIn` | GraphOne/src/edge_sharding.h:452-456 | So it does for the in-edges, handed out in the opposite order |
| `ArchivePipeline.EdgeAsks` | GraphOne/src/type.h:98-104 | By the words themselves: an edge asks for an insert, or with the mark on its source for a delete, of exactly the vertex whose 30-bit id its source holds outward, its destination inward, and both for an undirected graph, whatever the type bit |
| `ArchivePipeline.UpdatesMean` | GraphOne/onedata/onegraph.h:10-40 | After any history an insert adds one neighbour with its id, a delete takes one away if there is any, and no other id is touched |
| `ArchivePipeline.StreamAsks` | GraphOne/src/edge_sharding.h:672-699 | The records the partition files under a vertex are exactly the updates the edges ask of it: outward, inward, or both for an undirected graph |
| `ArchivePipeline.BatchesMeanLog` | GraphOne/src/edge_sharding.h:789-806 | Where the batch borders fall does not change the neighbours a vertex ends with |
| `ArchivePipeline.LogIgnoresBatches` | GraphOne/onedata/onegraph.h:10-40 | Nor does it change the vertex's record log |
| `ArchivePipeline.BatchesAreAppended` | GraphOne/src/sgraph.h:157-189 | For every run of the log whose batches fit, its first k batches are exactly the edges appended up to the k-th marker |
| `ArchivePipeline.AppendedEdgesAreNeighbours` | GraphOne/src/sgraph.h:157-189 | For every such run and direction: the vertex log built from the first k batches is well formed exactly if the edges appended up to the k-th marker delete no neighbour twice in a row, and then its live records are the neighbours they ask for |
| `ArchivePipeline.VertexUpdates` | GraphOne/src/edge_sharding.h:375-426 | Partitioning a batch and picking the vertex's range yields exactly the updates the batch asks of the vertex |
| `ArchivePipeline.AppendThenRead` | GraphOne/onedata/onegraph.h:297-407 | End to end: appended under any interleaving, archived in fitting batches, partitioned, logged, then read as of snapshot s, in either direction: the neighbours that the edges appended up to batch s's marker ask for |

## Left out

- Reads of snapshots older than the last compaction, and deletes on a vertex without any chunk: the code has no answer for them, so they are excluded by precondition.
- The vertex table: the archive is modelled per vertex, on that vertex's part of the batch, which the partition hands over in order.
- Widths of degree counters and snapshot ids, except that deletes fit 16 bits and record positions stay below the delete mark.
- VertexUnits.VertexUnit.GetNebrs: says nothing about ill-formed logs, for which `VertexLog.DeleteIsSound` gives the exact condition.
- BlockedAdjacency.BlockedGraph.constructor: the order of one vertex's base edges is the order in which its lock is taken, here the list order.
- BrandesVerifier.BCVerifier: needs a vertex, without which the program takes the maximum of nothing.
- ForwardSearch.PBFS: one vertex after the other; `ForwardRuns` has the races.
- BrandesRuns.BetweennessCentrality: the racing searches are given as what they leave in the arrays; the backward pass and the normalization run as in `Brandes`.
- Brandes.BetweennessCentrality: path counts are unbounded; `PathWidths` says for which graphs the code's 32 bits are enough.
- StreamBfs.StreamSerialBfs: sequential sweeps, and insertions only; `SweepRuns` has the races.
- SweepRuns.ExactIffAtomic: marks are set and cleared one vertex at a time; the code clears a mark without an atomic operation on the word it shares.
- SnapRaces.SafeIffNotOldest: one batch runs beside the reader, and a degree is read and written in one step.
- ShiloachVishkin.RunKeepsInv: reads and writes of single labels are atomic; word tearing and weak memory orders are not modelled.
- EdgeLog.RunKeepsInv: an index is unbounded, where the code's has 64 bits; the archiver reads the two words of a slot in one step.
- Afforest.ConnectedComponents: links run one after the other; `AfforestRuns` covers their interleaving. The skipped label is any label, so the sampling itself is not modelled.
- AfforestRuns.AnyInterleavingFindsComponents: passes and compressions are separated by barriers, as in the code.
- DirectionBfs.DOBFS: steps run one vertex after the other (`HybridRuns` has the races of the top-down steps, without their counts, for any choice of directions); in-lists are a second argument, where BAL returns the out-list for both.
- Floating point: betweenness is in exact real arithmetic.
- Sharding.ClassifyU: needs more vertices than ranges; with fewer the program counts the leading zeros of zero.
- `classify_uni`, `classify_runi` and `classify_snb`: the first two are the same passes over another stream; the last files by two-dimensional tile.
- `batch_edges` sets no lap polarity and is kept out of the log protocol.
- `get_wnebrs`, `evict_old_adjlist`, bulk setup, durable segments and NUMA variants.
- Persistent-memory flushes and recovery, allocation failure, I/O, timing, printing, benchmark drivers, PageRank.
- The DGAP structure itself, PMDK and LLAMA internals.
