# Verification of the vector index state

A Dafny model of the mutable state behind the approximate vector index, and proofs about it. The model
covers four things:

- the **proximity graph** (HNSW): rows of links and incoming arrays of every level, and the routines that
  rewrite them in place - connecting a new node, repairing a node with deleted neighbours, deleting in
  place, and removing an element while the last one takes its id - together with labels, flags, entry
  point, layer search and the index's own integrity check;
- the **tiered job protocol**: marking elements, one repair job per edge to them, counters of pending
  repairs, garbage collection that renames jobs while it goes over their lookup, and the insert jobs that
  move vectors from the flat buffer into the graph;
- the **flat buffer**, whose ids stay dense by swapping in the last vector, and the **migration** to the
  SVS backend, which replays a journal of swaps recorded while the update was running;
- **queries** against plain specifications: merging the results of two tiers, top-k over labels with many
  vectors, and the batch iterator that reuses the slots of its scores array.

A level is well formed if its links are distinct, within the level, without self-loops and within the
degree bound, and if every incoming array lists exactly the one-way edges into its node, each once. The
modules follow the program: `LevelGraph` (the arrays), `NeighborSelection`, `Connect`, `Repair`,
`InPlaceDelete` and `RemoveSwap` (one level at a time), `IndexModel` (the index as a value), `HnswIndex`
(the index as a class), `Integrity`, `VisitedNodes`, `Heaps` and `GraphSearch`; `TieredJobs`,
`RepairScheduling`, `SwapJobs`, `TieredProtocol` and `InPlaceLoop` (the protocol on values), `TieredIndex`
(the same operations as methods on graph and job maps); `GraphSteps`, `Workers` and `Interleaving` (all
threads at work, section by section), `Threads` (the sections as methods on graph and job maps),
`Undisturbed` and `UndisturbedThreads` (what the sections of one thread amount to when nothing comes
between, on values and on the index); `InsertJobs` (flat buffer and graph, call by call) and `SharedTiers`
(the same section by section, with all threads at work); `LabelLookup`, `FlatBuffer`, `SwapJournal` and
`SvsMigration`; `MergeResults`, `TopK`, `ScoreSlots` and `BatchIterator`.

Classes carry the state that the program updates in place. Sections under a lock are atomic steps, and
between two sections of a thread the others may take any steps of theirs: an insertion decides about a
full neighbour under some locks and updates it under others, a deletion collects the edges to its element
row by row, a repair reads rows, plans and rewires. What a thread still holds is an invariant of its own
(`Workers`), which no step of the others breaks (`Interleaving.StepKeeps`); every step is also carried out
by a method on the index as the others left it, with just the outcome that the step has (`Threads`), and
the sections of a thread that is not disturbed have the outcome of the whole operation (`Undisturbed`,
`UndisturbedThreads`). The two operations that rename ids run when no other thread is at work, as their
exclusive lock sees to. Vectors are opaque sequences, distances an arbitrary function into the reals, the
random level of a new element and the iteration order of hash tables are parameters, and job pointers are
integer handles.

Some properties that one might expect do not hold. Each is stated with the exact condition under which it
does, and with a case in which it fails, for most of them a state that the operations lead to from an empty
index.

- deleting a label with many vectors in place can leave a marked element whose swap job cannot be found
  (`TieredIndex`, `InPlaceLoop`);
- the index's check accepts false records, and reports the smallest in-degree as the largest and the other
  way round (`Integrity`);
- an addition in place returns -1 when the label was in both tiers (`InsertJobs`);
- a vector written in place over one that an update has just copied is lost (`SvsMigration`);
- a vector written straight into the SVS backend leaves an older one of its label in the flat buffer
  (`SvsMigration`);
- an addition between whose sections an update moves the old vector leaves both (`SvsMigration`);
- a vector stored under the reserved skip label is not cleaned up after a migration (`SwapJournal`);
- merging without the set repeats ids whose scores differ (`MergeResults`).

Run `dafny verify dfyconfig.toml` to check everything.

## Model

| member | source | states |
|---|---|---|
| `LevelGraphs.DropKeepsExact` | src/VecSim/algorithms/hnsw/hnsw.h:1535-1552 | Dropping an edge and settling it as the source does (forget the record at the target, or else put one at the origin) leaves every incoming array listing exactly the one-way edges into its node, each once. |
| `LevelGraphs.AddKeepsExact` | src/VecSim/algorithms/hnsw/hnsw.h:1413-1423 | Creating an edge and settling it (the record of the opposite edge goes, or one is put at the target) leaves the incoming arrays exact. |
| `LevelGraphs.AddBothKeepsExact` | src/VecSim/algorithms/hnsw/hnsw.h:936-944 | Linking two unconnected nodes in both directions needs no record on either side. |
| `LevelGraphs.LevelGraph.RemoveLink` | src/VecSim/algorithms/hnsw/graph_data.h:65-74 | In place, the last link of a row takes the position of the removed one; no other row changes. |
| `LevelGraphs.LevelGraph.RemoveIncomingIfExists` | src/VecSim/algorithms/hnsw/graph_data.h:79-84 | Reports whether the id was on record and removes one occurrence by swapping in the last entry. |
| `LevelGraphs.LevelGraph.SwapIdInIncoming` | src/VecSim/algorithms/hnsw/graph_data.h:91-97 | Renames one entry of an incoming array in place, at its position. |
| `Seqs.SwapRemoveElems` | src/VecSim/utils/vecsim_stl.h:35-45 | Removal by overwriting with the last element takes out exactly the element and keeps the array free of duplicates. |
| `NeighborSelection.SelectNeighbors` | src/VecSim/algorithms/hnsw/hnsw.h:736-788 | The heuristic splits the candidates into chosen and removed: chosen ones come nearest first and are never nearer to one another than to the node; every removed one is nearer to a chosen one than to the node, or came after the list was full; short lists are taken as they are. |
| `NeighborSelection.SelectAround` | src/VecSim/algorithms/hnsw/hnsw.h:716-732 | The same for a list of ids whose distances to the node are computed first. |
| `Connect.UpdateRevisitedNeighbor` | src/VecSim/algorithms/hnsw/hnsw.h:834-873 | For any stale decision: compacting the neighbour's row in place, demoting dropped edges and linking the new node in one or both directions keeps the level well formed; the new rows are given exactly. |
| `Connect.CompeteForRow` | src/VecSim/algorithms/hnsw/hnsw.h:797-815 | A full row and the new node go through the heuristic together; if the new node stays, some link has to go. |
| `Connect.RevisitNeighborConnections` | src/VecSim/algorithms/hnsw/hnsw.h:791-877 | Reconsidering a full neighbour ends in the rows the heuristic decided on, and in a well-formed level. |
| `Connect.MutuallyConnectNewElement` | src/VecSim/algorithms/hnsw/hnsw.h:880-953 | Connecting a new node to the selected live neighbours keeps the level well formed; its row is exactly the live selected ones, each of their rows either got it appended or is what the heuristic left of it, no other row changes, and the nearest candidate is returned. |
| `GraphSteps.JoinedSteps` | src/VecSim/algorithms/hnsw/hnsw.h:936-944 | Linking two unconnected elements that have room, whatever else was done to the graph since they were paired, leaves the index in order and brings no edge at any other element. |
| `GraphSteps.ReconsideredSteps` | src/VecSim/algorithms/hnsw/hnsw.h:834-873 | Carrying out an earlier decision about a full neighbour, whatever it was and whatever happened since, leaves the index in order; the only edges gained are those between neighbour and new element, none at an element marked deleted by then. |
| `Repair.PlanRepair` | src/VecSim/algorithms/hnsw/hnsw.h:1432-1516 | The reading half: finds whether a neighbour is marked deleted; picks all live candidates, or what the heuristic keeps of them; the list of nodes to lock has no duplicate and covers the links and the picked nodes. |
| `Repair.CompactRow` | src/VecSim/algorithms/hnsw/hnsw.h:1368-1387 | The first pass overwrites the row in place: what remains in front is the old row without the dropped links, in order, and the incoming arrays are exact for it. |
| `Repair.MutuallyUpdateForRepairedNode` | src/VecSim/algorithms/hnsw/hnsw.h:1352-1429 | The updating half keeps the level well formed for any stale input and changes one row only: the old one without the dropped links, then eligible chosen nodes, all of them unless it is full or may not grow. |
| `Repair.RepairNodeConnections` | src/VecSim/algorithms/hnsw/hnsw.h:1432-1532 | A whole repair leaves no marked-deleted neighbour, adds only live and finished nodes, stays within the degree bound, and ends with exactly the picked candidates; a node that is itself deleted or in process keeps those of them that it had. |
| `Repair.RoomKeepsAll` | src/VecSim/algorithms/hnsw/hnsw.h:1445-1516 | With room for all, the neighbours of a repaired live node are its live neighbours and the live neighbours of its deleted ones, apart from new ones that are still in process. |
| `GraphSteps.RewiredSteps` | src/VecSim/algorithms/hnsw/hnsw.h:1352-1429 | Carrying out a repair plan, with the flags of the moment and after any changes to the graph, drops the edges to all its targets and brings no edge from or to an element that is marked deleted or in process by then. |
| `Repair.ChooseAmong` | src/VecSim/algorithms/hnsw/hnsw.h:1496-1529 | Candidates collected in any order: all of them if there is room, otherwise what the heuristic keeps. |
| `InPlaceDelete.RepairConnectionsForDeletion` | src/VecSim/algorithms/hnsw/hnsw.h:956-1052 | One neighbour of the element to go: its row is rebuilt from its other links and the element's live links (or just loses the element when the neighbour is marked deleted), all records apart from the element's own staying exact. |
| `InPlaceDelete.RoomInheritsAll` | src/VecSim/algorithms/hnsw/hnsw.h:965-996 | A live neighbour with room for the links of both keeps all its other links and inherits the live links of the element, and nothing else. |
| `InPlaceDelete.DetachNode` | src/VecSim/algorithms/hnsw/hnsw.h:1707-1750 | After repairing the neighbours that point back and those on record, and telling the others, every row that pointed to the element is rebuilt and every other one untouched. |
| `InPlaceDelete.DetachedIsGone` | src/VecSim/algorithms/hnsw/hnsw.h:1707-1765 | Nobody refers to a detached element any more, and the level without it is well formed: incoming arrays exact, degrees bounded. |
| `RemoveSwap.NoInEdgesIsRemovable` | src/VecSim/algorithms/hnsw/hnsw.h:1652-1683 | In a well-formed level, an element with no incoming edges is on record at each of its targets, which is what the source asserts while it frees it. |
| `RemoveSwap.FreedIsWellFormed` | src/VecSim/algorithms/hnsw/hnsw.h:1652-1697 | Freeing such an element leaves a well-formed level. |
| `RemoveSwap.RenamedIsIsomorphic` | src/VecSim/algorithms/hnsw/hnsw.h:1132-1193 | Giving the last element the freed id is an isomorphism of edges and of records, and keeps the level well formed. |
| `RemoveSwap.RenameNode` | src/VecSim/algorithms/hnsw/hnsw.h:1143-1184 | The neighbour-by-neighbour renaming in place has that very outcome. |
| `IndexModel.RemoveSwapKeepsOk` | src/VecSim/algorithms/hnsw/hnsw.h:1652-1697 | Over all levels: the index after removal is in order and isomorphic to the old one minus the element, edges, flags and top levels renamed alike. |
| `IndexModel.UnreferencedIsReady` | src/VecSim/algorithms/hnsw/hnsw.h:1652-1683 | An element nobody points to at any level can be removed at every level. |
| `IndexModel.StoreKeepsOk` | src/VecSim/algorithms/hnsw/hnsw.h:1770-1823 | Storing an element, which creates missing levels, leaves the index in order. |
| `HnswIndexes.HnswIndex.StoreNewElement` | src/VecSim/algorithms/hnsw/hnsw.h:1770-1823 | The new element gets the next id, label and vector, stands isolated at all its levels, and becomes the entry point exactly if it is higher than all others. |
| `HnswIndexes.HnswIndex.InsertElementToGraph` | src/VecSim/algorithms/hnsw/hnsw.h:1555-1589 | A greedy descent leads to the highest shared level; from there down each level is searched from the nearest node found one level up, by the distances between the vectors, and the element connected to what is found; the levels above are untouched. Neighbours with fewer than 2 M links at level 0, or M above, keep them all and get the element appended. From a live entry point it gets neighbours at every shared level. |
| `HnswIndexes.LiveStartConnects` | src/VecSim/algorithms/hnsw/hnsw.h:1579-1588 | A search that starts from a live node hands a live node to the next level, and all links of the new element lead to live nodes reachable in that search. |
| `HnswIndexes.HnswIndex.AppendVector` | src/VecSim/algorithms/hnsw/hnsw.h:1840-1869 | Storing, connecting and lifting the in-process mark: the vector is added, everything else stored stays, and the element is inserted by the distances of its own vector from all others, starting at the old entry point; the first element of all is left on its own. |
| `HnswIndexes.HnswIndex.Descend` | src/VecSim/algorithms/hnsw/hnsw.h:1565-1577 | The descent through the upper levels, one greedy walk for each, each of them starting where the one above ended and with its distance. |
| `HnswIndexes.HnswIndex.DegreesAreBounded` | src/VecSim/algorithms/hnsw/hnsw.h:1614-1637 | In every valid state no element has more than 2 M links at level 0, or more than M at a level above. |
| `HnswIndexes.HnswIndex.ReplaceEntryPoint` | src/VecSim/algorithms/hnsw/hnsw.h:1055-1129 | The new entry point is a live element of the highest level there is among the live ones, or there is none; it is one in process only if every finished live element is lower. |
| `HnswIndexes.HnswIndex.MarkDeletedInternal` | src/VecSim/algorithms/hnsw/hnsw.h:429-443 | Marking moves the entry point away if needed, counts the element and keeps every invariant of the index. |
| `HnswIndexes.HnswIndex.RepairNodeConnections` | src/VecSim/algorithms/hnsw/hnsw.h:1432-1532 | On the index, nothing coming between its two halves: one row of one level changes, to the picked candidates, and the node points to no marked-deleted element any more. Halves with other steps between them are `Threads.SharedIndex.MakePlan` and `Threads.SharedIndex.Rewire`. |
| `HnswIndexes.HnswIndex.RemoveAndSwap` | src/VecSim/algorithms/hnsw/hnsw.h:1652-1697 | Levels, flags, labels, vectors, lookup and entry point all follow the same renaming. |
| `HnswIndexes.HnswIndex.RemoveAndSwapMarkDeletedElement` | src/VecSim/algorithms/hnsw/hnsw.h:1700-1704 | Disposing of a marked element that nobody points to keeps all invariants and everything that is stored. |
| `HnswIndexes.HnswIndex.RemoveVectorInPlace` | src/VecSim/algorithms/hnsw/hnsw.h:1707-1765 | In-place removal of a live element: its referrers' rows are rebuilt as specified at every level, all else follows the renaming, and all invariants hold again, however many neighbours are marked deleted. |
| `HnswIndexes.HnswIndex.SafeCollectAllNodeIncomingNeighbors` | src/VecSim/algorithms/hnsw/hnsw.h:1252-1290 | When nothing comes between, returns every edge to the element at every level exactly once; section by section, with other steps between, it is `Threads.SharedIndex.CopyLinks`, `Ask` and `ReadRecord`. |
| `HnswIndexes.HnswIndex.DeleteVector` | src/VecSim/algorithms/hnsw/hnsw_multi.h:197-210 | All vectors of the label, and only they, leave the index, although removals rewrite the id list that is gone through; the count is returned. |
| `HnswIndexes.HnswIndex.AddVector` | src/VecSim/algorithms/hnsw/hnsw_single.h:163-174 | With one vector for a label, an existing one is replaced; otherwise the vector is added; nothing else stored changes. The new element is inserted as by `AppendVector`. |
| `HnswIndexes.HnswIndex.MarkDelete` | src/VecSim/algorithms/hnsw/hnsw_multi.h:238-247 | Marks exactly the vectors of the label, drops the label from the lookup and returns their ids, each once. |
| `HnswIndexes.HnswIndex.ReplaceIdOfLabel` | src/VecSim/algorithms/hnsw/hnsw_multi.h:164-185 | The last occurrence of the old id in the label's list is replaced. |
| `LabelLookup.MoveKeepsTracks` | src/VecSim/algorithms/hnsw/hnsw_multi.h:164-185 | The id list of every other label goes on listing exactly its vectors when an element is removed and the last one renamed. |
| `LabelLookup.DeleteStep` | src/VecSim/algorithms/hnsw/hnsw_multi.h:197-210 | One turn of the loop that deletes a label: the rewritten list tracks the remaining vectors from the next position on. |
| `LabelLookup.MoveCounts` | src/VecSim/algorithms/brute_force/brute_force.h:193-221 | Moving the last element into the gap takes away exactly what the removed one stored. |
| `Integrity.CheckIntegrity` | src/VecSim/algorithms/hnsw/hnsw_serializer_impl.h:55-140 | Accepts exactly if all rows are sound, the deleted count is right, and recorded plus bidirectional edges equal all edges; reports the edges still to be repaired and the two extremes of the in-degrees. |
| `Integrity.Extremes` | src/VecSim/algorithms/hnsw/hnsw_serializer_impl.h:117-130 | The largest and the smallest in-degree over all elements and their levels. |
| `Integrity.NamesFitIffRegular` | src/VecSim/algorithms/hnsw/hnsw_serializer_impl.h:131-133 | The extremes of the in-degrees are reported under the right names if and only if all in-degrees are the same. |
| `Integrity.InDegreesComeSwapped` | src/VecSim/algorithms/hnsw/hnsw_serializer_impl.h:131-133 | A case: in a well-formed index of two connected elements, one of them alone at the level above, the smallest in-degree is reported above the largest. |
| `HnswIndexes.ReportSwapped` | src/VecSim/algorithms/hnsw/hnsw_serializer_impl.h:131-133 | The same case reached by two additions: the index passes its check and reports its in-degrees the wrong way round. |
| `Integrity.CountIsSize` | src/VecSim/algorithms/hnsw/hnsw_serializer_impl.h:110 | Double counting: record sizes summed over targets are the number of recorded edges. |
| `Integrity.AcceptedMeansComplete` | src/VecSim/algorithms/hnsw/hnsw_serializer_impl.h:134-138 | As long as no record is false, acceptance holds if and only if every one-way edge is on record. |
| `Integrity.WellFormedIsAccepted` | src/VecSim/algorithms/hnsw/hnsw_serializer_impl.h:55-140 | Every well-formed index with the right deleted count is accepted. |
| `Integrity.FalseRecordsAreAccepted` | src/VecSim/algorithms/hnsw/hnsw_serializer_impl.h:134-138 | A record kept at the wrong end of an edge passes the check although the index is not well formed. |
| `HnswIndexes.HnswIndex.CheckIntegrity` | src/VecSim/algorithms/hnsw/hnsw_serializer_impl.h:55-140 | In every state the operations of the index lead to, its own check accepts, and the counts it reports add up to the number of edges. |
| `VisitedNodes.VisitedNodesHandler.GetFreshTag` | src/VecSim/algorithms/hnsw/visited_nodes_handler.cpp:32-39 | The tag handed out is carried by no element, across the wrap-around of the 16-bit counter. |
| `VisitedNodes.VisitedNodesHandler.Resize` | src/VecSim/algorithms/hnsw/visited_nodes_handler.cpp:25-30 | A resized handler carries no stale tag. |
| `Heaps.EmplaceKeepsHeap` | src/VecSim/utils/vecsim_stl.h:49-82 | Inserting into the queue keeps it ordered and adds just the entry. |
| `GraphSearch.ProcessCandidate` | src/VecSim/algorithms/hnsw/hnsw.h:523-604 | Expanding one candidate keeps the results the nearest of the live visited nodes and the queue the open ones; if it visits nothing new the queue does not grow. |
| `GraphSearch.SearchLayer` | src/VecSim/algorithms/hnsw/hnsw.h:675-712 | The search ends, and returns live reachable nodes with their distances: as many as asked for or all there are, none of the visited live nodes left out being nearer, and neighbours left unvisited only at nodes no nearer than any of the results. |
| `GraphSearch.SearchIsExhaustive` | src/VecSim/algorithms/hnsw/hnsw.h:675-712 | Asked for at least as many nodes as are live and reachable, a search returns exactly those. |
| `GraphSearch.GreedySearchLevel` | src/VecSim/algorithms/hnsw/hnsw.h:1203-1248 | Each move is to the nearest neighbour, nearer than all before, until there is none. A query goes on from the node where the walk ends; a search for neighbours of a new element goes on from the last live node that came nearer on the way. |
| `TieredJobs.ZeroMeansUnreferenced` | src/VecSim/algorithms/hnsw/hnsw_tiered.h:333-362 | With no repair in hand, a swap job whose counter is zero is for an element no node points to. |
| `TieredJobs.RetireListKeepsCounters` | src/VecSim/algorithms/hnsw/hnsw_tiered.h:292-302 | Calling off pending repair jobs keeps every counter the number of pending repairs that list the swap job, and the ready count right. |
| `RepairScheduling.AddRepairKeeps` | src/VecSim/algorithms/hnsw/hnsw_tiered.h:383-416 | Listing a swap job in the repair job of a node, new or pending, counts it once; a node never has two pending repairs for one level. |
| `RepairScheduling.OpenKeepsInv` | src/VecSim/algorithms/hnsw/hnsw_tiered.h:377-422 | Opening the swap job of a marked element restores the whole invariant, for whatever list of edges was collected, as long as it has every edge there is: edges gone by now or listed twice count as often as they are listed. |
| `SwapJobs.ExecuteKeeps` | src/VecSim/algorithms/hnsw/hnsw_tiered.h:286-325 | Settling the lookups after one removal keeps jobs, counters and keys in order in the middle of a batch, and what was scheduled stays scheduled under the new ids. |
| `SwapJobs.RunBatchKeeps` | src/VecSim/algorithms/hnsw/hnsw_tiered.h:340-357 | A batch that goes over the lookup while rewriting it removes one element per executed job, never exceeds the limit, and goes through all keys unless it reaches the limit. |
| `SwapJobs.CollectGarbageKeepsInv` | src/VecSim/algorithms/hnsw/hnsw_tiered.h:333-362 | For any iteration order and any limit, afterwards the keys of the lookup are exactly the marked elements, each leading to its own job, with exact counters. With at least as many jobs ready as the limit, just that many elements are removed; otherwise, and without a limit, no job that was ready is left. |
| `TieredIndexes.TieredIndex.CollectIfDue` | src/VecSim/algorithms/hnsw/hnsw_tiered.h:811-814 | With as many jobs ready as the threshold, that many elements are removed; with fewer, nothing happens. |
| `Workers.ConnectedLeavesRest` | src/VecSim/algorithms/hnsw/hnsw.h:901-952 | Connecting one neighbour leaves the others unconnected and with room in the row of the new element, which for that reason never overflows. |
| `Workers.NeighborAsked` | src/VecSim/algorithms/hnsw/hnsw.h:1265-1279 | Asking a copied neighbour keeps it true that an edge back to the marked element was found, or is still to be asked for, or starts outside the copy. |
| `Workers.RecordRead` | src/VecSim/algorithms/hnsw/hnsw.h:1281-1288 | Reading the record of one-way edges completes the level, although rows have changed since the links were copied: every edge to the marked element at it was found. |
| `Interleaving.InsertStepKeeps` | src/VecSim/algorithms/hnsw/hnsw.h:880-953 | Each section of an insertion - taking what was found, linking or skipping the next neighbour, deciding about a full one, carrying that out later - leaves the remaining decisions good, and brings no edge at a deleted element or at another one in process. |
| `Interleaving.StepKeeps` | src/VecSim/algorithms/hnsw/hnsw_tiered.h:286-652 | Every step of every thread - insertions, deletions collecting edges, repairs, each at any point of its work and with its decisions made under earlier locks, as well as collections of garbage and deletions in place - keeps the invariant. A plan or decision is carried out as the routine on the arrays is proved to carry it out, with the flags of the moment. |
| `Interleaving.RunsAreSafe` | src/VecSim/algorithms/hnsw/hnsw_tiered.h:286-652 | After any run from the empty index, every edge to an element with a swap job is covered by a repair that is pending or in hand, and every counter is the number of times that pending repairs list the job; once no thread is at work, an element whose counter is zero has no edges left to it. |
| `Undisturbed.CollectsAlone` | src/VecSim/algorithms/hnsw/hnsw.h:1252-1290 | With no step of another thread in between, the sections of a collection find the edges to the element, each once and nothing else. |
| `Undisturbed.ReadsAlone` | src/VecSim/algorithms/hnsw/hnsw.h:1445-1494 | With no step of another thread in between, the sections that read for a repair come to the candidates of the whole repair. |
| `Undisturbed.RepairsAlone` | src/VecSim/algorithms/hnsw/hnsw.h:1432-1532 | With no step of another thread in between, reading, planning and rewiring have the outcome of the whole repair. |
| `Undisturbed.ConnectsAlone` | src/VecSim/algorithms/hnsw/hnsw.h:880-953 | With no step of another thread in between, linking the selected neighbours one by one, deciding about full ones and updating them later leaves the level as connecting the element in one go does, and every other level as it was. |
| `Undisturbed.InsertsAlone` | src/VecSim/algorithms/hnsw/hnsw.h:1579-1588 | The same from the search on: the sections of an insertion at one level amount to the level's part of `HnswIndexes.HnswIndex.InsertElementToGraph`. |
| `TieredProtocol.DrainedMeansClean` | src/VecSim/algorithms/hnsw/hnsw_tiered.h:333-362 | Once all repairs are made, one unlimited collection removes every marked element, in whatever order. |
| `TieredProtocol.RemoveNowKeepsInv` | src/VecSim/algorithms/hnsw/hnsw_tiered.h:524-544 | In-place deletion of a single element, with its jobs settled and its stale key erased, keeps the invariant. |
| `Threads.UpdateRepairedNode` | src/VecSim/algorithms/hnsw/hnsw.h:1352-1429 | In the arrays of the index, a stale plan is carried out as `GraphSteps.RewiredSteps` needs it. |
| `Threads.UpdateNeighborLinks` | src/VecSim/algorithms/hnsw/hnsw.h:834-873 | In the arrays of the index, a stale decision about a full neighbour is carried out as `GraphSteps.ReconsideredSteps` needs it. |
| `Threads.SearchNeighbors` | src/VecSim/algorithms/hnsw/hnsw.h:1579-1588 | The selection is what the heuristic keeps of the nodes that a search from the given start finds, by the distances between the vectors, and the nearest of those is where to go on; from a live start the selection is not empty and that node live. An insertion may start to connect it: distinct elements of the level, at most M, none in process. |
| `Threads.PlanNeighbor` | src/VecSim/algorithms/hnsw/hnsw.h:791-833 | The decision about a full neighbour is the heuristic's: its links and the new element compete by distance, and the list to update is those left out and the two themselves. |
| `Threads.SharedIndex.Store` | src/VecSim/algorithms/hnsw/hnsw.h:1770-1823 | The step `Store` on the index: the new element is in process and on its own. |
| `Threads.SharedIndex.FindNeighbors` | src/VecSim/algorithms/hnsw/hnsw.h:1579-1588 | The step `Select`, made by a search of the index as the other threads left it: the selection is the one of `Threads.SearchNeighbors`. |
| `Threads.SharedIndex.ConnectNext` | src/VecSim/algorithms/hnsw/hnsw.h:901-950 | The step that skips or links the next neighbour in the arrays, or decides about a full one as `Threads.PlanNeighbor` does. |
| `Threads.SharedIndex.UpdateNeighbor` | src/VecSim/algorithms/hnsw/hnsw.h:834-873 | The step that carries out the decision about a full neighbour. |
| `Threads.SharedIndex.EndInsert` | src/VecSim/algorithms/hnsw/hnsw.h:1840-1856 | The step that lifts the in-process mark. |
| `Threads.SharedIndex.MarkLabel` | src/VecSim/algorithms/hnsw/hnsw_tiered.h:365-371 | The step that marks the elements of a label; the label is gone for queries. |
| `Threads.SharedIndex.CopyLinks` | src/VecSim/algorithms/hnsw/hnsw.h:1258-1262 | The step that copies the links of a marked element at a level. |
| `Threads.SharedIndex.Ask` | src/VecSim/algorithms/hnsw/hnsw.h:1265-1279 | The step that asks one copied neighbour whether it points back. |
| `Threads.SharedIndex.ReadRecord` | src/VecSim/algorithms/hnsw/hnsw.h:1281-1288 | The step that reads the record of one-way edges. |
| `Threads.SharedIndex.OpenJob` | src/VecSim/algorithms/hnsw/hnsw_tiered.h:381-422 | The step that opens the swap job and schedules the repairs, on the job maps. |
| `Threads.SharedIndex.PopRepairJob` | src/VecSim/algorithms/hnsw/hnsw_tiered.h:623-647 | The step that takes a repair job out of the lookups and counts it off. |
| `Threads.SharedIndex.ReadLinks` | src/VecSim/algorithms/hnsw/hnsw.h:1445-1466 | The step that reads the row to repair; without deleted neighbours the repair is over. |
| `Threads.SharedIndex.ReadNeighbor` | src/VecSim/algorithms/hnsw/hnsw.h:1474-1494 | The step that collects the live neighbours of one deleted neighbour. |
| `Threads.SharedIndex.MakePlan` | src/VecSim/algorithms/hnsw/hnsw.h:1496-1529 | The step that plans the repair: all candidates, or those the heuristic keeps. |
| `Threads.SharedIndex.Rewire` | src/VecSim/algorithms/hnsw/hnsw.h:1352-1429 | The step that carries out the plan on the arrays, with the flags of the moment. |
| `Threads.SharedIndex.CollectGarbage` | src/VecSim/algorithms/hnsw/hnsw_tiered.h:333-362 | The collection on graph and job maps, when no other thread is at work; it removes as many elements as limit and ready jobs allow, and nothing stored is lost. |
| `Threads.SharedIndex.RemoveNow` | src/VecSim/algorithms/hnsw/hnsw_tiered.h:524-544 | The deletion of a single element in place, when no other thread is at work. |
| `Threads.SharedIndex.RemoveLabel` | src/VecSim/algorithms/hnsw/hnsw_tiered.h:524-544 | The deletion of a label in place, with one vector or many, when no other thread is at work; the invariant of all threads is kept exactly if no waiting element is forgotten. |
| `UndisturbedThreads.CollectEdges` | src/VecSim/algorithms/hnsw/hnsw.h:1252-1290 | The sections of a collection, carried out on the index one after the other, end with the edges to the element, each once and nothing else. |
| `UndisturbedThreads.RunRepair` | src/VecSim/algorithms/hnsw/hnsw.h:1432-1532 | The sections of a repair, carried out on the index one after the other, leave it as the whole repair does. |
| `UndisturbedThreads.RunLevel` | src/VecSim/algorithms/hnsw/hnsw.h:1579-1588 | The sections of an insertion at one level, carried out on the index one after the other: a search, the selected neighbours skipped, linked, or decided about and updated, leaving the level as `HnswIndexes.HnswIndex.InsertElementToGraph` does. |
| `UndisturbedThreads.RunInsertion` | src/VecSim/algorithms/hnsw/hnsw.h:1840-1856 | All sections of an insertion, from the descent to the lifting of the mark, amount to the insertion in one go. |
| `InPlaceLoop.LoopKeepsPairsIff` | src/VecSim/algorithms/hnsw/hnsw_tiered.h:524-544 | For a label with many vectors, the loop keeps jobs and marked elements paired if and only if no waiting element moves to an id that an earlier turn put down for erasure - which can be told from the label's list and the marked elements before the call. |
| `InPlaceLoop.ListFollows` | src/VecSim/algorithms/hnsw/hnsw_multi.h:164-185 | The list that the loop goes through is rewritten by the removals as the ids of the turns are computed from it. |
| `InPlaceLoop.SafeLabels` | src/VecSim/algorithms/hnsw/hnsw_tiered.h:524-544 | That never happens for a label with one vector, or while no element waits for its removal. |
| `InPlaceLoop.WaitingElementIsForgotten` | src/VecSim/algorithms/hnsw/hnsw_tiered.h:524-544 | A case: in an index of three elements, with the list [0, 2] and element 1 waiting, both turns take id 0 and the key of the waiting job is erased. |
| `TieredIndexes.TieredIndex.ExecuteSwapJob` | src/VecSim/algorithms/hnsw/hnsw_tiered.h:286-325 | The loops over job lists in place have the specified outcome, and the key to erase is returned. |
| `TieredIndexes.TieredIndex.ExecuteReadySwapJobs` | src/VecSim/algorithms/hnsw/hnsw_tiered.h:333-362 | The batch, run on the graph and the job maps together, is the specified collection: it removes as many elements as limit and ready jobs allow, and nothing stored is lost. |
| `TieredIndexes.TieredIndex.DeleteLabelFromHNSW` | src/VecSim/algorithms/hnsw/hnsw_tiered.h:365-426 | Asynchronous deletion: the label is gone for queries, everything else stays, and every edge to its elements is scheduled for repair. |
| `TieredIndexes.TieredIndex.ExecuteRepairJob` | src/VecSim/algorithms/hnsw/hnsw_tiered.h:610-652 | A repair job leaves its node without deleted neighbours at its level, linked to the picked candidates, changes no other row, and keeps the protocol invariant; an invalidated job does nothing. |
| `TieredIndexes.TieredIndex.InsertIntoHNSW` | src/VecSim/algorithms/hnsw/hnsw_tiered.h:446-511 | Inserting while jobs are pending keeps the protocol invariant, adds just the vector, and inserts the element as `HnswIndexes.HnswIndex.AppendVector` does. |
| `TieredIndexes.TieredIndex.DeleteLabelFromHNSWInplace` | src/VecSim/algorithms/hnsw/hnsw_tiered.h:524-544 | In-place deletion of a label, with one vector or many, in graph, lookup and job maps together: drops just that label and returns the count; the protocol invariant is kept exactly under the condition of `InPlaceLoop.LoopKeepsPairsIff`, and otherwise a marked element is left whose swap job cannot be found. |
| `TieredIndexes.ForgetOne` | src/VecSim/algorithms/hnsw/hnsw_tiered.h:524-544 | That failure on an index reached by three additions and a deletion. |
| `InsertJobs.FrontTier.AddVector` | src/VecSim/algorithms/hnsw/hnsw_tiered.h:719-818 | On every path - overwriting, appending, straight into the graph when writing in place or when the buffer is full - every flat vector keeps exactly one valid job with its id and label, flat buffer and graph together hold what a plain store would, the vector is in the tier that it belongs to, garbage was collected if it was due, and the count returned is given exactly: it is 0 or 1 unless a label in both tiers is written in place. |
| `InsertJobs.FrontTier.DeleteVector` | src/VecSim/algorithms/hnsw/hnsw_tiered.h:821-873 | Deleting a label from both tiers invalidates its jobs and tells those of moved vectors, in any order, so that jobs and contents stay right; returns how many vectors the two tiers held, and collects garbage if it is due. In place, repairs and removals stay in order exactly if no waiting element is forgotten. |
| `InsertJobs.CountLost` | src/VecSim/algorithms/hnsw/hnsw_tiered.h:719-739 | A case: a vector in transit is written over in place, and -1 is returned. |
| `InsertJobs.FrontTier.BeginInsert` | src/VecSim/algorithms/hnsw/hnsw_tiered.h:548-568 | The first section of a job inserts the vector, read under its current id and label, into the graph, or disposes of a job found invalid; linking with nothing in between. With other threads in between it is `SharedTiers.TwoTiers.BeginInsert`. |
| `InsertJobs.FrontTier.FinishInsert` | src/VecSim/algorithms/hnsw/hnsw_tiered.h:570-606 | The second section removes the vector if the job is still valid and lets the job of the moved vector follow. |
| `InsertJobs.FrontTier.UpdateInsertJobInternalId` | src/VecSim/algorithms/hnsw/hnsw_tiered.h:429-442 | Only jobs of the label that had the old id get the new one. |
| `InsertJobs.SameVectorInBothTiers` | src/VecSim/algorithms/hnsw/hnsw_tiered.h:548-607 | In every state of an index with one vector for a label, a label found in both tiers has the same vector in both, and its job is running. |
| `SharedTiers.TwoTiers.PutInFlat` | src/VecSim/algorithms/hnsw/hnsw_tiered.h:764-796 | The section that puts a vector into the flat buffer keeps one valid job for each vector, and the tiers hold what a plain store would, the label left out that is still to leave the graph. |
| `SharedTiers.TwoTiers.DropFromFlat` | src/VecSim/algorithms/hnsw/hnsw_tiered.h:823-849 | The section that takes a label out of the flat buffer keeps jobs and contents right. |
| `SharedTiers.TwoTiers.DropFromGraph` | src/VecSim/algorithms/hnsw/hnsw_tiered.h:798-804 | The section that marks the label in the graph, with repairs, insertions and other deletions under way there. |
| `SharedTiers.TwoTiers.RemoveFromGraph` | src/VecSim/algorithms/hnsw/hnsw_tiered.h:865-869 | The same in place under the exclusive lock: everything stays right exactly if no waiting element is forgotten. |
| `SharedTiers.TwoTiers.StoreDirectly` | src/VecSim/algorithms/hnsw/hnsw_tiered.h:749-760 | With the flat buffer full, the vector is stored in the graph at once, and an insertion is begun that links it by sections of its own. |
| `SharedTiers.TwoTiers.BeginInsert` | src/VecSim/algorithms/hnsw/hnsw_tiered.h:548-570 | The first section of an insert job reads the vector, stores it in the graph and begins an insertion; linking is left to later sections, other threads in between. |
| `SharedTiers.TwoTiers.FinishInsert` | src/VecSim/algorithms/hnsw/hnsw_tiered.h:572-606 | The last section takes the vector out of the flat buffer, if the job is still valid, whatever became of the element in the graph. |
| `SharedTiers.TwoTiers.CollectGarbage` | src/VecSim/algorithms/hnsw/hnsw_tiered.h:333-362 | Collecting garbage removes as many elements as limit and ready jobs allow, and keeps jobs and contents of both tiers right. |
| `SharedTiers.TwoTiers.Do` | src/VecSim/algorithms/hnsw/hnsw_tiered.h:286-652 | Every step of every thread at work on the graph, carried out as the step of that name, keeps jobs and contents of both tiers right. |
| `SharedTiers.EveryVectorHasItsJob` | src/VecSim/algorithms/hnsw/hnsw_tiered.h:548-607 | At any moment every vector in the flat buffer has exactly one valid insert job, with its id and label. |
| `SharedTiers.SameVectorAtAnyMoment` | src/VecSim/algorithms/hnsw/hnsw_tiered.h:548-607 | At any moment, with one vector for a label, a label found in both tiers has the same vector in both and its job is running, unless a call is just taking the label out of the graph. |
| `FlatBuffers.FlatBuffer.RemoveVector` | src/VecSim/algorithms/brute_force/brute_force.h:193-221 | The last vector takes the place of the removed one, its label and lookup entry following. |
| `FlatBuffers.FlatBuffer.DeleteVector` | src/VecSim/algorithms/brute_force/brute_force_multi.h:133-152 | Exactly the vectors of the label leave the buffer, although the list gone through is rewritten on the way. |
| `FlatBuffers.FlatBuffer.DeleteVectorAndGetUpdatedIds` | src/VecSim/algorithms/brute_force/brute_force_multi.h:156-197 | The returned map is a bijection from the deleted ids still in use to the surviving ids beyond the new end, with the right labels. |
| `FlatBuffers.FlatBuffer.DeleteVectorById` | src/VecSim/algorithms/brute_force/brute_force_multi.h:200-222 | Removes just the one vector, and the label with its last one. |
| `FlatBuffers.FlatBuffer.ReplaceIdOfLabel` | src/VecSim/algorithms/brute_force/brute_force_multi.h:244-265 | The last occurrence of the old id in the label's list is replaced. |
| `SwapJournals.ReplayAppend` | src/VecSim/algorithms/svs/svs_tiered.h:643-671 | Replaying journals one after the other is replaying their concatenation. |
| `SwapJournals.DeletionMatches` | src/VecSim/algorithms/svs/svs_tiered.h:900-938 | Replaying the records of a label deletion follows the vectors that moved and skips the ones deleted, in any order of the records. |
| `SwapJournals.ApplySwapsToLabelsArray` | src/VecSim/algorithms/svs/svs_tiered.h:643-671 | The replay in the labels array computes the specified function of journal and array. |
| `SwapJournals.CleanUpIsExact` | src/VecSim/algorithms/svs/svs_tiered.h:735-747 | The clean-up deletes exactly the untouched snapshot vectors if and only if none of them is stored under the skip label. |
| `SwapJournals.SkipLabelStays` | src/VecSim/algorithms/svs/svs_tiered.h:735-747 | A vector stored under the skip label is copied and stays as well. |
| `SvsMigrations.TieredSvs.TakeSnapshot` | src/VecSim/algorithms/svs/svs_tiered.h:673-696 | The snapshot starts the journals afresh with all vectors untouched; contents are conserved. |
| `SvsMigrations.TieredSvs.AddToBackend` | src/VecSim/algorithms/svs/svs_tiered.h:698-722 | Adding the snapshot conserves contents; with one vector for a label no label of it is in the backend yet. |
| `SvsMigrations.TieredSvs.CleanUpFlat` | src/VecSim/algorithms/svs/svs_tiered.h:725-750 | Replay and descending deletion find every untouched vector under its label and remove just those. |
| `SvsMigrations.TieredSvs.DeleteFromBackend` | src/VecSim/algorithms/svs/svs_tiered.h:751-763 | After the last section flat buffer and backend together hold what a plain store would. |
| `SvsMigrations.TieredSvs.DeleteAndRecordSwaps` | src/VecSim/algorithms/svs/svs_tiered.h:900-938 | Deletion during an update records leavers and movers so that the journal keeps matching the buffer. |
| `SvsMigrations.TieredSvs.AddVector` | src/VecSim/algorithms/svs/svs_tiered.h:850-898 | In any phase: the plain store's outcome, overwrites being recorded and the backend's copy deleted; returns the number of labels gained. |
| `SvsMigrations.TieredSvs.AddVectorInPlace` | src/VecSim/algorithms/svs/svs_tiered.h:808-845 | Writing in place at any stage of an update. While the backend is empty: into the flat buffer, and once that holds enough to train, an update moves all of it into the backend, at once or when its lock is free; below the threshold nothing else changes. Otherwise, under the update's lock, straight into the backend. The exact count; the plain store's outcome exactly if nothing is overtaken by a snapshot or left behind in the flat buffer. |
| `SvsMigrations.UntrackedKeepsLedgerIff` | src/VecSim/algorithms/svs/svs_tiered.h:813-832 | With one vector for a label, writing in place into the flat buffer keeps the conservation law, in each phase, if and only if it does not write over a vector of a snapshot still to be added with a different one. |
| `SvsMigrations.TieredSvs.WriteIsLost` | src/VecSim/algorithms/svs/svs_tiered.h:698-763 | What becomes of the vector otherwise: after the rest of the update it is in neither store, and the old one is in the backend. |
| `SvsMigrations.LoseOneWrite` | src/VecSim/algorithms/svs/svs_tiered.h:813-832 | That failure reached from an empty index. |
| `SvsMigrations.InPlaceKeepsLedgerIff` | src/VecSim/algorithms/svs/svs_tiered.h:833-845 | With one vector for a label, writing straight into the backend has the plain store's outcome if and only if the label is not in the flat buffer. |
| `SvsMigrations.KeepOldVector` | src/VecSim/algorithms/svs/svs_tiered.h:833-845 | A case reached from an empty index: the old vector of a label stays in the flat buffer beside the new one in the backend. |
| `SvsMigrations.TieredSvs.DropFromFlat` | src/VecSim/algorithms/svs/svs_tiered.h:946-957 | The first section of a deletion, with sections of an update before and after it. |
| `SvsMigrations.TieredSvs.DropFromBackend` | src/VecSim/algorithms/svs/svs_tiered.h:959-966 | The second section of a deletion: whatever sections of an update came in between, the two stores hold what a plain store would. |
| `SvsMigrations.TieredSvs.DropStale` | src/VecSim/algorithms/svs/svs_tiered.h:860-870 | The first section of an addition takes the label out of the backend; no other label is concerned. |
| `SvsMigrations.TieredSvs.StoreLate` | src/VecSim/algorithms/svs/svs_tiered.h:872-886 | The second section of an addition: whatever sections of an update came in between, the two stores hold what a plain store would if and only if the update has not moved the old vector into the backend for good. |
| `SvsMigrations.KeepBoth` | src/VecSim/algorithms/svs/svs_tiered.h:860-886 | A case reached from an empty index: the update moves the old vector between the two sections, and both vectors stay. |
| `SvsMigrations.TieredSvs.DeleteVector` | src/VecSim/algorithms/svs/svs_tiered.h:940-966 | In any phase: the label is gone from both stores, and nothing else is; returns how many vectors of it both held. |
| `SvsMigrations.DeleteKeepsLedger` | src/VecSim/algorithms/svs/svs_tiered.h:940-966 | The conservation law across a deletion, in every phase of the update. |
| `SvsMigrations.ReplaceKeepsLedger` | src/VecSim/algorithms/svs/svs_tiered.h:850-898 | The conservation law across an overwrite, in every phase of the update. |
| `MergeResults.MergeResults` | src/VecSim/utils/query_result_utils.h:44-90 | The merged list is a sorted list with each id once and at its lowest key, whatever is left out comes later, and the two counts are exactly the prefixes used up. |
| `MergeResults.MaybeAppend` | src/VecSim/utils/query_result_utils.h:28-39 | The set of seen ids decides rightly whether an entry was taken before. |
| `MergeResults.MergedIsUnique` | src/VecSim/utils/query_result_utils.h:40-90 | The specification admits one outcome only. |
| `MergeResults.AgreementReplacesTheSet` | src/VecSim/utils/query_result_utils.h:92-97 | Without the set the outcome is the same if shared ids have equal scores. |
| `MergeResults.UniqueOnlyIfAgree` | src/VecSim/utils/query_result_utils.h:92-97 | Wherever it stops, the merge without the set has each id once if and only if ids shared by what was used up have equal scores. |
| `MergeResults.TwoScoresRepeatTheId` | src/VecSim/utils/query_result_utils.h:92-97 | A case: one id at two scores comes out twice. |
| `TopK.UpdatableMaxHeap.Emplace` | src/VecSim/utils/updatable_heap.h:92-111 | Inserts a label or lowers its score, keeping the two containers linked. |
| `TopK.UpdatableMaxHeap.TopPtr` | src/VecSim/utils/updatable_heap.h:67-76 | The entry with the highest score and, among those, the largest label. |
| `TopK.UpdatableMaxHeap.Pop` | src/VecSim/utils/updatable_heap.h:85-89 | Removes just that entry. |
| `TopK.EntersLowest` | src/VecSim/algorithms/brute_force/brute_force.h:263-272 | A label that was evicted or never in comes in with its lowest score so far. |
| `TopK.TopKQuery` | src/VecSim/algorithms/brute_force/brute_force.h:241-288 | With one vector for a label or many: at most k labels with their true lowest scores, sorted by score and label; if a label is left out there are k, none of them farther. |
| `TopK.NearestSize` | src/VecSim/algorithms/brute_force/brute_force.h:275-288 | The result has all labels or k of them. |
| `ScoreSlots.SwapScores` | src/VecSim/algorithms/brute_force/bf_batch_iterator.h:77-105 | Moving the entries that stay out of the first slots into slots of returned ones loses and repeats nothing; the sorted positions are never read past their end. |
| `BatchIterators.ScanReplaces` | src/VecSim/algorithms/brute_force/bf_batch_iterator.h:116-128 | Evicting the farthest entry for a closer one keeps the queue the n nearest, each with its slot. |
| `BatchIterators.BatchIterator.HeapBasedSearch` | src/VecSim/algorithms/brute_force/bf_batch_iterator.h:108-140 | Returns a batch, sorted: n of the entries left or all of them, none that remains being closer. |
| `BatchIterators.BatchIterator.SelectBasedSearch` | src/VecSim/algorithms/brute_force/bf_batch_iterator.h:143-166 | The same from a selection in place, in any order the library's selection may leave. |
| `BatchIterators.BatchIterator.GetNextResults` | src/VecSim/algorithms/brute_force/bf_batch_iterator.h:178-200 | The next batch in the order asked for; the index is read for the first one only. |
| `BatchIterators.BatchIterator.IsDepleted` | src/VecSim/algorithms/brute_force/bf_batch_iterator.h:203-207 | Depleted exactly when nothing is left. |
| `BatchIterators.BatchIterator.Reset` | src/VecSim/algorithms/brute_force/bf_batch_iterator.h:209-214 | After a reset the scores are to be computed anew and nothing counts as returned. |
| `BatchIterators.BatchesReturnEachOnce` | src/VecSim/algorithms/brute_force/bf_batch_iterator.h:61-207 | Over any mix of batches no label comes twice, none is lost, and as many come as asked for while there are any. |
| `BatchIterators.BatchesInOrder` | src/VecSim/algorithms/brute_force/bf_batch_iterator.h:61-207 | No later batch holds a closer label than an earlier one. |
| `BatchIterators.ScoresOfLabels` | src/VecSim/algorithms/brute_force/bfm_batch_iterator.h:24-53 | Each label once, with its lowest score, whatever the order of the hash table. |

## Left out

- InPlaceLoop.LoopKeepsPairsIff: is about the lookup of swap jobs; `TieredIndexes.TieredIndex.DeleteLabelFromHNSWInplace` has the same loop on graph, lookup and job maps together.
- InsertJobs.FrontTier.AddVector: writes to the graph of the second tier as a whole operation; its sections among those of other threads are `SharedTiers.TwoTiers.PutInFlat`, `DropFromGraph` and `StoreDirectly`.
- SharedTiers.TwoTiers.PutInFlat: calls of the client come one at a time, as the source assumes; the counts that they return are those of `InsertJobs.FrontTier.AddVector`.
- Interleaving.RunsAreSafe: the runs have deletions in place of one element, under the exclusive lock; of many it is `Threads.SharedIndex.RemoveLabel`. A search of one level is one step, although it locks node by node: it only reads, and what an insertion relies on afterwards - distinct elements of the level, not in process - no step of the others takes back.
- SvsMigrations.TieredSvs.AddVector: excludes the skip label, which the source reserves without checking; what happens otherwise is `SwapJournals.CleanUpIsExact` and `SwapJournals.SkipLabelStays`. The count returned when an update comes in between is not modelled.
- SvsMigrations.TieredSvs.AddVectorInPlace: needs no update under way for a backend in use, which the update's lock sees to; its flat-buffer branch takes no such lock and is for every phase.
- Threads.SharedIndex.FindNeighbors: takes the level and the node to start from as parameters, any that element and graph allow, and returns where to go on; how a thread goes from level to level is `UndisturbedThreads.RunInsertion`.
- TopK.TopKQuery: an arbitrary first bound stands for the lowest float, since it is never consulted alone.
- MergeResults.MergeResults: compares scores exactly and ids as integers; the source treats scores closer than 1e-6 as equal, which is not transitive, and truncates id differences to an int.
- Integrity.CheckIntegrity: assumes that a link to an existing element is to a level the element has, because the source reads that level without a check.
- BatchIterators.NthElement: stands for the library's selection, of which callers know the contract only.
- HnswIndexes.HnswIndex.ReplaceEntryPoint: where only elements in process are left the source waits for one; here it is taken as finished by then.
- The graph is stored level by level instead of element by element; capacity, blocks, resizing of arrays and memory are not modelled.
- Concurrency below the locks (memory order, deadlock, fairness), busy waiting, the pool of visited-node handlers, timeouts and thread reservation.
- Distance kernels, numeric types, normalisation and preprocessing of vectors.
- The SVS library itself: the backend is a store of labelled vectors with add, delete and membership.
- The batch iterators of the graph, range queries, ad-hoc search heuristics, and filtering of results by id.
- Serialization, statistics, debug output, and the C and Python interfaces.
