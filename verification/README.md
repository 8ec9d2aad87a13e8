# ruruki-eye graph store, in Dafny

ruruki-eye is a browser viewer for a property graph. It keeps an in-memory copy of the part of the graph
it has fetched. This project models that copy and the operations that change it:

- **Merging a fetched batch.** `_processData` merges a batch of vertices and edges into the id-keyed
  stores. Records already known are skipped, and labels are registered once each. The newly built
  records ("diffs") go onto the live `nodes` / `links` collections.
- **Visibility pass.** `_updateElementsVisibility` derives each record's `isVisible` flag from the
  per-label inspector toggles. It also derives each vertex's `visiblyConnectedEdges` list.
- **Collapsing.** `collapseVertex` sweeps away, with the worklist of `_deleteChildrenFromCollection`,
  every record whose provenance (`parentVertexId`) leads back to the collapsed vertex.
- **Expanding and adding.** `expandVertex` and `addEdge` merge more data.
- **Removing.** `removeVertex` drops a vertex and the edges that touch it.
- **Custom filters.** The `CustomFilter` record holds a filter expression as a list of filters joined
  by AND/OR.
- **Events.** The small `EventEmitter` the viewer extends, including `once` listeners that remove
  themselves while `emit` is iterating.

## How the model is built

**Modules.**
- `JsRuntime`: the few JavaScript semantics the code relies on: truthiness, `indexOf`, `splice`.
- `Filters`: `CustomFilter`.
- `Events`: `EventEmitter`.
- `Sweep`: the generic cascading delete.
- `Graph`: the vertex and edge records.
- `Merge`: `_processData`.
- `Visibility`: the visibility pass, as functions.
- `Eye`: the viewer class `RurukiEye` and the loops of its methods.

**Records are values.** A vertex or edge record is a datatype holding its write-once fields. The
viewer's stores are maps from id to record. The two fields the code updates in place (`isVisible`,
`visiblyConnectedEdges`) are kept by the viewer in maps keyed by the record's id (the `Display`
value).

**The viewer's state is three fields.** `force` holds the live `nodes` and `links`. `processedData`
holds the stores and the label lists. `display` holds the inspector toggles and the per-record
visibility state.

**The central invariant.** `Consistent` says:
- each live collection is indexed by its store: distinct ids, the keys are exactly the live ids, and
  each key maps to its record;
- the base vertex is visible;
- no visibly-connected list holds an id twice;
- every id in a vertex's visibly-connected list names a stored edge that touches the vertex.

Every state-changing operation keeps this invariant. For collapsing and removing, that holds only
with a correction (see "## Findings"): the code leaves removed edges' ids in the surviving vertices'
lists. The corrected operations, `CollapseVertex` and `RemoveVertex`, drop those ids (`Purge`). The
code as written is kept as `CollapseVertexAsWritten` and `RemoveVertexAsWritten`.

## Model

| member | source | states |
|---|---|---|
| JsRuntime.IndexOf | app/js/ruruki-eye.js:42-43 | `indexOf`: -1 exactly when absent; otherwise a position holding the element with no earlier occurrence |
| JsRuntime.RemoveAt | app/js/ruruki-eye.js:46 | `splice(i, 1)` with `i` in range: one shorter, elements before `i` kept, later ones shifted down by one |
| JsRuntime.SpliceOne | app/js/ruruki-eye.js:52 | `splice(k, 1)`: removes position `k` when it exists, otherwise leaves the array as it is |
| JsRuntime.RemoveFirst | app/js/event-emitter.js:41-44 | indexOf-then-splice: removes exactly one occurrence (multiset minus one) when present, otherwise no change; no other element lost or invented |
| JsRuntime.RemoveFirstNoDup | app/js/ruruki-eye.js:1008-1020 | on a duplicate-free list, removing the first occurrence removes the element altogether and keeps the list duplicate-free |
| Filters.ToUpper | app/js/ruruki-eye.js:28 | upper-cases each ASCII letter in place and leaves every other character as it is, so the length is kept (ASCII only, see "## Left out") |
| Filters.LinkTypeAnyCase | app/js/ruruki-eye.js:28-31 | "AND"/"OR" are accepted in any case, and a missing or empty link type defaults to AND |
| Filters.CustomFilter.constructor | app/js/ruruki-eye.js:5-13 | a new filter has the given name, colour defaulting to "blue" when missing or empty, no filters, no link types and a null result |
| Filters.CustomFilter.Add | app/js/ruruki-eye.js:24-36 | falsy filter: error, nothing changes; bad link type: error, nothing changes; otherwise the filter is appended and its link type too unless it is the first filter; the pairing invariant is kept |
| Filters.CustomFilter.Remove | app/js/ruruki-eye.js:38-55 | falsy or absent filter: error, nothing changes; otherwise its first occurrence is spliced out, with the link type before it (or the first when it was first), all link types are cleared when no filter is left, and the result is reset to null |
| Filters.CustomFilter.Serialize | app/js/ruruki-eye.js:57-67 | one pair per filter: the filter and the link type at index i-1 (undefined for the first) |
| Filters.PairingLinksAllButFirst | app/js/ruruki-eye.js:57-61 | with one link type fewer than filters, the first filter carries no link type and every other filter carries the one joining it to its predecessor |
| Filters.PairingAfterAdd | spec/common-spec.js:37-47 | adding a filter appends exactly one pair (filter, link type or none when first) to the serialization |
| Filters.RemoveDropsOnePair | app/js/ruruki-eye.js:38-67 | removing the filter at idx drops exactly that pair: later filters shift down, every filter after the first still has a link type, and the first has none |
| Filters.RemoveUndoesAdd | app/js/ruruki-eye.js:24-55 | removing a just-added fresh filter restores both the filters and the link types |
| Events.Listener.RunOnce | app/js/event-emitter.js:18-21 | the `runOnce` wrapper remembers the listener it wraps |
| Events.EventEmitter.constructor | app/js/event-emitter.js:6-8 | a new emitter has no events |
| Events.EventEmitter.On | app/js/event-emitter.js:10-15 | the listener is appended to the event's list, created empty when missing; no other event changes |
| Events.EventEmitter.Once | app/js/event-emitter.js:17-23 | a fresh wrapper of the listener is appended to the event's list |
| Events.SpliceListener | app/js/event-emitter.js:41-44 | indexOf-then-splice leaves the list with its first occurrence of the listener removed |
| Events.EventEmitter.RemoveListener | app/js/event-emitter.js:37-45 | unknown event: no change; otherwise the first occurrence of the listener is removed from that event's list only |
| Events.RunListeners | app/js/event-emitter.js:29-34 | the for-of loop over the live listener array computes exactly `Dispatch`: the result, the listeners called in order, and the list left behind |
| Events.EventEmitter.Emit | app/js/event-emitter.js:25-35 | unknown event: undefined and nothing called; otherwise the dispatch result, the listeners called, and the event's list as the once-wrappers left it |
| Events.DispatchInOrder | app/js/event-emitter.js:29-34 | with plain listeners only, emit calls a prefix of the list in order; every call but the last returned a value that is neither truthy nor `false`; the result is the last call's result or undefined, and undefined means all were called |
| Events.DispatchDropsCalledWrappers | app/js/event-emitter.js:17-23 | after emit, the listener list is the old list minus exactly the once-wrappers that were called (as multisets) |
| Events.OnceRunsAtMostOnce | app/js/event-emitter.js:17-23 | a once-wrapper registered once that was called is no longer registered afterwards |
| Events.OnceWrapperSkipsNext | app/js/event-emitter.js:17-34 | a once-wrapper splicing itself out during emit makes the for-of loop skip the listener right after it |
| Sweep.Enqueue | app/js/ruruki-eye.js:1326-1329 | the worklist gains `nid` when it is not the current id, and nothing else |
| Sweep.EnqueueSuggested | app/js/ruruki-eye.js:1304-1310 | an edge's endpoints that have a parent are added to the worklist (unless current), and nothing else |
| Sweep.SweepChildren | app/js/ruruki-eye.js:1314-1334 | one pass over the container for a popped id: the survivors are exactly the items whose parent is not that id, the dictionary loses exactly their ids, the count is the number removed, and the worklist gains exactly their suggestions |
| Sweep.DeleteChildren | app/js/ruruki-eye.js:1298-1337 | the swept ids are the least set holding the start and closed under children; the container keeps exactly the items whose parent is not swept, in order; the dictionary loses exactly the removed ids; the count is the number removed |
| Sweep.SurvivorsExact | app/js/ruruki-eye.js:1315-1317 | an item survives iff it was in the container and its parent is not swept |
| Sweep.RemovedIdsExact | app/js/ruruki-eye.js:1331 | an id is deleted from the dictionary iff some item with that id had a swept parent |
| Sweep.LeastClosedUnique | app/js/ruruki-eye.js:1312-1335 | the swept set is determined by the start and the container alone |
| Sweep.SurvivorIdsWithin | app/js/ruruki-eye.js:1332 | sweeping only removes ids |
| Sweep.SweepKeepsIndex | app/js/ruruki-eye.js:1331-1332 | a collection indexed by its dictionary stays indexed after the sweep |
| Sweep.CollapseExample | app/js/ruruki-eye.js:1053-1066 | the documented example: with A (itself spawned by another vertex) spawning B, and B spawning C and D, collapsing B removes C and D, and collapsing A removes B, C and D |
| Sweep.EdgeSweepClimbsToParent | app/js/ruruki-eye.js:1319-1322 | the edge sweep is not confined to the collapsed subtree: collapsing B sweeps B's edge back to its parent A, which suggests A, so every edge spawned by A goes too (A to B and A to B's sibling F); only the root's edge to A survives |
| Sweep.CyclicProvenanceSweepsStart | app/js/ruruki-eye.js:1326-1329 | with provenance in a cycle, the start itself is swept |
| Merge.VertexParent | app/js/ruruki-eye.js:1384-1397 | the new vertex's parent is the provenance, or none when there is none or it is the vertex itself; never the vertex itself |
| Merge.Register | app/js/ruruki-eye.js:1399-1401 | the label is in the result, which is the old list with at most this label appended; a duplicate-free list stays duplicate-free |
| Merge.RegisterAllSpec | app/js/ruruki-eye.js:1399-1437 | registering several labels keeps the old list as a prefix, adds exactly their set, and keeps the list duplicate-free |
| Merge.MergeVertex | app/js/ruruki-eye.js:1367-1404 | a known id changes nothing; otherwise the vertex is built (name falling back to the id, degrees to 0, parent by provenance), stored under its id, and its label registered |
| Merge.MergeVertices | app/js/ruruki-eye.js:1367-1404 | the vertex store grows by exactly the batch's ids with old entries untouched; the diff holds, in batch order, the records built at the fresh positions; the labels are registered in that order |
| Merge.MergeEdge | app/js/ruruki-eye.js:1406-1438 | a known id changes nothing; otherwise the edge is built with its stored endpoint records and the provenance, stored under its id, and its label registered |
| Merge.MergeEdges | app/js/ruruki-eye.js:1406-1438 | the edge store grows by exactly the batch's ids; the diff holds the edges built at the fresh positions, in order; labels registered |
| Merge.ProcessData | app/js/ruruki-eye.js:1352-1461 | vertices first, then edges resolved against the grown vertex store; both stores' keys grow by exactly the batch's ids |
| Merge.FreshPositionsExact | app/js/ruruki-eye.js:1367-1404 | a position is in the diff iff its id was neither known nor seen earlier in the batch; positions are increasing |
| Merge.FreshIdsExact | app/js/ruruki-eye.js:1367-1409 | the diff's ids are distinct and new, and every new id of the batch is in the diff |
| Merge.RemergeFindsNothing | app/js/ruruki-eye.js:1368-1370 | merging a batch whose ids are all known yields an empty diff |
| Visibility.Fill | app/js/ruruki-eye.js:986-998 | filling a missing toggle with true adds the key and changes no toggle's meaning |
| Visibility.LinkSpec | app/js/ruruki-eye.js:1022-1028 | push-if-absent adds exactly the edge id to the vertex's list, and the lists stay duplicate-free |
| Visibility.UnlinkSpec | app/js/ruruki-eye.js:1008-1020 | includes-then-splice removes exactly the edge id from the vertex's list, and the lists stay duplicate-free |
| Visibility.MarkVertexSpec | app/js/ruruki-eye.js:985-993 | a vertex becomes visible iff it is the base vertex or its label's toggle is on; nothing else changes meaning |
| Visibility.MarkVerticesSpec | app/js/ruruki-eye.js:985-993 | after the vertex loop, every live vertex is shown as its toggle says, and a visible base vertex stays visible |
| Visibility.ShowLinkDecides | app/js/ruruki-eye.js:995-1038 | after one edge's step, the edge is visible iff its toggle is on and both endpoints are visible, and its id is in each endpoint's list iff it is visible |
| Visibility.ShowLinksSpec | app/js/ruruki-eye.js:995-1038 | after the edge loop, every live edge is shown correctly; vertex visibility and toggles are unchanged |
| Visibility.UpdateVisibilityShows | app/js/ruruki-eye.js:983-1038 | the whole pass leaves every live vertex and edge shown as the toggles say, the base vertex visible and the lists duplicate-free |
| Visibility.VertexOpacity | app/js/ruruki-eye.js:1040-1048 | opacity is 0 or 1, and 1 for the base vertex |
| Visibility.EdgeOpacity | app/js/ruruki-eye.js:1050 | opacity is 0 or 1 |
| Visibility.EdgeDrawnIffShown | app/js/ruruki-eye.js:1050 | after the pass, an edge is drawn iff its toggle is on and both endpoints are visible |
| Visibility.HiddenLabelHidesVertex | app/js/ruruki-eye.js:1040-1048 | after the pass, a non-base vertex whose label is toggled off is not drawn |
| Visibility.DrawnEdgeShowsEndpoints | app/js/ruruki-eye.js:1040-1050 | after the pass, both endpoints of a drawn edge are drawn |
| Visibility.ListsLiveShrink | app/js/ruruki-eye.js:1367-1438 | dropping some lists and growing the edge store keeps every listed id naming a stored edge that touches the list's vertex |
| Visibility.ShowLinkLive | app/js/ruruki-eye.js:1007-1029 | one edge step, on an edge stored under its id, keeps the lists duplicate-free and naming stored edges that touch their vertex |
| Visibility.ShowLinksLive | app/js/ruruki-eye.js:995-1038 | the edge loop over stored edges keeps the lists duplicate-free and naming stored edges that touch their vertex |
| Visibility.OffEdgeUnlinks | app/js/ruruki-eye.js:995-1038 | the step of an edge whose label is off hides it, removes its id from its target's list, and changes no other vertex's list; vertices only gain visibility when they are the base |
| Visibility.PassOverOffEdge | app/js/ruruki-eye.js:983-1038 | a pass over one edge whose label is off hides it and removes its id from its target's list; the vertices are decided by their toggles |
| Visibility.LinkLive | app/js/ruruki-eye.js:1022-1028 | adding to a vertex's list the id of a stored edge that touches it keeps every list naming stored edges that touch their vertex |
| Visibility.LinkBothLive | app/js/ruruki-eye.js:1021-1029 | adding a stored edge's id to both endpoints' lists keeps them duplicate-free and naming stored edges that touch their vertex |
| Visibility.UnlinkBothLive | app/js/ruruki-eye.js:1007-1020 | removing an edge's id from both endpoints' lists keeps them duplicate-free and naming stored edges that touch their vertex |
| Eye.DetachEdgesAsWritten | app/js/ruruki-eye.js:1224-1233 | the loop as written keeps the non-touching edges in order and counts the rest, but deletes key `d.id` from the edge store instead of the removed edges' ids |
| Eye.DetachEdges | app/js/ruruki-eye.js:1224-1233 | corrected loop: keeps the non-touching edges in order, counts the rest, and deletes exactly the touching edges' ids |
| Eye.UnattachedKeepsIndex | app/js/ruruki-eye.js:1225-1233 | dropping the touching edges and their ids keeps the live links indexed by the edge store |
| Eye.StaleEdgeAfterRemove | app/js/ruruki-eye.js:1229 | concrete input on which the loop as written leaves the edge store out of step with the live links, and a re-fetched edge is never shown again; the corrected deletion does not |
| Eye.Keep | app/js/ruruki-eye.js:1008-1020 | the ids of a list that are still live, in order: an id is kept iff it was listed and is live; a duplicate-free list stays duplicate-free |
| Eye.Purge | app/js/ruruki-eye.js:1225-1233 | every vertex's list keeps exactly its ids that are still live |
| Eye.PurgeKeeps | app/js/ruruki-eye.js:1067-1111 | after edges leave the store, purging the lists against the store keeps them duplicate-free and naming stored edges that touch their vertex |
| Eye.UnattachedPath | app/js/ruruki-eye.js:1224-1233 | removing a vertex touched only by the second of two edges keeps the first and removes the second's id |
| Eye.PathPassLists | app/js/ruruki-eye.js:983-1038 | from a blank display, a pass over the path 1, 2, 3 lists edges 10 and 20 at vertex 2 and leaves the vertex label on |
| Eye.OffPassOnPath | app/js/ruruki-eye.js:983-1050 | a pass over base 1, vertex 2 and edge 10 between them with edge 10's label off hides the edge, takes 10 out of vertex 2's list, and draws vertex 2 exactly when that list is still non-empty |
| Eye.SecondPassStale | app/js/ruruki-eye.js:983-1050 | when vertex 2's list is [10, 20] and only edge 10 is passed over, with its label off: edge 10 is hidden, the list becomes [20], and vertex 2 is still drawn |
| Eye.SecondPassPurged | app/js/ruruki-eye.js:983-1050 | the same pass after 20 is dropped from the lists: edge 10 is hidden and vertex 2 is hidden too |
| Eye.StaleListAfterRemove | app/js/ruruki-eye.js:1218-1243 | concrete input on which, after the as-written removal, vertex 2 stays drawn with none of its edges drawn, because its list still names the removed edge; with the purge it is hidden |
| Eye.CollapseChildren | app/js/ruruki-eye.js:1094-1101 | non-root collapse: vertices, then edges, swept from the vertex's id, each with the exact sweep result |
| Eye.CollapseRootChildren | app/js/ruruki-eye.js:1072-1093 | root collapse over the live links keeps both collections indexed and only removes ids; the counts are the numbers removed |
| Eye.MergeIndexed | app/js/ruruki-eye.js:1154-1164 | merging and pushing the diffs keeps both live collections indexed by the grown stores |
| Eye.SingleEdgeMerged | app/js/ruruki-eye.js:1197-1204 | merging a one-edge batch without provenance changes no vertex; a known edge changes nothing; a new one is built, stored and its label registered |
| Eye.MergeLive | app/js/ruruki-eye.js:1367-1438 | after a merge, new records start visible with no visibly connected edges, and the viewer stays consistent |
| Eye.NoListsLive | app/js/ruruki-eye.js:181-221 | with no lists at all, the lists are duplicate-free and name only stored edges |
| Eye.FirstMerge | app/js/ruruki-eye.js:181-221 | the initial data merged into empty stores with the base vertex as provenance; the live collections are the diffs, indexed |
| Eye.MarkStep | app/js/ruruki-eye.js:985-993 | one iteration of the vertex loop computes `MarkVertex` |
| Eye.Connect | app/js/ruruki-eye.js:1007-1029 | the list update of one endpoint: link when shown, unlink otherwise |
| Eye.ShowStep | app/js/ruruki-eye.js:995-1038 | one iteration of the edge loop computes `ShowLink` |
| Eye.MarkAll | app/js/ruruki-eye.js:985-993 | the vertex loop computes `MarkVertices` |
| Eye.ShowAll | app/js/ruruki-eye.js:995-1038 | the edge loop computes `ShowLinks` |
| Eye.VisibilityPass | app/js/ruruki-eye.js:983-1038 | the pass computes `UpdateVisibility`, keeps the viewer consistent, shows every live record correctly, and changes no toggle's meaning |
| Eye.MergeAndShow | app/js/ruruki-eye.js:1154-1167 | merge, push the diffs, then run the visibility pass: the stores and collections grow as merged, and everything is shown correctly |
| Eye.ListedEdgeDrawn | app/js/ruruki-eye.js:1040-1050 | after the pass, every id in a vertex's list names a live edge that touches the vertex and is drawn |
| Eye.IsolatedVertexHidden | app/js/ruruki-eye.js:1040-1050 | after the pass, a non-base vertex is hidden iff none of the live edges touching it is drawn |
| Eye.RemoveLive | app/js/ruruki-eye.js:1218-1243 | corrected removal on the state: touching edges leave the links and the store, their ids leave every list, the vertex is spliced out; a live vertex's removal keeps the state consistent |
| Eye.RurukiEye.Start | app/js/ruruki-eye.js:151-221 | the base id and expand setting are recorded; the stores are the initial data merged with the base vertex as provenance; the live collections are the diffs; the viewer is consistent |
| Eye.RurukiEye.UpdateElementsVisibility | app/js/ruruki-eye.js:983-1051 | the display becomes `UpdateVisibility` of the live records; nothing else changes; every record is shown correctly |
| Eye.RurukiEye.ToggleLabel | app/js/ruruki-eye.js:752-755 | clicking a label flips its toggle and no other, then the pass shows every record correctly |
| Eye.RurukiEye.MergeBatch | app/js/ruruki-eye.js:1154-1167 | the stores grow as merged, the live collections by the diffs; the viewer is consistent and shows everything correctly; toggles keep their meaning |
| Eye.RurukiEye.ExpandVertex | app/js/ruruki-eye.js:1140-1153 | with expansion off nothing happens; otherwise "expand" is emitted and the vertex is fetched iff the listeners' result is undefined |
| Eye.RurukiEye.MergeExpansion | app/js/ruruki-eye.js:1153-1171 | the fetched data is merged with the expanded vertex as provenance, the diffs pushed, and the pass run |
| Eye.RurukiEye.AddEdge | app/js/ruruki-eye.js:1197-1211 | a known edge changes nothing; a new edge is appended to the live links, stored under its id and its label registered; vertices unchanged |
| Eye.RurukiEye.CollapseVertexAsWritten | app/js/ruruki-eye.js:1067-1111 | expansion off: no change; non-root: the exact sweep of vertices and edges from the vertex; root: both collections stay indexed and only lose records; the edge store only loses entries; the counts are the numbers removed; the display is untouched, so the lists may still name swept edges; it needs only the live collections indexed by the stores, not the lists |
| Eye.RurukiEye.CollapseVertex | app/js/ruruki-eye.js:1067-1111 | the same sweep, with the swept edges' ids dropped from every list; the viewer stays consistent |
| Eye.RurukiEye.RemoveVertexAsWritten | app/js/ruruki-eye.js:1218-1243 | the base vertex is refused; otherwise the touching edges leave the links, but the edge store loses key `d.id` (if any edge touched) rather than their ids |
| Eye.RurukiEye.RemoveVertex | app/js/ruruki-eye.js:1218-1243 | the base vertex is refused; otherwise the touching edges leave the links and their ids leave the edge store and every list, the vertex is spliced out and its id deleted, and a live vertex's removal keeps the viewer consistent |

## Left out

- **Rendering.** The d3 force layout, the SVG, the DOM panels, colours, tags, info strings, drag
  handling, the properties editor and the create-new-edge dialog are not part of this model
  (app/js/properties-editor.js and app/js/create-new-edge.js are not part of this model). So are the
  filter endpoint's `_updateFilter` and the listeners `start` registers on the viewer's own emitter:
  'tick' (line 188), 'size' (line 231) and the 'keypress' listeners of `_attachHelpMenu` and
  `_attachControlPanel` (lines 1644 and 1703). `Eye.RurukiEye.Start` therefore promises an emitter
  with no events, where the code's has those listeners.
- **Network.** The JSON fetch in the constructor and `_asyncFetchVertexDataById` are not modelled.
  `Start` receives the data as a parameter. `expandVertex` is split into `ExpandVertex` (emit, then
  decide to fetch) and `MergeExpansion` (the callback, given the fetched batch).
- **Numbers.** `parseInt` of the degree counts is an `Option<int>` (no count or NaN becomes 0). Ids
  are integers: the loose `==` against `baseNodeId` and string ids are not modelled.
- **Clock.** `Date.now` in the filter id and `clone` are not modelled.
- **Aliasing.** Shared records are modelled by id. A vertex object read through an edge is a copy of
  its write-once fields. The edge callback of `_updateElementsVisibility` reads `isVisible` and reads
  and writes `visiblyConnectedEdges` through the edge's `source` and `target` objects (lines
  1002-1032). The model keeps those two fields in id-keyed maps, so it reads and writes them for the
  vertex with that id. That agrees with the code as long as an edge's endpoint objects are the live
  records with those ids; see the `Eye.MergeLive` line below for when they are not.
- **Initial order.** `start` hands `d3.values` of the stores to the layout. The model takes the
  diffs, in batch order, as the initial `nodes` / `links`. Object key order is not modelled.
- **Listener calls.** Listener arguments and side effects are abstracted into `respond`, which gives
  each plain listener's return value. A once-wrapper returns undefined, so the wrapped listener's own
  result is dropped, as in the code.
- `Events.EventEmitter.Once`: returns the wrapper it registers, so callers can refer to it; the code
  returns nothing.
- `Merge.ProcessData`: requires that every new edge's endpoints be known once the batch's vertices
  are merged. The same requirement sits on `Eye.RurukiEye.MergeBatch`, `Eye.RurukiEye.MergeExpansion`,
  `Eye.RurukiEye.AddEdge` and `Eye.RurukiEye.Start`. On a missing endpoint the code stores the edge
  and then throws while building the edge's info string (line 1431). The model does not represent
  that half-merged state.
- `Eye.CollapseRootChildren`: states only that the collections stay indexed, lose records and are
  counted. The per-edge sweeps are run as in the code, but their union is not characterised, because
  the loop index runs over an array the sweeps splice.
- `Eye.RurukiEye.CollapseVertex`, `Eye.RurukiEye.CollapseVertexAsWritten`: for the base vertex they
  state only what `Eye.CollapseRootChildren` states.
- `Eye.RurukiEye.CollapseVertexAsWritten`: it requires the live collections to be indexed by the
  stores, and nothing more, so it runs after a collapse as written, whose stale list entries it
  tolerates. A state left by `Eye.RurukiEye.RemoveVertexAsWritten` is still excluded when an edge
  touched the removed vertex: the wrong key is deleted (line 1229), so the detached edge stays in the
  store without being in `links`, and the edge index no longer holds.
- `Eye.RurukiEye.CollapseVertex`, `Eye.RurukiEye.RemoveVertex`: these do not re-run the visibility
  pass, like the code, which only calls `update()`. So `Shows` is not promised after them.
- `Eye.MergeLive`: an edge holds its endpoint objects, and the model rebinds them by id. The two
  differ once an edge outlives its endpoint object. Take base 1, vertex 2 (parent 1) and edge 10
  (1 to 2). Expanding 2 brings vertex 3 and edge 20 (2 to 3). Expanding 1 brings edge 30 (1 to 3,
  parent 1). Collapsing 2 sweeps vertex 3 and edge 20, but edge 30 survives, still holding the old
  object for 3. Expanding 1 again creates a new object for 3, and skips edge 30 as known. The next
  pass pushes 30 onto the old object's list, so the new vertex 3 keeps an empty list and is drawn
  with opacity 0 while edge 30 is drawn. The model reads and writes the list of id 3 and draws
  both. Likewise `SpliceOut` compares a stale `d` by value, where `indexOf` compares object identity.
- `Filters.ToUpper`: ASCII only. JavaScript's `toUpperCase` also maps other letters, and can change
  the length ('ß' becomes "SS"). That changes only the text of the InvalidLinkType error, never
  whether a link type is AND or OR.
- `Events.Registered`, `Events.EventEmitter.On`, `Events.EventEmitter.Once`,
  `Events.EventEmitter.RemoveListener`, `Events.EventEmitter.Emit`, `Visibility.Toggle`,
  `Visibility.Fill`, `Visibility.EdgeDrawnIffShown`, `Eye.RurukiEye.ToggleLabel`: keys inherited from
  `Object.prototype` are not modelled. The code keeps its listener lists and its label toggles in plain
  objects (event-emitter.js line 7, ruruki-eye.js lines 170-175), and the model keeps them in maps
  that start empty. So names such as 'constructor', 'toString' or '__proto__' behave differently:
  - An event of such a name is already truthy. `on` and `once` throw at event-emitter.js line 14,
    `emit` at line 29 and `removeListener` at line 41. The model creates and uses a fresh list.
  - A label of such a name is never filled in (line 996). The record's `isVisible` becomes a
    function, which is not `=== false`. An edge with that label is therefore listed at both endpoints
    (lines 1021-1028), but drawn with opacity 0, since line 1050 asks for `=== true`. The model takes
    the toggle as absent, hence on, and draws the edge.
  - Clicking a '__proto__' label (line 754) assigns through the prototype setter, which ignores a
    boolean, so the toggle never changes. The model flips it.

  None of the event names the viewer uses ('tick', 'size', 'keypress', 'expand') is such a name;
  only label names coming from the backend's data could be.
- `Eye.RurukiEye.RemoveVertex`: consistency is promised only when `d` is a live vertex. For a stale
  `d`, `indexOf` gives -1 and `splice(-1, 1)` removes the last live vertex while `d`'s id is deleted.
  The model does reproduce that splice (`SpliceOut`).

## Findings

| source | as written | input that shows it | evidently intended | confidence | as-written member | corrected member |
|---|---|---|---|---|---|---|
| app/js/ruruki-eye.js:1225-1233 | `removeVertex` and `collapseVertex` take edges out of `links` and the store, but leave their ids in the surviving endpoints' `visiblyConnectedEdges`; the next pass only revisits live edges, so those ids are never removed, and a vertex whose live edges are all hidden is still drawn | vertex 2 (child of base 1) with edge 10 from 1 and edge 20 to its child 3: remove 3, then switch off the label of edge 10; edge 10 is hidden but vertex 2's list is still [20], so vertex 2 is drawn with opacity 1 | drop the removed edges' ids from every list, so that a non-base vertex is hidden exactly when none of its live edges is drawn | not executed | Eye.RurukiEye.RemoveVertexAsWritten, Eye.RurukiEye.CollapseVertexAsWritten, Eye.StaleListAfterRemove | Eye.RurukiEye.RemoveVertex, Eye.RurukiEye.CollapseVertex, Eye.IsolatedVertexHidden |
| app/js/ruruki-eye.js:1229 | for every removed edge, `delete this.processedData.edges.raw[d.id]` deletes the key of the removed VERTEX from the edge store | vertex 2 with one edge 10 from vertex 1: edge 10 leaves `links` but key 10 stays in the store (and any edge that happens to have id 2 is deleted); re-fetching edge 10 then finds it known and never shows it again | delete each removed edge's own id (`link.id`) | not executed | Eye.RurukiEye.RemoveVertexAsWritten, Eye.StaleEdgeAfterRemove | Eye.RurukiEye.RemoveVertex |
