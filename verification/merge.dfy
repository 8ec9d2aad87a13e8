/** Folding a fetched batch of vertices and edges into the id-keyed store
    (`_processData`): entries whose id is already known are skipped, new ones
    are built with their provenance, and the new entries are returned as the
    diff that the caller appends to the live collections. */
module Merge {
  import opened JsRuntime
  import opened Graph

  /** A vertex as the backend sends it.  `name` is `properties.name`; the
      edge counts are the metadata counts after `parseInt`, None when the
      count is missing or not a number. */
  datatype RawVertex = RawVertex(id: int, labelName: string, name: Option<string>, inEdgeCount: Option<int>, outEdgeCount: Option<int>)

  /** An edge as the backend sends it: from `head_id` to `tail_id`. */
  datatype RawEdge = RawEdge(id: int, labelName: string, headId: int, tailId: int)

  datatype Batch = Batch(vertices: seq<RawVertex>, edges: seq<RawEdge>)

  /** The labels seen so far, per element type, in first-seen order. */
  datatype Labels = Labels(vertex: seq<string>, edge: seq<string>)

  /** `properties.name || id` */
  function NameOf(raw: RawVertex): DisplayName {
    if raw.name.Some? && raw.name.value != "" then Given(raw.name.value) else FromId(raw.id)
  }

  /** `parseInt(count) || 0` */
  function Degree(count: Option<int>): int {
    if count.Some? then count.value else 0
  }

  /** The provenance a new vertex records: the vertex being expanded, or
      none when there is none or it is the vertex itself (only the root has
      no parent). */
  function VertexParent(provenance: Option<int>, id: int): (p: Option<int>)
    ensures p.Some? ==> p.value != id
    ensures p.None? ==> provenance.None? || provenance == Some(id)
    ensures provenance.Some? && provenance.value != id ==> p == provenance
  {
    if provenance == Some(id) then None else provenance
  }

  function VertexIds(vs: seq<RawVertex>): (ids: seq<int>)
    ensures |ids| == |vs| && forall k :: 0 <= k < |vs| ==> ids[k] == vs[k].id
  {
    seq(|vs|, k requires 0 <= k < |vs| => vs[k].id)
  }

  function EdgeIds(es: seq<RawEdge>): (ids: seq<int>)
    ensures |ids| == |es| && forall k :: 0 <= k < |es| ==> ids[k] == es[k].id
  {
    seq(|es|, k requires 0 <= k < |es| => es[k].id)
  }

  /** The positions of a batch whose entries get inserted: those whose id is
      neither in the store already nor earlier in the batch, in batch order. */
  function FreshPositions(ids: seq<int>, known: set<int>): seq<nat> {
    if |ids| == 0 then []
    else
      var init := ids[..|ids| - 1];
      var x := ids[|ids| - 1];
      FreshPositions(init, known) + (if x in known || x in init then [] else [|ids| - 1])
  }

  /** `if (labels.indexOf(name) === -1) labels.push(name)` */
  function Register(labels: seq<string>, name: string): (r: seq<string>)
    ensures name in r
    ensures Elems(r) == Elems(labels) + {name}
    ensures |labels| <= |r| <= |labels| + 1 && r[..|labels|] == labels
    ensures NoDup(labels) ==> NoDup(r)
  {
    if IndexOf(labels, name) == -1 then labels + [name] else labels
  }

  function RegisterAll(labels: seq<string>, added: seq<string>): seq<string> {
    if |added| == 0 then labels else Register(RegisterAll(labels, added[..|added| - 1]), added[|added| - 1])
  }

  /** The labels of the vertices at the given positions, in order. */
  function VertexLabelsAt(vs: seq<RawVertex>, ps: seq<nat>): seq<string> {
    seq(|ps|, m requires 0 <= m < |ps| => if ps[m] < |vs| then vs[ps[m]].labelName else "")
  }

  /** The labels of the edges at the given positions, in order. */
  function EdgeLabelsAt(es: seq<RawEdge>, ps: seq<nat>): seq<string> {
    seq(|ps|, m requires 0 <= m < |ps| => if ps[m] < |es| then es[ps[m]].labelName else "")
  }

  /** A vertex record as `_processData` builds it from a raw vertex.  (A new
      vertex also starts visible and with no visibly connected edges; those
      fields are kept by the viewer.) */
  predicate BuiltVertex(v: Vertex, raw: RawVertex, provenance: Option<int>) {
    && v.id == raw.id && v.labelName == raw.labelName && v.name == NameOf(raw)
    && v.inConnections == Degree(raw.inEdgeCount) && v.outConnections == Degree(raw.outEdgeCount)
    && v.parentVertexId == VertexParent(provenance, raw.id)
  }

  /** An edge record as `_processData` builds it: its endpoints are the
      stored vertices for `head_id` and `tail_id`, and its provenance has no
      self-check. */
  predicate BuiltEdge(e: Edge, raw: RawEdge, vertices: map<int, Vertex>, provenance: Option<int>) {
    && raw.headId in vertices && raw.tailId in vertices
    && e.id == raw.id && e.labelName == raw.labelName
    && e.source == vertices[raw.headId] && e.target == vertices[raw.tailId]
    && e.parentVertexId == provenance
  }

  /** Every edge that gets inserted has both of its endpoints among
      `vertexIds`. */
  ghost predicate EndpointsStored(es: seq<RawEdge>, vertexIds: set<int>, knownEdges: set<int>) {
    forall k :: 0 <= k < |es| && es[k].id !in knownEdges && es[k].id !in EdgeIds(es)[..k] ==>
      es[k].headId in vertexIds && es[k].tailId in vertexIds
  }

  /** Every edge of the batch that gets inserted has both endpoints in the
      store once the batch's vertices are merged.  The code looks the
      endpoints up and reads their names, which faults on a missing
      endpoint. */
  ghost predicate EndpointsResolve(batch: Batch, knownVertices: set<int>, knownEdges: set<int>) {
    EndpointsStored(batch.edges, knownVertices + Elems(VertexIds(batch.vertices)), knownEdges)
  }

  /** The store after the first `k` ids were merged into it: it holds the
      ids seen so far, and the entries that were there are untouched. */
  ghost predicate StoreGrown<T>(store: map<int, T>, ids: seq<int>, k: nat, store': map<int, T>) {
    && k <= |ids|
    && store'.Keys == store.Keys + Elems(ids[..k])
    && (forall id :: id in store ==> store'[id] == store[id])
  }

  /** The vertex diff after `k` steps: a vertex built from each fresh
      position (`ps`), in order, each of them the one stored under its id. */
  ghost predicate VertexDiff(vs: seq<RawVertex>, provenance: Option<int>, k: nat,
                             vertices': map<int, Vertex>, newVertices: seq<Vertex>, ps: seq<nat>)
  {
    && |newVertices| == |ps|
    && forall m :: 0 <= m < |ps| ==>
         && ps[m] < k <= |vs| && BuiltVertex(newVertices[m], vs[ps[m]], provenance)
         && newVertices[m].id in vertices' && vertices'[newVertices[m].id] == newVertices[m]
  }

  /** The edge diff after `k` steps. */
  ghost predicate EdgeDiff(es: seq<RawEdge>, vertices: map<int, Vertex>, provenance: Option<int>, k: nat,
                           edges': map<int, Edge>, newEdges: seq<Edge>, ps: seq<nat>)
  {
    && |newEdges| == |ps|
    && forall m :: 0 <= m < |ps| ==>
         && ps[m] < k <= |es| && BuiltEdge(newEdges[m], es[ps[m]], vertices, provenance)
         && newEdges[m].id in edges' && edges'[newEdges[m].id] == newEdges[m]
  }

  /** The state after the first `k` vertices of the batch were merged into
      `vertices`: the store grew by their ids, the diff holds a vertex built
      from each fresh position in order, and the label of each was
      registered in that order. */
  ghost predicate VerticesMergedUpTo(vs: seq<RawVertex>, vertices: map<int, Vertex>, labels: seq<string>, provenance: Option<int>,
                                     k: nat, vertices': map<int, Vertex>, labels': seq<string>, newVertices: seq<Vertex>, ps: seq<nat>)
  {
    && StoreGrown(vertices, VertexIds(vs), k, vertices')
    && ps == FreshPositions(VertexIds(vs)[..k], vertices.Keys)
    && VertexDiff(vs, provenance, k, vertices', newVertices, ps)
    && labels' == RegisterAll(labels, VertexLabelsAt(vs, ps))
  }

  /** The same for the first `k` edges merged into `edges`. */
  ghost predicate EdgesMergedUpTo(es: seq<RawEdge>, vertices: map<int, Vertex>, edges: map<int, Edge>, labels: seq<string>, provenance: Option<int>,
                                  k: nat, edges': map<int, Edge>, labels': seq<string>, newEdges: seq<Edge>, ps: seq<nat>)
  {
    && StoreGrown(edges, EdgeIds(es), k, edges')
    && ps == FreshPositions(EdgeIds(es)[..k], edges.Keys)
    && EdgeDiff(es, vertices, provenance, k, edges', newEdges, ps)
    && labels' == RegisterAll(labels, EdgeLabelsAt(es, ps))
  }

  /** What the callback of the first `forEach` does with one raw vertex:
      the new store, the new label list, and the vertex it inserted, if any. */
  datatype VertexMerged = VertexMerged(vertices: map<int, Vertex>, labels: seq<string>, added: Option<Vertex>)

  /** The callback of the first `forEach`: a vertex whose id is already in
      the store is skipped; otherwise a vertex record is built, stored under
      its id, and its label registered. */
  function MergeVertex(each: RawVertex, vertices: map<int, Vertex>, labels: seq<string>, provenance: Option<int>): (r: VertexMerged)
    ensures each.id in vertices ==> r == VertexMerged(vertices, labels, None)
    ensures each.id !in vertices ==>
      && r.added.Some? && BuiltVertex(r.added.value, each, provenance)
      && r.vertices == vertices[each.id := r.added.value]
      && r.labels == Register(labels, each.labelName)
  {
    if each.id in vertices then VertexMerged(vertices, labels, None)
    else
      var v := Vertex(each.id, each.labelName, NameOf(each), Degree(each.inEdgeCount), Degree(each.outEdgeCount),
                      VertexParent(provenance, each.id));
      VertexMerged(vertices[each.id := v], Register(labels, each.labelName), Some(v))
  }

  /** The first `forEach` of `_processData`: merge the batch's vertices in
      order. */
  method MergeVertices(vs: seq<RawVertex>, vertices: map<int, Vertex>, labels: seq<string>, provenance: Option<int>)
    returns (vertices': map<int, Vertex>, labels': seq<string>, newVertices: seq<Vertex>)
    ensures VerticesMergedUpTo(vs, vertices, labels, provenance, |vs|, vertices', labels', newVertices,
                               FreshPositions(VertexIds(vs), vertices.Keys))
  {
    vertices', labels', newVertices := vertices, labels, [];
    ghost var ps: seq<nat> := [];
    for k := 0 to |vs|
      invariant VerticesMergedUpTo(vs, vertices, labels, provenance, k, vertices', labels', newVertices, ps)
    {
      var r := MergeVertex(vs[k], vertices', labels', provenance);
      VertexStep(vs, vertices, labels, provenance, k, vertices', labels', newVertices, ps, r.vertices, r.labels, r.added);
      vertices', labels' := r.vertices, r.labels;
      if r.added.Some? {
        newVertices, ps := newVertices + [r.added.value], ps + [k];
      }
    }
    assert VertexIds(vs)[..|vs|] == VertexIds(vs);
  }

  /** One step of the first `forEach`, on the values alone. */
  lemma VertexStep(vs: seq<RawVertex>, vertices: map<int, Vertex>, labels: seq<string>, provenance: Option<int>,
                   k: nat, vertices': map<int, Vertex>, labels': seq<string>, newVertices: seq<Vertex>, ps: seq<nat>,
                   vertices'': map<int, Vertex>, labels'': seq<string>, added: Option<Vertex>)
    requires k < |vs| && VerticesMergedUpTo(vs, vertices, labels, provenance, k, vertices', labels', newVertices, ps)
    requires vs[k].id in vertices' ==> vertices'' == vertices' && labels'' == labels' && added == None
    requires vs[k].id !in vertices' ==>
      && added.Some? && BuiltVertex(added.value, vs[k], provenance)
      && vertices'' == vertices'[vs[k].id := added.value]
      && labels'' == Register(labels', vs[k].labelName)
    ensures added.Some? ==> VerticesMergedUpTo(vs, vertices, labels, provenance, k + 1, vertices'', labels'',
                                               newVertices + [added.value], ps + [k])
    ensures added.None? ==> VerticesMergedUpTo(vs, vertices, labels, provenance, k + 1, vertices'', labels'', newVertices, ps)
  {
    FreshStep(VertexIds(vs), vertices.Keys, k, vertices'.Keys);
    if added.Some? {
      StoreAdd(vertices, VertexIds(vs), k, vertices', added.value);
      VertexDiffAdd(vs, provenance, k, vertices', newVertices, ps, added.value);
      VertexLabelsPush(labels, vs, ps, k);
    } else {
      StoreSkip(vertices, VertexIds(vs), k, vertices');
      VertexDiffSkip(vs, provenance, k, vertices', newVertices, ps);
    }
  }

  lemma StoreAdd<T>(store: map<int, T>, ids: seq<int>, k: nat, store': map<int, T>, x: T)
    requires k < |ids| && StoreGrown(store, ids, k, store') && ids[k] !in store'
    ensures StoreGrown(store, ids, k + 1, store'[ids[k] := x])
  {
    assert ids[..k + 1] == ids[..k] + [ids[k]];
  }

  lemma StoreSkip<T>(store: map<int, T>, ids: seq<int>, k: nat, store': map<int, T>)
    requires k < |ids| && StoreGrown(store, ids, k, store') && ids[k] in store'
    ensures StoreGrown(store, ids, k + 1, store')
  {
    assert ids[..k + 1] == ids[..k] + [ids[k]];
  }

  lemma VertexDiffAdd(vs: seq<RawVertex>, provenance: Option<int>, k: nat,
                      vertices': map<int, Vertex>, newVertices: seq<Vertex>, ps: seq<nat>, v: Vertex)
    requires k < |vs| && VertexDiff(vs, provenance, k, vertices', newVertices, ps)
    requires vs[k].id !in vertices' && BuiltVertex(v, vs[k], provenance)
    ensures VertexDiff(vs, provenance, k + 1, vertices'[vs[k].id := v], newVertices + [v], ps + [k])
  {
  }

  lemma VertexDiffSkip(vs: seq<RawVertex>, provenance: Option<int>, k: nat,
                       vertices': map<int, Vertex>, newVertices: seq<Vertex>, ps: seq<nat>)
    requires k < |vs| && VertexDiff(vs, provenance, k, vertices', newVertices, ps)
    ensures VertexDiff(vs, provenance, k + 1, vertices', newVertices, ps)
  {
  }

  datatype EdgeMerged = EdgeMerged(edges: map<int, Edge>, labels: seq<string>, added: Option<Edge>)

  /** The callback of the second `forEach`: an edge whose id is already in
      the store is skipped; otherwise an edge record is built between the
      stored vertices for its head and tail, stored under its id, and its
      label registered. */
  function MergeEdge(each: RawEdge, vertices: map<int, Vertex>, edges: map<int, Edge>, labels: seq<string>, provenance: Option<int>): (r: EdgeMerged)
    requires each.id !in edges ==> each.headId in vertices && each.tailId in vertices
    ensures each.id in edges ==> r == EdgeMerged(edges, labels, None)
    ensures each.id !in edges ==>
      && r.added.Some? && BuiltEdge(r.added.value, each, vertices, provenance)
      && r.edges == edges[each.id := r.added.value]
      && r.labels == Register(labels, each.labelName)
  {
    if each.id in edges then EdgeMerged(edges, labels, None)
    else
      var e := Edge(each.id, each.labelName, vertices[each.headId], vertices[each.tailId], provenance);
      EdgeMerged(edges[each.id := e], Register(labels, each.labelName), Some(e))
  }

  /** The second `forEach` of `_processData`: merge the batch's edges in
      order, against the vertex store as it stands after the vertices were
      merged. */
  method MergeEdges(es: seq<RawEdge>, vertices: map<int, Vertex>, edges: map<int, Edge>, labels: seq<string>, provenance: Option<int>)
    returns (edges': map<int, Edge>, labels': seq<string>, newEdges: seq<Edge>)
    requires EndpointsStored(es, vertices.Keys, edges.Keys)
    ensures EdgesMergedUpTo(es, vertices, edges, labels, provenance, |es|, edges', labels', newEdges,
                            FreshPositions(EdgeIds(es), edges.Keys))
  {
    edges', labels', newEdges := edges, labels, [];
    ghost var ps: seq<nat> := [];
    for k := 0 to |es|
      invariant EdgesMergedUpTo(es, vertices, edges, labels, provenance, k, edges', labels', newEdges, ps)
    {
      EndpointsAt(es, vertices, edges, k, edges');
      var r := MergeEdge(es[k], vertices, edges', labels', provenance);
      EdgeStep(es, vertices, edges, labels, provenance, k, edges', labels', newEdges, ps, r.edges, r.labels, r.added);
      edges', labels' := r.edges, r.labels;
      if r.added.Some? {
        newEdges, ps := newEdges + [r.added.value], ps + [k];
      }
    }
    assert EdgeIds(es)[..|es|] == EdgeIds(es);
  }

  /** One step of the second `forEach`, on the values alone. */
  lemma EdgeStep(es: seq<RawEdge>, vertices: map<int, Vertex>, edges: map<int, Edge>, labels: seq<string>, provenance: Option<int>,
                 k: nat, edges': map<int, Edge>, labels': seq<string>, newEdges: seq<Edge>, ps: seq<nat>,
                 edges'': map<int, Edge>, labels'': seq<string>, added: Option<Edge>)
    requires k < |es| && EdgesMergedUpTo(es, vertices, edges, labels, provenance, k, edges', labels', newEdges, ps)
    requires es[k].id in edges' ==> edges'' == edges' && labels'' == labels' && added == None
    requires es[k].id !in edges' ==>
      && added.Some? && BuiltEdge(added.value, es[k], vertices, provenance)
      && edges'' == edges'[es[k].id := added.value]
      && labels'' == Register(labels', es[k].labelName)
    ensures added.Some? ==> EdgesMergedUpTo(es, vertices, edges, labels, provenance, k + 1, edges'', labels'',
                                            newEdges + [added.value], ps + [k])
    ensures added.None? ==> EdgesMergedUpTo(es, vertices, edges, labels, provenance, k + 1, edges'', labels'', newEdges, ps)
  {
    FreshStep(EdgeIds(es), edges.Keys, k, edges'.Keys);
    if added.Some? {
      StoreAdd(edges, EdgeIds(es), k, edges', added.value);
      EdgeDiffAdd(es, vertices, provenance, k, edges', newEdges, ps, added.value);
      EdgeLabelsPush(labels, es, ps, k);
    } else {
      StoreSkip(edges, EdgeIds(es), k, edges');
      EdgeDiffSkip(es, vertices, provenance, k, edges', newEdges, ps);
    }
  }

  /** The endpoints of an edge that is about to be inserted are stored. */
  lemma EndpointsAt(es: seq<RawEdge>, vertices: map<int, Vertex>, edges: map<int, Edge>, k: nat, edges': map<int, Edge>)
    requires EndpointsStored(es, vertices.Keys, edges.Keys)
    requires k < |es| && StoreGrown(edges, EdgeIds(es), k, edges')
    ensures es[k].id !in edges' ==> es[k].headId in vertices && es[k].tailId in vertices
  {
    if es[k].id !in edges' {
      assert es[k].id !in Elems(EdgeIds(es)[..k]);
    }
  }

  lemma EdgeDiffAdd(es: seq<RawEdge>, vertices: map<int, Vertex>, provenance: Option<int>, k: nat,
                    edges': map<int, Edge>, newEdges: seq<Edge>, ps: seq<nat>, e: Edge)
    requires k < |es| && EdgeDiff(es, vertices, provenance, k, edges', newEdges, ps)
    requires es[k].id !in edges' && BuiltEdge(e, es[k], vertices, provenance)
    ensures EdgeDiff(es, vertices, provenance, k + 1, edges'[es[k].id := e], newEdges + [e], ps + [k])
  {
  }

  lemma EdgeDiffSkip(es: seq<RawEdge>, vertices: map<int, Vertex>, provenance: Option<int>, k: nat,
                     edges': map<int, Edge>, newEdges: seq<Edge>, ps: seq<nat>)
    requires k < |es| && EdgeDiff(es, vertices, provenance, k, edges', newEdges, ps)
    ensures EdgeDiff(es, vertices, provenance, k + 1, edges', newEdges, ps)
  {
  }

  /** `_processData(batch, store, provenance)`: returns the grown store, the
      grown label lists and the diffs.  Entries already in the store stay as
      they are; each new id gets an object built from its first occurrence in
      the batch; the diffs hold exactly those objects, in batch order.  The
      JavaScript mutates the caller's maps and label arrays in place; here
      they are returned. */
  method ProcessData(batch: Batch, vertices: map<int, Vertex>, edges: map<int, Edge>, labels: Labels, provenance: Option<int>)
    returns (vertices': map<int, Vertex>, edges': map<int, Edge>, labels': Labels, newVertices: seq<Vertex>, newEdges: seq<Edge>)
    requires EndpointsResolve(batch, vertices.Keys, edges.Keys)
    ensures VerticesMergedUpTo(batch.vertices, vertices, labels.vertex, provenance, |batch.vertices|,
                               vertices', labels'.vertex, newVertices, FreshPositions(VertexIds(batch.vertices), vertices.Keys))
    ensures vertices'.Keys == vertices.Keys + Elems(VertexIds(batch.vertices))
    ensures EdgesMergedUpTo(batch.edges, vertices', edges, labels.edge, provenance, |batch.edges|,
                            edges', labels'.edge, newEdges, FreshPositions(EdgeIds(batch.edges), edges.Keys))
    ensures edges'.Keys == edges.Keys + Elems(EdgeIds(batch.edges))
  {
    var vertexLabels, edgeLabels;
    vertices', vertexLabels, newVertices := MergeVertices(batch.vertices, vertices, labels.vertex, provenance);
    assert VertexIds(batch.vertices)[..|batch.vertices|] == VertexIds(batch.vertices);
    edges', edgeLabels, newEdges := MergeEdges(batch.edges, vertices', edges, labels.edge, provenance);
    assert EdgeIds(batch.edges)[..|batch.edges|] == EdgeIds(batch.edges);
    labels' := Labels(vertexLabels, edgeLabels);
  }

  // ---------------------------------------------------------------------
  // Properties of the diff

  /** How the fresh positions of a prefix grow by one entry, given the ids
      `seen` so far (the known ones and those of the prefix). */
  lemma FreshStep(ids: seq<int>, known: set<int>, k: nat, seen: set<int>)
    requires k < |ids| && seen == known + Elems(ids[..k])
    ensures known + Elems(ids[..k + 1]) == seen + {ids[k]}
    ensures FreshPositions(ids[..k + 1], known) ==
      FreshPositions(ids[..k], known) + (if ids[k] in seen then [] else [k])
  {
    assert ids[..k + 1][..k] == ids[..k];
    assert ids[..k + 1] == ids[..k] + [ids[k]];
  }

  /** The fresh positions are, in increasing order, exactly the positions
      whose id is neither known nor seen earlier in the batch. */
  lemma {:induction false} FreshPositionsExact(ids: seq<int>, known: set<int>)
    ensures var ps := FreshPositions(ids, known);
      && (forall m :: 0 <= m < |ps| ==> ps[m] < |ids|)
      && (forall m, n :: 0 <= m < n < |ps| ==> ps[m] < ps[n])
      && (forall p :: p in ps <==> 0 <= p < |ids| && ids[p] !in known && ids[p] !in ids[..p])
  {
    if |ids| > 0 {
      var init := ids[..|ids| - 1];
      FreshPositionsExact(init, known);
      forall p | 0 <= p < |init|
        ensures ids[p] == init[p] && ids[..p] == init[..p]
      {
      }
    }
  }

  /** The diff has no duplicate ids, none of them was known, and every id of
      the batch that was not known is in it. */
  lemma FreshIdsExact(ids: seq<int>, known: set<int>)
    ensures var ps := FreshPositions(ids, known);
      && (forall m :: 0 <= m < |ps| ==> ps[m] < |ids| && ids[ps[m]] !in known)
      && (forall m, n :: 0 <= m < n < |ps| ==> ps[n] < |ids| && ids[ps[m]] != ids[ps[n]])
      && (forall x :: x in ids && x !in known ==> exists m :: 0 <= m < |ps| && ps[m] < |ids| && ids[ps[m]] == x)
  {
    var ps := FreshPositions(ids, known);
    FreshPositionsExact(ids, known);
    forall m, n | 0 <= m < n < |ps|
      ensures ids[ps[m]] != ids[ps[n]]
    {
      assert ps[n] in ps;
      assert ids[ps[m]] == ids[..ps[n]][ps[m]];
    }
    forall x | x in ids && x !in known
      ensures exists m :: 0 <= m < |ps| && ps[m] < |ids| && ids[ps[m]] == x
    {
      var p := IndexOf(ids, x);
      assert p in ps;
      var m :| 0 <= m < |ps| && ps[m] == p;
    }
  }

  /** Merging a batch whose ids are all known inserts nothing: in particular
      merging the same batch a second time yields empty diffs. */
  lemma {:induction false} RemergeFindsNothing(ids: seq<int>, known: set<int>)
    requires Elems(ids) <= known
    ensures FreshPositions(ids, known) == []
  {
    if |ids| > 0 {
      RemergeFindsNothing(ids[..|ids| - 1], known);
      assert ids[|ids| - 1] in Elems(ids);
    }
  }

  lemma VertexLabelsPush(labels: seq<string>, vs: seq<RawVertex>, ps: seq<nat>, k: nat)
    requires k < |vs|
    ensures RegisterAll(labels, VertexLabelsAt(vs, ps + [k])) == Register(RegisterAll(labels, VertexLabelsAt(vs, ps)), vs[k].labelName)
  {
    assert VertexLabelsAt(vs, ps + [k]) == VertexLabelsAt(vs, ps) + [vs[k].labelName];
    RegisterAllPush(labels, VertexLabelsAt(vs, ps), vs[k].labelName);
  }

  lemma EdgeLabelsPush(labels: seq<string>, es: seq<RawEdge>, ps: seq<nat>, k: nat)
    requires k < |es|
    ensures RegisterAll(labels, EdgeLabelsAt(es, ps + [k])) == Register(RegisterAll(labels, EdgeLabelsAt(es, ps)), es[k].labelName)
  {
    assert EdgeLabelsAt(es, ps + [k]) == EdgeLabelsAt(es, ps) + [es[k].labelName];
    RegisterAllPush(labels, EdgeLabelsAt(es, ps), es[k].labelName);
  }

  lemma RegisterAllPush(labels: seq<string>, added: seq<string>, name: string)
    ensures RegisterAll(labels, added + [name]) == Register(RegisterAll(labels, added), name)
  {
    assert (added + [name])[..|added|] == added;
  }

  /** Registering labels keeps the old ones first, adds each new label once,
      and keeps the list free of duplicates. */
  lemma {:induction false} RegisterAllSpec(labels: seq<string>, added: seq<string>)
    ensures var r := RegisterAll(labels, added);
      && Elems(r) == Elems(labels) + Elems(added)
      && |labels| <= |r| && r[..|labels|] == labels
      && (NoDup(labels) ==> NoDup(r))
  {
    if |added| > 0 {
      var init := added[..|added| - 1];
      RegisterAllSpec(labels, init);
      var r0 := RegisterAll(labels, init);
      assert added == init + [added[|added| - 1]];
      assert Elems(added) == Elems(init) + {added[|added| - 1]};
      assert r0[..|labels|] == labels;
      var r := Register(r0, added[|added| - 1]);
      assert r[..|r0|] == r0;
      assert r[..|labels|] == r0[..|labels|];
    }
  }
}
