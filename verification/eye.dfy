/** The viewer (`RurukiEye`): the live `nodes` and `links` collections drawn
    on screen, the id-keyed stores beside them (`processedData.vertices.raw`
    and `processedData.edges.raw`), the label lists, the inspector's toggles
    and the visibility state of the records, and the operations that change
    them: the start-up merge, expanding and collapsing a vertex, adding an
    edge, removing a vertex and the visibility pass. */
module Eye {
  import opened JsRuntime
  import opened Events
  import opened Sweep
  import opened Graph
  import opened Merge
  import opened Visibility

  // ---------------------------------------------------------------------
  // Removing a vertex

  /** How `removeVertex` ends: the number of edges removed with the vertex,
      or the error thrown for the base vertex. */
  datatype Removal = Removed(affectedEdges: nat) | CannotDeleteStartingNode

  predicate Touches(e: Edge, vid: int) {
    e.source.id == vid || e.target.id == vid
  }

  /** The edges that do not touch vertex `vid`, in their original order. */
  function Unattached(ls: seq<Edge>, vid: int): seq<Edge> {
    if |ls| == 0 then []
    else
      var last := ls[|ls| - 1];
      Unattached(ls[..|ls| - 1], vid) + (if Touches(last, vid) then [] else [last])
  }

  /** The ids of the edges that touch vertex `vid`. */
  function IncidentIds(ls: seq<Edge>, vid: int): set<int> {
    if |ls| == 0 then {}
    else
      var last := ls[|ls| - 1];
      IncidentIds(ls[..|ls| - 1], vid) + (if Touches(last, vid) then {last.id} else {})
  }

  lemma UnattachedSnoc(c: seq<Edge>, vid: int, j: nat)
    requires j < |c|
    ensures Unattached(c[..j + 1], vid) == Unattached(c[..j], vid) + (if Touches(c[j], vid) then [] else [c[j]])
    ensures IncidentIds(c[..j + 1], vid) == IncidentIds(c[..j], vid) + (if Touches(c[j], vid) then {c[j].id} else {})
  {
    assert c[..j + 1][..j] == c[..j];
  }

  /** The live collection during the loop over `links`: the kept edges of
      the scanned prefix followed by the unscanned rest. */
  lemma DetachStep(c: seq<Edge>, vid: int, j: nat, kept: seq<Edge>, live: seq<Edge>)
    requires j < |c| && live == kept + c[j..] && kept == Unattached(c[..j], vid)
    ensures |kept| < |live| && live[|kept|] == c[j]
    ensures Touches(c[j], vid) ==> RemoveAt(live, |kept|) == kept + c[j + 1..] && kept == Unattached(c[..j + 1], vid)
    ensures !Touches(c[j], vid) ==> live == (kept + [c[j]]) + c[j + 1..] && kept + [c[j]] == Unattached(c[..j + 1], vid)
  {
    UnattachedSnoc(c, vid, j);
    assert c[j..] == [c[j]] + c[j + 1..];
    assert live == kept + [c[j]] + c[j + 1..];
    if Touches(c[j], vid) {
      assert RemoveAt(live, |kept|) == kept + c[j + 1..];
    }
  }

  /** The loop of `removeVertex` as written: every live edge touching the
      vertex is spliced out and counted, and each time the key deleted from
      the edge store is the vertex's id. */
  method DetachEdgesAsWritten(links: seq<Edge>, edges: map<int, Edge>, vid: int)
    returns (links': seq<Edge>, edges': map<int, Edge>, affected: nat)
    ensures links' == Unattached(links, vid)
    ensures affected + |links'| == |links|
    ensures edges' == if affected == 0 then edges else edges - {vid}
  {
    links', edges' := links, edges;
    affected := 0;
    var i := 0;
    ghost var j := 0;
    ghost var kept := [];
    while i < |links'|
      invariant 0 <= j <= |links| && kept == Unattached(links[..j], vid)
      invariant links' == kept + links[j..]
      invariant i == |kept| && affected + i == j
      invariant edges' == if affected == 0 then edges else edges - {vid}
      decreases |links| - j
    {
      DetachStep(links, vid, j, kept, links');
      var link := links'[i];
      assert link == links[j];
      if link.source.id == vid || link.target.id == vid {
        assert Touches(links[j], vid);
        assert edges' - {vid} == edges - {vid};
        links' := RemoveAt(links', i);
        edges' := edges' - {vid};
        affected := affected + 1;
      } else {
        assert !Touches(links[j], vid);
        kept := kept + [link];
        i := i + 1;
      }
      j := j + 1;
    }
    assert links[..j] == links;
  }

  /** One step of the loop below, on all of its state at once. */
  lemma DetachStepEdges(c: seq<Edge>, vid: int, j: nat, kept: seq<Edge>, live: seq<Edge>,
                        edges: map<int, Edge>, current: map<int, Edge>)
    requires j < |c| && live == kept + c[j..] && kept == Unattached(c[..j], vid)
    requires current == edges - IncidentIds(c[..j], vid)
    ensures |kept| < |live| && live[|kept|] == c[j]
    ensures Touches(c[j], vid) ==>
      && RemoveAt(live, |kept|) == kept + c[j + 1..] && kept == Unattached(c[..j + 1], vid)
      && current - {c[j].id} == edges - IncidentIds(c[..j + 1], vid)
    ensures !Touches(c[j], vid) ==>
      && live == (kept + [c[j]]) + c[j + 1..] && kept + [c[j]] == Unattached(c[..j + 1], vid)
      && current == edges - IncidentIds(c[..j + 1], vid)
  {
    DetachStep(c, vid, j, kept, live);
    UnattachedSnoc(c, vid, j);
  }

  /** The same loop deleting each removed edge's own id from the store. */
  method DetachEdges(links: seq<Edge>, edges: map<int, Edge>, vid: int)
    returns (links': seq<Edge>, edges': map<int, Edge>, affected: nat)
    ensures links' == Unattached(links, vid)
    ensures affected + |links'| == |links|
    ensures edges' == edges - IncidentIds(links, vid)
  {
    links', edges' := links, edges;
    affected := 0;
    var i := 0;
    ghost var j := 0;
    ghost var kept := [];
    while i < |links'|
      invariant 0 <= j <= |links| && kept == Unattached(links[..j], vid)
      invariant links' == kept + links[j..]
      invariant i == |kept| && affected + i == j
      invariant edges' == edges - IncidentIds(links[..j], vid)
      decreases |links| - j
    {
      DetachStepEdges(links, vid, j, kept, links', edges, edges');
      var link := links'[i];
      if link.source.id == vid || link.target.id == vid {
        links' := RemoveAt(links', i);
        edges' := edges' - {link.id};
        affected := affected + 1;
      } else {
        kept := kept + [link];
        i := i + 1;
      }
      j := j + 1;
    }
    assert links[..j] == links;
  }

  lemma {:induction false} IncidentIdsWithin(c: seq<Edge>, vid: int)
    ensures IncidentIds(c, vid) <= IdSet(c, EdgeView)
  {
    if |c| > 0 {
      var init := c[..|c| - 1];
      IncidentIdsWithin(init, vid);
      forall n | n in IdSet(init, EdgeView) ensures n in IdSet(c, EdgeView) {
        var k :| 0 <= k < |init| && EdgeView(init[k]).id == n;
        assert init[k] == c[k];
      }
      assert EdgeView(c[|c| - 1]).id in IdSet(c, EdgeView);
    }
  }

  /** Dropping the edges that touch a vertex from a collection, and their
      ids from its store, keeps the collection indexed by the store. */
  lemma {:induction false} UnattachedKeepsIndex(c: seq<Edge>, vid: int, store: map<int, Edge>)
    requires Indexes(c, EdgeView, store)
    ensures Indexes(Unattached(c, vid), EdgeView, store - IncidentIds(c, vid))
  {
    if |c| > 0 {
      var init, last := c[..|c| - 1], c[|c| - 1];
      var bid := last.id;
      IndexesDropLast(c, EdgeView, store);
      UnattachedKeepsIndex(init, vid, store - {bid});
      var s := Unattached(init, vid);
      var rest := store - {bid} - IncidentIds(init, vid);
      if Touches(last, vid) {
        assert Unattached(c, vid) == s + [] == s;
        assert store - IncidentIds(c, vid) == rest;
      } else {
        IncidentIdsWithin(init, vid);
        assert bid !in IdSet(init, EdgeView);
        assert store - IncidentIds(c, vid) == rest[bid := last];
        IndexesAppend(s, EdgeView, rest, last);
      }
    }
  }

  /** Splicing one record out of an indexed collection, and its id out of
      the store, keeps the collection indexed. */
  lemma IndexesRemoveAt<T>(c: seq<T>, view: T -> Item, dict: map<int, T>, i: nat)
    requires Indexes(c, view, dict) && i < |c|
    ensures Indexes(RemoveAt(c, i), view, dict - {view(c[i]).id})
  {
    var r := RemoveAt(c, i);
    var gone := view(c[i]).id;
    assert forall k :: 0 <= k < |r| ==> r[k] == c[if k < i then k else k + 1];
    assert IdSet(r, view) == IdSet(c, view) - {gone} by {
      forall n | n in IdSet(r, view) ensures n in IdSet(c, view) - {gone} {
        var k :| 0 <= k < |r| && view(r[k]).id == n;
        var k' := if k < i then k else k + 1;
        assert r[k] == c[k'] && view(c[k']).id in IdSet(c, view);
      }
      forall n | n in IdSet(c, view) - {gone} ensures n in IdSet(r, view) {
        var k :| 0 <= k < |c| && view(c[k]).id == n;
        var k' := if k < i then k else k - 1;
        assert r[k'] == c[k] && view(r[k']).id in IdSet(r, view);
      }
    }
  }

  /** The as-written `removeVertex` leaves the removed edges in the edge
      store: vertex 2 is removed with its one edge 10, but the code deletes
      key 2 (a vertex id) from the edge store, so key 10 stays behind.  The
      collection is then no longer indexed by the store, and when the edge
      is fetched again it is taken for known and never shown.  Deleting the
      removed edges' own ids keeps the index and lets the edge come back. */
  lemma StaleEdgeAfterRemove()
    ensures var a := Vertex(1, "person", FromId(1), 0, 1, None);
      var b := Vertex(2, "person", FromId(2), 1, 0, Some(1));
      var e := Edge(10, "knows", a, b, Some(1));
      var store := map[10 := e];
      var refetched := [RawEdge(10, "knows", 1, 2)];
      && Indexes([e], EdgeView, store)
      && Unattached([e], 2) == []
      && (store - {2}) == store
      && !Indexes(Unattached([e], 2), EdgeView, store - {2})
      && FreshPositions(EdgeIds(refetched), (store - {2}).Keys) == []
      && Indexes(Unattached([e], 2), EdgeView, store - IncidentIds([e], 2))
      && FreshPositions(EdgeIds(refetched), (store - IncidentIds([e], 2)).Keys) == [0]
  {
    var a := Vertex(1, "person", FromId(1), 0, 1, None);
    var b := Vertex(2, "person", FromId(2), 1, 0, Some(1));
    var e := Edge(10, "knows", a, b, Some(1));
    assert [e][..0] == [];
    assert Unattached([e], 2) == [];
    assert IncidentIds([e], 2) == {10};
    assert EdgeView([e][0]).id in IdSet([e], EdgeView);
    assert 10 in (map[10 := e] - {2}).Keys;
    var refetched := [RawEdge(10, "knows", 1, 2)];
    assert EdgeIds(refetched) == [10];
    assert [10][..0] == [];
  }

  // ---------------------------------------------------------------------
  // Dropping removed edges from the lists of visibly connected edges

  /** The ids of `s` that are still in `live`, in order. */
  function Keep(s: seq<int>, live: set<int>): (r: seq<int>)
    ensures forall x :: x in r <==> x in s && x in live
    ensures NoDup(s) ==> NoDup(r)
  {
    if |s| == 0 then []
    else
      var rest := Keep(s[1..], live);
      assert NoDup(s) ==> NoDup(s[1..]) && s[0] !in s[1..] by {
        if NoDup(s) {
          forall i, j | 0 <= i < j < |s[1..]| ensures s[1..][i] != s[1..][j] {
            assert s[1..][i] == s[i + 1] && s[1..][j] == s[j + 1];
          }
          forall i | 0 <= i < |s[1..]| ensures s[1..][i] != s[0] {
            assert s[1..][i] == s[i + 1];
          }
        }
      }
      (if s[0] in live then [s[0]] else []) + rest
  }

  /** Every vertex's list of visibly connected edges, with the ids of edges
      no longer stored dropped: what a collapse or a removal must do to the
      lists for them to keep naming live edges. */
  function Purge(connected: map<int, seq<int>>, live: set<int>): (r: map<int, seq<int>>)
    ensures forall w :: ConnectedOf(r, w) == Keep(ConnectedOf(connected, w), live)
    ensures forall w, x :: x in ConnectedOf(r, w) <==> x in ConnectedOf(connected, w) && x in live
  {
    var r := map w | w in connected :: Keep(connected[w], live);
    assert forall w :: ConnectedOf(r, w) == Keep(ConnectedOf(connected, w), live) by {
      forall w ensures ConnectedOf(r, w) == Keep(ConnectedOf(connected, w), live) {
        if w !in connected {
          assert w !in r && Keep([], live) == [];
        }
      }
    }
    r
  }

  /** Purging against a store that kept some of the old entries leaves lists
      free of repeats whose every id names a stored edge touching the list's
      vertex. */
  lemma PurgeKeeps(connected: map<int, seq<int>>, edges: map<int, Edge>, edges': map<int, Edge>)
    requires NoDupLists(connected) && ListsLive(connected, edges) && SubMap(edges', edges)
    ensures NoDupLists(Purge(connected, edges'.Keys)) && ListsLive(Purge(connected, edges'.Keys), edges')
  {
    var r := Purge(connected, edges'.Keys);
    forall w ensures NoDup(ConnectedOf(r, w)) {
      assert NoDup(ConnectedOf(connected, w));
      if w in connected {
        assert ConnectedOf(r, w) == Keep(connected[w], edges'.Keys);
      }
    }
    forall w, x | x in ConnectedOf(r, w) ensures x in edges' && (edges'[x].source.id == w || edges'[x].target.id == w) {
      assert x in ConnectedOf(connected, w);
    }
  }

  // ---------------------------------------------------------------------
  // Merging into indexed collections

  lemma IndexesEmpty<T>(view: T -> Item)
    ensures Indexes([], view, map[])
  {
    assert IdSet([], view) == {};
  }

  /** Appending records with new, distinct ids to an indexed collection,
      while the store gains exactly those records, keeps it indexed. */
  lemma IndexesGrow<T>(c: seq<T>, view: T -> Item, dict: map<int, T>, diff: seq<T>, dict': map<int, T>)
    requires Indexes(c, view, dict) && DistinctIds(diff, view)
    requires forall m :: 0 <= m < |diff| ==>
      view(diff[m]).id !in dict && view(diff[m]).id in dict' && dict'[view(diff[m]).id] == diff[m]
    requires forall id :: id in dict ==> id in dict' && dict'[id] == dict[id]
    requires dict'.Keys == dict.Keys + IdSet(diff, view)
    ensures Indexes(c + diff, view, dict')
  {
    var r := c + diff;
    forall i, j | 0 <= i < j < |r| ensures view(r[i]).id != view(r[j]).id {
      if j < |c| {
        assert r[i] == c[i] && r[j] == c[j];
      } else if i >= |c| {
        assert r[i] == diff[i - |c|] && r[j] == diff[j - |c|];
      } else {
        assert r[i] == c[i] && view(c[i]).id in IdSet(c, view);
        assert r[j] == diff[j - |c|];
      }
    }
    assert IdSet(r, view) == IdSet(c, view) + IdSet(diff, view) by {
      forall n | n in IdSet(r, view) ensures n in IdSet(c, view) + IdSet(diff, view) {
        var k :| 0 <= k < |r| && view(r[k]).id == n;
        if k < |c| {
          assert r[k] == c[k] && view(c[k]).id in IdSet(c, view);
        } else {
          assert r[k] == diff[k - |c|] && view(diff[k - |c|]).id in IdSet(diff, view);
        }
      }
      forall n | n in IdSet(c, view) + IdSet(diff, view) ensures n in IdSet(r, view) {
        if n in IdSet(c, view) {
          var k :| 0 <= k < |c| && view(c[k]).id == n;
          assert r[k] == c[k] && view(r[k]).id in IdSet(r, view);
        } else {
          var k :| 0 <= k < |diff| && view(diff[k]).id == n;
          assert r[|c| + k] == diff[k] && view(r[|c| + k]).id in IdSet(r, view);
        }
      }
    }
    forall k | 0 <= k < |r| ensures dict'[view(r[k]).id] == r[k] {
      if k < |c| {
        assert r[k] == c[k] && view(c[k]).id in IdSet(c, view);
      } else {
        assert r[k] == diff[k - |c|];
      }
    }
  }

  /** A diff of records built at the fresh positions of a batch, stored in
      the grown store, extends an indexed collection to an indexed one. */
  lemma DiffIndexed<T>(c: seq<T>, view: T -> Item, dict: map<int, T>, ids: seq<int>, dict': map<int, T>, diff: seq<T>)
    requires Indexes(c, view, dict)
    requires StoreGrown(dict, ids, |ids|, dict')
    requires var ps := FreshPositions(ids, dict.Keys);
      && |diff| == |ps|
      && forall m :: 0 <= m < |ps| ==>
           && ps[m] < |ids| && view(diff[m]).id == ids[ps[m]]
           && view(diff[m]).id in dict' && dict'[view(diff[m]).id] == diff[m]
    ensures Indexes(c + diff, view, dict')
  {
    DiffIds(view, dict, ids, diff);
    IndexesGrow(c, view, dict, diff, dict');
  }

  /** The diff holds one item per id new to the store, once each, and no
      other. */
  lemma DiffIds<T>(view: T -> Item, dict: map<int, T>, ids: seq<int>, diff: seq<T>)
    requires var ps := FreshPositions(ids, dict.Keys);
      && |diff| == |ps|
      && forall m :: 0 <= m < |ps| ==> ps[m] < |ids| && view(diff[m]).id == ids[ps[m]]
    ensures IdSet(diff, view) == Elems(ids) - dict.Keys
    ensures DistinctIds(diff, view)
    ensures forall m :: 0 <= m < |diff| ==> view(diff[m]).id !in dict
  {
    var ps := FreshPositions(ids, dict.Keys);
    FreshIdsExact(ids, dict.Keys);
    assert ids[..|ids|] == ids;
    forall n | n in IdSet(diff, view) ensures n in Elems(ids) - dict.Keys {
      var m :| 0 <= m < |diff| && view(diff[m]).id == n;
    }
    forall n | n in Elems(ids) - dict.Keys ensures n in IdSet(diff, view) {
      var m :| 0 <= m < |ps| && ps[m] < |ids| && ids[ps[m]] == n;
      assert view(diff[m]).id in IdSet(diff, view);
    }
  }

  /** The vertex diff of `_processData`, pushed onto the live vertices,
      leaves them indexed by the grown vertex store. */
  lemma VertexDiffIndexed(nodes: seq<Vertex>, vs: seq<RawVertex>, vertices: map<int, Vertex>, labels: seq<string>,
                          provenance: Option<int>, vertices': map<int, Vertex>, labels': seq<string>, diff: seq<Vertex>)
    requires Indexes(nodes, VertexView, vertices)
    requires VerticesMergedUpTo(vs, vertices, labels, provenance, |vs|, vertices', labels', diff,
                                FreshPositions(VertexIds(vs), vertices.Keys))
    ensures Indexes(nodes + diff, VertexView, vertices')
  {
    assert VertexIds(vs)[..|vs|] == VertexIds(vs);
    DiffIndexed(nodes, VertexView, vertices, VertexIds(vs), vertices', diff);
  }

  /** The edge diff of `_processData`, pushed onto the live edges, leaves
      them indexed by the grown edge store. */
  lemma EdgeDiffIndexed(links: seq<Edge>, es: seq<RawEdge>, vertices: map<int, Vertex>, edges: map<int, Edge>, labels: seq<string>,
                        provenance: Option<int>, edges': map<int, Edge>, labels': seq<string>, diff: seq<Edge>)
    requires Indexes(links, EdgeView, edges)
    requires EdgesMergedUpTo(es, vertices, edges, labels, provenance, |es|, edges', labels', diff,
                             FreshPositions(EdgeIds(es), edges.Keys))
    ensures Indexes(links + diff, EdgeView, edges')
  {
    assert EdgeIds(es)[..|es|] == EdgeIds(es);
    DiffIndexed(links, EdgeView, edges, EdgeIds(es), edges', diff);
  }

  /** `diff.forEach(each => collection.push(each))` */
  method PushEach<T>(c: seq<T>, diff: seq<T>) returns (r: seq<T>)
    ensures r == c + diff
  {
    r := c;
    for k := 0 to |diff|
      invariant r == c + diff[..k]
    {
      r := r + [diff[k]];
      assert diff[..k + 1] == diff[..k] + [diff[k]];
    }
    assert diff[..|diff|] == diff;
  }

  // ---------------------------------------------------------------------
  // Collapsing

  /** The non-root branch of `collapseVertex`: sweep the vertices, then the
      edges, from the collapsed vertex's id. */
  method CollapseChildren(start: int, nodes: seq<Vertex>, vertices: map<int, Vertex>, links: seq<Edge>, edges: map<int, Edge>)
    returns (nodes': seq<Vertex>, vertices': map<int, Vertex>, links': seq<Edge>, edges': map<int, Edge>,
             affectedVertices: nat, affectedEdges: nat, ghost sweptVertices: set<int>, ghost sweptEdges: set<int>)
    ensures LeastClosed(start, nodes, VertexView, sweptVertices)
    ensures nodes' == Survivors(nodes, VertexView, sweptVertices)
    ensures vertices' == vertices - RemovedIds(nodes, VertexView, sweptVertices)
    ensures LeastClosed(start, links, EdgeView, sweptEdges)
    ensures links' == Survivors(links, EdgeView, sweptEdges)
    ensures edges' == edges - RemovedIds(links, EdgeView, sweptEdges)
    ensures affectedVertices == |nodes| - |nodes'| && affectedEdges == |links| - |links'|
  {
    nodes', vertices', affectedVertices, sweptVertices := DeleteChildren(start, nodes, vertices, VertexView);
    links', edges', affectedEdges, sweptEdges := DeleteChildren(start, links, edges, EdgeView);
  }

  /** The same, for collections indexed by their stores: they stay indexed. */
  method CollapseIndexed(start: int, nodes: seq<Vertex>, vertices: map<int, Vertex>, links: seq<Edge>, edges: map<int, Edge>)
    returns (nodes': seq<Vertex>, vertices': map<int, Vertex>, links': seq<Edge>, edges': map<int, Edge>,
             affectedVertices: nat, affectedEdges: nat)
    requires Indexes(nodes, VertexView, vertices) && Indexes(links, EdgeView, edges)
    ensures Indexes(nodes', VertexView, vertices') && Indexes(links', EdgeView, edges')
    ensures IdSet(nodes', VertexView) <= IdSet(nodes, VertexView) && IdSet(links', EdgeView) <= IdSet(links, EdgeView)
    ensures SubMap(edges', edges)
    ensures affectedVertices == |nodes| - |nodes'| && affectedEdges == |links| - |links'|
  {
    ghost var sv, se;
    nodes', vertices', links', edges', affectedVertices, affectedEdges, sv, se := CollapseChildren(start, nodes, vertices, links, edges);
    SweepKeepsIndex(nodes, VertexView, vertices, sv);
    SweepKeepsIndex(links, EdgeView, edges, se);
    SurvivorIdsWithin(nodes, VertexView, sv);
    SurvivorIdsWithin(links, EdgeView, se);
  }

  /** The root branch of `collapseVertex`: `forEach` over the live edges,
      which visits the indices below the original length that are still
      present while the sweeps splice the same array.  For each visited
      edge whose source (then target) is a child of the root, that
      endpoint's children are swept, vertices first. */
  method CollapseRootChildren(root: int, nodes: seq<Vertex>, vertices: map<int, Vertex>, links: seq<Edge>, edges: map<int, Edge>)
    returns (nodes': seq<Vertex>, vertices': map<int, Vertex>, links': seq<Edge>, edges': map<int, Edge>,
             affectedVertices: nat, affectedEdges: nat)
    requires Indexes(nodes, VertexView, vertices) && Indexes(links, EdgeView, edges)
    ensures Indexes(nodes', VertexView, vertices') && Indexes(links', EdgeView, edges')
    ensures IdSet(nodes', VertexView) <= IdSet(nodes, VertexView) && IdSet(links', EdgeView) <= IdSet(links, EdgeView)
    ensures SubMap(edges', edges)
    ensures affectedVertices == |nodes| - |nodes'| && affectedEdges == |links| - |links'|
  {
    nodes', vertices', links', edges' := nodes, vertices, links, edges;
    affectedVertices, affectedEdges := 0, 0;
    var k := 0;
    while k < |links'|
      invariant Indexes(nodes', VertexView, vertices') && Indexes(links', EdgeView, edges')
      invariant IdSet(nodes', VertexView) <= IdSet(nodes, VertexView) && IdSet(links', EdgeView) <= IdSet(links, EdgeView)
      invariant SubMap(edges', edges)
      invariant affectedVertices == |nodes| - |nodes'| && affectedEdges == |links| - |links'|
      decreases |links'| - k
    {
      var each := links'[k];
      var av, ae;
      if each.source.parentVertexId == Some(root) {
        nodes', vertices', links', edges', av, ae := CollapseIndexed(each.source.id, nodes', vertices', links', edges');
        affectedVertices, affectedEdges := affectedVertices + av, affectedEdges + ae;
      }
      if each.target.parentVertexId == Some(root) {
        nodes', vertices', links', edges', av, ae := CollapseIndexed(each.target.id, nodes', vertices', links', edges');
        affectedVertices, affectedEdges := affectedVertices + av, affectedEdges + ae;
      }
      k := k + 1;
    }
  }

  // ---------------------------------------------------------------------
  // Merging a batch into the viewer's collections

  /** `processedData`: the id-keyed stores and the label lists that
      `_processData` returns and the viewer keeps (the diffs are handed
      back on their own). */
  datatype Processed = Processed(vertices: map<int, Vertex>, edges: map<int, Edge>, labels: Labels)

  /** What `_processData` did with a batch: the vertex and edge stores grew
      by the batch's ids, and the diffs hold the records built at the fresh
      positions, in order, with their labels registered. */
  ghost predicate Merged(batch: Batch, p: Processed, provenance: Option<int>, p': Processed,
                         newVertices: seq<Vertex>, newEdges: seq<Edge>)
  {
    && VerticesMergedUpTo(batch.vertices, p.vertices, p.labels.vertex, provenance, |batch.vertices|,
                          p'.vertices, p'.labels.vertex, newVertices, FreshPositions(VertexIds(batch.vertices), p.vertices.Keys))
    && EdgesMergedUpTo(batch.edges, p'.vertices, p.edges, p.labels.edge, provenance, |batch.edges|,
                       p'.edges, p'.labels.edge, newEdges, FreshPositions(EdgeIds(batch.edges), p.edges.Keys))
  }

  /** `_processData` followed by pushing the diffs onto the live
      collections: collections indexed by the stores stay indexed. */
  method MergeIndexed(batch: Batch, nodes: seq<Vertex>, links: seq<Edge>, p: Processed, provenance: Option<int>)
    returns (nodes': seq<Vertex>, links': seq<Edge>, p': Processed, newVertices: seq<Vertex>, newEdges: seq<Edge>)
    requires Indexes(nodes, VertexView, p.vertices) && Indexes(links, EdgeView, p.edges)
    requires EndpointsResolve(batch, p.vertices.Keys, p.edges.Keys)
    ensures Merged(batch, p, provenance, p', newVertices, newEdges)
    ensures nodes' == nodes + newVertices && links' == links + newEdges
    ensures Indexes(nodes', VertexView, p'.vertices) && Indexes(links', EdgeView, p'.edges)
  {
    var vertices, edges, labels;
    vertices, edges, labels, newVertices, newEdges := ProcessData(batch, p.vertices, p.edges, p.labels, provenance);
    VertexDiffIndexed(nodes, batch.vertices, p.vertices, p.labels.vertex, provenance, vertices, labels.vertex, newVertices);
    EdgeDiffIndexed(links, batch.edges, vertices, p.edges, p.labels.edge, provenance, edges, labels.edge, newEdges);
    p' := Processed(vertices, edges, labels);
    nodes' := PushEach(nodes, newVertices);
    links' := PushEach(links, newEdges);
  }

  /** The batch `addEdge` merges is accepted when the edge is known or both
      of its endpoints are stored. */
  lemma SingleEdgeResolves(e: RawEdge, vertexIds: set<int>, edgeIds: set<int>)
    requires e.id !in edgeIds ==> e.headId in vertexIds && e.tailId in vertexIds
    ensures EndpointsResolve(Batch([], [e]), vertexIds, edgeIds)
  {
    assert EdgeIds([e])[..0] == [];
  }

  /** Merging a batch of one edge without provenance: the vertices and their
      labels are untouched; a known edge changes nothing; a new one is
      stored under its id, built between its stored endpoints, and its label
      registered. */
  lemma SingleEdgeMerged(e: RawEdge, p: Processed, p': Processed, nv: seq<Vertex>, ne: seq<Edge>)
    requires Merged(Batch([], [e]), p, None, p', nv, ne)
    ensures p'.vertices == p.vertices && nv == [] && p'.labels.vertex == p.labels.vertex
    ensures e.id in p.edges ==> p' == p && ne == []
    ensures e.id !in p.edges ==>
      && |ne| == 1 && BuiltEdge(ne[0], e, p.vertices, None)
      && p'.edges == p.edges[e.id := ne[0]] && p'.labels.edge == Register(p.labels.edge, e.labelName)
  {
    NoVerticesMerged(p.vertices, p.labels.vertex, p'.vertices, p'.labels.vertex, nv);
    OneEdgeMerged(e, p'.vertices, p.edges, p.labels.edge, p'.edges, p'.labels.edge, ne);
  }

  /** A batch without vertices leaves the vertex store and labels as they are. */
  lemma NoVerticesMerged(vertices: map<int, Vertex>, labels: seq<string>, vertices': map<int, Vertex>, labels': seq<string>, nv: seq<Vertex>)
    requires VerticesMergedUpTo([], vertices, labels, None, 0, vertices', labels', nv, FreshPositions(VertexIds([]), vertices.Keys))
    ensures vertices' == vertices && nv == [] && labels' == labels
  {
    var noIds := VertexIds([]);
    assert noIds == [] && noIds[..0] == [];
    assert Elems(noIds[..0]) == {};
    assert FreshPositions(noIds[..0], vertices.Keys) == [];
    StoreSame(vertices, vertices');
  }

  /** Merging the edges of a one-edge batch: a known edge changes nothing;
      a new one is built, stored under its id and its label registered. */
  lemma OneEdgeMerged(e: RawEdge, vertices: map<int, Vertex>, edges: map<int, Edge>, labels: seq<string>,
                      edges': map<int, Edge>, labels': seq<string>, ne: seq<Edge>)
    requires EdgesMergedUpTo([e], vertices, edges, labels, None, 1, edges', labels', ne, FreshPositions(EdgeIds([e]), edges.Keys))
    ensures e.id in edges ==> edges' == edges && labels' == labels && ne == []
    ensures e.id !in edges ==>
      && |ne| == 1 && BuiltEdge(ne[0], e, vertices, None)
      && edges' == edges[e.id := ne[0]] && labels' == Register(labels, e.labelName)
  {
    var ids := EdgeIds([e]);
    assert ids == [e.id] && ids[..1] == ids;
    assert Elems(ids) == {e.id};
    var ps := FreshPositions(ids, edges.Keys);
    FreshSingle(e.id, edges.Keys);
    if e.id !in edges {
      assert EdgeLabelsAt([e], ps) == [e.labelName];
      assert RegisterAll(labels, [e.labelName]) == Register(RegisterAll(labels, []), e.labelName);
      assert edges'.Keys == edges.Keys + {e.id};
      assert ps == [0] && |ne| == 1 && BuiltEdge(ne[0], e, vertices, None);
      StorePut(edges, edges', e.id, ne[0]);
    } else {
      assert EdgeLabelsAt([e], ps) == [];
      assert edges'.Keys == edges.Keys;
      StoreSame(edges, edges');
    }
  }

  lemma FreshSingle(id: int, known: set<int>)
    ensures FreshPositions([id], known) == if id in known then [] else [0]
  {
    assert [id][..0] == [];
  }

  lemma StoreSame<T>(store: map<int, T>, store': map<int, T>)
    requires store'.Keys == store.Keys && forall id :: id in store ==> store'[id] == store[id]
    ensures store' == store
  {
    assert forall id | id in store' :: store'[id] == store[id];
  }

  lemma StorePut<T>(store: map<int, T>, store': map<int, T>, id: int, v: T)
    requires store'.Keys == store.Keys + {id} && id !in store && store'[id] == v
    requires forall i :: i in store ==> store'[i] == store[i]
    ensures store' == store[id := v]
  {
    assert forall i | i in store' :: store'[i] == store[id := v][i];
  }

  /** Records created by a merge start visible and with no visibly connected
      edges, so the viewer drops whatever state their ids had; that keeps
      the base vertex visible and the lists free of repeats. */
  lemma ForgetKeeps(visible: map<int, bool>, connected: map<int, seq<int>>, born: set<int>, base: int)
    requires VisibleOf(visible, base) && NoDupLists(connected)
    ensures VisibleOf(visible - born, base) && NoDupLists(connected - born)
  {
    forall id ensures NoDup(ConnectedOf(connected - born, id)) {
      assert NoDup(ConnectedOf(connected, id));
    }
  }

  /** The invariant of the viewer's state: the live collections are indexed
      by the stores, the base vertex is visible, no list of visibly
      connected edges holds an id twice, and every id in such a list names a
      stored edge touching the list's vertex. */
  ghost predicate Consistent(nodes: seq<Vertex>, links: seq<Edge>, p: Processed, d: Display, base: int) {
    && Indexes(nodes, VertexView, p.vertices)
    && Indexes(links, EdgeView, p.edges)
    && VisibleOf(d.vertexVisible, base)
    && NoDupLists(d.connected)
    && ListsLive(d.connected, p.edges)
  }

  /** A merge into the live viewer state: the records it creates start
      visible and with no visibly connected edges, so whatever state their
      ids had is dropped. */
  method MergeLive(batch: Batch, nodes: seq<Vertex>, links: seq<Edge>, p: Processed, d: Display, base: int, provenance: Option<int>)
    returns (nodes': seq<Vertex>, links': seq<Edge>, p': Processed, d': Display, newVertices: seq<Vertex>, newEdges: seq<Edge>)
    requires Consistent(nodes, links, p, d, base)
    requires EndpointsResolve(batch, p.vertices.Keys, p.edges.Keys)
    ensures Merged(batch, p, provenance, p', newVertices, newEdges)
    ensures nodes' == nodes + newVertices && links' == links + newEdges
    ensures var born := IdSet(newVertices, VertexView);
      d' == Display(d.status, d.vertexVisible - born, d.connected - born, d.edgeVisible - IdSet(newEdges, EdgeView))
    ensures Consistent(nodes', links', p', d', base)
  {
    nodes', links', p', newVertices, newEdges := MergeIndexed(batch, nodes, links, p, provenance);
    var born := IdSet(newVertices, VertexView);
    ForgetKeeps(d.vertexVisible, d.connected, born, base);
    assert StoreGrown(p.edges, EdgeIds(batch.edges), |batch.edges|, p'.edges);
    ListsLiveShrink(d.connected, p.edges, born, p'.edges);
    d' := Display(d.status, d.vertexVisible - born, d.connected - born, d.edgeVisible - IdSet(newEdges, EdgeView));
  }

  /** The merge `start` runs on the initial data, into empty stores and
      collections, with the base vertex as provenance. */
  method FirstMerge(data: Batch, base: int) returns (nodes: seq<Vertex>, links: seq<Edge>, p: Processed)
    requires EndpointsResolve(data, {}, {})
    ensures Merged(data, Processed(map[], map[], Labels([], [])), Some(base), p, nodes, links)
    ensures Consistent(nodes, links, p, Display(map[], map[], map[], map[]), base)
  {
    var empty := Processed(map[], map[], Labels([], []));
    assert empty.vertices.Keys == {} && empty.edges.Keys == {};
    IndexesEmpty(VertexView);
    IndexesEmpty(EdgeView);
    var ns, ls;
    ns, ls, p, nodes, links := MergeIndexed(data, [], [], empty, Some(base));
    assert [] + nodes == nodes && [] + links == links;
    NoListsLive(p.edges);
  }

  /** With no lists at all, every list trivially names live edges. */
  lemma NoListsLive(edges: map<int, Edge>)
    ensures NoDupLists(map[]) && ListsLive(map[], edges)
  {
    assert forall w :: ConnectedOf(map[], w) == [];
  }

  // ---------------------------------------------------------------------
  // The visibility pass, imperatively

  /** The vertex callback of `_updateElementsVisibility`. */
  method MarkStep(d: Display, each: Vertex, base: int) returns (r: Display)
    ensures r == MarkVertex(d, each, base)
  {
    var status, visible := d.status, d.vertexVisible;
    if (VertexType, each.labelName) !in status {
      status := status[(VertexType, each.labelName) := true];
    }
    visible := visible[each.id := status[(VertexType, each.labelName)]];
    if each.id == base {
      visible := visible[each.id := true];
    }
    r := Display(status, visible, d.connected, d.edgeVisible);
  }

  /** The edge callback's update of one endpoint's list of visibly
      connected edges. */
  method Connect(connected: map<int, seq<int>>, v: int, eid: int, shown: bool) returns (r: map<int, seq<int>>)
    ensures r == if shown then Link(connected, v, eid) else Unlink(connected, v, eid)
  {
    r := connected;
    if !shown {
      if eid in ConnectedOf(r, v) {
        r := r[v := RemoveFirst(ConnectedOf(r, v), eid)];
      }
    } else {
      if eid !in ConnectedOf(r, v) {
        r := r[v := ConnectedOf(r, v) + [eid]];
      }
    }
  }

  /** The edge callback of `_updateElementsVisibility`. */
  method ShowStep(d: Display, each: Edge, base: int) returns (r: Display)
    ensures r == ShowLink(d, each, base)
  {
    var status, visible, connected := d.status, d.vertexVisible, d.connected;
    var s, t := each.source.id, each.target.id;
    if (EdgeType, each.labelName) !in status {
      status := status[(EdgeType, each.labelName) := true];
    }
    var shown := status[(EdgeType, each.labelName)];
    if !VisibleOf(visible, s) || !VisibleOf(visible, t) {
      shown := false;
    }
    connected := Connect(connected, s, each.id, shown);
    connected := Connect(connected, t, each.id, shown);
    if |ConnectedOf(connected, s)| == 0 || |ConnectedOf(connected, t)| == 0 {
      shown := false;
    }
    if s == base {
      visible := visible[s := true];
    }
    if t == base {
      visible := visible[t := true];
    }
    r := Display(status, visible, connected, d.edgeVisible[each.id := shown]);
  }

  /** The loop over the live vertices. */
  method MarkAll(d: Display, nodes: seq<Vertex>, base: int) returns (r: Display)
    ensures r == MarkVertices(d, nodes, base)
  {
    r := d;
    for k := 0 to |nodes|
      invariant r == MarkVertices(d, nodes[..k], base)
    {
      r := MarkStep(r, nodes[k], base);
      assert nodes[..k + 1][..k] == nodes[..k];
    }
    assert nodes[..|nodes|] == nodes;
  }

  /** The loop over the live edges. */
  method ShowAll(d: Display, links: seq<Edge>, base: int) returns (r: Display)
    ensures r == ShowLinks(d, links, base)
  {
    r := d;
    for k := 0 to |links|
      invariant r == ShowLinks(d, links[..k], base)
    {
      r := ShowStep(r, links[k], base);
      assert links[..k + 1][..k] == links[..k];
    }
    assert links[..|links|] == links;
  }

  /** `_updateElementsVisibility` on the viewer's state: one pass over the
      live vertices, then one over the live edges. */
  method VisibilityPass(nodes: seq<Vertex>, links: seq<Edge>, p: Processed, d: Display, base: int) returns (r: Display)
    requires Consistent(nodes, links, p, d, base)
    ensures r == UpdateVisibility(d, nodes, links, base)
    ensures Consistent(nodes, links, p, r, base) && Shows(r, nodes, links, base)
    ensures forall t, n :: Toggle(r.status, t, n) == Toggle(d.status, t, n)
  {
    r := MarkAll(d, nodes, base);
    MarkVerticesSpec(d, nodes, base);
    assert forall k :: 0 <= k < |links| ==> links[k].id in p.edges && p.edges[links[k].id] == links[k] by {
      forall k | 0 <= k < |links| ensures links[k].id in p.edges && p.edges[links[k].id] == links[k] {
        assert EdgeView(links[k]).id == links[k].id && links[k].id in IdSet(links, EdgeView);
      }
    }
    ShowLinksLive(r, links, base, p.edges);
    r := ShowAll(r, links, base);
    UpdateVisibilityShows(d, nodes, links, base);
  }

  /** A merge followed by the visibility pass, on the viewer's state. */
  method MergeAndShow(batch: Batch, nodes: seq<Vertex>, links: seq<Edge>, p: Processed, d: Display, base: int, provenance: Option<int>)
    returns (nodes': seq<Vertex>, links': seq<Edge>, p': Processed, d': Display, newVertices: seq<Vertex>, newEdges: seq<Edge>)
    requires Consistent(nodes, links, p, d, base)
    requires EndpointsResolve(batch, p.vertices.Keys, p.edges.Keys)
    ensures Merged(batch, p, provenance, p', newVertices, newEdges)
    ensures nodes' == nodes + newVertices && links' == links + newEdges
    ensures Consistent(nodes', links', p', d', base) && Shows(d', nodes', links', base)
    ensures forall t, n :: Toggle(d'.status, t, n) == Toggle(d.status, t, n)
  {
    nodes', links', p', d', newVertices, newEdges := MergeLive(batch, nodes, links, p, d, base, provenance);
    d' := VisibilityPass(nodes', links', p', d', base);
  }

  // ---------------------------------------------------------------------
  // The isolation rule

  /** After the pass, an id in a vertex's list of visibly connected edges
      names a live edge that touches the vertex and is drawn. */
  lemma ListedEdgeDrawn(nodes: seq<Vertex>, links: seq<Edge>, p: Processed, d: Display, base: int, w: int, x: int)
    requires Consistent(nodes, links, p, d, base) && Shows(d, nodes, links, base)
    requires x in ConnectedOf(d.connected, w)
    ensures exists j :: 0 <= j < |links| && links[j].id == x && Touches(links[j], w) && EdgeOpacity(d, links[j]) == 1
  {
    assert x in p.edges && Touches(p.edges[x], w);
    assert x in IdSet(links, EdgeView);
    var j :| 0 <= j < |links| && EdgeView(links[j]).id == x;
    assert EdgeShown(d, links[j]);
  }

  /** After the pass, a vertex other than the base vertex is hidden exactly
      when none of the live edges touching it is drawn. */
  lemma IsolatedVertexHidden(nodes: seq<Vertex>, links: seq<Edge>, p: Processed, d: Display, base: int, k: nat)
    requires Consistent(nodes, links, p, d, base) && Shows(d, nodes, links, base)
    requires k < |nodes| && nodes[k].id != base
    ensures VertexOpacity(d, nodes[k], base) == 0 <==>
      forall j :: 0 <= j < |links| && Touches(links[j], nodes[k].id) ==> EdgeOpacity(d, links[j]) == 0
  {
    var v := nodes[k].id;
    if VertexOpacity(d, nodes[k], base) == 1 {
      ListedEdgeDrawn(nodes, links, p, d, base, v, ConnectedOf(d.connected, v)[0]);
    }
    forall j | 0 <= j < |links| && Touches(links[j], v) && EdgeOpacity(d, links[j]) == 1
      ensures VertexOpacity(d, nodes[k], base) == 1
    {
      assert EdgeShown(d, links[j]);
    }
  }

  /** From a blank display, a pass over the path 1 -> 2 -> 3 lists both
      edges at the middle vertex and leaves the vertex label switched on. */
  lemma PathPassLists(v1: Vertex, v2: Vertex, v3: Vertex, e10: Edge, e20: Edge)
    requires v1.id == 1 && v2.id == 2 && v3.id == 3
    requires e10 == Edge(10, "a", v1, v2, Some(1)) && e20 == Edge(20, "b", v2, v3, Some(2))
    ensures var d0 := UpdateVisibility(Display(map[], map[], map[], map[]), [v1, v2, v3], [e10, e20], 1);
      ConnectedOf(d0.connected, 2) == [10, 20] && Toggle(d0.status, VertexType, "person")
  {
    var m0 := MarkVertices(Display(map[], map[], map[], map[]), [v1, v2, v3], 1);
    BlankMarks([v1, v2, v3], 1);
    assert VisibleOf(m0.vertexVisible, [v1, v2, v3][0].id) && VisibleOf(m0.vertexVisible, [v1, v2, v3][1].id);
    assert VisibleOf(m0.vertexVisible, [v1, v2, v3][2].id);
    assert Toggle(m0.status, EdgeType, "a") && Toggle(m0.status, EdgeType, "b") && Toggle(m0.status, VertexType, "person");
    TwoEdgesListed(m0, e10, e20, 2, 1);
    assert [e10, e20][..1] == [e10] && [e10][..0] == [] && ShowLinks(m0, [], 1) == m0;
    assert ShowLinks(m0, [e10], 1) == ShowLink(m0, e10, 1);
    assert ShowLinks(m0, [e10, e20], 1) == ShowLink(ShowLink(m0, e10, 1), e20, 1);
  }

  /** Two edges with their labels on and visible endpoints, meeting at vertex
      `mid` whose list starts empty, end up listed at `mid` in order. */
  lemma TwoEdgesListed(d: Display, e1: Edge, e2: Edge, mid: int, base: int)
    requires ConnectedOf(d.connected, mid) == [] && e1.id != e2.id
    requires e1.target.id == mid && e2.source.id == mid
    requires Toggle(d.status, EdgeType, e1.labelName) && Toggle(d.status, EdgeType, e2.labelName)
    requires VisibleOf(d.vertexVisible, e1.source.id) && VisibleOf(d.vertexVisible, mid) && VisibleOf(d.vertexVisible, e2.target.id)
    ensures var r := ShowLink(ShowLink(d, e1, base), e2, base);
      ConnectedOf(r.connected, mid) == [e1.id, e2.id] && forall t, n :: Toggle(r.status, t, n) == Toggle(d.status, t, n)
  {
    OnEdgeLinks(d, e1, base);
    var a := ShowLink(d, e1, base);
    assert ConnectedOf(a.connected, mid) == [e1.id];
    OnEdgeLinks(a, e2, base);
    assert [e1.id] + [e2.id] == [e1.id, e2.id];
  }

  /** The vertex half of a pass from a blank display leaves every vertex
      visible, every label on and no list. */
  lemma BlankMarks(nodes: seq<Vertex>, base: int)
    requires DistinctIds(nodes, VertexView)
    ensures var m := MarkVertices(Display(map[], map[], map[], map[]), nodes, base);
      && m.connected == map[] && m.edgeVisible == map[]
      && (forall k :: 0 <= k < |nodes| ==> VisibleOf(m.vertexVisible, nodes[k].id))
      && (forall t, n :: Toggle(m.status, t, n))
  {
    var blank := Display(map[], map[], map[], map[]);
    MarkVerticesSpec(blank, nodes, base);
    var m := MarkVertices(blank, nodes, base);
    forall k | 0 <= k < |nodes| ensures VisibleOf(m.vertexVisible, nodes[k].id) {
      assert VertexShown(m, nodes[k], base);
      assert Toggle(blank.status, VertexType, nodes[k].labelName);
    }
  }

  /** The as-written `removeVertex` (and likewise `collapseVertex`) leaves a
      removed edge's id in the surviving endpoint's list of visibly
      connected edges.  Vertex 2 hangs off the base vertex 1 by edge 10 and
      has a child 3 by edge 20; after a pass its list is [10, 20].  Vertex 3
      is removed with edge 20, and the label of edge 10 is switched off:
      edge 10 is hidden, yet the list of vertex 2 still holds 20, so vertex
      2 is drawn although none of its edges is.  Dropping the removed id from
      the lists hides it. */
  lemma StaleListAfterRemove(v1: Vertex, v2: Vertex, v3: Vertex, e10: Edge, e20: Edge)
    requires v1 == Vertex(1, "person", FromId(1), 0, 1, None)
    requires v2 == Vertex(2, "person", FromId(2), 1, 1, Some(1))
    requires v3 == Vertex(3, "person", FromId(3), 1, 0, Some(2))
    requires e10 == Edge(10, "a", v1, v2, Some(1)) && e20 == Edge(20, "b", v2, v3, Some(2))
    ensures var d0 := UpdateVisibility(Display(map[], map[], map[], map[]), [v1, v2, v3], [e10, e20], 1);
      var off := d0.status[(EdgeType, "a") := false];
      var stale := UpdateVisibility(d0.(status := off), [v1, v2], Unattached([e10, e20], 3), 1);
      var purged := UpdateVisibility(d0.(status := off, connected := Purge(d0.connected, {10})), [v1, v2], Unattached([e10, e20], 3), 1);
      && ConnectedOf(d0.connected, 2) == [10, 20]
      && Unattached([e10, e20], 3) == [e10] && IncidentIds([e10, e20], 3) == {20}
      && EdgeOpacity(stale, e10) == 0 && ConnectedOf(stale.connected, 2) == [20] && VertexOpacity(stale, v2, 1) == 1
      && EdgeOpacity(purged, e10) == 0 && VertexOpacity(purged, v2, 1) == 0
  {
    PathPassLists(v1, v2, v3, e10, e20);
    var d0 := UpdateVisibility(Display(map[], map[], map[], map[]), [v1, v2, v3], [e10, e20], 1);
    // vertex 3 goes with edge 20
    UnattachedPath(e10, e20, 3);
    SecondPassStale(d0, v1, v2, e10);
    SecondPassPurged(d0, v1, v2, e10);
  }

  /** The second pass of the counterexample, as written: with the label of
      edge 10 off, vertex 2 keeps the stale id 20 and stays drawn. */
  lemma SecondPassStale(d0: Display, v1: Vertex, v2: Vertex, e10: Edge)
    requires v1 == Vertex(1, "person", FromId(1), 0, 1, None)
    requires v2 == Vertex(2, "person", FromId(2), 1, 1, Some(1))
    requires e10 == Edge(10, "a", v1, v2, Some(1))
    requires ConnectedOf(d0.connected, 2) == [10, 20] && Toggle(d0.status, VertexType, "person")
    ensures var stale := UpdateVisibility(d0.(status := d0.status[(EdgeType, "a") := false]), [v1, v2], [e10], 1);
      EdgeOpacity(stale, e10) == 0 && ConnectedOf(stale.connected, 2) == [20] && VertexOpacity(stale, v2, 1) == 1
  {
    var off := d0.status[(EdgeType, "a") := false];
    assert Toggle(off, VertexType, "person") && !Toggle(off, EdgeType, "a");
    OffPassOnPath(d0.(status := off), v1, v2, e10);
    assert RemoveFirst([10, 20], 10) == [20];
  }

  /** The second pass of the counterexample with edge 20 dropped from the
      lists first: vertex 2 is left with no drawn edge and is hidden. */
  lemma SecondPassPurged(d0: Display, v1: Vertex, v2: Vertex, e10: Edge)
    requires v1 == Vertex(1, "person", FromId(1), 0, 1, None)
    requires v2 == Vertex(2, "person", FromId(2), 1, 1, Some(1))
    requires e10 == Edge(10, "a", v1, v2, Some(1))
    requires ConnectedOf(d0.connected, 2) == [10, 20] && Toggle(d0.status, VertexType, "person")
    ensures var purged := UpdateVisibility(d0.(status := d0.status[(EdgeType, "a") := false], connected := Purge(d0.connected, {10})), [v1, v2], [e10], 1);
      EdgeOpacity(purged, e10) == 0 && VertexOpacity(purged, v2, 1) == 0
  {
    var off := d0.status[(EdgeType, "a") := false];
    assert Toggle(off, VertexType, "person") && !Toggle(off, EdgeType, "a");
    var kept := Purge(d0.connected, {10});
    assert ConnectedOf(kept, 2) == [10] by {
      assert Keep([10, 20], {10}) == [10] by {
        assert [10, 20][1..] == [20] && [20][1..] == [];
      }
    }
    OffPassOnPath(d0.(status := off, connected := kept), v1, v2, e10);
    assert RemoveFirst([10], 10) == [];
  }

  /** A pass over vertices 1 (the base) and 2 and the single edge 10 between
      them, with the label of edge 10 switched off: the edge is hidden, its
      id leaves the list of vertex 2, and vertex 2 is drawn exactly when
      that list still holds something. */
  lemma OffPassOnPath(d: Display, v1: Vertex, v2: Vertex, e10: Edge)
    requires v1 == Vertex(1, "person", FromId(1), 0, 1, None)
    requires v2 == Vertex(2, "person", FromId(2), 1, 1, Some(1))
    requires e10 == Edge(10, "a", v1, v2, Some(1))
    requires !Toggle(d.status, EdgeType, "a") && Toggle(d.status, VertexType, "person")
    ensures var r := UpdateVisibility(d, [v1, v2], [e10], 1);
      var rest := RemoveFirst(ConnectedOf(d.connected, 2), 10);
      && EdgeOpacity(r, e10) == 0
      && ConnectedOf(r.connected, 2) == rest
      && VertexOpacity(r, v2, 1) == (if |rest| == 0 then 0 else 1)
  {
    PassOverOffEdge(d, [v1, v2], e10, 1);
    assert [v1, v2][1] == v2;
  }

  /** Removing the far endpoint of the second of two edges keeps the first. */
  lemma UnattachedPath(e1: Edge, e2: Edge, vid: int)
    requires !Touches(e1, vid) && Touches(e2, vid)
    ensures Unattached([e1, e2], vid) == [e1] && IncidentIds([e1, e2], vid) == {e2.id}
  {
    assert [e1, e2][..1] == [e1] && [e1][..0] == [];
    assert Unattached([e1], vid) == [e1] && IncidentIds([e1], vid) == {};
  }

  /** `removeVertex` on the viewer's state, with each removed edge's own id
      deleted from the edge store and dropped from every list of visibly
      connected edges: removing a live vertex keeps the state consistent. */
  method RemoveLive(d: Vertex, nodes: seq<Vertex>, links: seq<Edge>, p: Processed, disp: Display, base: int)
    returns (nodes': seq<Vertex>, links': seq<Edge>, p': Processed, disp': Display, affected: nat)
    requires Consistent(nodes, links, p, disp, base)
    ensures affected + |links'| == |links| && links' == Unattached(links, d.id)
    ensures nodes' == SpliceOut(nodes, d)
    ensures p' == Processed(p.vertices - {d.id}, p.edges - IncidentIds(links, d.id), p.labels)
    ensures disp' == disp.(connected := Purge(disp.connected, p'.edges.Keys))
    ensures d in nodes ==> Consistent(nodes', links', p', disp', base)
  {
    UnattachedKeepsIndex(links, d.id, p.edges);
    if d in nodes {
      IndexesRemoveAt(nodes, VertexView, p.vertices, IndexOf(nodes, d));
    }
    var es;
    links', es, affected := DetachEdges(links, p.edges, d.id);
    nodes', p' := SpliceOut(nodes, d), Processed(p.vertices - {d.id}, es, p.labels);
    PurgeKeeps(disp.connected, p.edges, es);
    disp' := disp.(connected := Purge(disp.connected, es.Keys));
  }

  // ---------------------------------------------------------------------
  // The viewer

  /** The live collections the force layout simulates. */
  datatype Layout = Layout(nodes: seq<Vertex>, links: seq<Edge>)

  class RurukiEye {
    const baseNodeId: int
    /** `config.expand !== false` */
    const expandEnabled: bool
    /** The emitter the viewer extends. */
    const emitter: EventEmitter
    /** The force layout's `nodes()` and `links()`: the records drawn on
        screen. */
    var force: Layout
    var processedData: Processed
    /** The inspector's toggles (`inspector.status`) and the visibility
        state of the records. */
    var display: Display

    ghost predicate Valid()
      reads this
    {
      Consistent(force.nodes, force.links, processedData, display, baseNodeId)
    }

    /** `start`, once the initial data has arrived: merge it with the base
        vertex as provenance and draw every record. */
    constructor Start(data: Batch, centerId: int, expand: bool)
      requires EndpointsResolve(data, {}, {})
      ensures baseNodeId == centerId && expandEnabled == expand
      ensures fresh(emitter) && emitter.events == map[]
      ensures Merged(data, Processed(map[], map[], Labels([], [])), Some(centerId), processedData, force.nodes, force.links)
      ensures display == Display(map[], map[], map[], map[])
      ensures Valid()
    {
      baseNodeId, expandEnabled := centerId, expand;
      var ns, ls, p := FirstMerge(data, centerId);
      force, processedData := Layout(ns, ls), p;
      display := Display(map[], map[], map[], map[]);
      emitter := new EventEmitter();
    }

    /** `_updateElementsVisibility`: one pass over the live vertices, then
        one over the live edges. */
    method UpdateElementsVisibility()
      requires Valid()
      modifies this
      ensures display == UpdateVisibility(old(display), force.nodes, force.links, baseNodeId)
      ensures force == old(force) && processedData == old(processedData)
      ensures Valid() && Shows(display, force.nodes, force.links, baseNodeId)
      ensures forall t, n :: Toggle(display.status, t, n) == Toggle(old(display).status, t, n)
    {
      display := VisibilityPass(force.nodes, force.links, processedData, display, baseNodeId);
    }

    /** A click on an inspector label: flip its toggle (the label's
        `disabled` class mirrors an off toggle) and run the visibility pass. */
    method ToggleLabel(t: ElementType, labelName: string)
      requires Valid()
      modifies this
      ensures Toggle(display.status, t, labelName) == !Toggle(old(display).status, t, labelName)
      ensures forall t', n :: (t', n) != (t, labelName) ==> Toggle(display.status, t', n) == Toggle(old(display).status, t', n)
      ensures force == old(force) && processedData == old(processedData)
      ensures Valid() && Shows(display, force.nodes, force.links, baseNodeId)
    {
      var status := display.status;
      display := display.(status := status[(t, labelName) := !Toggle(status, t, labelName)]);
      UpdateElementsVisibility();
    }

    /** Fold a batch into `processedData`, push the diffs onto the live
        collections, start the new records visible and unconnected, and run
        the visibility pass. */
    method MergeBatch(batch: Batch, provenance: Option<int>) returns (newVertices: seq<Vertex>, newEdges: seq<Edge>)
      requires Valid() && EndpointsResolve(batch, processedData.vertices.Keys, processedData.edges.Keys)
      modifies this
      ensures Merged(batch, old(processedData), provenance, processedData, newVertices, newEdges)
      ensures force.nodes == old(force).nodes + newVertices && force.links == old(force).links + newEdges
      ensures Valid() && Shows(display, force.nodes, force.links, baseNodeId)
      ensures forall t, n :: Toggle(display.status, t, n) == Toggle(old(display).status, t, n)
    {
      var ns, ls, p, d;
      ns, ls, p, d, newVertices, newEdges := MergeAndShow(batch, force.nodes, force.links, processedData, display, baseNodeId, provenance);
      force, processedData, display := Layout(ns, ls), p, d;
    }

    /** `expandVertex` up to the fetch: nothing happens when expanding is
        switched off; otherwise the 'expand' event is emitted, and the vertex
        data is fetched only when no listener settled it. */
    method ExpandVertex(d: Vertex, respond: Listener -> JsValue) returns (fetch: bool)
      modifies emitter
      ensures !expandEnabled ==> !fetch && emitter.events == old(emitter.events)
      ensures expandEnabled ==>
        var r := Dispatch(Registered(old(emitter.events), "expand"), 0, respond);
        && fetch == (r.result == Undefined)
        && emitter.events == (if "expand" in old(emitter.events) then old(emitter.events)["expand" := r.remaining] else old(emitter.events))
    {
      if !expandEnabled {
        return false;
      }
      var result, called := emitter.Emit("expand", respond);
      fetch := result == Undefined;
    }

    /** The callback of the fetch started by `expandVertex(d)`: merge the
        fetched data with `d` as provenance. */
    method MergeExpansion(d: Vertex, batch: Batch) returns (newVertices: seq<Vertex>, newEdges: seq<Edge>)
      requires Valid() && EndpointsResolve(batch, processedData.vertices.Keys, processedData.edges.Keys)
      modifies this
      ensures Merged(batch, old(processedData), Some(d.id), processedData, newVertices, newEdges)
      ensures force.nodes == old(force).nodes + newVertices && force.links == old(force).links + newEdges
      ensures Valid() && Shows(display, force.nodes, force.links, baseNodeId)
    {
      newVertices, newEdges := MergeBatch(batch, Some(d.id));
    }

    /** `addEdge(e)`: merge a batch of just that edge, without provenance.
        A known edge changes nothing; a new one is appended to the live
        edges, between the stored vertices of its head and tail. */
    method AddEdge(e: RawEdge)
      requires Valid()
      requires e.id !in processedData.edges ==> e.headId in processedData.vertices && e.tailId in processedData.vertices
      modifies this
      ensures force.nodes == old(force).nodes && processedData.vertices == old(processedData).vertices
      ensures processedData.labels.vertex == old(processedData).labels.vertex
      ensures e.id in old(processedData).edges ==> force.links == old(force).links && processedData == old(processedData)
      ensures e.id !in old(processedData).edges ==>
        && |force.links| == |old(force).links| + 1 && force.links[..|old(force).links|] == old(force).links
        && BuiltEdge(force.links[|old(force).links|], e, processedData.vertices, None)
        && processedData.edges == old(processedData).edges[e.id := force.links[|old(force).links|]]
        && processedData.labels.edge == Register(old(processedData).labels.edge, e.labelName)
      ensures Valid() && Shows(display, force.nodes, force.links, baseNodeId)
    {
      SingleEdgeResolves(e, processedData.vertices.Keys, processedData.edges.Keys);
      ghost var p0, ls0 := processedData, force.links;
      var nv, ne := MergeBatch(Batch([], [e]), None);
      SingleEdgeMerged(e, p0, processedData, nv, ne);
      assert force.links == ls0 + ne;
    }

    /** `collapseVertex(d)` as written: nothing happens when expanding is
        switched off.  For a vertex other than the base vertex, every record
        whose provenance leads back to it is swept (see `DeleteChildren`);
        for the base vertex, the children of each of its children are.  The
        visibility state is left as it is, so the lists of visibly connected
        edges may still name swept edges; only the indexing of the live
        collections by the stores is needed, as the code runs on whatever
        state the last operation left. */
    method CollapseVertexAsWritten(d: Vertex)
      returns (affectedVertices: nat, affectedEdges: nat, ghost sweptVertices: set<int>, ghost sweptEdges: set<int>)
      requires Indexes(force.nodes, VertexView, processedData.vertices) && Indexes(force.links, EdgeView, processedData.edges)
      modifies this
      ensures Indexes(force.nodes, VertexView, processedData.vertices) && Indexes(force.links, EdgeView, processedData.edges)
      ensures SubMap(processedData.edges, old(processedData).edges)
      ensures display == old(display) && processedData.labels == old(processedData).labels
      ensures !expandEnabled ==> force == old(force) && processedData == old(processedData)
      ensures |force.nodes| + affectedVertices == |old(force).nodes| && |force.links| + affectedEdges == |old(force).links|
      ensures IdSet(force.nodes, VertexView) <= IdSet(old(force).nodes, VertexView) && IdSet(force.links, EdgeView) <= IdSet(old(force).links, EdgeView)
      ensures expandEnabled && d.id != baseNodeId ==>
        && LeastClosed(d.id, old(force).nodes, VertexView, sweptVertices)
        && force.nodes == Survivors(old(force).nodes, VertexView, sweptVertices)
        && processedData.vertices == old(processedData).vertices - RemovedIds(old(force).nodes, VertexView, sweptVertices)
        && LeastClosed(d.id, old(force).links, EdgeView, sweptEdges)
        && force.links == Survivors(old(force).links, EdgeView, sweptEdges)
        && processedData.edges == old(processedData).edges - RemovedIds(old(force).links, EdgeView, sweptEdges)
    {
      affectedVertices, affectedEdges := 0, 0;
      sweptVertices, sweptEdges := {}, {};
      if !expandEnabled {
        return;
      }
      var p := processedData;
      var ns, vs, ls, es;
      if d.id == baseNodeId {
        ns, vs, ls, es, affectedVertices, affectedEdges := CollapseRootChildren(d.id, force.nodes, p.vertices, force.links, p.edges);
      } else {
        ns, vs, ls, es, affectedVertices, affectedEdges, sweptVertices, sweptEdges :=
          CollapseChildren(d.id, force.nodes, p.vertices, force.links, p.edges);
        SweepKeepsIndex(force.nodes, VertexView, p.vertices, sweptVertices);
        SweepKeepsIndex(force.links, EdgeView, p.edges, sweptEdges);
        SurvivorIdsWithin(force.nodes, VertexView, sweptVertices);
        SurvivorIdsWithin(force.links, EdgeView, sweptEdges);
      }
      force, processedData := Layout(ns, ls), Processed(vs, es, p.labels);
    }

    /** `collapseVertex(d)` with the swept edges' ids also dropped from every
        list of visibly connected edges: the sweep is the same, and the
        viewer stays valid. */
    method CollapseVertex(d: Vertex)
      returns (affectedVertices: nat, affectedEdges: nat, ghost sweptVertices: set<int>, ghost sweptEdges: set<int>)
      requires Valid()
      modifies this
      ensures Valid()
      ensures display == if expandEnabled then old(display).(connected := Purge(old(display).connected, processedData.edges.Keys)) else old(display)
      ensures processedData.labels == old(processedData).labels
      ensures !expandEnabled ==> force == old(force) && processedData == old(processedData)
      ensures |force.nodes| + affectedVertices == |old(force).nodes| && |force.links| + affectedEdges == |old(force).links|
      ensures IdSet(force.nodes, VertexView) <= IdSet(old(force).nodes, VertexView) && IdSet(force.links, EdgeView) <= IdSet(old(force).links, EdgeView)
      ensures expandEnabled && d.id != baseNodeId ==>
        && LeastClosed(d.id, old(force).nodes, VertexView, sweptVertices)
        && force.nodes == Survivors(old(force).nodes, VertexView, sweptVertices)
        && processedData.vertices == old(processedData).vertices - RemovedIds(old(force).nodes, VertexView, sweptVertices)
        && LeastClosed(d.id, old(force).links, EdgeView, sweptEdges)
        && force.links == Survivors(old(force).links, EdgeView, sweptEdges)
        && processedData.edges == old(processedData).edges - RemovedIds(old(force).links, EdgeView, sweptEdges)
    {
      ghost var before := processedData.edges;
      affectedVertices, affectedEdges, sweptVertices, sweptEdges := CollapseVertexAsWritten(d);
      if expandEnabled {
        PurgeKeeps(display.connected, before, processedData.edges);
        display := display.(connected := Purge(display.connected, processedData.edges.Keys));
      }
    }

    /** `removeVertex(d)` as written: the base vertex is refused; otherwise
        the edges touching `d` are detached (deleting key `d.id` from the
        edge store), then `d` is spliced out of the live vertices and its id
        deleted from the vertex store. */
    method RemoveVertexAsWritten(d: Vertex) returns (r: Removal)
      modifies this
      ensures d.id == baseNodeId ==> r == CannotDeleteStartingNode && unchanged(this)
      ensures d.id != baseNodeId ==>
        && r.Removed? && r.affectedEdges + |force.links| == |old(force).links|
        && force.links == Unattached(old(force).links, d.id)
        && processedData.edges == (if r.affectedEdges == 0 then old(processedData).edges else old(processedData).edges - {d.id})
        && force.nodes == SpliceOut(old(force).nodes, d)
        && processedData.vertices == old(processedData).vertices - {d.id}
      ensures display == old(display) && processedData.labels == old(processedData).labels
    {
      if d.id == baseNodeId {
        return CannotDeleteStartingNode;
      }
      var p := processedData;
      var ls, es, affected := DetachEdgesAsWritten(force.links, p.edges, d.id);
      force, processedData := Layout(SpliceOut(force.nodes, d), ls), Processed(p.vertices - {d.id}, es, p.labels);
      r := Removed(affected);
    }

    /** `removeVertex(d)` with each removed edge's own id deleted from the
        edge store and from every list of visibly connected edges: removing
        a live vertex keeps the viewer valid. */
    method RemoveVertex(d: Vertex) returns (r: Removal)
      requires Valid()
      modifies this
      ensures d.id == baseNodeId ==> r == CannotDeleteStartingNode && unchanged(this)
      ensures d.id != baseNodeId ==>
        && r.Removed? && r.affectedEdges + |force.links| == |old(force).links|
        && force.links == Unattached(old(force).links, d.id)
        && processedData.edges == old(processedData).edges - IncidentIds(old(force).links, d.id)
        && force.nodes == SpliceOut(old(force).nodes, d)
        && processedData.vertices == old(processedData).vertices - {d.id}
        && display == old(display).(connected := Purge(old(display).connected, processedData.edges.Keys))
      ensures d in old(force).nodes ==> Valid()
      ensures processedData.labels == old(processedData).labels
    {
      if d.id == baseNodeId {
        return CannotDeleteStartingNode;
      }
      var ns, ls, p, disp, affected := RemoveLive(d, force.nodes, force.links, processedData, display, baseNodeId);
      force, processedData, display := Layout(ns, ls), p, disp;
      r := Removed(affected);
    }
  }

  /** `nodes.splice(nodes.indexOf(d), 1)`: `d` itself when it is there;
      otherwise `indexOf` is -1 and the splice removes the last vertex. */
  function SpliceOut(ns: seq<Vertex>, d: Vertex): seq<Vertex> {
    var i := IndexOf(ns, d);
    if i >= 0 then RemoveAt(ns, i) else if |ns| == 0 then ns else ns[..|ns| - 1]
  }
}
