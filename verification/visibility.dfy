/** What `_updateElementsVisibility` derives from the inspector's per-label
    toggles: each vertex's `isVisible`, each edge's `isVisible`, and each
    vertex's `visiblyConnectedEdges` (the ids of the visible edges touching
    it), and from those the opacity each element is drawn with. */
module Visibility {
  import opened JsRuntime
  import opened Sweep
  import opened Graph

  datatype ElementType = VertexType | EdgeType

  /** `inspector.status`: a toggle per element type and label. */
  type Toggles = map<(ElementType, string), bool>

  /** A label without a toggle yet counts as switched on. */
  function Toggle(status: Toggles, t: ElementType, labelName: string): bool {
    if (t, labelName) in status then status[(t, labelName)] else true
  }

  /** The lazy fill at the top of each callback: a label without a toggle
      gets `true`.  It changes no toggle's meaning. */
  function Fill(status: Toggles, t: ElementType, labelName: string): (r: Toggles)
    ensures (t, labelName) in r && r[(t, labelName)] == Toggle(status, t, labelName)
    ensures forall t', n :: Toggle(r, t', n) == Toggle(status, t', n)
    ensures r.Keys == status.Keys + {(t, labelName)}
  {
    if (t, labelName) in status then status else status[(t, labelName) := true]
  }

  /** The viewer-owned state of the records: `isVisible` of vertices and of
      edges and `visiblyConnectedEdges` of vertices, keyed by id.  A record
      starts visible and with no visibly connected edges, so an id without an
      entry reads as that. */
  datatype Display = Display(status: Toggles, vertexVisible: map<int, bool>,
                             connected: map<int, seq<int>>, edgeVisible: map<int, bool>)

  function VisibleOf(visible: map<int, bool>, id: int): bool {
    if id in visible then visible[id] else true
  }

  function ConnectedOf(connected: map<int, seq<int>>, id: int): seq<int> {
    if id in connected then connected[id] else []
  }

  /** No `visiblyConnectedEdges` list holds an edge id twice. */
  ghost predicate NoDupLists(connected: map<int, seq<int>>) {
    forall id :: NoDup(ConnectedOf(connected, id))
  }

  /** Every entry of `sub` is in `m`, with the same value. */
  ghost predicate SubMap<T>(sub: map<int, T>, m: map<int, T>) {
    forall x :: x in sub ==> x in m && sub[x] == m[x]
  }

  /** Every id in a vertex's `visiblyConnectedEdges` names a stored edge that
      touches that vertex. */
  ghost predicate ListsLive(connected: map<int, seq<int>>, edges: map<int, Edge>) {
    forall w, x :: x in ConnectedOf(connected, w) ==>
      x in edges && (edges[x].source.id == w || edges[x].target.id == w)
  }

  /** Lists whose ids name live edges still do once some lists are dropped
      and the store only grows. */
  lemma ListsLiveShrink(connected: map<int, seq<int>>, edges: map<int, Edge>, gone: set<int>, edges': map<int, Edge>)
    requires ListsLive(connected, edges) && SubMap(edges, edges')
    ensures ListsLive(connected - gone, edges')
  {
    forall w, x | x in ConnectedOf(connected - gone, w)
      ensures x in edges' && (edges'[x].source.id == w || edges'[x].target.id == w)
    {
      assert x in ConnectedOf(connected, w);
    }
  }

  // ---------------------------------------------------------------------
  // The pass, step by step

  /** The vertex callback: fill the toggle, copy it into `isVisible`, and
      force the base vertex visible. */
  function MarkVertex(d: Display, v: Vertex, base: int): Display {
    var status := Fill(d.status, VertexType, v.labelName);
    var visible := status[(VertexType, v.labelName)];
    Display(status, d.vertexVisible[v.id := if v.id == base then true else visible], d.connected, d.edgeVisible)
  }

  function MarkVertices(d: Display, ns: seq<Vertex>, base: int): Display {
    if |ns| == 0 then d else MarkVertex(MarkVertices(d, ns[..|ns| - 1], base), ns[|ns| - 1], base)
  }

  /** `if (!list.includes(id)) list.push(id)` on the list of vertex `v`. */
  function Link(connected: map<int, seq<int>>, v: int, eid: int): map<int, seq<int>> {
    if eid in ConnectedOf(connected, v) then connected else connected[v := ConnectedOf(connected, v) + [eid]]
  }

  /** `if (list.includes(id)) list.splice(list.indexOf(id), 1)` on the list
      of vertex `v`. */
  function Unlink(connected: map<int, seq<int>>, v: int, eid: int): map<int, seq<int>> {
    if eid in ConnectedOf(connected, v) then connected[v := RemoveFirst(ConnectedOf(connected, v), eid)] else connected
  }

  /** `if (id == baseNodeId) isVisible = true` for an endpoint. */
  function ForceBase(visible: map<int, bool>, id: int, base: int): map<int, bool> {
    if id == base then visible[id := true] else visible
  }

  /** The edge callback: fill the toggle; the edge is visible when its toggle
      is on and neither endpoint is invisible; its id is added to, or removed
      from, both endpoints' lists accordingly; an endpoint list left empty
      hides the edge; a base endpoint is forced visible. */
  function ShowLink(d: Display, e: Edge, base: int): Display {
    var status := Fill(d.status, EdgeType, e.labelName);
    var s, t := e.source.id, e.target.id;
    var on := status[(EdgeType, e.labelName)] && VisibleOf(d.vertexVisible, s) && VisibleOf(d.vertexVisible, t);
    var connected := if on then Link(Link(d.connected, s, e.id), t, e.id)
                     else Unlink(Unlink(d.connected, s, e.id), t, e.id);
    var shown := on && |ConnectedOf(connected, s)| != 0 && |ConnectedOf(connected, t)| != 0;
    Display(status, ForceBase(ForceBase(d.vertexVisible, s, base), t, base), connected, d.edgeVisible[e.id := shown])
  }

  function ShowLinks(d: Display, ls: seq<Edge>, base: int): Display {
    if |ls| == 0 then d else ShowLink(ShowLinks(d, ls[..|ls| - 1], base), ls[|ls| - 1], base)
  }

  /** The whole pass: the vertices in order, then the edges in order. */
  function UpdateVisibility(d: Display, nodes: seq<Vertex>, links: seq<Edge>, base: int): Display {
    ShowLinks(MarkVertices(d, nodes, base), links, base)
  }

  // ---------------------------------------------------------------------
  // What the pass establishes

  function EdgeVisibleOf(d: Display, e: Edge): bool {
    VisibleOf(d.edgeVisible, e.id)
  }

  /** An edge is visible exactly when its toggle is on and both endpoints
      are visible, and its id is in each endpoint's list exactly when it is
      visible. */
  ghost predicate EdgeShown(d: Display, e: Edge) {
    && EdgeVisibleOf(d, e) == (Toggle(d.status, EdgeType, e.labelName)
                               && VisibleOf(d.vertexVisible, e.source.id) && VisibleOf(d.vertexVisible, e.target.id))
    && (e.id in ConnectedOf(d.connected, e.source.id) <==> EdgeVisibleOf(d, e))
    && (e.id in ConnectedOf(d.connected, e.target.id) <==> EdgeVisibleOf(d, e))
  }

  /** A vertex is visible exactly when it is the base vertex or its toggle is on. */
  ghost predicate VertexShown(d: Display, v: Vertex, base: int) {
    VisibleOf(d.vertexVisible, v.id) == (v.id == base || Toggle(d.status, VertexType, v.labelName))
  }

  ghost predicate Shows(d: Display, nodes: seq<Vertex>, links: seq<Edge>, base: int) {
    && (forall k :: 0 <= k < |nodes| ==> VertexShown(d, nodes[k], base))
    && (forall k :: 0 <= k < |links| ==> EdgeShown(d, links[k]))
  }

  lemma LinkSpec(connected: map<int, seq<int>>, v: int, eid: int)
    requires NoDupLists(connected)
    ensures var r := Link(connected, v, eid);
      && NoDupLists(r)
      && forall w, x :: x in ConnectedOf(r, w) <==> x in ConnectedOf(connected, w) || (w == v && x == eid)
  {
    var r := Link(connected, v, eid);
    forall w ensures NoDup(ConnectedOf(r, w)) {
      if w == v && eid !in ConnectedOf(connected, v) {
        assert NoDup(ConnectedOf(connected, w));
        AppendNoDup(ConnectedOf(connected, v), eid);
      } else {
        assert ConnectedOf(r, w) == ConnectedOf(connected, w);
      }
    }
  }

  lemma UnlinkSpec(connected: map<int, seq<int>>, v: int, eid: int)
    requires NoDupLists(connected)
    ensures var r := Unlink(connected, v, eid);
      && NoDupLists(r)
      && forall w, x :: x in ConnectedOf(r, w) <==> x in ConnectedOf(connected, w) && !(w == v && x == eid)
  {
    var r := Unlink(connected, v, eid);
    forall w ensures NoDup(ConnectedOf(r, w)) {
      if w == v && eid in ConnectedOf(connected, v) {
        assert NoDup(ConnectedOf(connected, w));
        RemoveFirstNoDup(ConnectedOf(connected, v), eid);
      } else {
        assert ConnectedOf(r, w) == ConnectedOf(connected, w);
      }
    }
    assert NoDup(ConnectedOf(connected, v));
    RemoveFirstNoDup(ConnectedOf(connected, v), eid);
  }

  /** The toggles mean the same and every vertex is as visible as before. */
  ghost predicate SameVertices(d: Display, r: Display) {
    && (forall id :: VisibleOf(r.vertexVisible, id) == VisibleOf(d.vertexVisible, id))
    && (forall t, n :: Toggle(r.status, t, n) == Toggle(d.status, t, n))
  }

  /** Nothing about any edge but `eid` changed: neither its `isVisible` nor
      its membership in any list. */
  ghost predicate OthersUntouched(d: Display, r: Display, eid: int) {
    && (forall x, w :: x != eid ==> (x in ConnectedOf(r.connected, w) <==> x in ConnectedOf(d.connected, w)))
    && (forall x :: x != eid ==> VisibleOf(r.edgeVisible, x) == VisibleOf(d.edgeVisible, x))
  }

  /** Adding an edge id to both endpoint lists. */
  lemma LinkBoth(connected: map<int, seq<int>>, s: int, t: int, eid: int)
    requires NoDupLists(connected)
    ensures var r := Link(Link(connected, s, eid), t, eid);
      && NoDupLists(r)
      && forall w, x :: x in ConnectedOf(r, w) <==> x in ConnectedOf(connected, w) || (x == eid && (w == s || w == t))
  {
    LinkSpec(connected, s, eid);
    LinkSpec(Link(connected, s, eid), t, eid);
  }

  /** Removing an edge id from both endpoint lists. */
  lemma UnlinkBoth(connected: map<int, seq<int>>, s: int, t: int, eid: int)
    requires NoDupLists(connected)
    ensures var r := Unlink(Unlink(connected, s, eid), t, eid);
      && NoDupLists(r)
      && forall w, x :: x in ConnectedOf(r, w) <==> x in ConnectedOf(connected, w) && !(x == eid && (w == s || w == t))
  {
    UnlinkSpec(connected, s, eid);
    UnlinkSpec(Unlink(connected, s, eid), t, eid);
  }

  /** One edge callback decides that edge and keeps the lists free of
      duplicates, given the base vertex is visible. */
  lemma ShowLinkDecides(d: Display, e: Edge, base: int)
    requires VisibleOf(d.vertexVisible, base) && NoDupLists(d.connected)
    ensures var r := ShowLink(d, e, base);
      EdgeShown(r, e) && NoDupLists(r.connected)
  {
    var s, t := e.source.id, e.target.id;
    if Toggle(d.status, EdgeType, e.labelName) && VisibleOf(d.vertexVisible, s) && VisibleOf(d.vertexVisible, t) {
      LinkBoth(d.connected, s, t, e.id);
    } else {
      UnlinkBoth(d.connected, s, t, e.id);
    }
  }

  /** One edge callback leaves everything but that edge alone, given the
      base vertex is visible. */
  lemma ShowLinkLeaves(d: Display, e: Edge, base: int)
    requires VisibleOf(d.vertexVisible, base) && NoDupLists(d.connected)
    ensures var r := ShowLink(d, e, base);
      SameVertices(d, r) && OthersUntouched(d, r, e.id)
  {
    var s, t := e.source.id, e.target.id;
    if Toggle(d.status, EdgeType, e.labelName) && VisibleOf(d.vertexVisible, s) && VisibleOf(d.vertexVisible, t) {
      LinkBoth(d.connected, s, t, e.id);
    } else {
      UnlinkBoth(d.connected, s, t, e.id);
    }
  }

  /** An edge already decided stays decided when another edge's callback runs. */
  lemma EdgeShownKept(d: Display, r: Display, e: Edge, other: int)
    requires EdgeShown(d, e) && e.id != other
    requires SameVertices(d, r) && OthersUntouched(d, r, other)
    ensures EdgeShown(r, e)
  {
    assert VisibleOf(r.vertexVisible, e.source.id) == VisibleOf(d.vertexVisible, e.source.id);
    assert VisibleOf(r.vertexVisible, e.target.id) == VisibleOf(d.vertexVisible, e.target.id);
    assert Toggle(r.status, EdgeType, e.labelName) == Toggle(d.status, EdgeType, e.labelName);
    assert VisibleOf(r.edgeVisible, e.id) == VisibleOf(d.edgeVisible, e.id);
  }

  /** The edge half of the pass decides every edge, provided no edge id
      occurs twice and the base vertex is visible when it starts.  The
      final "empty list hides the edge" check never fires: a visible edge has
      just been added to both lists. */
  lemma {:induction false} ShowLinksSpec(d: Display, ls: seq<Edge>, base: int)
    requires DistinctIds(ls, EdgeView)
    requires VisibleOf(d.vertexVisible, base) && NoDupLists(d.connected)
    ensures var r := ShowLinks(d, ls, base);
      && (forall k :: 0 <= k < |ls| ==> EdgeShown(r, ls[k]))
      && NoDupLists(r.connected) && SameVertices(d, r)
  {
    if |ls| > 0 {
      var init, e := ls[..|ls| - 1], ls[|ls| - 1];
      assert DistinctIds(init, EdgeView);
      ShowLinksSpec(d, init, base);
      var m := ShowLinks(d, init, base);
      assert VisibleOf(m.vertexVisible, base);
      ShowLinkDecides(m, e, base);
      ShowLinkLeaves(m, e, base);
      var r := ShowLink(m, e, base);
      forall k | 0 <= k < |init| ensures EdgeShown(r, ls[k]) {
        assert EdgeView(ls[k]).id != EdgeView(ls[|ls| - 1]).id;
        EdgeShownKept(m, r, init[k], e.id);
      }
    }
  }

  /** One vertex callback decides that vertex and changes nothing else but
      the visibility of vertices with its id. */
  lemma MarkVertexSpec(d: Display, v: Vertex, base: int)
    ensures var r := MarkVertex(d, v, base);
      && VertexShown(r, v, base)
      && (forall id :: id != v.id ==> VisibleOf(r.vertexVisible, id) == VisibleOf(d.vertexVisible, id))
      && (forall t, n :: Toggle(r.status, t, n) == Toggle(d.status, t, n))
      && r.connected == d.connected && r.edgeVisible == d.edgeVisible
  {
  }

  /** One edge callback, on an edge stored under its id, keeps every list
      entry naming a stored edge that touches the list's vertex. */
  lemma ShowLinkLive(d: Display, e: Edge, base: int, edges: map<int, Edge>)
    requires NoDupLists(d.connected) && ListsLive(d.connected, edges)
    requires e.id in edges && edges[e.id] == e
    ensures var r := ShowLink(d, e, base);
      NoDupLists(r.connected) && ListsLive(r.connected, edges)
  {
    var s, t := e.source.id, e.target.id;
    if Toggle(d.status, EdgeType, e.labelName) && VisibleOf(d.vertexVisible, s) && VisibleOf(d.vertexVisible, t) {
      ShowLinkOn(d, e, base);
      LinkBothLive(d.connected, e, edges);
    } else {
      assert ShowLink(d, e, base).connected == Unlink(Unlink(d.connected, s, e.id), t, e.id);
      UnlinkBothLive(d.connected, e, edges);
    }
  }

  /** Adding a stored edge's id to both of its endpoints' lists keeps the
      lists naming stored edges that touch their vertex. */
  lemma LinkBothLive(connected: map<int, seq<int>>, e: Edge, edges: map<int, Edge>)
    requires NoDupLists(connected) && ListsLive(connected, edges)
    requires e.id in edges && edges[e.id] == e
    ensures var r := Link(Link(connected, e.source.id, e.id), e.target.id, e.id);
      NoDupLists(r) && ListsLive(r, edges)
  {
    var s, t := e.source.id, e.target.id;
    LinkBoth(connected, s, t, e.id);
    LinkLive(connected, s, e.id, edges);
    LinkLive(Link(connected, s, e.id), t, e.id, edges);
  }

  /** Adding to the list of `v` the id of a stored edge that touches `v`
      keeps every list live. */
  lemma LinkLive(connected: map<int, seq<int>>, v: int, eid: int, edges: map<int, Edge>)
    requires ListsLive(connected, edges)
    requires eid in edges && (edges[eid].source.id == v || edges[eid].target.id == v)
    ensures ListsLive(Link(connected, v, eid), edges)
  {
    var r := Link(connected, v, eid);
    forall w, x | x in ConnectedOf(r, w) ensures x in edges && (edges[x].source.id == w || edges[x].target.id == w) {
      LinkAt(connected, v, eid);
      if x != eid || w != v {
        assert x in ConnectedOf(connected, w);
      }
    }
  }

  /** Removing an edge's id from both of its endpoints' lists keeps the lists
      naming stored edges that touch their vertex. */
  lemma UnlinkBothLive(connected: map<int, seq<int>>, e: Edge, edges: map<int, Edge>)
    requires NoDupLists(connected) && ListsLive(connected, edges)
    ensures var r := Unlink(Unlink(connected, e.source.id, e.id), e.target.id, e.id);
      NoDupLists(r) && ListsLive(r, edges)
  {
    var s, t := e.source.id, e.target.id;
    UnlinkBoth(connected, s, t, e.id);
    var r := Unlink(Unlink(connected, s, e.id), t, e.id);
    forall w, x | x in ConnectedOf(r, w) ensures x in edges && (edges[x].source.id == w || edges[x].target.id == w) {
      assert x in ConnectedOf(connected, w);
    }
  }

  /** The edge half of the pass, over edges stored under their ids, keeps
      the lists naming stored edges that touch their vertices. */
  lemma {:induction false} ShowLinksLive(d: Display, ls: seq<Edge>, base: int, edges: map<int, Edge>)
    requires NoDupLists(d.connected) && ListsLive(d.connected, edges)
    requires forall k :: 0 <= k < |ls| ==> ls[k].id in edges && edges[ls[k].id] == ls[k]
    ensures var r := ShowLinks(d, ls, base);
      NoDupLists(r.connected) && ListsLive(r.connected, edges)
  {
    if |ls| > 0 {
      var init := ls[..|ls| - 1];
      assert forall k :: 0 <= k < |init| ==> init[k] == ls[k];
      ShowLinksLive(d, init, base, edges);
      ShowLinkLive(ShowLinks(d, init, base), ls[|ls| - 1], base, edges);
    }
  }

  /** The callback of an edge whose label is switched off hides the edge and
      drops its id from the list of each endpoint, touching nothing else of
      a vertex other than its endpoints. */
  lemma OffEdgeUnlinks(d: Display, e: Edge, base: int)
    requires !Toggle(d.status, EdgeType, e.labelName)
    ensures var r := ShowLink(d, e, base);
      && !EdgeVisibleOf(r, e)
      && (e.source.id != e.target.id ==>
            ConnectedOf(r.connected, e.target.id) == RemoveFirst(ConnectedOf(d.connected, e.target.id), e.id))
      && (forall w :: w != e.source.id && w != e.target.id ==> ConnectedOf(r.connected, w) == ConnectedOf(d.connected, w))
      && (forall id :: VisibleOf(r.vertexVisible, id) == (VisibleOf(d.vertexVisible, id) || (id == base && (id == e.source.id || id == e.target.id))))
  {
    var s, t := e.source.id, e.target.id;
    var c1 := Unlink(d.connected, s, e.id);
    ShowLinkOff(d, e, base);
    UnlinkAt(d.connected, s, e.id);
    UnlinkAt(c1, t, e.id);
    ForceBaseAt(d.vertexVisible, s, base);
    ForceBaseAt(ForceBase(d.vertexVisible, s, base), t, base);
  }

  /** The callback of an edge whose label is switched off, spelled out. */
  lemma ShowLinkOff(d: Display, e: Edge, base: int)
    requires !Toggle(d.status, EdgeType, e.labelName)
    ensures ShowLink(d, e, base) ==
      Display(Fill(d.status, EdgeType, e.labelName),
              ForceBase(ForceBase(d.vertexVisible, e.source.id, base), e.target.id, base),
              Unlink(Unlink(d.connected, e.source.id, e.id), e.target.id, e.id),
              d.edgeVisible[e.id := false])
  {
  }

  /** Forcing the base visible changes only the base's entry. */
  lemma ForceBaseAt(visible: map<int, bool>, id: int, base: int)
    ensures forall x :: VisibleOf(ForceBase(visible, id, base), x) == (VisibleOf(visible, x) || (x == base && x == id))
  {
  }

  /** A pass over a single edge whose label is switched off hides the edge
      and drops its id from the list of its target; the vertices are decided
      as usual. */
  lemma PassOverOffEdge(d: Display, nodes: seq<Vertex>, e: Edge, base: int)
    requires DistinctIds(nodes, VertexView)
    requires !Toggle(d.status, EdgeType, e.labelName) && e.source.id != e.target.id
    ensures var r := UpdateVisibility(d, nodes, [e], base);
      && EdgeOpacity(r, e) == 0
      && ConnectedOf(r.connected, e.target.id) == RemoveFirst(ConnectedOf(d.connected, e.target.id), e.id)
      && forall k :: 0 <= k < |nodes| ==>
           VisibleOf(r.vertexVisible, nodes[k].id) == (nodes[k].id == base || Toggle(d.status, VertexType, nodes[k].labelName))
  {
    var m := MarkVertices(d, nodes, base);
    MarkVerticesSpec(d, nodes, base);
    OffEdgeUnlinks(m, e, base);
    assert [e][..0] == [] && ShowLinks(m, [], base) == m;
    assert ShowLinks(m, [e], base) == ShowLink(m, e, base);
    forall k | 0 <= k < |nodes|
      ensures VisibleOf(ShowLink(m, e, base).vertexVisible, nodes[k].id) == (nodes[k].id == base || Toggle(d.status, VertexType, nodes[k].labelName))
    {
      assert VertexShown(m, nodes[k], base);
    }
  }

  /** The callback of an edge whose label is on and whose endpoints are
      visible, spelled out. */
  lemma ShowLinkOn(d: Display, e: Edge, base: int)
    requires Toggle(d.status, EdgeType, e.labelName)
    requires VisibleOf(d.vertexVisible, e.source.id) && VisibleOf(d.vertexVisible, e.target.id)
    ensures var connected := Link(Link(d.connected, e.source.id, e.id), e.target.id, e.id);
      ShowLink(d, e, base) ==
        Display(Fill(d.status, EdgeType, e.labelName),
                ForceBase(ForceBase(d.vertexVisible, e.source.id, base), e.target.id, base),
                connected,
                d.edgeVisible[e.id := |ConnectedOf(connected, e.source.id)| != 0 && |ConnectedOf(connected, e.target.id)| != 0])
  {
  }

  /** The callback of an edge whose label is on and whose endpoints are
      visible appends its id to each endpoint's list that lacks it, touches
      no other list, keeps every toggle's meaning and only makes the base
      vertex visible. */
  lemma OnEdgeLinks(d: Display, e: Edge, base: int)
    requires Toggle(d.status, EdgeType, e.labelName)
    requires VisibleOf(d.vertexVisible, e.source.id) && VisibleOf(d.vertexVisible, e.target.id)
    ensures var r := ShowLink(d, e, base);
      && (forall v :: v == e.source.id || v == e.target.id ==>
            ConnectedOf(r.connected, v) ==
              if e.id in ConnectedOf(d.connected, v) then ConnectedOf(d.connected, v) else ConnectedOf(d.connected, v) + [e.id])
      && (forall w :: w != e.source.id && w != e.target.id ==> ConnectedOf(r.connected, w) == ConnectedOf(d.connected, w))
      && (forall t, n :: Toggle(r.status, t, n) == Toggle(d.status, t, n))
      && (forall id :: VisibleOf(r.vertexVisible, id) == (VisibleOf(d.vertexVisible, id) || (id == base && (id == e.source.id || id == e.target.id))))
  {
    var s, t := e.source.id, e.target.id;
    ShowLinkOn(d, e, base);
    LinkAt(d.connected, s, e.id);
    LinkAt(Link(d.connected, s, e.id), t, e.id);
    ForceBaseAt(d.vertexVisible, s, base);
    ForceBaseAt(ForceBase(d.vertexVisible, s, base), t, base);
  }

  /** `Link` changes only the list of its vertex, and that by appending the
      id when it is missing. */
  lemma LinkAt(connected: map<int, seq<int>>, v: int, eid: int)
    ensures ConnectedOf(Link(connected, v, eid), v) ==
      if eid in ConnectedOf(connected, v) then ConnectedOf(connected, v) else ConnectedOf(connected, v) + [eid]
    ensures forall w :: w != v ==> ConnectedOf(Link(connected, v, eid), w) == ConnectedOf(connected, w)
  {
  }

  /** `Unlink` changes only the list of its vertex, and that by removing the
      first occurrence of the id. */
  lemma UnlinkAt(connected: map<int, seq<int>>, v: int, eid: int)
    ensures ConnectedOf(Unlink(connected, v, eid), v) == RemoveFirst(ConnectedOf(connected, v), eid)
    ensures forall w :: w != v ==> ConnectedOf(Unlink(connected, v, eid), w) == ConnectedOf(connected, w)
  {
  }

  /** The vertex half of the pass: each vertex of the collection is visible
      exactly when it is the base vertex or its toggle is on, and a visible
      base vertex stays visible. */
  lemma {:induction false} MarkVerticesSpec(d: Display, ns: seq<Vertex>, base: int)
    requires DistinctIds(ns, VertexView)
    ensures var r := MarkVertices(d, ns, base);
      && (forall k :: 0 <= k < |ns| ==> VertexShown(r, ns[k], base))
      && (VisibleOf(d.vertexVisible, base) ==> VisibleOf(r.vertexVisible, base))
      && (forall t, n :: Toggle(r.status, t, n) == Toggle(d.status, t, n))
      && r.connected == d.connected && r.edgeVisible == d.edgeVisible
  {
    if |ns| > 0 {
      var init, v := ns[..|ns| - 1], ns[|ns| - 1];
      assert DistinctIds(init, VertexView);
      MarkVerticesSpec(d, init, base);
      var m := MarkVertices(d, init, base);
      MarkVertexSpec(m, v, base);
      var r := MarkVertex(m, v, base);
      forall k | 0 <= k < |init| ensures VertexShown(r, ns[k], base) {
        assert VertexView(ns[k]).id != VertexView(v).id;
        assert VertexShown(m, init[k], base);
      }
    }
  }

  /** The whole pass decides every vertex and every edge of the live
      collections, keeps the lists free of duplicates and the base vertex
      visible, and changes no toggle's meaning. */
  lemma UpdateVisibilityShows(d: Display, nodes: seq<Vertex>, links: seq<Edge>, base: int)
    requires DistinctIds(nodes, VertexView) && DistinctIds(links, EdgeView)
    requires VisibleOf(d.vertexVisible, base) && NoDupLists(d.connected)
    ensures var r := UpdateVisibility(d, nodes, links, base);
      && Shows(r, nodes, links, base)
      && VisibleOf(r.vertexVisible, base) && NoDupLists(r.connected)
      && (forall t, n :: Toggle(r.status, t, n) == Toggle(d.status, t, n))
  {
    var m := MarkVertices(d, nodes, base);
    MarkVerticesSpec(d, nodes, base);
    ShowLinksSpec(m, links, base);
    var r := UpdateVisibility(d, nodes, links, base);
    forall k | 0 <= k < |nodes| ensures VertexShown(r, nodes[k], base) {
      assert VertexShown(m, nodes[k], base);
      assert VisibleOf(r.vertexVisible, nodes[k].id) == VisibleOf(m.vertexVisible, nodes[k].id);
      assert Toggle(r.status, VertexType, nodes[k].labelName) == Toggle(m.status, VertexType, nodes[k].labelName);
    }
  }

  // ---------------------------------------------------------------------
  // Opacity

  /** The vertex opacity rule: the base vertex is always drawn; any other
      vertex is hidden when it is invisible or has no visibly connected edge. */
  function VertexOpacity(d: Display, v: Vertex, base: int): (o: int)
    ensures o == 0 || o == 1
    ensures v.id == base ==> o == 1
  {
    if v.id == base then 1
    else if |ConnectedOf(d.connected, v.id)| == 0 || !VisibleOf(d.vertexVisible, v.id) then 0
    else 1
  }

  /** The edge opacity rule: drawn exactly when `isVisible` is true. */
  function EdgeOpacity(d: Display, e: Edge): (o: int)
    ensures o == 0 || o == 1
  {
    if EdgeVisibleOf(d, e) then 1 else 0
  }

  /** After the pass an edge is drawn exactly when its toggle is on and
      neither endpoint is invisible. */
  lemma EdgeDrawnIffShown(d: Display, nodes: seq<Vertex>, links: seq<Edge>, base: int, k: nat)
    requires Shows(d, nodes, links, base) && k < |links|
    ensures var e := links[k];
      EdgeOpacity(d, e) == 1 <==>
        Toggle(d.status, EdgeType, e.labelName) && VisibleOf(d.vertexVisible, e.source.id) && VisibleOf(d.vertexVisible, e.target.id)
  {
    assert EdgeShown(d, links[k]);
  }

  /** After the pass a vertex whose label is switched off is hidden, unless
      it is the base vertex. */
  lemma HiddenLabelHidesVertex(d: Display, nodes: seq<Vertex>, links: seq<Edge>, base: int, k: nat)
    requires Shows(d, nodes, links, base) && k < |nodes|
    requires nodes[k].id != base && !Toggle(d.status, VertexType, nodes[k].labelName)
    ensures VertexOpacity(d, nodes[k], base) == 0
  {
    assert VertexShown(d, nodes[k], base);
  }

  /** After the pass the endpoints of a drawn edge are drawn too. */
  lemma DrawnEdgeShowsEndpoints(d: Display, nodes: seq<Vertex>, links: seq<Edge>, base: int, j: nat, k: nat)
    requires Shows(d, nodes, links, base) && j < |links| && k < |nodes|
    requires nodes[k].id == links[j].source.id || nodes[k].id == links[j].target.id
    requires EdgeOpacity(d, links[j]) == 1
    ensures VertexOpacity(d, nodes[k], base) == 1
  {
    assert EdgeShown(d, links[j]);
  }
}
