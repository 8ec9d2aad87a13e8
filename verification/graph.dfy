/** The materialized graph elements.  In the viewer a vertex or edge record
    is one shared object, sitting both in the id-keyed store and in the live
    `nodes` / `links` collections.  Here the write-once part of a record is a
    value, and its two mutable fields (`isVisible`, `visiblyConnectedEdges`)
    are kept by the viewer in maps keyed by the record's id. */
module Graph {
  import opened JsRuntime
  import opened Sweep

  /** A vertex is shown by its `name` property, or by its id when that is
      missing or empty. */
  datatype DisplayName = Given(text: string) | FromId(id: int)

  /** `parentVertexId` is the vertex whose expansion first brought this one
      in; None (null) for the root and for vertices added without
      provenance. */
  datatype Vertex = Vertex(id: int, labelName: string, name: DisplayName,
                           inConnections: int, outConnections: int, parentVertexId: Option<int>)

  /** An edge from `source` (the head) to `target` (the tail). */
  datatype Edge = Edge(id: int, labelName: string, source: Vertex, target: Vertex, parentVertexId: Option<int>)

  /** What the cascading delete reads of a vertex. */
  function VertexView(v: Vertex): Item {
    VertexItem(v.id, v.parentVertexId)
  }

  /** What the cascading delete reads of an edge. */
  function EdgeView(e: Edge): Item {
    EdgeItem(e.id, e.parentVertexId,
      Endpoint(e.source.id, e.source.parentVertexId),
      Endpoint(e.target.id, e.target.parentVertexId))
  }
}
