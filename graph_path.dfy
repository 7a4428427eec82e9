/** A walk through the locus graph: the offset of its first base in the first
    node, the ordered node ids (a node may repeat, as when a repeat unit is
    traversed several times) and the offset of its last base in the last node.
    Both offsets are 0-based and inclusive, in the node's own coordinates. */
module Paths {
  import opened Results
  import opened Graphs

  datatype GraphPath = GraphPath(graph: Graph, startOffset: int, nodeIds: seq<nat>, endOffset: int)

  predicate AllNodesExist(g: Graph, ids: seq<nat>) {
    forall i :: 0 <= i < |ids| ==> HasNode(g, ids[i])
  }

  /** Every consecutive pair of nodes is an edge; a repeated node needs a self-edge. */
  predicate AllLinked(g: Graph, ids: seq<nat>) {
    forall i :: 0 <= i < |ids| - 1 ==> HasEdge(g, ids[i], ids[i + 1])
  }

  predicate ValidPath(p: GraphPath) {
    |p.nodeIds| > 0 && AllNodesExist(p.graph, p.nodeIds) && AllLinked(p.graph, p.nodeIds)
  }

  /** The sequence of the i-th node of a valid path. */
  function NodeSeq(p: GraphPath, i: nat): string
    requires ValidPath(p) && i < |p.nodeIds|
  {
    p.graph.nodes[p.nodeIds[i]]
  }

  /** Builds a path, refusing an empty one, one through a node the graph
      does not have, and one that steps between two nodes no edge links. */
  function MakePath(g: Graph, startOffset: int, ids: seq<nat>, endOffset: int): (r: Result<GraphPath>)
    ensures r.Ok? <==> ValidPath(GraphPath(g, startOffset, ids, endOffset))
    ensures r.Ok? ==> r.value == GraphPath(g, startOffset, ids, endOffset)
    ensures r == Err(EmptyPath) <==> ids == []
    ensures r == Err(UnknownNode) <==> ids != [] && !AllNodesExist(g, ids)
    ensures r == Err(MissingEdge) <==> ids != [] && AllNodesExist(g, ids) && !AllLinked(g, ids)
    ensures r.Err? ==> r.error == EmptyPath || r.error == UnknownNode || r.error == MissingEdge
  {
    if ids == [] then Err(EmptyPath)
    else if exists i :: 0 <= i < |ids| && ids[i] >= |g.nodes| then Err(UnknownNode)
    else if exists i :: 0 <= i < |ids| - 1 && (ids[i], ids[i + 1]) !in g.edges then Err(MissingEdge)
    else Ok(GraphPath(g, startOffset, ids, endOffset))
  }
}
