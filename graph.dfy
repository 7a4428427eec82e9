/** The locus graph: a table of node sequences indexed by id, and a set of
    directed edges. Repeat-unit nodes carry a self-edge so that a path may
    visit them several times in a row. The graph is an immutable value shared
    by every path and graph mapping built on it. */
module Graphs {
  datatype Graph = Graph(nodes: seq<string>, edges: set<(nat, nat)>)

  predicate HasNode(g: Graph, id: nat) {
    id < |g.nodes|
  }

  predicate HasEdge(g: Graph, from: nat, to: nat) {
    (from, to) in g.edges
  }

  /** Every edge joins two nodes of the graph. */
  predicate ValidGraph(g: Graph) {
    forall e :: e in g.edges ==> HasNode(g, e.0) && HasNode(g, e.1)
  }

  /** Left flank, middle node and right flank; the middle node can be skipped. */
  function MakeDeletionGraph(left: string, middle: string, right: string): (g: Graph)
    ensures ValidGraph(g) && |g.nodes| == 3
    ensures g.nodes[0] == left && g.nodes[1] == middle && g.nodes[2] == right
    ensures HasEdge(g, 0, 1) && HasEdge(g, 1, 2) && HasEdge(g, 0, 2)
    ensures forall i: nat :: !HasEdge(g, i, i)
  {
    Graph([left, middle, right], {(0, 1), (0, 2), (1, 2)})
  }

  /** Left flank, repeat unit and right flank; the repeat unit loops on itself. */
  function MakeStrGraph(left: string, unit: string, right: string): (g: Graph)
    ensures ValidGraph(g) && |g.nodes| == 3
    ensures g.nodes[0] == left && g.nodes[1] == unit && g.nodes[2] == right
    ensures HasEdge(g, 0, 1) && HasEdge(g, 1, 1) && HasEdge(g, 1, 2)
    ensures !HasEdge(g, 0, 0) && !HasEdge(g, 2, 2) && !HasEdge(g, 0, 2)
  {
    Graph([left, unit, right], {(0, 1), (1, 1), (1, 2)})
  }
}
