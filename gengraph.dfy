/**
 * The code generator's protocol graph (generate/src/lib.rs): one graph per
 * role, whose nodes are local states and whose edges are labelled
 * transitions. A node records the peer role and the direction of its
 * outgoing edges once it has some.
 */
module GenGraph {
  import opened Wrappers

  /** `Direction`. */
  datatype Direction = Send | Receive

  /** `GraphNode`: the node's name, and the peer role (an index into the role table) and direction of its edges. */
  datatype GraphNode = GraphNode(name: string, role: Option<nat>, direction: Option<Direction>)

  /** `GraphEdge`: an edge's label, an index into the label table. */
  datatype GraphEdge = GraphEdge(source: nat, target: nat, labelIndex: nat)

  /** The graph: nodes and edges in the order they were added. */
  datatype Graph = Graph(nodes: seq<GraphNode>, edges: seq<GraphEdge>)

  /** `GraphNode::new`: a node with no role and no direction yet. */
  function NewNode(name: string): (n: GraphNode)
    ensures n.name == name && n.role.None? && n.direction.None?
  {
    GraphNode(name, None, None)
  }

  /**
   * `graph.edges(node)`: the edges leaving `node`. The graph keeps each
   * node's outgoing edges in a list that new edges are put at the front
   * of, so they come newest first.
   */
  function EdgesFrom(edges: seq<GraphEdge>, node: nat): (r: seq<GraphEdge>)
    ensures |r| <= |edges|
    ensures forall e :: e in r ==> e in edges && e.source == node
  {
    if edges == [] then []
    else
      var last := edges[|edges| - 1];
      (if last.source == node then [last] else []) + EdgesFrom(edges[..|edges| - 1], node)
  }

  /** Every edge of the graph whose source is `node` is among the edges leaving it. */
  lemma {:induction false} EdgesFromExact(edges: seq<GraphEdge>, node: nat)
    ensures forall e :: e in edges && e.source == node ==> e in EdgesFrom(edges, node)
  {
    if edges != [] {
      var init := edges[..|edges| - 1];
      EdgesFromExact(init, node);
      assert edges == init + [edges[|edges| - 1]];
    }
  }

  /** An edge added last comes first among its source's edges, and leaves every other node's edges alone. */
  lemma EdgesFromAdd(edges: seq<GraphEdge>, e: GraphEdge, node: nat)
    ensures EdgesFrom(edges + [e], node) == (if e.source == node then [e] else []) + EdgesFrom(edges, node)
  {
    assert (edges + [e])[..|edges|] == edges;
  }

  /** Every edge joins two nodes of the graph. */
  ghost predicate Wired(g: Graph) {
    forall e :: e in g.edges ==> e.source < |g.nodes| && e.target < |g.nodes|
  }

  /** The roles and labels the graph uses are below the sizes of their tables. */
  ghost predicate Within(g: Graph, roles: nat, labels: nat) {
    && (forall e :: e in g.edges ==> e.labelIndex < labels)
    && (forall n :: 0 <= n < |g.nodes| && g.nodes[n].role.Some? ==> g.nodes[n].role.value < roles)
  }

  /**
   * A node has a role and a direction exactly when it has outgoing edges:
   * the parsers set them together when they add a node's first edge.
   */
  ghost predicate Marked(g: Graph) {
    forall n :: 0 <= n < |g.nodes| ==>
      (g.nodes[n].role.Some? <==> EdgesFrom(g.edges, n) != []) && (g.nodes[n].direction.Some? <==> EdgesFrom(g.edges, n) != [])
  }
}
