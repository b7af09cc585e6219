/**
 * The visitor of `generate_definitions` (generate/src/lib.rs) as the source
 * writes it: an object whose visited and looped node sets and definition
 * list the recursive `visit` updates in place, walking each node's edges
 * through a `DoublePeekable`.
 */
module DefinitionVisitor {
  import opened Wrappers
  import opened GenGraph
  import opened Template
  import opened Definitions
  import opened Peekable

  class Visitor {
    const graph: Graph
    var visited: set<nat>
    var looped: set<nat>
    var definitions: seq<Def>

    /** The visitor's state as a value. */
    function StateOf(): State
      reads this
    {
      State(visited, looped, definitions)
    }

    /** `Visitor::new`: nothing visited, nothing looped, no definitions. */
    constructor(graph: Graph)
      ensures this.graph == graph && StateOf() == State({}, {}, [])
    {
      this.graph := graph;
      visited, looped, definitions := {}, {}, [];
    }

    /** `visit`: the type from `node` on and its `safe` flag, and the state `Walk` says. */
    method Visit(node: nat) returns (ty: Type, safe: bool)
      requires Ready(graph) && node < |graph.nodes|
      modifies this
      ensures (StateOf(), ty, safe) == Walk(graph, old(StateOf()), node)
      decreases Nodes(graph) - visited, 0
    {
      var weight := graph.nodes[node];
      var edges := new DoublePeekable(EdgesFrom(graph.edges, node));
      if edges.IsEmpty() {
        assert weight.direction.None?;
        return End, true;
      }
      var edge := edges.Singleton();
      if edge.Some? {
        if node in visited {
          looped := looped + {node};
          return Definition(node), false;
        }
        visited := visited + {node};
        var next, nextSafe := Visit(edge.value.target);
        ty := Message(weight.direction.value, weight.role.value, edge.value.labelIndex, next);
        if node in looped {
          definitions := definitions + [TypeDef(nextSafe, node, ty)];
          return Definition(node), true;
        }
        return ty, nextSafe;
      }
      ty := Choice(weight.direction.value, weight.role.value, node);
      if node in visited {
        looped := looped + {node};
        return ty, true;
      }
      visited := visited + {node};
      var choices := VisitArms(edges);
      definitions := definitions + [ChoiceDef(node, choices)];
      return ty, true;
    }

    /** The choices of a node with several edges: each edge the adapter yields, with the type of its target, in order. */
    method VisitArms(edges: DoublePeekable<GraphEdge>) returns (choices: seq<Arm>)
      requires Ready(graph) && forall e :: e in edges.Items() ==> e.target < |graph.nodes|
      modifies this, edges
      ensures (StateOf(), choices) == WalkArms(graph, old(StateOf()), old(edges.Items()))
      decreases Nodes(graph) - visited, |edges.Items()| + 1
    {
      ghost var start := StateOf();
      ghost var all := edges.Items();
      choices := [];
      assert [] + WalkArms(graph, start, all).1 == WalkArms(graph, start, all).1;
      while true
        invariant forall e :: e in edges.Items() ==> e.target < |graph.nodes|
        invariant start.visited <= visited
        invariant WalkArms(graph, start, all) == Then(choices, WalkArms(graph, StateOf(), edges.Items()))
        decreases |edges.Items()|
      {
        ghost var items := edges.Items();
        ghost var before := StateOf();
        var edge := edges.Next();
        if edge.None? {
          break;
        }
        var ty, safe := Visit(edge.value.target);
        ArmsStep(graph, start, all, before, items, choices, (StateOf(), ty, safe));
        choices := choices + [Arm(edge.value.labelIndex, ty)];
      }
      assert WalkArms(graph, StateOf(), edges.Items()) == (StateOf(), []);
      assert choices + [] == choices;
    }
  }

  /** The arms `done` already made, followed by the outcome `r` of the rest. */
  function Then(done: seq<Arm>, r: (State, seq<Arm>)): (State, seq<Arm>) {
    (r.0, done + r.1)
  }

  /** Walking the first remaining edge moves its arm from the outcome of the rest to the arms made. */
  lemma ArmsStep(g: Graph, start: State, all: seq<GraphEdge>, s: State, edges: seq<GraphEdge>, done: seq<Arm>, r: (State, Type, bool))
    requires Ready(g) && (forall e :: e in all ==> e.target < |g.nodes|) && (forall e :: e in edges ==> e.target < |g.nodes|) && edges != []
    requires WalkArms(g, start, all) == Then(done, WalkArms(g, s, edges))
    requires r == Walk(g, s, edges[0].target)
    ensures WalkArms(g, start, all) == Then(done + [Arm(edges[0].labelIndex, r.1)], WalkArms(g, r.0, edges[1..]))
  {
    var rest := WalkArms(g, r.0, edges[1..]);
    assert WalkArms(g, s, edges) == (rest.0, [Arm(edges[0].labelIndex, r.1)] + rest.1);
    assert done + ([Arm(edges[0].labelIndex, r.1)] + rest.1) == (done + [Arm(edges[0].labelIndex, r.1)]) + rest.1;
  }

  /**
   * `generate_definitions`: a fresh visitor with the root marked looped,
   * its walk from the root, and the root's alias when the root is a choice.
   */
  method GenerateDefinitions(graph: Graph) returns (definitions: seq<Def>)
    requires Ready(graph) && |graph.nodes| > 0
    ensures definitions == DefinitionsOf(graph)
  {
    var visitor := new Visitor(graph);
    visitor.looped := visitor.looped + {0};
    assert visitor.StateOf() == Start();
    var ty, _ := visitor.Visit(0);
    if ty.Choice? {
      visitor.definitions := visitor.definitions + [TypeDef(true, 0, ty)];
    }
    definitions := visitor.definitions;
  }
}
