/**
 * The older type-to-graph serialiser (src/serialize.rs): the same
 * depth-first walk as the session serialiser, but into a plain graph
 * whose nodes carry a role name and a direction and whose edges carry a
 * label name. A node gets its role and direction when it is added, and
 * nothing is checked.
 */
module GraphSerialize {
  import opened Wrappers
  import opened SessionTypes
  import opened SerializeWalk

  /** `Direction`. */
  datatype Direction = Send | Receive

  /** `Display for Direction`: `!` for `Send`, `?` for `Receive`. */
  function DirectionText(d: Direction): (s: string)
    ensures |s| == 1
    ensures s == "!" <==> d == Direction.Send
    ensures s == "?" <==> d == Direction.Receive
  {
    match d
    case Send => "!"
    case Receive => "?"
  }

  /** `Node`: a state that communicates with `role` in one direction, or the end. */
  datatype Node = Choices(role: string, direction: Direction) | End

  /** `Display for Node`: the role followed by the direction, and nothing for `End`. */
  function NodeText(n: Node): (s: string)
    ensures n.End? <==> s == []
    ensures n.Choices? ==> s[..|s| - 1] == n.role && [s[|s| - 1]] == DirectionText(n.direction)
  {
    match n
    case Choices(role, direction) => role + DirectionText(direction)
    case End => ""
  }

  /** Different nodes display differently, so a node's text determines it. */
  lemma NodeTextInjective(a: Node, b: Node)
    requires NodeText(a) == NodeText(b)
    ensures a == b
  {
    if a.Choices? && b.Choices? {
      var s := NodeText(a);
      assert a.role == s[..|s| - 1] == b.role;
      assert DirectionText(a.direction) == [s[|s| - 1]] == DirectionText(b.direction);
    }
  }

  /** An edge of the graph: from a node to a node, labelled by the label type's name. */
  datatype Edge = Edge(source: nat, target: nat, name: string)

  /** `Graph`: the nodes and edges in the order they were added. */
  datatype Graph = Graph(nodes: seq<Node>, edges: seq<Edge>)

  /** The direction a definition's node records: `Send` for `Send` and `Select`, `Receive` for `Receive` and `Branch`. */
  function DirectionOf(d: Session): (r: Direction)
    requires !d.End?
    ensures r == Direction.Send <==> d.Send? || d.Select?
    ensures r == Direction.Receive <==> d.Receive? || d.Branch?
  {
    if d.Send? || d.Select? then Direction.Send else Direction.Receive
  }

  /** The node `serialize` adds for a definition: `End`, or the peer role's name with the direction. */
  function NodeOf(names: nat -> string, d: Session): (n: Node)
    ensures n.End? <==> d.End?
    ensures n.Choices? ==> n.role == names(d.peer) && n.direction == DirectionOf(d)
  {
    if d.End? then Node.End else Choices(names(d.peer), DirectionOf(d))
  }

  /** The type-level facts a serialisation works from: type names and definitions. */
  datatype Env = Env(names: nat -> string, defs: map<nat, Session>)

  /** The edge an arm stands for: its type's node to its continuation's node, labelled by its label type's name. */
  ghost function EdgeFor(e: Env, h: map<nat, nat>, p: (nat, nat)): Edge
    requires Joined(e.defs, h, p)
  {
    Edge(h[p.0], h[Arm(e.defs, p).next], e.names(Arm(e.defs, p).message))
  }

  /** The `(node, label)` pair `serialize_choice` makes pending for an arm. */
  ghost function PendingFor(e: Env, h: map<nat, nat>, p: (nat, nat)): (nat, string)
    requires Chosen(e.defs, h, p)
  {
    (h[p.0], e.names(Arm(e.defs, p).message))
  }

  /** What `add_node_index` does to the graph: the pending edge, if any, now ends at `node`. */
  function Linked(g: Graph, previous: Option<(nat, string)>, node: nat): (r: Graph)
    ensures r.nodes == g.nodes
    ensures previous.None? ==> r.edges == g.edges
    ensures previous.Some? ==> r.edges == g.edges + [Edge(previous.value.0, node, previous.value.1)]
  {
    if previous.None? then g else Graph(g.nodes, g.edges + [Edge(previous.value.0, node, previous.value.1)])
  }

  /**
   * The serialiser's invariant over its graph `g`, history `h` with its
   * inverse `owner`, the arms `made` behind the edges with its inverse
   * `edgeOf`, and the pending edge: type ids and nodes correspond one to
   * one and each node is its type's; every edge stands for one arm and no
   * arm has two edges; a pending edge belongs to an arm without an edge.
   */
  ghost predicate Inv(e: Env, g: Graph, h: map<nat, nat>, owner: seq<nat>, made: seq<(nat, nat)>, edgeOf: map<(nat, nat), nat>,
                      previous: Option<(nat, string)>, pending: (nat, nat)) {
    && Closed(e.defs)
    && HistoryInv(e, g.nodes, h, owner)
    && EdgesInv(e, g.edges, h, made, edgeOf)
    && PendingInv(e, h, edgeOf, previous, pending)
  }

  /** Type ids and nodes correspond one to one through `h` and `owner`, and each node is its type's. */
  ghost predicate HistoryInv(e: Env, nodes: seq<Node>, h: map<nat, nat>, owner: seq<nat>) {
    && (forall id :: id in h ==> id in e.defs && h[id] < |nodes|)
    && |h| == |nodes| && |owner| == |nodes| && OwnerInv(h, owner)
    && (forall id :: id in h ==> nodes[h[id]] == NodeOf(e.names, e.defs[id]))
  }

  /** The `i`-th edge stands for the arm `made[i]`, and `edgeOf` is the inverse of `made`. */
  ghost predicate EdgesInv(e: Env, edges: seq<Edge>, h: map<nat, nat>, made: seq<(nat, nat)>, edgeOf: map<(nat, nat), nat>) {
    && |made| == |edges| && ArmsInv(e.defs, h, made, edgeOf)
    && (forall i :: 0 <= i < |made| ==> edges[i] == EdgeFor(e, h, made[i]))
  }

  /** A pending edge belongs to an arm without an edge. */
  ghost predicate PendingInv(e: Env, h: map<nat, nat>, edgeOf: map<(nat, nat), nat>, previous: Option<(nat, string)>, pending: (nat, nat)) {
    previous.Some? ==> Chosen(e.defs, h, pending) && pending !in edgeOf && previous.value == PendingFor(e, h, pending)
  }

  /** Giving the arm `p`, which has no edge, the next edge keeps each edge standing for its arm. */
  lemma AttachEdges(e: Env, edges: seq<Edge>, h: map<nat, nat>, made: seq<(nat, nat)>, edgeOf: map<(nat, nat), nat>,
                    p: (nat, nat), edge: Edge)
    requires EdgesInv(e, edges, h, made, edgeOf) && Joined(e.defs, h, p) && p !in edgeOf && edge == EdgeFor(e, h, p)
    ensures EdgesInv(e, edges + [edge], h, made + [p], edgeOf[p := |made|])
  {
    ArmsAttach(e.defs, h, made, edgeOf, p);
    var edges2, made2 := edges + [edge], made + [p];
    forall i | 0 <= i < |made2|
      ensures edges2[i] == EdgeFor(e, h, made2[i])
    {
      if i < |made| {
        assert made2[i] == made[i] && edges2[i] == edges[i];
      }
    }
  }

  /** Attaching the pending edge to the node of its arm's continuation gives that arm its edge. */
  lemma LinkKeeps(e: Env, g: Graph, h: map<nat, nat>, owner: seq<nat>, made: seq<(nat, nat)>, edgeOf: map<(nat, nat), nat>,
                  previous: Option<(nat, string)>, pending: (nat, nat), id: nat)
    requires Inv(e, g, h, owner, made, edgeOf, previous, pending) && previous.Some?
    requires id in h && Arm(e.defs, pending).next == id
    ensures Inv(e, Linked(g, previous, h[id]), h, owner, made + [pending], edgeOf[pending := |made|], None, pending)
  {
    AttachEdges(e, g.edges, h, made, edgeOf, pending, Edge(previous.value.0, h[id], previous.value.1));
  }

  /** A new type id with its node keeps the correspondence of type ids and nodes. */
  lemma GrowHistory(e: Env, nodes: seq<Node>, h: map<nat, nat>, owner: seq<nat>, id: nat)
    requires HistoryInv(e, nodes, h, owner) && id in e.defs && id !in h
    ensures HistoryInv(e, nodes + [NodeOf(e.names, e.defs[id])], h[id := |nodes|], owner + [id])
  {
    var nodes2, h2, owner2 := nodes + [NodeOf(e.names, e.defs[id])], h[id := |nodes|], owner + [id];
    GrowOwner(h, owner, id, h2, owner2);
    forall x | x in h2
      ensures nodes2[h2[x]] == NodeOf(e.names, e.defs[x])
    {
      if x != id {
        assert nodes2[h2[x]] == nodes[h[x]];
      }
    }
  }

  /** Arms keep their edges when the history grows. */
  lemma GrowEdges(e: Env, edges: seq<Edge>, h: map<nat, nat>, h2: map<nat, nat>, made: seq<(nat, nat)>, edgeOf: map<(nat, nat), nat>)
    requires EdgesInv(e, edges, h, made, edgeOf) && Grows(h, h2)
    ensures EdgesInv(e, edges, h2, made, edgeOf)
  {
    ArmsGrow(e.defs, h, h2, made, edgeOf);
  }

  /** A new type id's node keeps the invariant. */
  lemma GrowKeeps(e: Env, g: Graph, h: map<nat, nat>, owner: seq<nat>, made: seq<(nat, nat)>, edgeOf: map<(nat, nat), nat>,
                  previous: Option<(nat, string)>, pending: (nat, nat), id: nat)
    requires Inv(e, g, h, owner, made, edgeOf, previous, pending) && id in e.defs && id !in h
    ensures Inv(e, Graph(g.nodes + [NodeOf(e.names, e.defs[id])], g.edges), h[id := |g.nodes|], owner + [id], made, edgeOf, previous, pending)
  {
    GrowHistory(e, g.nodes, h, owner, id);
    GrowEdges(e, g.edges, h, h[id := |g.nodes|], made, edgeOf);
  }

  /** Making an arm without an edge pending keeps the invariant. */
  lemma PendKeeps(e: Env, g: Graph, h: map<nat, nat>, owner: seq<nat>, made: seq<(nat, nat)>, edgeOf: map<(nat, nat), nat>,
                  pending: (nat, nat), p: (nat, nat))
    requires Inv(e, g, h, owner, made, edgeOf, None, pending) && Chosen(e.defs, h, p) && p !in edgeOf
    ensures Inv(e, g, h, owner, made, edgeOf, Some(PendingFor(e, h, p)), p)
  {
  }

  class Serializer {
    const env: Env
    var graph: Graph
    var history: map<nat, nat>
    /** The type id behind each node. */
    ghost var owner: seq<nat>
    var previous: Option<(nat, string)>
    /** The arm (type id, arm index) behind each edge, in edge order. */
    ghost var made: seq<(nat, nat)>
    /** The edge index of each arm that has its edge. */
    ghost var edgeOf: map<(nat, nat), nat>
    /** The arm behind `previous`. */
    ghost var pending: (nat, nat)

    ghost predicate Valid()
      reads this
    {
      Inv(env, graph, history, owner, made, edgeOf, previous, pending)
    }

    /** `serialize`'s starting point: an empty graph, an empty history and nothing pending. */
    constructor (env: Env)
      requires Closed(env.defs)
      ensures this.env == env && graph == Graph([], [])
      ensures history == map[] && owner == [] && previous == None && made == [] && edgeOf == map[]
      ensures Valid()
    {
      this.env := env;
      graph := Graph([], []);
      history := map[];
      owner := [];
      previous := None;
      made := [];
      edgeOf := map[];
    }

    /** `add_node_index`: the pending edge, if any, is added into `node` and cleared. */
    method AddNodeIndex(ghost id: nat, node: nat)
      requires Valid() && id in history && history[id] == node
      requires previous.Some? ==> Arm(env.defs, pending).next == id
      modifies this
      ensures Valid() && previous == None
      ensures history == old(history) && owner == old(owner) && pending == old(pending)
      ensures made == old(made) + (if old(previous).Some? then [old(pending)] else [])
      ensures edgeOf == if old(previous).Some? then old(edgeOf)[old(pending) := |old(made)|] else old(edgeOf)
      ensures graph == Linked(old(graph), old(previous), node)
    {
      if previous.Some? {
        LinkKeeps(env, graph, history, owner, made, edgeOf, previous, pending, id);
        var (source, name) := previous.value;
        previous := None;
        graph := Graph(graph.nodes, graph.edges + [Edge(source, node, name)]);
        edgeOf := edgeOf[pending := |made|];
        made := made + [pending];
      }
    }

    /**
     * `add_node::<S>`: a type id seen before reuses its node and answers
     * `None`; a new one has `node` added, recorded in the history, and
     * answers it. Either way the pending edge ends at the node.
     */
    method AddNode(id: nat, node: Node) returns (index: Option<nat>)
      requires Valid() && id in env.defs && node == NodeOf(env.names, env.defs[id])
      requires previous.Some? ==> Arm(env.defs, pending).next == id
      modifies this
      ensures Valid() && previous == None && id in history && pending == old(pending)
      ensures index.None? <==> id in old(history)
      ensures index.None? ==> history == old(history) && owner == old(owner)
      ensures index.Some? ==> index.value == |old(graph.nodes)| && history == old(history)[id := index.value]
      ensures index.Some? ==> owner == old(owner) + [id]
      ensures made == old(made) + (if old(previous).Some? then [old(pending)] else [])
      ensures edgeOf == if old(previous).Some? then old(edgeOf)[old(pending) := |old(made)|] else old(edgeOf)
      ensures var g := old(graph);
        graph == Linked(if index.None? then g else Graph(g.nodes + [node], g.edges), old(previous), history[id])
    {
      if id in history {
        AddNodeIndex(id, history[id]);
        return None;
      }
      GrowKeeps(env, graph, history, owner, made, edgeOf, previous, pending, id);
      var n := |graph.nodes|;
      graph := Graph(graph.nodes + [node], graph.edges);
      history := history[id := n];
      owner := owner + [id];
      AddNodeIndex(id, n);
      index := Some(n);
    }

    /** `serialize_choices::<S, R>`: `add_node` with the peer role's name and the direction, and for a new node a serialiser of its arms. */
    method BeginChoices(id: nat, direction: Direction) returns (node: Option<nat>)
      requires Valid() && id in env.defs && !env.defs[id].End? && direction == DirectionOf(env.defs[id])
      requires previous.Some? ==> Arm(env.defs, pending).next == id
      modifies this
      ensures Valid() && previous == None && id in history && pending == old(pending)
      ensures node.None? <==> id in old(history)
      ensures node.None? ==> history == old(history)
      ensures node.Some? ==> node.value == history[id] == |old(graph.nodes)| && history == old(history)[id := node.value]
      ensures made == old(made) + (if old(previous).Some? then [old(pending)] else [])
      ensures edgeOf == if old(previous).Some? then old(edgeOf)[old(pending) := |old(made)|] else old(edgeOf)
    {
      node := AddNode(id, Choices(env.names(env.defs[id].peer), direction));
    }

    /**
     * `S::serialize`: `End` adds its node (`serialize_end`); the other
     * constructors add theirs with their direction and, when it is new,
     * expand their arms in order.
     */
    method SerializeType(id: nat)
      requires Valid() && id in env.defs
      requires previous.Some? ==> Arm(env.defs, pending).next == id
      modifies this
      decreases env.defs.Keys - history.Keys, 1
      ensures Valid() && previous == None && id in history
      ensures id !in old(history) ==> history[id] == |old(graph.nodes)|
      ensures Serialized(env.defs, old(history), old(edgeOf), history, edgeOf, if old(previous).Some? then Some(old(pending)) else None)
    {
      if env.defs[id].End? {
        var _ := AddNode(id, Node.End);
      } else {
        SerializeChoicesType(id);
      }
    }

    /** `serialize` of `Send`, `Receive`, `Select` and `Branch`: `serialize_choices`, then the arms if the node is new. */
    method SerializeChoicesType(id: nat)
      requires Valid() && id in env.defs && !env.defs[id].End?
      requires previous.Some? ==> Arm(env.defs, pending).next == id
      modifies this
      decreases env.defs.Keys - history.Keys, 0
      ensures Valid() && previous == None && id in history
      ensures id !in old(history) ==> history[id] == |old(graph.nodes)|
      ensures Serialized(env.defs, old(history), old(edgeOf), history, edgeOf, if old(previous).Some? then Some(old(pending)) else None)
    {
      ghost var h0, m0 := history, edgeOf;
      ghost var arm := if previous.Some? then Some(pending) else None;
      if id !in history {
        ArmsOfVisited(env.defs, history, made, edgeOf, id);
      }
      var node := BeginChoices(id, DirectionOf(env.defs[id]));
      if node.Some? {
        ghost var h1, m1 := history, edgeOf;
        assert forall p :: p in edgeOf ==> p.0 != id;
        SerializeChoices(id, node.value);
        ExpandedSerialized(env.defs, h0, m0, h1, m1, history, edgeOf, id, arm);
      }
    }

    /** `SerializeChoices::serialize_choices`: `serialize_choice` for each arm in turn. */
    method SerializeChoices(id: nat, node: nat)
      requires Valid() && previous == None && id in env.defs && !env.defs[id].End? && id in history && node == history[id]
      requires forall p :: p in edgeOf ==> p.0 != id
      modifies this
      decreases env.defs.Keys - history.Keys, 3
      ensures Valid() && previous == None
      ensures Expanded(env.defs, old(history), old(edgeOf), history, edgeOf, id, |ChoicesOf(env.defs[id])|)
    {
      var arms := ChoicesOf(env.defs[id]);
      ghost var h0, m0 := history, edgeOf;
      for k := 0 to |arms|
        invariant Valid() && previous == None
        invariant Expanded(env.defs, h0, m0, history, edgeOf, id, k)
      {
        ghost var h1, m1 := history, edgeOf;
        ExpandedFresh(env.defs, h0, m0, history, edgeOf, id, k);
        SerializeChoice(id, k, node, arms[k].message, arms[k].next);
        ExpandedStep(env.defs, h0, m0, h1, m1, history, edgeOf, id, k);
      }
    }

    /**
     * `serialize_choice::<L, S>`: an edge from the node, labelled with the
     * name of `L`, becomes pending, and the continuation `S` is serialised,
     * which attaches it.
     */
    method SerializeChoice(ghost id: nat, ghost k: nat, node: nat, message: nat, next: nat)
      requires Valid() && previous == None && id in env.defs && id in history && node == history[id]
      requires k < |ChoicesOf(env.defs[id])| && ChoicesOf(env.defs[id])[k] == Choice(message, next)
      requires (id, k) !in edgeOf
      modifies this
      decreases env.defs.Keys - history.Keys, 2
      ensures Valid() && previous == None
      ensures Serialized(env.defs, old(history), old(edgeOf), history, edgeOf, Some((id, k)))
    {
      assert next in env.defs by {
        assert Closed(env.defs) && Choice(message, next) in ChoicesOf(env.defs[id]);
      }
      PendKeeps(env, graph, history, owner, made, edgeOf, pending, (id, k));
      previous := Some((node, env.names(message)));
      pending := (id, k);
      SerializeType(next);
    }
  }

  /**
   * `serialize::<S>`: the graph of the session type `root`. Every type id
   * reachable from `root` has exactly one node, `root`'s being the first,
   * and the node is its definition's; the edges are exactly one per arm of
   * each visited type, from its node to its continuation's node, labelled
   * by the name of the arm's label type.
   */
  method Serialize(names: nat -> string, defs: map<nat, Session>, root: nat)
    returns (graph: Graph, ghost history: map<nat, nat>, ghost made: seq<(nat, nat)>)
    requires root in defs && Closed(defs)
    ensures root in history && history[root] == 0
    ensures forall id :: id in history ==> id in defs && history[id] < |graph.nodes|
    ensures |history| == |graph.nodes| && Injective(history)
    ensures forall id :: id in history ==> graph.nodes[history[id]] == NodeOf(names, defs[id])
    ensures forall id, c :: id in history && c in ChoicesOf(defs[id]) ==> c.next in history
    ensures |made| == |graph.edges| && (forall i, j :: 0 <= i < j < |made| ==> made[i] != made[j])
    ensures forall p :: p in made <==> p.0 in history && p.1 < |ChoicesOf(defs[p.0])|
    ensures forall i :: 0 <= i < |made| ==>
      var c := ChoicesOf(defs[made[i].0])[made[i].1];
      c.next in history && graph.edges[i] == Edge(history[made[i].0], history[c.next], names(c.message))
    ensures |graph.nodes| >= 1 && graph.nodes[0] == NodeOf(names, defs[root])
  {
    var s := new Serializer(Env(names, defs));
    s.SerializeType(root);
    graph, history, made := s.graph, s.history, s.made;
    ArmsExact(defs, history, made, s.edgeOf);
    OwnerInjective(history, s.owner);
  }
}
