/**
 * The code generator's DOT reader (generate/src/parser.rs): `check_graph_edges`,
 * which vets a role's DOT graph edge by edge, `try_from`, which turns a
 * vetted graph into the generator's protocol graph, and `Tree::parse`,
 * which reads one graph per role. The DOT text comes already parsed into
 * statements, with only the `label` entries of each edge's attribute lists
 * kept and parsed into their role, direction, message and parameters.
 */
module GenTree {
  import opened Wrappers
  import opened GenGraph
  import opened GenParser
  import Definitions

  /** `label::Label`: an edge label's peer role, direction, message (its payload) and parameters. */
  datatype Label = Label(role: string, direction: Direction, payload: string, parameters: seq<string>)

  /**
   * An edge statement: its first two endpoints, whether it chains on to a
   * further node, and its attribute lists with their label entries.
   */
  datatype DotEdge = DotEdge(from: string, to: string, chained: bool, attributes: seq<seq<Label>>)

  /** A statement of a DOT graph: a node, an edge, or anything else (attributes, assignments). */
  datatype DotStatement = DotNode(name: string) | DotEdgeStatement(edge: DotEdge) | DotOther

  /** A DOT graph: its name, if it has one, and its statements. */
  datatype DotGraph = DotGraph(name: Option<string>, statements: seq<DotStatement>)

  /** The names of the node statements, in order. */
  function DotNodes(statements: seq<DotStatement>): (names: seq<string>)
    ensures |names| <= |statements|
  {
    if statements == [] then []
    else
      var last := statements[|statements| - 1];
      DotNodes(statements[..|statements| - 1]) + if last.DotNode? then [last.name] else []
  }

  /** The edge statements, in order. */
  function DotEdges(statements: seq<DotStatement>): (edges: seq<DotEdge>)
    ensures |edges| <= |statements|
  {
    if statements == [] then []
    else
      var last := statements[|statements| - 1];
      DotEdges(statements[..|statements| - 1]) + if last.DotEdgeStatement? then [last.edge] else []
  }

  /** All label entries of an edge, list after list. */
  function Flatten(attributes: seq<seq<Label>>): seq<Label> {
    if attributes == [] then [] else attributes[0] + Flatten(attributes[1..])
  }

  /** The label `check_graph_edges` reads: the last entry of the flattened lists. */
  function LastLabel(e: DotEdge): Option<Label> {
    var all := Flatten(e.attributes);
    if all == [] then None else Some(all[|all| - 1])
  }

  /** `NodeDirection`: what a node's earlier edges say about it. */
  datatype NodeDirection = Unspecified | SendTo(peer: string) | ReceiveFrom(peer: string)

  /** The node direction an edge's label gives its source. */
  function DirectionOf(l: Label): NodeDirection {
    if l.direction == Send then SendTo(l.role) else ReceiveFrom(l.role)
  }

  /**
   * What `check_graph_edges` demands of each edge on its own: it joins two
   * nodes only, it has a label, its source is a declared node, and its
   * peer is not the graph's own role.
   */
  predicate EdgeChecked(graph: DotGraph, e: DotEdge) {
    && !e.chained && LastLabel(e).Some?
    && e.from in DotNodes(graph.statements)
    && graph.name != Some(LastLabel(e).value.role)
  }

  /**
   * What it demands of two labelled edges: one message always has the same
   * parameters, and edges from one node have the same direction and peer.
   */
  predicate Agree(a: DotEdge, b: DotEdge) {
    LastLabel(a).Some? && LastLabel(b).Some? ==>
      && (LastLabel(a).value.payload == LastLabel(b).value.payload ==> LastLabel(a).value.parameters == LastLabel(b).value.parameters)
      && (a.from == b.from ==> DirectionOf(LastLabel(a).value) == DirectionOf(LastLabel(b).value))
  }

  /** The first `n` edges pass the check. */
  predicate CheckedUpTo(graph: DotGraph, edges: seq<DotEdge>, n: nat)
    requires n <= |edges|
  {
    && (forall k :: 0 <= k < n ==> EdgeChecked(graph, edges[k]))
    && forall i, j :: 0 <= i < j < n ==> Agree(edges[i], edges[j])
  }

  /** The graph passes `check_graph_edges`. */
  predicate GraphEdgesValid(graph: DotGraph) {
    var edges := DotEdges(graph.statements);
    CheckedUpTo(graph, edges, |edges|)
  }

  /** `payloads` holds the parameters of each message the first `n` edges used, and no other message. */
  ghost predicate PayloadsRecorded(edges: seq<DotEdge>, n: nat, payloads: map<string, seq<string>>)
    requires n <= |edges|
  {
    && (forall k :: 0 <= k < n ==>
         (LastLabel(edges[k]).Some? && LastLabel(edges[k]).value.payload in payloads
          && payloads[LastLabel(edges[k]).value.payload] == LastLabel(edges[k]).value.parameters))
    && (forall p :: p in payloads ==> exists k :: 0 <= k < n && LastLabel(edges[k]).Some? && LastLabel(edges[k]).value.payload == p)
  }

  /** `nodes` maps every declared node to the direction the first `n` edges gave it, if any. */
  ghost predicate DirectionsRecorded(graph: DotGraph, edges: seq<DotEdge>, n: nat, nodes: map<string, NodeDirection>)
    requires n <= |edges|
  {
    && (forall m :: m in nodes <==> m in DotNodes(graph.statements))
    && (forall k :: 0 <= k < n ==> LastLabel(edges[k]).Some? && edges[k].from in nodes && nodes[edges[k].from] == DirectionOf(LastLabel(edges[k]).value))
    && (forall m :: m in nodes && nodes[m] != Unspecified ==> exists k :: 0 <= k < n && edges[k].from == m)
  }

  /** Where the check's loop has got to after `n` edges: the edges so far pass, and the two maps record them. */
  ghost predicate Scanned(graph: DotGraph, edges: seq<DotEdge>, n: nat, nodes: map<string, NodeDirection>, payloads: map<string, seq<string>>)
    requires n <= |edges|
  {
    CheckedUpTo(graph, edges, n) && PayloadsRecorded(edges, n, payloads) && DirectionsRecorded(graph, edges, n, nodes)
  }

  /** The payload condition the loop checks for the next edge. */
  predicate PayloadFits(payloads: map<string, seq<string>>, l: Label) {
    l.payload in payloads ==> payloads[l.payload] == l.parameters
  }

  /** The direction condition the loop checks for the next edge: no earlier direction, or the same. */
  predicate DirectionFits(nodes: map<string, NodeDirection>, from: string, l: Label)
    requires from in nodes
  {
    nodes[from] == Unspecified || nodes[from] == DirectionOf(l)
  }

  /** A passing edge that agrees with every earlier edge extends the passing prefix. */
  lemma CheckedExtend(graph: DotGraph, edges: seq<DotEdge>, n: nat)
    requires n < |edges| && CheckedUpTo(graph, edges, n) && EdgeChecked(graph, edges[n])
    requires forall i :: 0 <= i < n ==> Agree(edges[i], edges[n])
    ensures CheckedUpTo(graph, edges, n + 1)
  {
  }

  /** An edge that fits both maps agrees with every earlier edge. */
  lemma CheckStep(graph: DotGraph, edges: seq<DotEdge>, n: nat, nodes: map<string, NodeDirection>, payloads: map<string, seq<string>>)
    requires n < |edges| && PayloadsRecorded(edges, n, payloads) && DirectionsRecorded(graph, edges, n, nodes)
    requires LastLabel(edges[n]).Some?
    requires var l := LastLabel(edges[n]).value;
      PayloadFits(payloads, l) && edges[n].from in nodes && DirectionFits(nodes, edges[n].from, l)
    ensures forall i :: 0 <= i < n ==> Agree(edges[i], edges[n])
  {
    var e := edges[n];
    var l := LastLabel(e).value;
    forall i | 0 <= i < n
      ensures Agree(edges[i], e)
    {
      var li := LastLabel(edges[i]).value;
      if li.payload == l.payload {
        assert payloads[li.payload] == li.parameters;
      }
      if edges[i].from == e.from {
        assert nodes[e.from] == DirectionOf(li);
      }
    }
  }

  /** Recording a fitting edge's message keeps the payload map exact. */
  lemma PayloadsStep(edges: seq<DotEdge>, n: nat, payloads: map<string, seq<string>>)
    requires n < |edges| && PayloadsRecorded(edges, n, payloads)
    requires LastLabel(edges[n]).Some? && PayloadFits(payloads, LastLabel(edges[n]).value)
    ensures var l := LastLabel(edges[n]).value;
      PayloadsRecorded(edges, n + 1, if l.payload in payloads then payloads else payloads[l.payload := l.parameters])
  {
    var l := LastLabel(edges[n]).value;
    var payloads' := if l.payload in payloads then payloads else payloads[l.payload := l.parameters];
    forall p | p in payloads'
      ensures exists k :: 0 <= k < n + 1 && LastLabel(edges[k]).Some? && LastLabel(edges[k]).value.payload == p
    {
      if p != l.payload {
        var k :| 0 <= k < n && LastLabel(edges[k]).Some? && LastLabel(edges[k]).value.payload == p;
      }
    }
  }

  /** Recording a fitting edge's direction keeps the node map exact. */
  lemma DirectionsStep(graph: DotGraph, edges: seq<DotEdge>, n: nat, nodes: map<string, NodeDirection>)
    requires n < |edges| && DirectionsRecorded(graph, edges, n, nodes)
    requires LastLabel(edges[n]).Some? && edges[n].from in nodes && DirectionFits(nodes, edges[n].from, LastLabel(edges[n]).value)
    ensures DirectionsRecorded(graph, edges, n + 1, nodes[edges[n].from := DirectionOf(LastLabel(edges[n]).value)])
  {
    var e := edges[n];
    var l := LastLabel(e).value;
    var nodes' := nodes[e.from := DirectionOf(l)];
    forall m | m in nodes' && nodes'[m] != Unspecified
      ensures exists k :: 0 <= k < n + 1 && edges[k].from == m
    {
      if m != e.from {
        var k :| 0 <= k < n && edges[k].from == m;
      }
    }
    forall k | 0 <= k < n && edges[k].from == e.from
      ensures DirectionOf(LastLabel(edges[k]).value) == DirectionOf(l)
    {
      assert nodes[e.from] == DirectionOf(LastLabel(edges[k]).value);
    }
  }

  /** An edge that passes every check of the loop keeps `Scanned` one edge further. */
  lemma ScanStep(graph: DotGraph, edges: seq<DotEdge>, n: nat, nodes: map<string, NodeDirection>, payloads: map<string, seq<string>>)
    requires n < |edges| && Scanned(graph, edges, n, nodes, payloads)
    requires EdgeChecked(graph, edges[n])
    requires var l := LastLabel(edges[n]).value;
      PayloadFits(payloads, l) && edges[n].from in nodes && DirectionFits(nodes, edges[n].from, l)
    ensures var l := LastLabel(edges[n]).value;
      Scanned(graph, edges, n + 1, nodes[edges[n].from := DirectionOf(l)], if l.payload in payloads then payloads else payloads[l.payload := l.parameters])
  {
    CheckStep(graph, edges, n, nodes, payloads);
    CheckedExtend(graph, edges, n);
    PayloadsStep(edges, n, payloads);
    DirectionsStep(graph, edges, n, nodes);
  }

  /** An edge that fails one of the loop's checks makes the graph invalid. */
  lemma ScanRejected(graph: DotGraph, edges: seq<DotEdge>, n: nat, nodes: map<string, NodeDirection>, payloads: map<string, seq<string>>)
    requires edges == DotEdges(graph.statements) && n < |edges| && Scanned(graph, edges, n, nodes, payloads)
    requires !EdgeChecked(graph, edges[n])
      || (var l := LastLabel(edges[n]).value; !PayloadFits(payloads, l) || (edges[n].from in nodes && !DirectionFits(nodes, edges[n].from, l)))
    ensures !GraphEdgesValid(graph)
  {
    var e := edges[n];
    if EdgeChecked(graph, e) {
      var l := LastLabel(e).value;
      if !PayloadFits(payloads, l) {
        var k :| 0 <= k < n && LastLabel(edges[k]).Some? && LastLabel(edges[k]).value.payload == l.payload;
        assert !Agree(edges[k], e);
      } else {
        var k :| 0 <= k < n && edges[k].from == e.from;
        assert !Agree(edges[k], e);
      }
    }
  }

  /**
   * `check_graph_edges`: every edge must join two nodes only, carry a
   * label, leave a declared node, keep its message's parameters, agree
   * with the direction and peer of the earlier edges from its node, and
   * not name the graph's own role. The first edge that fails stops the
   * check (it prints why, which the model leaves out).
   */
  method CheckGraphEdges(graph: DotGraph) returns (ok: bool)
    ensures ok <==> GraphEdgesValid(graph)
  {
    var nodes: map<string, NodeDirection> := map m | m in DotNodes(graph.statements) :: Unspecified;
    var payloads: map<string, seq<string>> := map[];
    var edges := DotEdges(graph.statements);
    var n := 0;
    while n < |edges|
      invariant 0 <= n <= |edges|
      invariant Scanned(graph, edges, n, nodes, payloads)
    {
      var e := edges[n];
      var l := LastLabel(e);
      if e.chained || l.None? {
        ScanRejected(graph, edges, n, nodes, payloads);
        return false;
      }
      var tag := l.value;
      if tag.payload in payloads && payloads[tag.payload] != tag.parameters {
        ScanRejected(graph, edges, n, nodes, payloads);
        return false;
      }
      if e.from !in nodes {
        ScanRejected(graph, edges, n, nodes, payloads);
        return false;
      }
      var direction := nodes[e.from];
      var clash := if tag.direction == Send then direction.ReceiveFrom? || (direction.SendTo? && direction.peer != tag.role)
                   else direction.SendTo? || (direction.ReceiveFrom? && direction.peer != tag.role);
      if clash || graph.name == Some(tag.role) {
        ScanRejected(graph, edges, n, nodes, payloads);
        return false;
      }
      ScanStep(graph, edges, n, nodes, payloads);
      nodes := nodes[e.from := DirectionOf(tag)];
      if tag.payload !in payloads {
        payloads := payloads[tag.payload := tag.parameters];
      }
      n := n + 1;
    }
    return true;
  }

  /** The label `try_from` reads: the first entry of the first attribute list, if there is one. */
  function FirstLabel(e: DotEdge): Option<Label> {
    if |e.attributes| > 0 && |e.attributes[0]| > 0 then Some(e.attributes[0][0]) else None
  }

  /**
   * What `try_from` takes for granted of a graph, beyond the check: every
   * edge has a first label, naming a role of the protocol, and leads to a
   * declared node. It panics on a graph without these.
   */
  predicate Sound(graph: DotGraph, roles: seq<string>) {
    forall e :: e in DotEdges(graph.statements) ==>
      FirstLabel(e).Some? && FirstLabel(e).value.role in roles && e.to in DotNodes(graph.statements)
  }

  /** Graph edge `ge` joins the nodes named by edge statement `e` and carries its first label's message. */
  ghost predicate Joined(g: Graph, labels: seq<(string, seq<string>)>, e: DotEdge, ge: GraphEdge) {
    && ge.source < |g.nodes| && ge.target < |g.nodes|
    && g.nodes[ge.source].name == e.from && g.nodes[ge.target].name == e.to
    && FirstLabel(e).Some? && ge.labelIndex < |labels| && labels[ge.labelIndex].0 == FirstLabel(e).value.payload
  }

  /**
   * `g` is the protocol graph of `dot` under the context's tables: one node
   * per node statement with its name, one edge per edge statement joining
   * the nodes it names carrying its first label's message, every node with
   * edges marked with the peer role and direction of the first label of
   * the last edge leaving it, and every index in range of the tables.
   */
  ghost predicate Converted(dot: DotGraph, roles: seq<string>, labels: seq<(string, seq<string>)>, g: Graph) {
    var names := DotNodes(dot.statements);
    var edges := DotEdges(dot.statements);
    && Definitions.Ready(g) && Within(g, |roles|, |labels|)
    && |g.nodes| == |names| && (forall k :: 0 <= k < |names| ==> g.nodes[k].name == names[k])
    && |g.edges| == |edges| && (forall k :: 0 <= k < |edges| ==> Joined(g, labels, edges[k], g.edges[k]))
    && Labelled(roles, names, edges, |edges|, g)
  }

  /**
   * Each node the first `n` edge statements leave carries the peer role
   * and direction of the first label of the last of them: every edge
   * overwrites its source's role and direction, so the last one stays.
   */
  ghost predicate Labelled(roles: seq<string>, names: seq<string>, edges: seq<DotEdge>, n: nat, g: Graph) {
    forall k ::
      (&& 0 <= k < n <= |edges| && edges[k].from in names && FirstLabel(edges[k]).Some? && |g.nodes| == |names|
       && forall j :: k < j < n ==> edges[j].from != edges[k].from) ==>
      var node := g.nodes[LastIndex(names, edges[k].from)];
      && node.role.Some? && node.role.value < |roles| && roles[node.role.value] == FirstLabel(edges[k]).value.role
      && node.direction == Some(FirstLabel(edges[k]).value.direction)
  }

  /** Connecting the next edge marks its source with its role and direction and leaves the other nodes' marks alone. */
  lemma LabelledStep(roles: seq<string>, names: seq<string>, edges: seq<DotEdge>, n: nat, g: Graph, payloadIndex: nat, roleIndex: nat)
    requires n < |edges| && |g.nodes| == |names| && Labelled(roles, names, edges, n, g)
    requires edges[n].from in names && edges[n].to in names && FirstLabel(edges[n]).Some?
    requires roleIndex < |roles| && roles[roleIndex] == FirstLabel(edges[n]).value.role
    ensures Labelled(roles, names, edges, n + 1,
      Connect(g, LastIndex(names, edges[n].from), LastIndex(names, edges[n].to), payloadIndex, roleIndex, FirstLabel(edges[n]).value.direction))
  {
    var from := LastIndex(names, edges[n].from);
    var h := Connect(g, from, LastIndex(names, edges[n].to), payloadIndex, roleIndex, FirstLabel(edges[n]).value.direction);
    forall k | 0 <= k < n && edges[k].from in names && FirstLabel(edges[k]).Some? && (forall j :: k < j < n + 1 ==> edges[j].from != edges[k].from)
      ensures h.nodes[LastIndex(names, edges[k].from)] == g.nodes[LastIndex(names, edges[k].from)]
    {
      assert edges[n].from != edges[k].from;
    }
  }

  /** Connecting nodes and adding labels at the end of the table keeps every earlier edge joined. */
  lemma JoinedKeeps(g: Graph, h: Graph, labels: seq<(string, seq<string>)>, labels': seq<(string, seq<string>)>, edges: seq<DotEdge>, n: nat)
    requires n <= |edges| && n <= |g.edges| <= |h.edges| && h.edges[..n] == g.edges[..n]
    requires |g.nodes| == |h.nodes| && forall k :: 0 <= k < |g.nodes| ==> g.nodes[k].name == h.nodes[k].name
    requires |labels| <= |labels'| && labels'[..|labels|] == labels
    requires forall k :: 0 <= k < n ==> Joined(g, labels, edges[k], g.edges[k])
    ensures forall k :: 0 <= k < n ==> Joined(h, labels', edges[k], h.edges[k])
  {
    forall k | 0 <= k < n
      ensures Joined(h, labels', edges[k], h.edges[k])
    {
      assert h.edges[k] == h.edges[..n][k];
      assert labels'[g.edges[k].labelIndex] == labels[g.edges[k].labelIndex];
    }
  }

  /** The tables only grow, so the graph stays in range of them. */
  lemma WithinGrows(g: Graph, roles: nat, labels: nat, labels': nat)
    requires Within(g, roles, labels) && labels <= labels'
    ensures Within(g, roles, labels')
  {
  }

  /**
   * Where `try_from`'s edge loop has got to after `n` of the edge
   * statements `edges`, with `start` the label table it began with: the
   * graph is ready and in range of the tables, has one node per name, and
   * joins the first `n` edges.
   */
  ghost predicate Converting(names: seq<string>, edges: seq<DotEdge>, roles: seq<string>, start: seq<(string, seq<string>)>, labels: seq<(string, seq<string>)>, n: nat, g: Graph) {
    && n <= |edges|
    && |start| <= |labels| && labels[..|start|] == start
    && Wired(g) && Marked(g) && Within(g, |roles|, |labels|)
    && |g.nodes| == |names| && (forall j :: 0 <= j < |names| ==> g.nodes[j].name == names[j])
    && |g.edges| == n && (forall j :: 0 <= j < n ==> Joined(g, labels, edges[j], g.edges[j]))
    && Labelled(roles, names, edges, n, g)
  }

  /** Connecting the next edge, with its message in the table, keeps `Converting` one edge further. */
  lemma ConvertStep(names: seq<string>, edges: seq<DotEdge>, roles: seq<string>, start: seq<(string, seq<string>)>, before: seq<(string, seq<string>)>, labels: seq<(string, seq<string>)>,
                    n: nat, g: Graph, payloadIndex: nat, roleIndex: nat)
    requires Converting(names, edges, roles, start, before, n, g) && n < |edges|
    requires |before| <= |labels| && labels[..|before|] == before
    requires edges[n].from in names && edges[n].to in names && FirstLabel(edges[n]).Some?
    requires payloadIndex < |labels| && labels[payloadIndex].0 == FirstLabel(edges[n]).value.payload
    requires roleIndex < |roles| && roles[roleIndex] == FirstLabel(edges[n]).value.role
    ensures Converting(names, edges, roles, start, labels, n + 1,
      Connect(g, LastIndex(names, edges[n].from), LastIndex(names, edges[n].to), payloadIndex, roleIndex, FirstLabel(edges[n]).value.direction))
  {
    var e := edges[n];
    var from, to := LastIndex(names, e.from), LastIndex(names, e.to);
    var h := Connect(g, from, to, payloadIndex, roleIndex, FirstLabel(e).value.direction);
    WithinGrows(g, |roles|, |before|, |labels|);
    ConnectReady(g, from, to, payloadIndex, roleIndex, FirstLabel(e).value.direction, |roles|, |labels|);
    LabelledStep(roles, names, edges, n, g, payloadIndex, roleIndex);
    assert h.edges[..n] == g.edges;
    assert forall j :: 0 <= j < |g.nodes| ==> h.nodes[j].name == g.nodes[j].name;
    JoinedKeeps(g, h, before, labels, edges, n);
    assert Joined(h, labels, e, h.edges[n]);
    PrefixTransitive(start, before, labels);
  }

  /**
   * The body of `try_from`'s edge loop for edge `k`: its first label's
   * message goes into the context's table unless the table has it, and the
   * edge joins the nodes it names, marking its source with the label's
   * role and direction.
   */
  method ConnectNext(context: Context, names: seq<string>, edges: seq<DotEdge>, index: map<string, nat>, k: nat, graph: Graph,
                     ghost start: seq<(string, seq<string>)>) returns (h: Graph)
    requires context.Valid() && Converting(names, edges, context.roles, start, context.labels, k, graph) && k < |edges|
    requires edges[k].from in names && edges[k].to in names && FirstLabel(edges[k]).Some? && FirstLabel(edges[k]).value.role in context.roles
    requires forall n :: n in names ==> n in index && index[n] == LastIndex(names, n)
    modifies context
    ensures context.Valid() && context.roles == old(context.roles)
    ensures Converting(names, edges, context.roles, start, context.labels, k + 1, h)
  {
    var e := edges[k];
    var tag := FirstLabel(e).value;
    ghost var before := context.labels;
    if tag.payload !in Keys(context.labels) {
      context.InsertLabel(tag.payload, tag.parameters);
      KeysAppend(before, (tag.payload, tag.parameters));
      assert context.labels[..|before|] == before;
    }
    var payloadIndex := context.LabelIndex(tag.payload).value;
    var roleIndex := context.RoleIndex(tag.role).value;
    ConvertStep(names, edges, context.roles, start, before, context.labels, k, graph, payloadIndex, roleIndex);
    h := Connect(graph, index[e.from], index[e.to], payloadIndex, roleIndex, tag.direction);
  }

  /**
   * `try_from`: the check first, then one node per node statement and, for
   * each edge statement, its first label's message added to the context's
   * table unless the table has it (a message keeps the parameters it was
   * first seen with), its source marked with the label's role and
   * direction, and the edge added. The graph comes out exactly when the
   * check passes; the context's table only grows.
   */
  method TryFrom(dot: DotGraph, context: Context) returns (r: Result<Graph, ()>)
    requires context.Valid() && Sound(dot, context.roles)
    modifies context
    ensures context.Valid() && context.roles == old(context.roles)
    ensures r.Err? ==> context.labels == old(context.labels)
    ensures |old(context.labels)| <= |context.labels| && context.labels[..|old(context.labels)|] == old(context.labels)
    ensures r.Ok? <==> GraphEdgesValid(dot)
    ensures r.Ok? ==> Converted(dot, context.roles, context.labels, r.value)
  {
    var ok := CheckGraphEdges(dot);
    if !ok {
      return Err(());
    }
    var names := DotNodes(dot.statements);
    var edges := DotEdges(dot.statements);
    var graph, index := AddNodes(names);
    ghost var start := context.labels;
    var k := 0;
    while k < |edges|
      invariant context.Valid() && context.roles == old(context.roles)
      invariant Converting(names, edges, context.roles, start, context.labels, k, graph)
    {
      assert edges[k] in edges && EdgeChecked(dot, edges[k]);
      graph := ConnectNext(context, names, edges, index, k, graph, start);
      k := k + 1;
    }
    r := Ok(graph);
  }

  /** One input of `Tree::parse`: the role named in a graph's header, and the graph. */
  datatype Input = Input(role: string, graph: DotGraph)

  /** `Tree`: each role with its protocol graph, and the message labels with their parameters. */
  datatype Tree = Tree(roles: seq<(string, Graph)>, labels: seq<(string, seq<string>)>)

  /** How `Tree::parse` ends: with the tree, with an error, or with a panic of one of the unwraps. */
  datatype TreeOutcome = Parsed(tree: Tree) | Failed(message: string) | Crashed

  const DuplicateRole := "duplicate graphs found for role"

  /** The roles the inputs name, in order. */
  function RoleNames(inputs: seq<Input>): (names: seq<string>)
    ensures |names| == |inputs| && forall k :: 0 <= k < |inputs| ==> names[k] == inputs[k].role
  {
    if inputs == [] then [] else [inputs[0].role] + RoleNames(inputs[1..])
  }

  /**
   * `Tree::parse`: the roles named by the inputs go into the role table in
   * order, and a role named twice is an error; then each graph becomes a
   * protocol graph, sharing the label table. A graph that fails the check,
   * or that `try_from` cannot convert, makes the parse panic (the check's
   * failure is unwrapped). So the parse fails exactly when a role repeats,
   * and otherwise succeeds exactly when every graph passes the check and
   * is sound.
   */
  method TreeParse(inputs: seq<Input>) returns (r: TreeOutcome)
    ensures r.Failed? <==> !Distinct(RoleNames(inputs))
    ensures r.Failed? ==> r.message == DuplicateRole
    ensures r.Parsed? <==> Distinct(RoleNames(inputs)) && forall k :: 0 <= k < |inputs| ==> GraphEdgesValid(inputs[k].graph) && Sound(inputs[k].graph, RoleNames(inputs))
    ensures r.Parsed? ==> Distinct(Keys(r.tree.labels)) && AllConverted(inputs, RoleNames(inputs), r.tree.labels, r.tree.roles, |inputs|)
  {
    var context := new Context();
    var distinct := RegisterRoles(context, inputs);
    if !distinct {
      return Failed(DuplicateRole);
    }
    var roles := ConvertGraphs(context, inputs);
    if roles.None? {
      return Crashed;
    }
    r := Parsed(Tree(roles.value, context.labels));
  }

  /** The first loop of `Tree::parse`: each input's role into the empty role table, and whether no role came twice. */
  method RegisterRoles(context: Context, inputs: seq<Input>) returns (distinct: bool)
    requires context.Valid() && context.roles == [] && context.labels == []
    modifies context
    ensures context.Valid() && context.labels == []
    ensures distinct <==> Distinct(RoleNames(inputs))
    ensures distinct ==> context.roles == RoleNames(inputs)
  {
    var names := RoleNames(inputs);
    var k := 0;
    while k < |inputs|
      invariant 0 <= k <= |inputs|
      invariant context.Valid() && context.roles == names[..k] && context.labels == []
    {
      var inserted := context.InsertRole(inputs[k].role);
      if !inserted {
        assert !Distinct(names) by {
          var j :| 0 <= j < k && context.roles[j] == inputs[k].role;
        }
        return false;
      }
      assert names[..k + 1] == names[..k] + [names[k]];
      k := k + 1;
    }
    assert context.roles == names;
    distinct := true;
  }

  /** The first `n` inputs' graphs converted, in order, under the role names and label table. */
  ghost predicate AllConverted(inputs: seq<Input>, names: seq<string>, labels: seq<(string, seq<string>)>, roles: seq<(string, Graph)>, n: nat) {
    && n <= |inputs| && |roles| == n
    && forall j :: 0 <= j < n ==> roles[j].0 == inputs[j].role && Converted(inputs[j].graph, names, labels, roles[j].1)
  }

  /**
   * The second loop of `Tree::parse`: each graph through `try_from`, in
   * order, sharing the label table. It gets through exactly when every
   * graph passes the check and is sound; otherwise the parse panics.
   */
  method ConvertGraphs(context: Context, inputs: seq<Input>) returns (roles: Option<seq<(string, Graph)>>)
    requires context.Valid()
    modifies context
    ensures context.Valid() && context.roles == old(context.roles)
    ensures roles.Some? <==> forall k :: 0 <= k < |inputs| ==> GraphEdgesValid(inputs[k].graph) && Sound(inputs[k].graph, context.roles)
    ensures roles.Some? ==> AllConverted(inputs, context.roles, context.labels, roles.value, |inputs|)
  {
    var done: seq<(string, Graph)> := [];
    var k := 0;
    while k < |inputs|
      invariant 0 <= k <= |inputs|
      invariant context.Valid() && context.roles == old(context.roles)
      invariant forall j :: 0 <= j < k ==> GraphEdgesValid(inputs[j].graph) && Sound(inputs[j].graph, context.roles)
      invariant AllConverted(inputs, context.roles, context.labels, done, k)
    {
      if !Sound(inputs[k].graph, context.roles) {
        return None;
      }
      ghost var before := context.labels;
      var g := TryFrom(inputs[k].graph, context);
      if g.Err? {
        return None;
      }
      ConvertedKeeps(inputs, done, context.roles, before, context.labels, k);
      done := done + [(inputs[k].role, g.value)];
      k := k + 1;
    }
    roles := Some(done);
  }

  /** Labels added at the end of the table keep the earlier graphs converted. */
  lemma ConvertedKeeps(inputs: seq<Input>, roles: seq<(string, Graph)>, names: seq<string>,
                       labels: seq<(string, seq<string>)>, labels': seq<(string, seq<string>)>, n: nat)
    requires |labels| <= |labels'| && labels'[..|labels|] == labels
    requires AllConverted(inputs, names, labels, roles, n)
    ensures AllConverted(inputs, names, labels', roles, n)
  {
    forall j | 0 <= j < n
      ensures Converted(inputs[j].graph, names, labels', roles[j].1)
    {
      var g := roles[j].1;
      WithinGrows(g, |names|, |labels|, |labels'|);
      JoinedKeeps(g, g, labels, labels', DotEdges(inputs[j].graph.statements), |g.edges|);
    }
  }
}
