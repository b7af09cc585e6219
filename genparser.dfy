/**
 * The code generator's first parser (generate/src/parser.rs): the context of
 * role and label tables the parsers share, the `Parameters` display, and
 * `Edge::parse` and `Digraph::parse`, which read a role's graph statement by
 * statement. The statements come already split into nodes and edges, with
 * an edge's label text split into its role, direction, message and
 * parameters.
 */
module GenParser {
  import opened Wrappers
  import opened Text
  import opened GenGraph

  /** No item occurs twice. */
  predicate Distinct<T(==)>(xs: seq<T>) {
    forall i, j :: 0 <= i < j < |xs| ==> xs[i] != xs[j]
  }

  lemma DistinctAppend<T>(xs: seq<T>, x: T)
    requires Distinct(xs) && x !in xs
    ensures Distinct(xs + [x])
  {
    forall i, j | 0 <= i < j < |xs| + 1
      ensures (xs + [x])[i] != (xs + [x])[j]
    {
      if j == |xs| {
        assert xs[i] in xs;
      }
    }
  }

  /** `get_index_of` on an index set or map: the position of `x` among `xs`. */
  function IndexOf<T(==)>(xs: seq<T>, x: T): (i: Option<nat>)
    ensures i.None? <==> x !in xs
    ensures i.Some? ==> i.value < |xs| && xs[i.value] == x && x !in xs[..i.value]
  {
    if xs == [] then None
    else if xs[0] == x then Some(0)
    else
      var j := IndexOf(xs[1..], x);
      if j.None? then None
      else
        assert xs[..j.value + 1] == [xs[0]] + xs[1..][..j.value];
        Some(j.value + 1)
  }

  /** The names of an index map's entries, in order. */
  function Keys(entries: seq<(string, seq<string>)>): (ks: seq<string>)
    ensures |ks| == |entries| && forall k :: 0 <= k < |entries| ==> ks[k] == entries[k].0
  {
    seq(|entries|, k requires 0 <= k < |entries| => entries[k].0)
  }

  lemma KeysAppend(entries: seq<(string, seq<string>)>, e: (string, seq<string>))
    ensures Keys(entries + [e]) == Keys(entries) + [e.0]
  {
  }

  /** A table that extends one extending `start` extends `start` too. */
  lemma PrefixTransitive(start: seq<(string, seq<string>)>, before: seq<(string, seq<string>)>, labels: seq<(string, seq<string>)>)
    requires |start| <= |before| && before[..|start|] == start
    requires |before| <= |labels| && labels[..|before|] == before
    ensures labels[..|start|] == start
  {
    assert labels[..|start|] == labels[..|before|][..|start|];
  }

  /** `Parameters` display: the parameters separated by a comma and a space. */
  method DisplayParameters(parameters: seq<string>) returns (s: string)
    ensures s == Join(parameters, ", ")
  {
    s := "";
    if parameters != [] {
      s := parameters[0];
      var k := 1;
      while k < |parameters|
        invariant 1 <= k <= |parameters|
        invariant s == Join(parameters[..k], ", ")
      {
        JoinAppend(parameters[..k], ", ", parameters[k]);
        assert parameters[..k + 1] == parameters[..k] + [parameters[k]];
        s := s + ", " + parameters[k];
        k := k + 1;
      }
      assert parameters[..k] == parameters;
    }
  }

  const OwnRole := "cannot send to or receive from own role"
  const UnknownRole := "unknown role name"
  const RoleMismatch := "all outgoing transitions must either send to or receive from the same role"
  const DirectionMismatch := "outgoing transitions must all send or all receive"

  /** The error for a message reused with parameters other than `previous`. */
  function ReusedLabel(message: string, previous: seq<string>): string {
    "label was previously used with different parameters `" + message + "(" + Join(previous, ", ") + ")`"
  }

  /** Every entry for `message` among `labels` has exactly these parameters. */
  predicate LabelAgrees(labels: seq<(string, seq<string>)>, message: string, parameters: seq<string>) {
    forall k :: 0 <= k < |labels| && labels[k].0 == message ==> labels[k].1 == parameters
  }

  /**
   * `Context`: the role names in the order of the inputs, and each message
   * label with its parameters in the order the parsers first met them.
   */
  class Context {
    var roles: seq<string>
    var labels: seq<(string, seq<string>)>

    /** Both tables are index sets: no role and no label occurs twice. */
    ghost predicate Valid()
      reads this
    {
      Distinct(roles) && Distinct(Keys(labels))
    }

    /** `Context::with_capacity`: both tables empty. */
    constructor()
      ensures roles == [] && labels == [] && Valid()
    {
      roles, labels := [], [];
    }

    /** The index of a role name, if it names a role. */
    function RoleIndex(name: string): (i: Option<nat>)
      reads this
      ensures i.None? <==> name !in roles
      ensures i.Some? ==> i.value < |roles| && roles[i.value] == name
    {
      IndexOf(roles, name)
    }

    /** The index of a message label, if the table has it. */
    function LabelIndex(message: string): (i: Option<nat>)
      reads this
      ensures i.None? <==> message !in Keys(labels)
      ensures i.Some? ==> i.value < |labels| && labels[i.value].0 == message
    {
      IndexOf(Keys(labels), message)
    }

    /** `roles.insert`: adds a role name unless it is there already, and says whether it added it. */
    method InsertRole(name: string) returns (inserted: bool)
      requires Valid()
      modifies this
      ensures Valid() && labels == old(labels)
      ensures inserted <==> name !in old(roles)
      ensures roles == if inserted then old(roles) + [name] else old(roles)
    {
      inserted := name !in roles;
      if inserted {
        DistinctAppend(roles, name);
        roles := roles + [name];
      }
    }

    /** Adds a label the table does not have yet, at the end. */
    method InsertLabel(message: string, parameters: seq<string>)
      requires Valid() && message !in Keys(labels)
      modifies this
      ensures Valid() && roles == old(roles)
      ensures labels == old(labels) + [(message, parameters)]
    {
      KeysAppend(labels, (message, parameters));
      DistinctAppend(Keys(labels), message);
      labels := labels + [(message, parameters)];
    }

    /**
     * `Edge::parse`: an edge of role `name`'s graph. Its peer must be
     * another role of the protocol; its message gets the index it already
     * has when its parameters are the same as before, and a new index at
     * the end of the table when it is new.
     */
    method ParseEdge(name: string, statement: Statement) returns (r: Result<ParsedEdge, string>)
      requires Valid() && statement.EdgeStatement?
      modifies this
      ensures Valid() && roles == old(roles)
      ensures r.Err? ==> labels == old(labels)
      ensures statement.role == name ==> r == Err(OwnRole)
      ensures statement.role != name && statement.role !in roles ==> r == Err(UnknownRole)
      ensures statement.role != name && statement.role in roles ==>
        (r.Ok? <==> LabelAgrees(old(labels), statement.message, statement.parameters))
      ensures r.Err? && statement.role != name && statement.role in roles ==>
        exists k :: 0 <= k < |labels| && labels[k].0 == statement.message && r.error == ReusedLabel(statement.message, labels[k].1)
      ensures r.Ok? ==> Fits(roles, labels, statement, r.value)
      ensures r.Ok? ==> labels == old(labels) + if statement.message in Keys(old(labels)) then [] else [(statement.message, statement.parameters)]
    {
      if statement.role == name {
        return Err(OwnRole);
      }
      var role := RoleIndex(statement.role);
      if role.None? {
        return Err(UnknownRole);
      }
      var existing := LabelIndex(statement.message);
      var labelIndex: nat;
      if existing.Some? {
        var previous := labels[existing.value].1;
        if previous != statement.parameters {
          var shown := DisplayParameters(previous);
          return Err("label was previously used with different parameters `" + statement.message + "(" + shown + ")`");
        }
        UniqueLabel(labels, existing.value);
        labelIndex := existing.value;
      } else {
        labelIndex := |labels|;
        InsertLabel(statement.message, statement.parameters);
      }
      r := Ok(ParsedEdge(statement.from, statement.to, role.value, statement.direction, labelIndex));
    }
  }

  /** In a table without repeated names, the entry at `k` is the only one with its name. */
  lemma UniqueLabel(labels: seq<(string, seq<string>)>, k: nat)
    requires Distinct(Keys(labels)) && k < |labels|
    ensures LabelAgrees(labels, labels[k].0, labels[k].1)
  {
    forall j | 0 <= j < |labels| && labels[j].0 == labels[k].0
      ensures j == k
    {
      var ks := Keys(labels);
      assert ks[j] == ks[k];
    }
  }

  /**
   * A statement of a role's graph: a node, or an edge with its label split
   * into the peer role, the direction, the message and its parameters.
   */
  datatype Statement =
    | NodeStatement(name: string)
    | EdgeStatement(from: string, to: string, role: string, direction: Direction, message: string, parameters: seq<string>)

  /** `Edge`: an edge's endpoints by name, and its role and label as table indices. */
  datatype ParsedEdge = ParsedEdge(from: string, to: string, role: nat, direction: Direction, labelIndex: nat)

  /** A parsed edge stands for its statement under the given tables. */
  predicate Fits(roles: seq<string>, labels: seq<(string, seq<string>)>, statement: Statement, e: ParsedEdge) {
    && statement.EdgeStatement?
    && e.from == statement.from && e.to == statement.to && e.direction == statement.direction
    && e.role < |roles| && roles[e.role] == statement.role
    && e.labelIndex < |labels| && labels[e.labelIndex] == (statement.message, statement.parameters)
  }

  /** The names of the node statements, in order. */
  function NodeNames(statements: seq<Statement>): (names: seq<string>)
    ensures |names| <= |statements|
  {
    if statements == [] then []
    else
      var last := statements[|statements| - 1];
      NodeNames(statements[..|statements| - 1]) + if last.NodeStatement? then [last.name] else []
  }

  /** The edge statements, in order. */
  function EdgeStatements(statements: seq<Statement>): (edges: seq<Statement>)
    ensures |edges| <= |statements|
    ensures forall k :: 0 <= k < |edges| ==> edges[k].EdgeStatement?
  {
    if statements == [] then []
    else
      var last := statements[|statements| - 1];
      EdgeStatements(statements[..|statements| - 1]) + if last.EdgeStatement? then [last] else []
  }

  /** The edges of a prefix of the statements are a prefix of their edges. */
  lemma {:induction false} EdgeStatementsPrefix(statements: seq<Statement>, i: nat)
    requires i <= |statements|
    ensures var prefix := EdgeStatements(statements[..i]);
      |prefix| <= |EdgeStatements(statements)| && EdgeStatements(statements)[..|prefix|] == prefix
    decreases |statements| - i
  {
    if i < |statements| {
      EdgeStatementsPrefix(statements, i + 1);
      assert statements[..i + 1][..i] == statements[..i];
    } else {
      assert statements[..i] == statements;
    }
  }

  /**
   * The conditions under which `Edge::parse` accepts every edge in turn,
   * starting from the label table `labels`: no edge names the graph's own
   * role or an unknown one, and no message comes with parameters other
   * than those the table or an earlier edge gave it.
   */
  predicate Accepted(name: string, roles: seq<string>, labels: seq<(string, seq<string>)>, edges: seq<Statement>) {
    forall k :: 0 <= k < |edges| ==>
      && edges[k].EdgeStatement? && edges[k].role != name && edges[k].role in roles
      && LabelAgrees(labels, edges[k].message, edges[k].parameters)
      && (forall j :: 0 <= j < k && edges[j].EdgeStatement? && edges[j].message == edges[k].message ==> edges[j].parameters == edges[k].parameters)
  }

  /** The label entry an edge statement asks for. */
  function Entry(statement: Statement): (string, seq<string>)
    requires statement.EdgeStatement?
  {
    (statement.message, statement.parameters)
  }

  /** Some edge statement among `edges` asks for `entry`. */
  ghost predicate FromEdge(entry: (string, seq<string>), edges: seq<Statement>) {
    exists k :: 0 <= k < |edges| && edges[k].EdgeStatement? && entry == Entry(edges[k])
  }

  /**
   * Where parsing `edges` from the label table `start` has got to: each
   * edge accepted and parsed, and the table `start` followed by entries the
   * edges asked for.
   */
  ghost predicate Progress(name: string, roles: seq<string>, start: seq<(string, seq<string>)>, labels: seq<(string, seq<string>)>,
                           edges: seq<Statement>, parsed: seq<ParsedEdge>) {
    && |parsed| == |edges|
    && (forall k :: 0 <= k < |edges| ==> Fits(roles, labels, edges[k], parsed[k]))
    && Accepted(name, roles, start, edges)
    && |start| <= |labels| && labels[..|start|] == start
    && forall i :: |start| <= i < |labels| ==> FromEdge(labels[i], edges)
  }

  /** With the table built from `start` by the earlier edges, the next edge's label agrees exactly when it agrees with `start` and those edges. */
  lemma AgreesSplit(name: string, roles: seq<string>, start: seq<(string, seq<string>)>, labels: seq<(string, seq<string>)>,
                    edges: seq<Statement>, parsed: seq<ParsedEdge>, next: Statement)
    requires next.EdgeStatement? && Progress(name, roles, start, labels, edges, parsed)
    ensures LabelAgrees(labels, next.message, next.parameters) <==>
      LabelAgrees(start, next.message, next.parameters)
      && forall j :: 0 <= j < |edges| && edges[j].EdgeStatement? && edges[j].message == next.message ==> edges[j].parameters == next.parameters
  {
    if LabelAgrees(labels, next.message, next.parameters) {
      forall k | 0 <= k < |start| && start[k].0 == next.message
        ensures start[k].1 == next.parameters
      {
        assert labels[k] == start[k];
      }
      forall j | 0 <= j < |edges| && edges[j].EdgeStatement? && edges[j].message == next.message
        ensures edges[j].parameters == next.parameters
      {
        assert labels[parsed[j].labelIndex] == Entry(edges[j]);
      }
    }
    if LabelAgrees(start, next.message, next.parameters) && forall j :: 0 <= j < |edges| && edges[j].EdgeStatement? && edges[j].message == next.message ==> edges[j].parameters == next.parameters {
      forall i | 0 <= i < |labels| && labels[i].0 == next.message
        ensures labels[i].1 == next.parameters
      {
        if i < |start| {
          assert labels[i] == start[i];
        } else {
          var k :| 0 <= k < |edges| && edges[k].EdgeStatement? && labels[i] == Entry(edges[k]);
        }
      }
    }
  }

  /** One more accepted edge keeps `Progress`. */
  lemma ProgressStep(name: string, roles: seq<string>, start: seq<(string, seq<string>)>, before: seq<(string, seq<string>)>, labels: seq<(string, seq<string>)>,
                     edges: seq<Statement>, parsed: seq<ParsedEdge>, next: Statement, e: ParsedEdge)
    requires Progress(name, roles, start, before, edges, parsed)
    requires next.EdgeStatement? && next.role != name && next.role in roles
    requires LabelAgrees(before, next.message, next.parameters) && Fits(roles, labels, next, e)
    requires labels == before + if next.message in Keys(before) then [] else [Entry(next)]
    ensures Progress(name, roles, start, labels, edges + [next], parsed + [e])
  {
    AgreesSplit(name, roles, start, before, edges, parsed, next);
    assert labels[..|before|] == before;
    FitsStep(roles, before, labels, edges, parsed, next, e);
    AcceptedStep(name, roles, start, edges, next);
    assert labels == before || labels == before + [Entry(next)];
    CoverStep(start, before, labels, edges, next, edges + [next]);
    PrefixTransitive(start, before, labels);
  }

  /** Earlier edges still fit a table that extends theirs, and the next edge fits it too. */
  lemma FitsStep(roles: seq<string>, before: seq<(string, seq<string>)>, labels: seq<(string, seq<string>)>,
                 edges: seq<Statement>, parsed: seq<ParsedEdge>, next: Statement, e: ParsedEdge)
    requires |parsed| == |edges| && forall k :: 0 <= k < |edges| ==> Fits(roles, before, edges[k], parsed[k])
    requires |before| <= |labels| && labels[..|before|] == before && Fits(roles, labels, next, e)
    ensures forall k :: 0 <= k < |edges| + 1 ==> Fits(roles, labels, (edges + [next])[k], (parsed + [e])[k])
  {
    var all := edges + [next];
    forall k | 0 <= k < |all|
      ensures Fits(roles, labels, all[k], (parsed + [e])[k])
    {
      if k < |edges| {
        assert labels[parsed[k].labelIndex] == before[parsed[k].labelIndex];
      }
    }
  }

  /** An edge whose role and label agree with the table and the earlier edges extends an accepted run. */
  lemma AcceptedStep(name: string, roles: seq<string>, start: seq<(string, seq<string>)>, edges: seq<Statement>, next: Statement)
    requires Accepted(name, roles, start, edges)
    requires next.EdgeStatement? && next.role != name && next.role in roles && LabelAgrees(start, next.message, next.parameters)
    requires forall j :: 0 <= j < |edges| && edges[j].EdgeStatement? && edges[j].message == next.message ==> edges[j].parameters == next.parameters
    ensures Accepted(name, roles, start, edges + [next])
  {
    var all := edges + [next];
    forall k | 0 <= k < |all|
      ensures && all[k].EdgeStatement? && all[k].role != name && all[k].role in roles
        && LabelAgrees(start, all[k].message, all[k].parameters)
        && (forall j :: 0 <= j < k && all[j].EdgeStatement? && all[j].message == all[k].message ==> all[j].parameters == all[k].parameters)
    {
      if k < |edges| {
        assert all[k] == edges[k];
        assert forall j :: 0 <= j < k ==> all[j] == edges[j];
      }
    }
  }

  /** Every entry past `start` comes from an edge once the next edge's entry is appended. */
  lemma CoverStep(start: seq<(string, seq<string>)>, before: seq<(string, seq<string>)>, labels: seq<(string, seq<string>)>,
                  edges: seq<Statement>, next: Statement, all: seq<Statement>)
    requires next.EdgeStatement? && all == edges + [next]
    requires forall i :: |start| <= i < |before| ==> FromEdge(before[i], edges)
    requires labels == before || labels == before + [Entry(next)]
    ensures forall i :: |start| <= i < |labels| ==> FromEdge(labels[i], all)
  {
    forall i | |start| <= i < |labels|
      ensures FromEdge(labels[i], all)
    {
      if i < |before| {
        assert labels[i] == before[i];
        var k :| 0 <= k < |edges| && edges[k].EdgeStatement? && before[i] == Entry(edges[k]);
        assert all[k] == edges[k];
      } else {
        assert labels[i] == Entry(all[|edges|]);
      }
    }
  }

  /** An edge `Edge::parse` rejects makes every longer run of edges unacceptable. */
  lemma ProgressRejected(name: string, roles: seq<string>, start: seq<(string, seq<string>)>, before: seq<(string, seq<string>)>,
                         edges: seq<Statement>, parsed: seq<ParsedEdge>, next: Statement, all: seq<Statement>)
    requires Progress(name, roles, start, before, edges, parsed) && next.EdgeStatement?
    requires !(next.role != name && next.role in roles && LabelAgrees(before, next.message, next.parameters))
    requires |edges| < |all| && all[..|edges| + 1] == edges + [next]
    ensures !Accepted(name, roles, start, all)
  {
    AgreesSplit(name, roles, start, before, edges, parsed, next);
    var k := |edges|;
    assert all[k] == next;
    assert forall j :: 0 <= j < k ==> all[j] == edges[j];
  }

  /**
   * The first half of `Digraph::parse`: the nodes' names and the parsed
   * edges, in order. The first edge `Edge::parse` rejects ends the parse
   * with its error; the labels of the edges before it stay in the table.
   */
  method ParseStatements(context: Context, name: string, statements: seq<Statement>) returns (r: Result<(seq<string>, seq<ParsedEdge>), string>)
    requires context.Valid()
    modifies context
    ensures context.Valid() && context.roles == old(context.roles)
    ensures |old(context.labels)| <= |context.labels| && context.labels[..|old(context.labels)|] == old(context.labels)
    ensures r.Ok? <==> Accepted(name, context.roles, old(context.labels), EdgeStatements(statements))
    ensures r.Ok? ==> r.value.0 == NodeNames(statements) && |r.value.1| == |EdgeStatements(statements)|
    ensures r.Ok? ==> forall k :: 0 <= k < |r.value.1| ==> Fits(context.roles, context.labels, EdgeStatements(statements)[k], r.value.1[k])
  {
    ghost var start := context.labels;
    var names: seq<string> := [];
    var parsed: seq<ParsedEdge> := [];
    var i := 0;
    while i < |statements|
      invariant 0 <= i <= |statements|
      invariant context.Valid() && context.roles == old(context.roles)
      invariant names == NodeNames(statements[..i])
      invariant Progress(name, context.roles, start, context.labels, EdgeStatements(statements[..i]), parsed)
    {
      var statement := statements[i];
      ghost var edges := EdgeStatements(statements[..i]);
      assert statements[..i + 1][..i] == statements[..i];
      if statement.NodeStatement? {
        names := names + [statement.name];
        assert EdgeStatements(statements[..i + 1]) == edges;
      } else {
        ghost var before := context.labels;
        var e := context.ParseEdge(name, statement);
        if e.Err? {
          EdgeStatementsPrefix(statements, i + 1);
          ProgressRejected(name, context.roles, start, before, edges, parsed, statement, EdgeStatements(statements));
          return Err(e.error);
        }
        ProgressStep(name, context.roles, start, before, context.labels, edges, parsed, statement, e.value);
        assert EdgeStatements(statements[..i + 1]) == edges + [statement];
        parsed := parsed + [e.value];
      }
      i := i + 1;
    }
    assert statements[..i] == statements;
    r := Ok((names, parsed));
  }

  /** The last position of `n` among `names`: the node a name stands for once the name map is built. */
  function LastIndex(names: seq<string>, n: string): (k: nat)
    requires n in names
    ensures k < |names| && names[k] == n && forall j :: k < j < |names| ==> names[j] != n
  {
    var init := names[..|names| - 1];
    if names[|names| - 1] == n then |names| - 1
    else
      assert n in init by {
        var k :| 0 <= k < |names| && names[k] == n;
        assert init[k] == n;
      }
      LastIndex(init, n)
  }

  /**
   * Adds one node per name, in order, and maps each name to its node; a
   * name given twice maps to its last node, as inserting into a hash map
   * in order leaves it.
   */
  method AddNodes(names: seq<string>) returns (g: Graph, index: map<string, nat>)
    ensures |g.nodes| == |names| && g.edges == []
    ensures forall k :: 0 <= k < |names| ==> g.nodes[k] == NewNode(names[k])
    ensures forall n :: n in index <==> n in names
    ensures forall n :: n in names ==> index[n] == LastIndex(names, n)
  {
    g := Graph([], []);
    index := map[];
    var k := 0;
    while k < |names|
      invariant 0 <= k <= |names|
      invariant |g.nodes| == k && g.edges == []
      invariant forall j :: 0 <= j < k ==> g.nodes[j] == NewNode(names[j])
      invariant forall n :: n in index <==> n in names[..k]
      invariant forall n :: n in names[..k] ==> index[n] == LastIndex(names[..k], n)
    {
      assert names[..k + 1][..k] == names[..k];
      assert names[..k + 1] == names[..k] + [names[k]];
      g := g.(nodes := g.nodes + [NewNode(names[k])]);
      index := index[names[k] := k];
      k := k + 1;
    }
    assert names[..k] == names;
  }

  /**
   * Gives node `from` the role and direction of a new edge from `from` to
   * `to`, and adds the edge: the loop body both graph builders share.
   */
  function Connect(g: Graph, from: nat, to: nat, labelIndex: nat, role: nat, direction: Direction): Graph
    requires from < |g.nodes|
  {
    Graph(g.nodes[from := g.nodes[from].(role := Some(role), direction := Some(direction))], g.edges + [GraphEdge(from, to, labelIndex)])
  }

  /** Connecting two nodes of the graph keeps every edge between nodes, marks the source, and keeps the tables' bounds. */
  lemma ConnectReady(g: Graph, from: nat, to: nat, labelIndex: nat, role: nat, direction: Direction, roles: nat, labels: nat)
    requires Wired(g) && Marked(g) && Within(g, roles, labels)
    requires from < |g.nodes| && to < |g.nodes| && role < roles && labelIndex < labels
    ensures var h := Connect(g, from, to, labelIndex, role, direction);
      Wired(h) && Marked(h) && Within(h, roles, labels)
  {
    var h := Connect(g, from, to, labelIndex, role, direction);
    forall n | 0 <= n < |h.nodes|
      ensures (h.nodes[n].role.Some? <==> EdgesFrom(h.edges, n) != []) && (h.nodes[n].direction.Some? <==> EdgesFrom(h.edges, n) != [])
    {
      EdgesFromAdd(g.edges, GraphEdge(from, to, labelIndex), n);
    }
  }

  /** Edges from the same node name agree on the peer role and the direction. */
  predicate Consistent(edges: seq<ParsedEdge>) {
    ConsistentUpTo(edges, |edges|)
  }

  /** The first `n` edges are consistent. */
  predicate ConsistentUpTo(edges: seq<ParsedEdge>, n: nat)
    requires n <= |edges|
  {
    forall i, j :: 0 <= i < j < n && edges[i].from == edges[j].from ==>
      edges[i].role == edges[j].role && edges[i].direction == edges[j].direction
  }

  /** An edge that agrees with every earlier edge from its source extends the consistent prefix. */
  lemma ConsistentStep(edges: seq<ParsedEdge>, n: nat)
    requires n < |edges| && ConsistentUpTo(edges, n)
    requires forall k :: 0 <= k < n && edges[k].from == edges[n].from ==> edges[k].role == edges[n].role && edges[k].direction == edges[n].direction
    ensures ConsistentUpTo(edges, n + 1)
  {
  }

  /** The first `n` edges join nodes that have names. */
  predicate DeclaredUpTo(names: seq<string>, edges: seq<ParsedEdge>, n: nat)
    requires n <= |edges|
  {
    forall k :: 0 <= k < n ==> edges[k].from in names && edges[k].to in names
  }

  /** The graph edge a parsed edge becomes under the name map. */
  function Placed(names: seq<string>, e: ParsedEdge): GraphEdge
    requires e.from in names && e.to in names
  {
    GraphEdge(LastIndex(names, e.from), LastIndex(names, e.to), e.labelIndex)
  }

  /** Where building the graph from `edges[..j]` has got to. */
  ghost predicate Built(names: seq<string>, edges: seq<ParsedEdge>, j: nat, g: Graph, roles: nat, labels: nat)
    requires j <= |edges| && DeclaredUpTo(names, edges, j)
  {
    && |g.nodes| == |names| && (forall k :: 0 <= k < |names| ==> g.nodes[k].name == names[k])
    && |g.edges| == j && (forall k :: 0 <= k < j ==> g.edges[k] == Placed(names, edges[k]))
    && Wired(g) && Marked(g) && Within(g, roles, labels)
    && ConsistentUpTo(edges, j)
    && Marks(names, edges, j, g.nodes)
  }

  /** A node that already has a role got it from an earlier edge with the same source name. */
  lemma EarlierEdge(names: seq<string>, edges: seq<ParsedEdge>, j: nat, g: Graph, roles: nat, labels: nat) returns (k: nat)
    requires j < |edges| && DeclaredUpTo(names, edges, j + 1)
    requires Built(names, edges, j, g, roles, labels)
    requires g.nodes[LastIndex(names, edges[j].from)].role.Some?
    ensures k < j && edges[k].from == edges[j].from
  {
    var from := LastIndex(names, edges[j].from);
    var out := EdgesFrom(g.edges, from);
    assert out[0] in g.edges;
    var m :| 0 <= m < |g.edges| && g.edges[m] == out[0];
    assert edges[m] in edges;
    k := m;
  }

  /** An edge whose source disagrees with the role or direction an earlier edge gave it makes the edges up to it inconsistent. */
  lemma Clash(names: seq<string>, edges: seq<ParsedEdge>, j: nat, g: Graph, roles: nat, labels: nat)
    requires j < |edges| && DeclaredUpTo(names, edges, j + 1)
    requires Built(names, edges, j, g, roles, labels)
    requires var node := g.nodes[LastIndex(names, edges[j].from)];
      (node.role.Some? && node.role.value != edges[j].role) || (node.direction.Some? && node.direction.value != edges[j].direction)
    ensures !ConsistentUpTo(edges, j + 1)
  {
    var node := g.nodes[LastIndex(names, edges[j].from)];
    assert node.role.Some? by {
      assert node.direction.Some? ==> EdgesFrom(g.edges, LastIndex(names, edges[j].from)) != [];
    }
    var k := EarlierEdge(names, edges, j, g, roles, labels);
  }

  /** An edge whose source agrees with what earlier edges gave it agrees with each of those edges. */
  lemma SourcesAgree(names: seq<string>, edges: seq<ParsedEdge>, j: nat, g: Graph, roles: nat, labels: nat)
    requires j < |edges| && DeclaredUpTo(names, edges, j + 1)
    requires Built(names, edges, j, g, roles, labels)
    requires var node := g.nodes[LastIndex(names, edges[j].from)];
      (node.role.Some? ==> node.role.value == edges[j].role) && (node.direction.Some? ==> node.direction.value == edges[j].direction)
    ensures ConsistentUpTo(edges, j + 1)
  {
    forall k | 0 <= k < j && edges[k].from == edges[j].from
      ensures edges[k].role == edges[j].role && edges[k].direction == edges[j].direction
    {
      assert g.nodes[LastIndex(names, edges[j].from)].role == Some(edges[k].role);
    }
    ConsistentStep(edges, j);
  }

  /** The role and direction each earlier edge gave its source node. */
  predicate Marks(names: seq<string>, edges: seq<ParsedEdge>, j: nat, nodes: seq<GraphNode>)
    requires j <= |edges| && |nodes| == |names| && DeclaredUpTo(names, edges, j)
  {
    forall k :: 0 <= k < j ==> nodes[LastIndex(names, edges[k].from)].role == Some(edges[k].role) && nodes[LastIndex(names, edges[k].from)].direction == Some(edges[k].direction)
  }

  /** Setting an edge's source to its role and direction keeps the marks of the earlier edges that agree with it, and adds its own. */
  lemma MarksStep(names: seq<string>, edges: seq<ParsedEdge>, j: nat, nodes: seq<GraphNode>)
    requires j < |edges| && |nodes| == |names| && DeclaredUpTo(names, edges, j + 1)
    requires Marks(names, edges, j, nodes) && ConsistentUpTo(edges, j + 1)
    ensures var e := edges[j];
      var from := LastIndex(names, e.from);
      Marks(names, edges, j + 1, nodes[from := nodes[from].(role := Some(e.role), direction := Some(e.direction))])
  {
    var e := edges[j];
    var from := LastIndex(names, e.from);
    forall k | 0 <= k < j && LastIndex(names, edges[k].from) == from
      ensures edges[k].from == e.from
    {
    }
  }

  /** An edge whose source agrees with what earlier edges gave it keeps `Built` one edge further. */
  lemma BuildStep(names: seq<string>, edges: seq<ParsedEdge>, j: nat, g: Graph, roles: nat, labels: nat)
    requires j < |edges| && DeclaredUpTo(names, edges, j + 1)
    requires Built(names, edges, j, g, roles, labels)
    requires edges[j].role < roles && edges[j].labelIndex < labels
    requires var node := g.nodes[LastIndex(names, edges[j].from)];
      (node.role.Some? ==> node.role.value == edges[j].role) && (node.direction.Some? ==> node.direction.value == edges[j].direction)
    ensures var e := edges[j];
      && Clean(names, edges, j + 1)
      && Built(names, edges, j + 1, Connect(g, LastIndex(names, e.from), LastIndex(names, e.to), e.labelIndex, e.role, e.direction), roles, labels)
  {
    var e := edges[j];
    var from := LastIndex(names, e.from);
    var h := Connect(g, from, LastIndex(names, e.to), e.labelIndex, e.role, e.direction);
    ConnectReady(g, from, LastIndex(names, e.to), e.labelIndex, e.role, e.direction, roles, labels);
    SourcesAgree(names, edges, j, g, roles, labels);
    MarksStep(names, edges, j, g.nodes);
    ShapeStep(names, edges, j, g.nodes, g.edges, h.nodes, h.edges);
  }

  /** Connecting keeps the nodes' names and extends the edges by the placed new edge. */
  lemma ShapeStep(names: seq<string>, edges: seq<ParsedEdge>, j: nat, nodes: seq<GraphNode>, placed: seq<GraphEdge>, nodes': seq<GraphNode>, placed': seq<GraphEdge>)
    requires j < |edges| && DeclaredUpTo(names, edges, j + 1)
    requires |nodes| == |names| && (forall k :: 0 <= k < |names| ==> nodes[k].name == names[k])
    requires |placed| == j && (forall k :: 0 <= k < j ==> placed[k] == Placed(names, edges[k]))
    requires var e := edges[j]; var from := LastIndex(names, e.from);
      nodes' == nodes[from := nodes[from].(role := Some(e.role), direction := Some(e.direction))]
      && placed' == placed + [GraphEdge(from, LastIndex(names, e.to), e.labelIndex)]
    ensures |nodes'| == |names| && (forall k :: 0 <= k < |names| ==> nodes'[k].name == names[k])
    ensures |placed'| == j + 1 && (forall k :: 0 <= k < j + 1 ==> placed'[k] == Placed(names, edges[k]))
  {
  }

  /** How `Digraph::parse` ends: with the graph, with an error, or with a panic of a node name lookup. */
  datatype DigraphOutcome = Digraph(graph: Graph) | Refused(error: string) | Panicked

  /** The first `n` edges join named nodes and are consistent: the build loop gets past all of them. */
  predicate Clean(names: seq<string>, edges: seq<ParsedEdge>, n: nat)
    requires n <= |edges|
  {
    DeclaredUpTo(names, edges, n) && ConsistentUpTo(edges, n)
  }

  /** Once the edges up to `j` are inconsistent, no longer prefix is clean, so no later edge is reached. */
  lemma Unreached(names: seq<string>, edges: seq<ParsedEdge>, j: nat)
    requires j < |edges| && DeclaredUpTo(names, edges, j + 1) && !ConsistentUpTo(edges, j + 1)
    ensures !Clean(names, edges, |edges|)
    ensures !exists i :: 0 <= i < |edges| && Clean(names, edges, i) && !(edges[i].from in names && edges[i].to in names)
  {
    var a, b :| 0 <= a < b < j + 1 && edges[a].from == edges[b].from && !(edges[a].role == edges[b].role && edges[a].direction == edges[b].direction);
    forall i | j < i <= |edges|
      ensures !ConsistentUpTo(edges, i)
    {
    }
  }

  /** An edge past a clean prefix that names a missing node makes the edges unclean, and is the edge the build panics at. */
  lemma Undeclared(names: seq<string>, edges: seq<ParsedEdge>, j: nat)
    requires j < |edges| && Clean(names, edges, j) && !(edges[j].from in names && edges[j].to in names)
    ensures !Clean(names, edges, |edges|)
    ensures exists i :: 0 <= i < |edges| && Clean(names, edges, i) && !(edges[i].from in names && edges[i].to in names)
  {
  }

  /** Clean edges all name nodes, so none of them is one the build panics at. */
  lemma AllDeclared(names: seq<string>, edges: seq<ParsedEdge>)
    requires Clean(names, edges, |edges|)
    ensures !exists i :: 0 <= i < |edges| && Clean(names, edges, i) && !(edges[i].from in names && edges[i].to in names)
  {
  }

  /**
   * The second half of `Digraph::parse`: one node per node statement, then
   * each edge in order. Looking up an endpoint that names no node panics;
   * an edge whose source already has another role, or another direction,
   * is an error; otherwise the edge gives its source its role and
   * direction. So the graph comes out exactly when the edges join named
   * nodes and are consistent, the parse panics exactly when the first edge
   * that is not clean names a missing node, and every node with edges then
   * has their role and direction.
   */
  method BuildDigraph(names: seq<string>, edges: seq<ParsedEdge>, ghost roles: nat, ghost labels: nat) returns (r: DigraphOutcome)
    requires forall e :: e in edges ==> e.role < roles && e.labelIndex < labels
    ensures r.Digraph? <==> Clean(names, edges, |edges|)
    ensures r.Panicked? <==> exists j :: 0 <= j < |edges| && Clean(names, edges, j) && !(edges[j].from in names && edges[j].to in names)
    ensures r.Refused? ==> r.error == RoleMismatch || r.error == DirectionMismatch
    ensures r.Digraph? ==> Built(names, edges, |edges|, r.graph, roles, labels)
  {
    var graph, index := AddNodes(names);
    assert Built(names, edges, 0, graph, roles, labels);
    var j := 0;
    while j < |edges|
      invariant 0 <= j <= |edges|
      invariant Clean(names, edges, j)
      invariant Built(names, edges, j, graph, roles, labels)
    {
      var e := edges[j];
      assert e in edges;
      if e.from !in index || e.to !in index {
        Undeclared(names, edges, j);
        return Panicked;
      }
      var from, to := index[e.from], index[e.to];
      assert from == LastIndex(names, e.from) && to == LastIndex(names, e.to);
      var node := graph.nodes[from];
      if node.role.Some? && node.role.value != e.role {
        Clash(names, edges, j, graph, roles, labels);
        Unreached(names, edges, j);
        return Refused(RoleMismatch);
      }
      if node.direction.Some? && node.direction.value != e.direction {
        Clash(names, edges, j, graph, roles, labels);
        Unreached(names, edges, j);
        return Refused(DirectionMismatch);
      }
      BuildStep(names, edges, j, graph, roles, labels);
      graph := Connect(graph, from, to, e.labelIndex, e.role, e.direction);
      j := j + 1;
    }
    AllDeclared(names, edges);
    r := Digraph(graph);
  }

  /**
   * The first `n` edge statements join named nodes, and those leaving one
   * node name one peer role and one direction.
   */
  predicate Coherent(names: seq<string>, edges: seq<Statement>, n: nat)
    requires n <= |edges|
  {
    forall k :: 0 <= k < n ==>
      && edges[k].EdgeStatement? && edges[k].from in names && edges[k].to in names
      && forall i :: 0 <= i < k && edges[i].EdgeStatement? && edges[i].from == edges[k].from ==>
           edges[i].role == edges[k].role && edges[i].direction == edges[k].direction
  }

  /** With distinct role names, parsed edges are clean exactly when their statements are coherent. */
  lemma CleanCoherent(roles: seq<string>, labels: seq<(string, seq<string>)>, names: seq<string>, edges: seq<Statement>, parsed: seq<ParsedEdge>)
    requires Distinct(roles) && |parsed| == |edges| && forall k :: 0 <= k < |edges| ==> Fits(roles, labels, edges[k], parsed[k])
    ensures forall n :: 0 <= n <= |edges| ==> (Clean(names, parsed, n) <==> Coherent(names, edges, n))
  {
    forall i, k | 0 <= i < k < |edges| && parsed[i].from == parsed[k].from
      ensures parsed[i].role == parsed[k].role <==> edges[i].role == edges[k].role
    {
      assert roles[parsed[i].role] == edges[i].role && roles[parsed[k].role] == edges[k].role;
    }
  }

  /**
   * `g` is the graph of the edge statements `edges` over the node names:
   * one node per name, then one edge per statement, in order, between the
   * nodes its names stand for and carrying its message; every node an edge
   * leaves is marked with that edge's peer role and direction; every index
   * is in range of the tables.
   */
  ghost predicate Drawn(roles: seq<string>, labels: seq<(string, seq<string>)>, names: seq<string>, edges: seq<Statement>, g: Graph)
    requires Coherent(names, edges, |edges|)
  {
    && Wired(g) && Marked(g) && Within(g, |roles|, |labels|)
    && |g.nodes| == |names| && (forall k :: 0 <= k < |names| ==> g.nodes[k].name == names[k])
    && |g.edges| == |edges|
    && forall k :: 0 <= k < |edges| ==>
      && g.edges[k].source == LastIndex(names, edges[k].from) && g.edges[k].target == LastIndex(names, edges[k].to)
      && g.edges[k].labelIndex < |labels| && labels[g.edges[k].labelIndex] == Entry(edges[k])
      && g.nodes[LastIndex(names, edges[k].from)].role.Some? && g.nodes[LastIndex(names, edges[k].from)].role.value < |roles|
      && roles[g.nodes[LastIndex(names, edges[k].from)].role.value] == edges[k].role
      && g.nodes[LastIndex(names, edges[k].from)].direction == Some(edges[k].direction)
  }

  /** A graph built from parsed edges is the graph of their statements. */
  lemma BuiltDrawn(roles: seq<string>, labels: seq<(string, seq<string>)>, names: seq<string>, edges: seq<Statement>, parsed: seq<ParsedEdge>, g: Graph)
    requires |parsed| == |edges| && (forall k :: 0 <= k < |edges| ==> Fits(roles, labels, edges[k], parsed[k]))
    requires Coherent(names, edges, |edges|) && Clean(names, parsed, |parsed|)
    requires Built(names, parsed, |parsed|, g, |roles|, |labels|)
    ensures Drawn(roles, labels, names, edges, g)
  {
    forall k | 0 <= k < |edges|
      ensures g.edges[k].source == LastIndex(names, edges[k].from) && g.edges[k].labelIndex == parsed[k].labelIndex
      ensures g.nodes[LastIndex(names, edges[k].from)].role == Some(parsed[k].role)
      ensures g.nodes[LastIndex(names, edges[k].from)].direction == Some(edges[k].direction)
    {
      assert g.edges[k] == Placed(names, parsed[k]);
    }
  }

  /**
   * `Digraph::parse`: the statements of role `name`'s graph parsed in
   * order, then built into a graph. An edge `Edge::parse` rejects is an
   * error. Past that, the graph comes out exactly when the edges join named
   * nodes and edges from one node share peer role and direction, and is
   * then their graph; the parse panics exactly when the first edge that
   * breaks this names a missing node.
   */
  method DigraphParse(context: Context, name: string, statements: seq<Statement>) returns (r: DigraphOutcome)
    requires context.Valid()
    modifies context
    ensures context.Valid() && context.roles == old(context.roles)
    ensures |old(context.labels)| <= |context.labels| && context.labels[..|old(context.labels)|] == old(context.labels)
    ensures !Accepted(name, context.roles, old(context.labels), EdgeStatements(statements)) ==> r.Refused?
    ensures var names, edges := NodeNames(statements), EdgeStatements(statements);
      r.Digraph? <==> Accepted(name, context.roles, old(context.labels), edges) && Coherent(names, edges, |edges|)
    ensures var names, edges := NodeNames(statements), EdgeStatements(statements);
      r.Panicked? <==> (&& Accepted(name, context.roles, old(context.labels), edges)
                        && exists j :: 0 <= j < |edges| && Coherent(names, edges, j) && !(edges[j].from in names && edges[j].to in names))
    ensures var names, edges := NodeNames(statements), EdgeStatements(statements);
      r.Digraph? ==> Coherent(names, edges, |edges|) && Drawn(context.roles, context.labels, names, edges, r.graph)
  {
    var parsed := ParseStatements(context, name, statements);
    if parsed.Err? {
      return Refused(parsed.error);
    }
    var (names, edges) := parsed.value;
    ghost var statementEdges := EdgeStatements(statements);
    forall e | e in edges
      ensures e.role < |context.roles| && e.labelIndex < |context.labels|
    {
      var k :| 0 <= k < |edges| && edges[k] == e;
      assert statementEdges[k] in statementEdges;
    }
    CleanCoherent(context.roles, context.labels, names, statementEdges, edges);
    r := BuildDigraph(names, edges, |context.roles|, |context.labels|);
    if r.Digraph? {
      BuiltDrawn(context.roles, context.labels, names, statementEdges, edges, r.graph);
    }
    if r.Panicked? {
      var j :| 0 <= j < |edges| && Clean(names, edges, j) && !(edges[j].from in names && edges[j].to in names);
      assert Coherent(names, statementEdges, j);
    } else {
      forall j | 0 <= j < |edges| && Coherent(names, statementEdges, j)
        ensures statementEdges[j].from in names && statementEdges[j].to in names
      {
        assert Clean(names, edges, j);
      }
    }
  }
}
