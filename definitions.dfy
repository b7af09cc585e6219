/**
 * What `generate_definitions` (generate/src/lib.rs) computes for one role's
 * graph, as functions over the visitor's state: a depth-first walk from node
 * 0 that turns runs of single-edge nodes into nested messages, each node with
 * several edges into a choice definition, and each node the walk comes back
 * to into a named type definition.
 */
module Definitions {
  import opened Wrappers
  import opened GenGraph
  import opened Template

  /** The visitor's state: the nodes visited, the nodes found on a loop, and the definitions so far. */
  datatype State = State(visited: set<nat>, looped: set<nat>, definitions: seq<Def>)

  /** The numbers below `n`. */
  function Below(n: nat): (r: set<nat>)
    ensures forall m: nat :: m in r <==> m < n
  {
    if n == 0 then {} else Below(n - 1) + {n - 1}
  }

  /** The graph's node indices. */
  function Nodes(g: Graph): set<nat> {
    Below(|g.nodes|)
  }

  /** What the visitor relies on: edges join nodes, and a node has a role and a direction exactly when it has edges. */
  ghost predicate Ready(g: Graph) {
    Wired(g) && Marked(g)
  }

  /**
   * `Visitor::visit`: the type of the protocol from `node` on, whether it
   * may be written as a plain type alias (`safe`), and the new state.
   */
  function Walk(g: Graph, s: State, node: nat): (r: (State, Type, bool))
    requires Ready(g) && node < |g.nodes|
    ensures s.visited <= r.0.visited && s.looped <= r.0.looped && s.definitions <= r.0.definitions
    decreases Nodes(g) - s.visited, 0
  {
    var edges := EdgesFrom(g.edges, node);
    var weight := g.nodes[node];
    if edges == [] then (s, End, true)
    else if |edges| == 1 then
      if node in s.visited then (s.(looped := s.looped + {node}), Definition(node), false)
      else
        var edge := edges[0];
        var (s1, next, safe) := Walk(g, s.(visited := s.visited + {node}), edge.target);
        var ty := Message(weight.direction.value, weight.role.value, edge.labelIndex, next);
        if node in s1.looped then (s1.(definitions := s1.definitions + [TypeDef(safe, node, ty)]), Definition(node), true)
        else (s1, ty, safe)
    else
      var ty := Choice(weight.direction.value, weight.role.value, node);
      if node in s.visited then (s.(looped := s.looped + {node}), ty, true)
      else
        var (s1, choices) := WalkArms(g, s.(visited := s.visited + {node}), edges);
        (s1.(definitions := s1.definitions + [ChoiceDef(node, choices)]), ty, true)
  }

  /** The choices of a node with several edges: one per edge, in the order the edges come, each the label and the type of its target. */
  function WalkArms(g: Graph, s: State, edges: seq<GraphEdge>): (r: (State, seq<Arm>))
    requires Ready(g) && forall e :: e in edges ==> e.target < |g.nodes|
    ensures s.visited <= r.0.visited && s.looped <= r.0.looped && s.definitions <= r.0.definitions
    ensures |r.1| == |edges| && forall k :: 0 <= k < |edges| ==> r.1[k].labelIndex == edges[k].labelIndex
    decreases Nodes(g) - s.visited, |edges| + 1
  {
    if edges == [] then (s, [])
    else
      var (s1, ty, _) := Walk(g, s, edges[0].target);
      var (s2, rest) := WalkArms(g, s1, edges[1..]);
      (s2, [Arm(edges[0].labelIndex, ty)] + rest)
  }

  /** The state the walk starts from: nothing visited, and the root counted as looped. */
  function Start(): (s: State)
    ensures s.visited == {} && s.looped == {0} && s.definitions == []
  {
    State({}, {0}, [])
  }

  /**
   * `generate_definitions`: the definitions of the walk from node 0, and a
   * type alias for the root when the root is a choice. A root without
   * edges gives none; otherwise the root's own definition comes last.
   */
  function DefinitionsOf(g: Graph): (r: seq<Def>)
    requires Ready(g) && |g.nodes| > 0
    ensures r == [] <==> EdgesFrom(g.edges, 0) == []
    ensures r != [] ==> r[|r| - 1].TypeDef? && r[|r| - 1].index == 0
  {
    var (s, ty, _) := Walk(g, Start(), 0);
    if ty.Choice? then s.definitions + [TypeDef(true, 0, ty)] else s.definitions
  }

  /**
   * What a definition the walk emits says about its node: a named type is
   * the message on the node's one edge, from a node found on a loop; a
   * choice has one arm per edge of the node, in edge order, each with the
   * edge's label.
   */
  ghost predicate Fits(g: Graph, looped: set<nat>, d: Def) {
    && d.index < |g.nodes|
    && var edges := EdgesFrom(g.edges, d.index);
    match d
    case TypeDef(_, index, ty) =>
      && |edges| == 1 && index in looped
      && ty.Message? && ty.labelIndex == edges[0].labelIndex
      && Some(ty.direction) == g.nodes[index].direction && Some(ty.role) == g.nodes[index].role
    case ChoiceDef(_, choices) =>
      && |edges| >= 2 && |choices| == |edges|
      && forall k :: 0 <= k < |edges| ==> choices[k].labelIndex == edges[k].labelIndex
  }

  /** No two of the definitions are for the same node. */
  predicate Distinct(defs: seq<Def>) {
    forall i, j :: 0 <= i < j < |defs| ==> defs[i].index != defs[j].index
  }

  /**
   * What the walk keeps true of its state: every definition fits its node,
   * is in range of the tables, and is for a visited node, and no node has
   * two.
   */
  ghost predicate Good(g: Graph, roles: nat, labels: nat, s: State) {
    && Distinct(s.definitions)
    && forall d :: d in s.definitions ==> d.index in s.visited && Fits(g, s.looped, d) && DefInRange(d, roles, labels)
  }

  /** Marking more nodes visited or looped keeps a state good. */
  lemma GoodGrows(g: Graph, roles: nat, labels: nat, s: State, t: State)
    requires Good(g, roles, labels, s) && s.visited <= t.visited && s.looped <= t.looped && t.definitions == s.definitions
    ensures Good(g, roles, labels, t)
  {
    forall d | d in t.definitions
      ensures d.index in t.visited && Fits(g, t.looped, d) && DefInRange(d, roles, labels)
    {
      assert Fits(g, s.looped, d);
    }
  }

  /** A definition for a node not yet defined, which fits it, keeps a state good. */
  lemma GoodPush(g: Graph, roles: nat, labels: nat, s: State, d: Def)
    requires Good(g, roles, labels, s) && d.index in s.visited && Fits(g, s.looped, d) && DefInRange(d, roles, labels)
    requires forall e :: e in s.definitions ==> e.index != d.index
    ensures Good(g, roles, labels, s.(definitions := s.definitions + [d]))
  {
    var defs := s.definitions + [d];
    forall i, j | 0 <= i < j < |defs|
      ensures defs[i].index != defs[j].index
    {
      if j == |s.definitions| {
        assert defs[i] in s.definitions;
      }
    }
  }

  /** A node visited for the first time has no definition yet when its own visit ends. */
  lemma Undefined(g: Graph, roles: nat, labels: nat, s: State, s1: State, node: nat)
    requires Good(g, roles, labels, s) && node !in s.visited && s.definitions <= s1.definitions
    requires forall i :: |s.definitions| <= i < |s1.definitions| ==> s1.definitions[i].index !in s.visited + {node}
    ensures forall e :: e in s1.definitions ==> e.index != node
  {
    forall e | e in s1.definitions
      ensures e.index != node
    {
      var i :| 0 <= i < |s1.definitions| && s1.definitions[i] == e;
      if i < |s.definitions| {
        assert e in s.definitions;
      }
    }
  }

  /**
   * The walk keeps its state good, gives a type in range of the tables, and
   * defines only nodes it visits for the first time.
   */
  lemma {:induction false} WalkGood(g: Graph, roles: nat, labels: nat, s: State, node: nat)
    requires Ready(g) && Within(g, roles, labels) && node < |g.nodes| && Good(g, roles, labels, s)
    ensures var r := Walk(g, s, node);
      && Good(g, roles, labels, r.0) && InRange(r.1, roles, labels)
      && forall i :: |s.definitions| <= i < |r.0.definitions| ==> r.0.definitions[i].index !in s.visited
    decreases Nodes(g) - s.visited, 0
  {
    var edges := EdgesFrom(g.edges, node);
    var r := Walk(g, s, node);
    if edges == [] {
    } else if node in s.visited {
      GoodGrows(g, roles, labels, s, r.0);
    } else {
      var s0 := s.(visited := s.visited + {node});
      GoodGrows(g, roles, labels, s, s0);
      if |edges| == 1 {
        var edge := edges[0];
        WalkGood(g, roles, labels, s0, edge.target);
        var (s1, next, safe) := Walk(g, s0, edge.target);
        var ty := Message(g.nodes[node].direction.value, g.nodes[node].role.value, edge.labelIndex, next);
        if node in s1.looped {
          Undefined(g, roles, labels, s, s1, node);
          GoodPush(g, roles, labels, s1, TypeDef(safe, node, ty));
        }
      } else {
        WalkArmsGood(g, roles, labels, s0, edges);
        var (s1, choices) := WalkArms(g, s0, edges);
        Undefined(g, roles, labels, s, s1, node);
        GoodPush(g, roles, labels, s1, ChoiceDef(node, choices));
      }
    }
  }

  /** The same for the arms of a choice, whose types are in range too. */
  lemma {:induction false} WalkArmsGood(g: Graph, roles: nat, labels: nat, s: State, edges: seq<GraphEdge>)
    requires Ready(g) && Within(g, roles, labels) && Good(g, roles, labels, s)
    requires forall e :: e in edges ==> e in g.edges
    ensures var r := WalkArms(g, s, edges);
      && Good(g, roles, labels, r.0)
      && (forall k :: 0 <= k < |r.1| ==> r.1[k].labelIndex < labels && InRange(r.1[k].ty, roles, labels))
      && forall i :: |s.definitions| <= i < |r.0.definitions| ==> r.0.definitions[i].index !in s.visited
    decreases Nodes(g) - s.visited, |edges| + 1
  {
    if edges != [] {
      WalkGood(g, roles, labels, s, edges[0].target);
      var (s1, ty, _) := Walk(g, s, edges[0].target);
      WalkArmsGood(g, roles, labels, s1, edges[1..]);
    }
  }

  /**
   * `generate_definitions` gives definitions in range of the tables, and
   * never two of the same kind for one node.
   */
  lemma DefinitionsOfGood(g: Graph, roles: nat, labels: nat)
    requires Ready(g) && Within(g, roles, labels) && |g.nodes| > 0
    ensures var defs := DefinitionsOf(g);
      && (forall d :: d in defs ==> d.index < |g.nodes| && DefInRange(d, roles, labels))
      && (forall i, j :: 0 <= i < j < |defs| && defs[i].TypeDef? == defs[j].TypeDef? ==> defs[i].index != defs[j].index)
  {
    WalkGood(g, roles, labels, Start(), 0);
    var (s, ty, safe) := Walk(g, Start(), 0);
    var defs := DefinitionsOf(g);
    if ty.Choice? {
      RootChoice(g);
      var last := |s.definitions| - 1;
      assert defs == s.definitions + [TypeDef(true, 0, ty)];
      forall i, j | 0 <= i < j < |defs| && defs[i].TypeDef? == defs[j].TypeDef?
        ensures defs[i].index != defs[j].index
      {
        if j == |defs| - 1 && i < last {
          assert s.definitions[i].index != s.definitions[last].index;
        }
      }
    }
  }

  /** When the walk from the root gives a choice, the root has several edges and its choice definition comes last. */
  lemma RootChoice(g: Graph)
    requires Ready(g) && |g.nodes| > 0
    ensures var (s, ty, _) := Walk(g, Start(), 0);
      ty.Choice? ==> |EdgesFrom(g.edges, 0)| >= 2 && ty.index == 0 && s.definitions != [] && s.definitions[|s.definitions| - 1].ChoiceDef? && s.definitions[|s.definitions| - 1].index == 0
  {
    assert Start().(visited := Start().visited + {0}) == Start().(visited := {0});
  }

  /** The root gets a named type exactly when it has edges. */
  lemma RootDefined(g: Graph)
    requires Ready(g) && |g.nodes| > 0
    ensures 0 in TypeDefined(DefinitionsOf(g)) <==> EdgesFrom(g.edges, 0) != []
  {
    var edges := EdgesFrom(g.edges, 0);
    var (s, ty, safe) := Walk(g, Start(), 0);
    var defs := DefinitionsOf(g);
    if edges == [] {
      assert defs == [];
    } else if |edges| == 1 {
      assert defs[|defs| - 1].index == 0;
    } else {
      assert TypeDef(true, 0, ty) in defs;
    }
  }

  /** The nodes whose named type definitions `ty` refers to. */
  function TypeRefs(ty: Type): set<nat> {
    match ty
    case Definition(index) => {index}
    case Message(_, _, _, next) => TypeRefs(next)
    case _ => {}
  }

  /** The nodes whose choice definitions `ty` refers to. */
  function ChoiceRefs(ty: Type): set<nat> {
    match ty
    case Choice(_, _, index) => {index}
    case Message(_, _, _, next) => ChoiceRefs(next)
    case _ => {}
  }

  /** The named type definitions the arms' types refer to. */
  function ArmTypeRefs(arms: seq<Arm>): set<nat> {
    if arms == [] then {} else TypeRefs(arms[0].ty) + ArmTypeRefs(arms[1..])
  }

  /** The choice definitions the arms' types refer to. */
  function ArmChoiceRefs(arms: seq<Arm>): set<nat> {
    if arms == [] then {} else ChoiceRefs(arms[0].ty) + ArmChoiceRefs(arms[1..])
  }

  function DefTypeRefs(d: Def): set<nat> {
    match d
    case TypeDef(_, _, ty) => TypeRefs(ty)
    case ChoiceDef(_, choices) => ArmTypeRefs(choices)
  }

  function DefChoiceRefs(d: Def): set<nat> {
    match d
    case TypeDef(_, _, ty) => ChoiceRefs(ty)
    case ChoiceDef(_, choices) => ArmChoiceRefs(choices)
  }

  /** The nodes that have a named type definition. */
  function TypeDefined(defs: seq<Def>): set<nat> {
    set d | d in defs && d.TypeDef? :: d.index
  }

  /** The nodes that have a choice definition. */
  function ChoiceDefined(defs: seq<Def>): set<nat> {
    set d | d in defs && d.ChoiceDef? :: d.index
  }

  /** Every definition the generated types refer to is among them: the generated code names nothing it does not define. */
  predicate Complete(defs: seq<Def>) {
    forall d :: d in defs ==> DefTypeRefs(d) <= TypeDefined(defs) && DefChoiceRefs(d) <= ChoiceDefined(defs)
  }

  /**
   * A role's graph where a choice's two arms meet again at a node with one
   * edge: `s0` sends `B` label 0 or label 1 to `s1` (a choice), and `s1`
   * then sends label 2 and ends.
   */
  function Converging(): (g: Graph)
    ensures Ready(g) && |g.nodes| == 3
  {
    var g := Graph(
      [GraphNode("s0", Some(0), Some(Send)), GraphNode("s1", Some(0), Some(Send)), GraphNode("s2", None, None)],
      [GraphEdge(0, 1, 0), GraphEdge(0, 1, 1), GraphEdge(1, 2, 2)]);
    assert EdgesFrom(g.edges, 0) == [GraphEdge(0, 1, 1), GraphEdge(0, 1, 0)];
    assert EdgesFrom(g.edges, 1) == [GraphEdge(1, 2, 2)];
    assert EdgesFrom(g.edges, 2) == [];
    g
  }

  /**
   * On that graph the walk meets `s1` a second time after it has finished
   * with it: the second arm refers to a named type for `s1`, but no
   * definition for `s1` is ever emitted.
   */
  lemma ConvergingIncomplete()
    ensures !Complete(DefinitionsOf(Converging()))
  {
    var arms := [Arm(1, Message(Send, 0, 2, End)), Arm(0, Definition(1))];
    var defs := [ChoiceDef(0, arms), TypeDef(true, 0, Choice(Send, 0, 0))];
    ConvergingDefinitions();
    assert arms[1..] == [Arm(0, Definition(1))] && arms[1..][1..] == [];
    assert 1 in ArmTypeRefs(arms[1..]);
    assert 1 in DefTypeRefs(defs[0]);
    assert 1 !in TypeDefined(defs);
  }

  /** The walk of `Converging` from its root: the choice's definition, then its alias. */
  lemma ConvergingDefinitions()
    ensures var arms := [Arm(1, Message(Send, 0, 2, End)), Arm(0, Definition(1))];
      DefinitionsOf(Converging()) == [ChoiceDef(0, arms), TypeDef(true, 0, Choice(Send, 0, 0))]
  {
    var g := Converging();
    var e0, e1 := GraphEdge(0, 1, 0), GraphEdge(0, 1, 1);
    assert EdgesFrom(g.edges, 0) == [e1, e0];
    var s0 := State({0}, {0}, []);
    var s1 := State({0, 1}, {0, 1}, []);
    var arms := [Arm(1, Message(Send, 0, 2, End)), Arm(0, Definition(1))];
    ConvergingArms();
    var choice := Choice(Send, 0, 0);
    assert Start().(visited := Start().visited + {0}) == s0;
    assert s1.definitions + [ChoiceDef(0, arms)] == [ChoiceDef(0, arms)];
    assert g.nodes[0].direction.value == Send && g.nodes[0].role.value == 0 && 0 !in Start().visited;
    assert Walk(g, Start(), 0) == (s1.(definitions := [ChoiceDef(0, arms)]), choice, true);
  }

  /** Node 1 walked the first time leads on to the end; walked again it only refers to itself and is marked looped. */
  lemma ConvergingMeet()
    ensures Walk(Converging(), State({0}, {0}, []), 1) == (State({0, 1}, {0}, []), Message(Send, 0, 2, End), true)
    ensures Walk(Converging(), State({0, 1}, {0}, []), 1) == (State({0, 1}, {0, 1}, []), Definition(1), false)
  {
    var g := Converging();
    assert EdgesFrom(g.edges, 1) == [GraphEdge(1, 2, 2)];
    assert EdgesFrom(g.edges, 2) == [];
    var s0 := State({0}, {0}, []);
    assert s0.visited + {1} == {0, 1} && s0.looped + {1} == {0, 1};
    assert Walk(g, s0.(visited := {0, 1}), 2) == (s0.(visited := {0, 1}), End, true);
  }

  /**
   * The root's two edges to the same node, walked in the order the graph
   * stores them: the first reaches node 1 and goes on to the end, the
   * second meets node 1 again and only refers to it.
   */
  lemma ConvergingArms()
    ensures WalkArms(Converging(), State({0}, {0}, []), [GraphEdge(0, 1, 1), GraphEdge(0, 1, 0)])
      == (State({0, 1}, {0, 1}, []), [Arm(1, Message(Send, 0, 2, End)), Arm(0, Definition(1))])
  {
    var g := Converging();
    var e0, e1 := GraphEdge(0, 1, 0), GraphEdge(0, 1, 1);
    var s0 := State({0}, {0}, []);
    var message := Message(Send, 0, 2, End);
    ConvergingMeet();
    var s1 := State({0, 1}, {0, 1}, []);
    var arms := [Arm(1, message), Arm(0, Definition(1))];
    assert WalkArms(g, s1, []) == (s1, []);
    assert [e0][1..] == [] && [e1, e0][1..] == [e0] && [e0][0].target == 1;
    assert [Arm(0, Definition(1))] + [] == [Arm(0, Definition(1))];
    assert [e1, e0][0].target == 1 && [Arm(1, message)] + [Arm(0, Definition(1))] == arms;
    assert WalkArms(g, s0.(visited := {0, 1}), [e0]) == (s1, [Arm(0, Definition(1))]);
  }
}
