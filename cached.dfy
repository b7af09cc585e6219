/**
 * The definitions walk with the correction its output needs: a node with one
 * edge that the walk meets again after its visit has finished gives the type
 * that visit gave, instead of a reference to a named type nobody defines.
 * A node met again while its visit is still under way (a loop) is treated
 * as in generate/src/lib.rs.
 */
module CachedDefinitions {
  import opened Wrappers
  import opened GenGraph
  import opened Template
  import opened Definitions

  /** The visitor's state, with the type and `safe` flag each finished node gave. */
  datatype CState = CState(visited: set<nat>, looped: set<nat>, definitions: seq<Def>, done: map<nat, (Type, bool)>)

  /** The nodes whose visit has begun and not yet ended. */
  function Active(s: CState): set<nat> {
    s.visited - s.done.Keys
  }

  /** The walk, with finished single-edge nodes reused. */
  function CachedWalk(g: Graph, s: CState, node: nat): (r: (CState, Type, bool))
    requires Ready(g) && node < |g.nodes|
    ensures s.visited <= r.0.visited && s.looped <= r.0.looped && s.definitions <= r.0.definitions
    decreases Nodes(g) - s.visited, 0
  {
    var edges := EdgesFrom(g.edges, node);
    var weight := g.nodes[node];
    if edges == [] then (s, End, true)
    else if |edges| == 1 then
      if node in s.done then (s, s.done[node].0, s.done[node].1)
      else if node in s.visited then (s.(looped := s.looped + {node}), Definition(node), false)
      else
        var edge := edges[0];
        var (s1, next, safe) := CachedWalk(g, s.(visited := s.visited + {node}), edge.target);
        var ty := Message(weight.direction.value, weight.role.value, edge.labelIndex, next);
        if node in s1.looped then
          (s1.(definitions := s1.definitions + [TypeDef(safe, node, ty)], done := s1.done[node := (Definition(node), true)]), Definition(node), true)
        else (s1.(done := s1.done[node := (ty, safe)]), ty, safe)
    else
      var ty := Choice(weight.direction.value, weight.role.value, node);
      if node in s.visited then (s.(looped := s.looped + {node}), ty, true)
      else
        var (s1, choices) := CachedArms(g, s.(visited := s.visited + {node}), edges);
        (s1.(definitions := s1.definitions + [ChoiceDef(node, choices)], done := s1.done[node := (ty, true)]), ty, true)
  }

  /** The arms of a choice, as `WalkArms` gives them. */
  function CachedArms(g: Graph, s: CState, edges: seq<GraphEdge>): (r: (CState, seq<Arm>))
    requires Ready(g) && forall e :: e in edges ==> e.target < |g.nodes|
    ensures s.visited <= r.0.visited && s.looped <= r.0.looped && s.definitions <= r.0.definitions
    ensures |r.1| == |edges| && forall k :: 0 <= k < |edges| ==> r.1[k].labelIndex == edges[k].labelIndex
    decreases Nodes(g) - s.visited, |edges| + 1
  {
    if edges == [] then (s, [])
    else
      var (s1, ty, _) := CachedWalk(g, s, edges[0].target);
      var (s2, rest) := CachedArms(g, s1, edges[1..]);
      (s2, [Arm(edges[0].labelIndex, ty)] + rest)
  }

  /**
   * The definitions of the corrected walk from node 0, with the root's
   * alias as before: none for a root without edges, and otherwise the
   * root's own definition last.
   */
  function CachedDefinitionsOf(g: Graph): (r: seq<Def>)
    requires Ready(g) && |g.nodes| > 0
    ensures r == [] <==> EdgesFrom(g.edges, 0) == []
    ensures r != [] ==> r[|r| - 1].TypeDef? && r[|r| - 1].index == 0
  {
    var (s, ty, _) := CachedWalk(g, CState({}, {0}, [], map[]), 0);
    if ty.Choice? then s.definitions + [TypeDef(true, 0, ty)] else s.definitions
  }

  /**
   * Named types referred to in state `s` are of single-edge nodes, and
   * either defined or of a node on a loop whose visit is under way (it will
   * be defined when that visit ends).
   */
  ghost predicate TypesCovered(g: Graph, s: CState, refs: set<nat>) {
    forall n :: n in refs ==> |EdgesFrom(g.edges, n)| == 1 && (n in TypeDefined(s.definitions) || (n in Active(s) && n in s.looped))
  }

  /** Choices referred to are of nodes with several edges, and either defined or under way. */
  ghost predicate ChoicesCovered(g: Graph, s: CState, refs: set<nat>) {
    forall n :: n in refs ==> |EdgesFrom(g.edges, n)| >= 2 && (n in ChoiceDefined(s.definitions) || n in Active(s))
  }

  /** Everything `ty` refers to is covered. */
  ghost predicate TypeCovered(g: Graph, s: CState, ty: Type) {
    TypesCovered(g, s, TypeRefs(ty)) && ChoicesCovered(g, s, ChoiceRefs(ty))
  }

  /** The definitions refer only to what is covered. */
  ghost predicate DefsCovered(g: Graph, s: CState) {
    forall d :: d in s.definitions ==> TypesCovered(g, s, DefTypeRefs(d)) && ChoicesCovered(g, s, DefChoiceRefs(d))
  }

  /** The types remembered for finished nodes refer only to what is covered. */
  ghost predicate DoneCovered(g: Graph, s: CState) {
    forall n :: n in s.done ==> TypeCovered(g, s, s.done[n].0)
  }

  /** A finished node with several edges has its choice definition. */
  ghost predicate ChoicesDone(g: Graph, s: CState) {
    forall n :: n in s.done && |EdgesFrom(g.edges, n)| >= 2 ==> n in ChoiceDefined(s.definitions)
  }

  /** What the corrected walk keeps: finished nodes were visited, and the definitions and remembered types refer only to what is covered. */
  ghost predicate Inv(g: Graph, s: CState) {
    s.done.Keys <= s.visited && DefsCovered(g, s) && DoneCovered(g, s) && ChoicesDone(g, s)
  }

  /** More definitions, more looped nodes and more nodes under way cover at least as much. */
  ghost predicate Covers(s: CState, t: CState) {
    s.definitions <= t.definitions && s.looped <= t.looped && Active(s) <= Active(t)
  }

  lemma DefinedGrows(s: seq<Def>, t: seq<Def>)
    requires s <= t
    ensures TypeDefined(s) <= TypeDefined(t) && ChoiceDefined(s) <= ChoiceDefined(t)
  {
    forall d | d in s
      ensures d in t
    {
      var i :| 0 <= i < |s| && s[i] == d;
      assert t[i] == d;
    }
  }

  lemma CoveredGrows(g: Graph, s: CState, t: CState, types: set<nat>, choices: set<nat>)
    requires Covers(s, t) && TypesCovered(g, s, types) && ChoicesCovered(g, s, choices)
    ensures TypesCovered(g, t, types) && ChoicesCovered(g, t, choices)
  {
    DefinedGrows(s.definitions, t.definitions);
  }

  /** Growing the state that way, without finishing a node, keeps the invariant. */
  lemma InvGrows(g: Graph, s: CState, t: CState)
    requires Inv(g, s) && s.looped <= t.looped && t.definitions == s.definitions && t.done == s.done && s.visited <= t.visited
    ensures Inv(g, t)
  {
    assert Covers(s, t);
    forall d | d in t.definitions
      ensures TypesCovered(g, t, DefTypeRefs(d)) && ChoicesCovered(g, t, DefChoiceRefs(d))
    {
      CoveredGrows(g, s, t, DefTypeRefs(d), DefChoiceRefs(d));
    }
    forall n | n in t.done
      ensures TypeCovered(g, t, t.done[n].0)
    {
      CoveredGrows(g, s, t, TypeRefs(s.done[n].0), ChoiceRefs(s.done[n].0));
    }
  }

  /**
   * Finishing `node`, with the definition its references need when there
   * may be any, keeps covered whatever was covered.
   */
  lemma CoveredFinish(g: Graph, s: CState, t: CState, node: nat, types: set<nat>, choices: set<nat>)
    requires s.definitions <= t.definitions && s.looped <= t.looped && Active(t) == Active(s) - {node}
    requires |EdgesFrom(g.edges, node)| == 1 && node in s.looped ==> node in TypeDefined(t.definitions)
    requires |EdgesFrom(g.edges, node)| >= 2 ==> node in ChoiceDefined(t.definitions)
    requires TypesCovered(g, s, types) && ChoicesCovered(g, s, choices)
    ensures TypesCovered(g, t, types) && ChoicesCovered(g, t, choices)
  {
    DefinedGrows(s.definitions, t.definitions);
  }

  /** Finishing `node` that way, recording what it gave, keeps the invariant. */
  lemma InvFinish(g: Graph, s: CState, t: CState, node: nat, extra: Option<Def>, ty: Type, safe: bool)
    requires Inv(g, s) && node in Active(s) && TypeCovered(g, t, ty)
    requires t == s.(definitions := s.definitions + (if extra.Some? then [extra.value] else []), done := s.done[node := (ty, safe)])
    requires extra.Some? ==> TypesCovered(g, s, DefTypeRefs(extra.value)) && ChoicesCovered(g, s, DefChoiceRefs(extra.value))
    requires |EdgesFrom(g.edges, node)| == 1 && node in s.looped ==> node in TypeDefined(t.definitions)
    requires |EdgesFrom(g.edges, node)| >= 2 ==> node in ChoiceDefined(t.definitions)
    ensures Inv(g, t)
  {
    assert Active(t) == Active(s) - {node};
    FinishDefs(g, s, t, node, extra);
    FinishDone(g, s, t, node, ty, safe);
    DefinedGrows(s.definitions, t.definitions);
  }

  lemma FinishDefs(g: Graph, s: CState, t: CState, node: nat, extra: Option<Def>)
    requires DefsCovered(g, s) && s.looped <= t.looped && Active(t) == Active(s) - {node}
    requires t.definitions == s.definitions + (if extra.Some? then [extra.value] else [])
    requires extra.Some? ==> TypesCovered(g, s, DefTypeRefs(extra.value)) && ChoicesCovered(g, s, DefChoiceRefs(extra.value))
    requires |EdgesFrom(g.edges, node)| == 1 && node in s.looped ==> node in TypeDefined(t.definitions)
    requires |EdgesFrom(g.edges, node)| >= 2 ==> node in ChoiceDefined(t.definitions)
    ensures DefsCovered(g, t)
  {
    forall d | d in t.definitions
      ensures TypesCovered(g, t, DefTypeRefs(d)) && ChoicesCovered(g, t, DefChoiceRefs(d))
    {
      if d !in s.definitions {
        assert d == extra.value;
      }
      CoveredFinish(g, s, t, node, DefTypeRefs(d), DefChoiceRefs(d));
    }
  }

  lemma FinishDone(g: Graph, s: CState, t: CState, node: nat, ty: Type, safe: bool)
    requires DoneCovered(g, s) && s.definitions <= t.definitions && s.looped <= t.looped && Active(t) == Active(s) - {node}
    requires t.done == s.done[node := (ty, safe)] && TypeCovered(g, t, ty)
    requires |EdgesFrom(g.edges, node)| == 1 && node in s.looped ==> node in TypeDefined(t.definitions)
    requires |EdgesFrom(g.edges, node)| >= 2 ==> node in ChoiceDefined(t.definitions)
    ensures DoneCovered(g, t)
  {
    forall n | n in t.done && n != node
      ensures TypeCovered(g, t, t.done[n].0)
    {
      CoveredFinish(g, s, t, node, TypeRefs(s.done[n].0), ChoiceRefs(s.done[n].0));
    }
  }

  /**
   * The corrected walk keeps the invariant, ends with the same nodes under
   * way as it began, and gives a type whose references are covered.
   */
  lemma {:induction false} CachedWalkCovered(g: Graph, s: CState, node: nat)
    requires Ready(g) && node < |g.nodes| && Inv(g, s)
    ensures var r := CachedWalk(g, s, node); Inv(g, r.0) && Active(r.0) == Active(s) && TypeCovered(g, r.0, r.1)
    decreases Nodes(g) - s.visited, 1
  {
    var edges := EdgesFrom(g.edges, node);
    if edges == [] {
    } else if |edges| == 1 && node in s.done {
    } else if node in s.visited {
      RevisitCovered(g, s, node);
    } else if |edges| == 1 {
      SingleCovered(g, s, node);
    } else {
      ChoiceCovered(g, s, node);
    }
  }

  /** A node met again: a loop back to a node under way, or a choice already defined. */
  lemma RevisitCovered(g: Graph, s: CState, node: nat)
    requires Ready(g) && node < |g.nodes| && Inv(g, s) && node in s.visited && EdgesFrom(g.edges, node) != []
    requires |EdgesFrom(g.edges, node)| == 1 ==> node !in s.done
    ensures var r := CachedWalk(g, s, node); Inv(g, r.0) && Active(r.0) == Active(s) && TypeCovered(g, r.0, r.1)
  {
    var r := CachedWalk(g, s, node);
    InvGrows(g, s, r.0);
    DefinedGrows(s.definitions, r.0.definitions);
  }

  /** The first visit of a single-edge node. */
  lemma {:induction false} SingleCovered(g: Graph, s: CState, node: nat)
    requires Ready(g) && node < |g.nodes| && Inv(g, s) && node !in s.visited && |EdgesFrom(g.edges, node)| == 1
    ensures var r := CachedWalk(g, s, node); Inv(g, r.0) && Active(r.0) == Active(s) && TypeCovered(g, r.0, r.1)
    decreases Nodes(g) - s.visited, 0
  {
    var weight := g.nodes[node];
    var edge := EdgesFrom(g.edges, node)[0];
    var s0 := s.(visited := s.visited + {node});
    InvGrows(g, s, s0);
    CachedWalkCovered(g, s0, edge.target);
    var (s1, next, safe) := CachedWalk(g, s0, edge.target);
    FinishSingle(g, s1, node, Message(weight.direction.value, weight.role.value, edge.labelIndex, next), safe);
  }

  /** The first visit of a node with several edges. */
  lemma {:induction false} ChoiceCovered(g: Graph, s: CState, node: nat)
    requires Ready(g) && node < |g.nodes| && Inv(g, s) && node !in s.visited && |EdgesFrom(g.edges, node)| >= 2
    ensures var r := CachedWalk(g, s, node); Inv(g, r.0) && Active(r.0) == Active(s) && TypeCovered(g, r.0, r.1)
    decreases Nodes(g) - s.visited, 0
  {
    var weight := g.nodes[node];
    var edges := EdgesFrom(g.edges, node);
    var s0 := s.(visited := s.visited + {node});
    InvGrows(g, s, s0);
    CachedArmsCovered(g, s0, edges);
    var (s1, choices) := CachedArms(g, s0, edges);
    FinishChoice(g, s1, node, choices, Choice(weight.direction.value, weight.role.value, node));
  }

  /** The end of a single-edge node's first visit keeps the invariant and covers what it gives. */
  lemma FinishSingle(g: Graph, s1: CState, node: nat, ty: Type, safe: bool)
    requires Inv(g, s1) && node in Active(s1) && |EdgesFrom(g.edges, node)| == 1 && TypeCovered(g, s1, ty)
    ensures var r := if node in s1.looped
        then (s1.(definitions := s1.definitions + [TypeDef(safe, node, ty)], done := s1.done[node := (Definition(node), true)]), Definition(node), true)
        else (s1.(done := s1.done[node := (ty, safe)]), ty, safe);
      Inv(g, r.0) && Active(r.0) == Active(s1) - {node} && TypeCovered(g, r.0, r.1)
  {
    if node in s1.looped {
      FinishLooped(g, s1, node, ty, safe);
    } else {
      FinishInline(g, s1, node, ty, safe);
    }
  }

  /** A node found on a loop gets its named type and is remembered as a reference to it. */
  lemma FinishLooped(g: Graph, s1: CState, node: nat, ty: Type, safe: bool)
    requires Inv(g, s1) && node in Active(s1) && node in s1.looped && |EdgesFrom(g.edges, node)| == 1 && TypeCovered(g, s1, ty)
    ensures var t := s1.(definitions := s1.definitions + [TypeDef(safe, node, ty)], done := s1.done[node := (Definition(node), true)]);
      Inv(g, t) && Active(t) == Active(s1) - {node} && TypeCovered(g, t, Definition(node))
  {
    var d := TypeDef(safe, node, ty);
    var t := s1.(definitions := s1.definitions + [d], done := s1.done[node := (Definition(node), true)]);
    assert d in t.definitions;
    InvFinish(g, s1, t, node, Some(d), Definition(node), true);
  }

  /** Any other node is remembered with the type it gave, which nothing needs defined for it. */
  lemma FinishInline(g: Graph, s1: CState, node: nat, ty: Type, safe: bool)
    requires Inv(g, s1) && node in Active(s1) && node !in s1.looped && |EdgesFrom(g.edges, node)| == 1 && TypeCovered(g, s1, ty)
    ensures var t := s1.(done := s1.done[node := (ty, safe)]);
      Inv(g, t) && Active(t) == Active(s1) - {node} && TypeCovered(g, t, ty)
  {
    var t := s1.(done := s1.done[node := (ty, safe)]);
    CoveredFinish(g, s1, t, node, TypeRefs(ty), ChoiceRefs(ty));
    InvFinish(g, s1, t, node, None, ty, safe);
  }

  /** The end of a choice node's first visit keeps the invariant and covers the choice it gives. */
  lemma FinishChoice(g: Graph, s1: CState, node: nat, choices: seq<Arm>, ty: Type)
    requires Inv(g, s1) && node in Active(s1) && |EdgesFrom(g.edges, node)| >= 2 && ty.Choice? && ty.index == node
    requires TypesCovered(g, s1, ArmTypeRefs(choices)) && ChoicesCovered(g, s1, ArmChoiceRefs(choices))
    ensures var t := s1.(definitions := s1.definitions + [ChoiceDef(node, choices)], done := s1.done[node := (ty, true)]);
      Inv(g, t) && Active(t) == Active(s1) - {node} && TypeCovered(g, t, ty)
  {
    var d := ChoiceDef(node, choices);
    var t := s1.(definitions := s1.definitions + [d], done := s1.done[node := (ty, true)]);
    assert d in t.definitions;
    InvFinish(g, s1, t, node, Some(d), ty, true);
  }

  /** The same for the arms of a choice: every arm's type is covered. */
  lemma {:induction false} CachedArmsCovered(g: Graph, s: CState, edges: seq<GraphEdge>)
    requires Ready(g) && (forall e :: e in edges ==> e.target < |g.nodes|) && Inv(g, s)
    ensures var r := CachedArms(g, s, edges);
      && Inv(g, r.0) && Active(r.0) == Active(s)
      && TypesCovered(g, r.0, ArmTypeRefs(r.1)) && ChoicesCovered(g, r.0, ArmChoiceRefs(r.1))
    decreases Nodes(g) - s.visited, |edges| + 2
  {
    if edges != [] {
      CachedWalkCovered(g, s, edges[0].target);
      var (s1, ty, _) := CachedWalk(g, s, edges[0].target);
      CachedArmsCovered(g, s1, edges[1..]);
      var (s2, rest) := CachedArms(g, s1, edges[1..]);
      CoveredGrows(g, s1, s2, TypeRefs(ty), ChoiceRefs(ty));
      assert ([Arm(edges[0].labelIndex, ty)] + rest)[1..] == rest;
    }
  }

  /**
   * The corrected `generate_definitions` names only what it defines: every
   * named type and every choice its definitions refer to has a definition.
   */
  lemma CachedComplete(g: Graph)
    requires Ready(g) && |g.nodes| > 0
    ensures Complete(CachedDefinitionsOf(g))
  {
    var start := CState({}, {0}, [], map[]);
    CachedWalkCovered(g, start, 0);
    var (s, ty, _) := CachedWalk(g, start, 0);
    var defs := CachedDefinitionsOf(g);
    DefinedGrows(s.definitions, defs);
    forall d | d in defs
      ensures DefTypeRefs(d) <= TypeDefined(defs) && DefChoiceRefs(d) <= ChoiceDefined(defs)
    {
      if d in s.definitions {
        assert TypesCovered(g, s, DefTypeRefs(d)) && ChoicesCovered(g, s, DefChoiceRefs(d));
      } else {
        assert d == TypeDef(true, 0, ty);
      }
    }
  }
}
