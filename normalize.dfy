/**
 * The normaliser: renames the roles and the labels of FSMs to small
 * indices, numbering each distinct role or label by its first sighting
 * and remembering the numbering across FSMs.
 */
module Normalize {
  import opened Machine

  /** The numbering of a table: the indices in use are exactly `0 ..|m|`, each once. */
  ghost predicate Dense<K>(m: map<K, nat>) {
    (forall k :: k in m ==> m[k] < |m|)
    && (forall a, b :: a in m && b in m && m[a] == m[b] ==> a == b)
  }

  /** `entry(k).or_insert(len)`: the index of `k`, fresh on first sight. */
  function Intern<K>(m: map<K, nat>, k: K): (r: (nat, map<K, nat>))
    ensures k in m ==> r == (m[k], m)
    ensures k !in m ==> r == (|m|, m[k := |m|])
  {
    if k in m then (m[k], m) else (|m|, m[k := |m|])
  }

  /** Interning keeps the numbering dense and one-to-one, and grows it by a fresh key only. */
  lemma InternDense<K>(m: map<K, nat>, k: K)
    requires Dense(m)
    ensures Dense(Intern(m, k).1)
    ensures k in Intern(m, k).1 && Intern(m, k).1[k] == Intern(m, k).0
    ensures forall j :: j in m ==> j in Intern(m, k).1 && Intern(m, k).1[j] == m[j]
  {
    if k !in m {
      var m' := m[k := |m|];
      assert m'.Keys == m.Keys + {k};
      assert |m'| == |m| + 1;
      forall a, b | a in m' && b in m' && m'[a] == m'[b] ensures a == b {
        if a != k && b != k {
          assert m[a] == m[b];
        }
      }
    }
  }

  /** Interning keeps every earlier number and gives the key the number it returns. */
  lemma InternKeeps<K>(m: map<K, nat>, k: K)
    ensures k in Intern(m, k).1 && Intern(m, k).1[k] == Intern(m, k).0
    ensures forall j :: j in m ==> j in Intern(m, k).1 && Intern(m, k).1[j] == m[j]
  {
  }

  /** Interning a sequence of keys in order. */
  function InternAll<K>(m: map<K, nat>, ks: seq<K>): map<K, nat>
    decreases |ks|
  {
    if ks == [] then m else InternAll(Intern(m, ks[0]).1, ks[1..])
  }

  lemma {:induction false} InternAllAppend<K>(m: map<K, nat>, ks: seq<K>, k: K)
    ensures InternAll(m, ks + [k]) == Intern(InternAll(m, ks), k).1
    decreases |ks|
  {
    if ks != [] {
      assert (ks + [k])[1..] == ks[1..] + [k];
      InternAllAppend(Intern(m, ks[0]).1, ks[1..], k);
    }
  }

  /**
   * Indices already handed out are never changed, every key seen gets one,
   * and the numbering stays dense: two distinct roles or labels never share
   * an index.
   */
  lemma {:induction false} InternAllKeeps<K>(m: map<K, nat>, ks: seq<K>)
    requires Dense(m)
    ensures var m' := InternAll(m, ks);
      Dense(m') && (forall j :: j in m ==> j in m' && m'[j] == m[j])
      && (forall i :: 0 <= i < |ks| ==> ks[i] in m')
    decreases |ks|
  {
    if ks != [] {
      InternDense(m, ks[0]);
      InternAllKeeps(Intern(m, ks[0]).1, ks[1..]);
      var m' := InternAll(m, ks);
      forall i | 0 <= i < |ks| ensures ks[i] in m' {
        if i > 0 {
          assert ks[i] == ks[1..][i - 1];
        }
      }
    }
  }

  /** The roles of the `Choices` states, in state order. */
  function ChoiceRoles<R>(states: seq<State<R>>): seq<R>
  {
    if states == [] then []
    else ChoiceRoles(states[..|states| - 1]) + (if states[|states| - 1].Choices? then [states[|states| - 1].role] else [])
  }

  lemma ChoiceRolesSnoc<R>(states: seq<State<R>>, n: nat)
    requires n < |states|
    ensures ChoiceRoles(states[..n + 1]) == ChoiceRoles(states[..n]) + (if states[n].Choices? then [states[n].role] else [])
  {
    assert states[..n + 1][..n] == states[..n];
  }

  function EdgeKeys<M, L>(edges: seq<Edge<M>>, key: M -> L): seq<L>
  {
    if edges == [] then [] else EdgeKeys(edges[..|edges| - 1], key) + [key(edges[|edges| - 1].message)]
  }

  lemma EdgeKeysSnoc<M, L>(edges: seq<Edge<M>>, key: M -> L, n: nat)
    requires n < |edges|
    ensures EdgeKeys(edges[..n + 1], key) == EdgeKeys(edges[..n], key) + [key(edges[n].message)]
  {
    assert edges[..n + 1][..n] == edges[..n];
  }

  function Renamed<R>(s: State<R>, roles: map<R, nat>): State<nat>
    requires s.Choices? ==> s.role in roles
  {
    match s
    case End => End
    case Choices(r, a) => Choices(roles[r], a)
  }

  /** A renaming that is one-to-one keeps the FSM invariant. */
  lemma NormalizedValid<R, M>(g: Graph<R, M>, h: Graph<nat, nat>, roles: map<R, nat>)
    requires Valid(g) && Dense(roles) && g.role in roles && h.role == roles[g.role]
    requires |h.states| == |g.states| && |h.edges| == |g.edges|
    requires forall s :: 0 <= s < |g.states| ==> (g.states[s].Choices? ==> g.states[s].role in roles) && h.states[s] == Renamed(g.states[s], roles)
    requires forall i :: 0 <= i < |g.edges| ==> h.edges[i].source == g.edges[i].source && h.edges[i].target == g.edges[i].target
    ensures Valid(h)
  {
    forall s | 0 <= s < |h.states| && h.states[s].Choices? ensures h.states[s].role != h.role {
      assert g.states[s].role != g.role;
    }
    forall i | 0 <= i < |h.edges| ensures h.states[h.edges[i].source].Choices? {
      assert g.states[g.edges[i].source].Choices?;
    }
  }

  class Normalizer<R(==), L(==)> {
    var roles: map<R, nat>
    var labels: map<L, nat>

    ghost predicate Valid()
      reads this
    {
      Dense(roles) && Dense(labels)
    }

    /** `Normalizer::default`: nothing numbered yet. */
    constructor ()
      ensures Valid() && roles == map[] && labels == map[]
    {
      roles := map[];
      labels := map[];
    }

    /** The state half of `normalize`: each choice's role is numbered in state order. */
    static method RenameStates(states: seq<State<R>>, roles: map<R, nat>) returns (renamed: seq<State<nat>>, roles': map<R, nat>)
      ensures roles' == InternAll(roles, ChoiceRoles(states))
      ensures |renamed| == |states|
      ensures forall s :: 0 <= s < |states| ==>
        (states[s].Choices? ==> states[s].role in roles') && renamed[s] == Renamed(states[s], roles')
    {
      renamed, roles' := [], roles;
      while |renamed| < |states|
        invariant |renamed| <= |states|
        invariant roles' == InternAll(roles, ChoiceRoles(states[..|renamed|]))
        invariant forall s :: 0 <= s < |renamed| ==>
          (states[s].Choices? ==> states[s].role in roles') && renamed[s] == Renamed(states[s], roles')
      {
        var n := |renamed|;
        ChoiceRolesSnoc(states, n);
        match states[n] {
          case End =>
            assert ChoiceRoles(states[..n + 1]) == ChoiceRoles(states[..n]);
            renamed := renamed + [End];
          case Choices(r, a) =>
            assert ChoiceRoles(states[..n + 1]) == ChoiceRoles(states[..n]) + [r];
            InternAllAppend(roles, ChoiceRoles(states[..n]), r);
            InternKeeps(roles', r);
            var i;
            i, roles' := Intern(roles', r).0, Intern(roles', r).1;
            renamed := renamed + [Choices(i, a)];
        }
      }
      assert states[..|states|] == states;
    }

    /** The edge half of `normalize`: each edge's label, as `key` reads it, is numbered in edge order. */
    static method RenameEdges<M>(edges: seq<Edge<M>>, key: M -> L, labels: map<L, nat>) returns (mapped: seq<Edge<nat>>, labels': map<L, nat>)
      ensures labels' == InternAll(labels, EdgeKeys(edges, key))
      ensures |mapped| == |edges|
      ensures forall i :: 0 <= i < |edges| ==> (key(edges[i].message) in labels' &&
        mapped[i] == Edge(edges[i].source, edges[i].target, labels'[key(edges[i].message)]))
    {
      mapped, labels' := [], labels;
      while |mapped| < |edges|
        invariant |mapped| <= |edges|
        invariant labels' == InternAll(labels, EdgeKeys(edges[..|mapped|], key))
        invariant forall i :: 0 <= i < |mapped| ==> (key(edges[i].message) in labels' &&
          mapped[i] == Edge(edges[i].source, edges[i].target, labels'[key(edges[i].message)]))
      {
        var n := |mapped|;
        var k := key(edges[n].message);
        EdgeKeysSnoc(edges, key, n);
        InternAllAppend(labels, EdgeKeys(edges[..n], key), k);
        InternKeeps(labels', k);
        ghost var before, done := labels', mapped;
        var i;
        i, labels' := Intern(labels', k).0, Intern(labels', k).1;
        mapped := mapped + [Edge(edges[n].source, edges[n].target, i)];
        forall j | 0 <= j < |mapped|
          ensures key(edges[j].message) in labels' && mapped[j] == Edge(edges[j].source, edges[j].target, labels'[key(edges[j].message)])
        {
          if j < n {
            assert mapped[j] == done[j] && key(edges[j].message) in before;
          }
        }
      }
      assert edges[..|edges|] == edges;
    }

    /**
     * `normalize`: the machine's role is numbered first, then the role of
     * every choice in state order, then the label of every edge (as `key`
     * reads it) in edge order. States, actions and edges keep their places,
     * and a valid machine stays valid.
     */
    method Normalize<M>(input: Fsm<R, M>, key: M -> L) returns (out: Fsm<nat, nat>)
      requires Valid()
      modifies this
      ensures fresh(out) && Valid()
      ensures roles == InternAll(old(roles), [input.role] + ChoiceRoles(input.states))
      ensures labels == InternAll(old(labels), EdgeKeys(input.edges, key))
      ensures input.role in roles && out.role == roles[input.role]
      ensures |out.states| == |input.states|
      ensures forall s :: 0 <= s < |input.states| ==>
        (input.states[s].Choices? ==> input.states[s].role in roles) && out.states[s] == Renamed(input.states[s], roles)
      ensures |out.edges| == |input.edges|
      ensures forall i :: 0 <= i < |input.edges| ==> (key(input.edges[i].message) in labels &&
        out.edges[i] == Edge(input.edges[i].source, input.edges[i].target, labels[key(input.edges[i].message)]))
      ensures Machine.Valid(input.View()) ==> Machine.Valid(out.View())
    {
      var g := input.View();
      InternDense(roles, g.role);
      var (self, afterSelf) := Intern(roles, g.role);
      assert ([g.role] + ChoiceRoles(g.states))[1..] == ChoiceRoles(g.states);
      var renamed, roles' := RenameStates(g.states, afterSelf);
      InternAllKeeps(afterSelf, ChoiceRoles(g.states));
      var mapped, labels' := RenameEdges(g.edges, key, labels);
      InternAllKeeps(labels, EdgeKeys(g.edges, key));
      roles, labels := roles', labels';
      out := new Fsm(self);
      out.states := renamed;
      out.edges := mapped;
      if Machine.Valid(g) {
        NormalizedValid(g, out.View(), roles);
      }
    }
  }
}
