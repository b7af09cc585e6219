/**
 * The type-to-FSM serialiser of the session runtime: a depth-first walk
 * over a session type that gives each distinct type id one state, and
 * attaches each choice's transition to the state of the continuation it
 * leads to. A type seen before reuses its state and is not expanded again,
 * which is what makes the walk end on recursive types.
 */
module SessionSerialize {
  import opened Wrappers
  import opened SessionTypes
  import opened SerializeWalk
  import M = Machine

  /** `Message::from_label`: a message whose label is a type, with no parameters and no refinements. */
  datatype Message = FromLabel(message: Type)

  type Transition = M.Transition<Type, Message>

  type Graph = M.Graph<Type, Message>

  /** `ChoicesSerializer`: the state being expanded, and the role and action of its transitions. */
  datatype ChoicesSerializer = ChoicesSerializer(state: nat, role: Type, action: M.Action)

  /** The transition an arm of the definition `d` records. */
  function ArmTransition(names: nat -> string, d: Session, c: Choice): (t: Transition)
    requires !d.End?
    ensures t.role == TypeOf(names, d.peer) && t.action == ActionOf(d)
    ensures t.message == FromLabel(TypeOf(names, c.message))
  {
    M.Transition(TypeOf(names, d.peer), ActionOf(d), FromLabel(TypeOf(names, c.message)))
  }

  /** What `add_state_index` does to the FSM: the pending transition, if any, now ends at `state`. */
  function Attached(g: Graph, previous: Option<(nat, Transition)>, state: nat): Graph
    requires state < |g.states| && (previous.Some? ==> previous.value.0 < |g.states|)
  {
    if previous.None? then g else M.AddTransitionTo(g, previous.value.0, state, previous.value.1).1
  }

  /** A state fits its definition: still `End`, or the peer and action of the definition's transitions. */
  ghost predicate Fits(names: nat -> string, st: M.State<Type>, d: Session) {
    st.End? || (!d.End? && st == M.Choices(TypeOf(names, d.peer), ActionOf(d)))
  }

  /** The type-level facts a serialisation works from: type names, definitions and the FSM's own role. */
  datatype Env = Env(names: nat -> string, defs: map<nat, Session>, role: nat)

  /** The edge an arm stands for: its type's state to its continuation's state, labelled by its label type. */
  ghost function EdgeFor(e: Env, h: map<nat, nat>, p: (nat, nat)): M.Edge<Message>
    requires Joined(e.defs, h, p)
  {
    M.Edge(h[p.0], h[Arm(e.defs, p).next], FromLabel(TypeOf(e.names, Arm(e.defs, p).message)))
  }

  /** The transition `serialize_choice` makes pending for an arm, with the state it leaves. */
  ghost function PendingFor(e: Env, h: map<nat, nat>, p: (nat, nat)): (nat, Transition)
    requires Chosen(e.defs, h, p)
  {
    (h[p.0], ArmTransition(e.names, e.defs[p.0], Arm(e.defs, p)))
  }

  /**
   * The serialiser's invariant over its FSM `g`, history `h` with its
   * inverse `owner` (the type id of each state), the arms
   * `made` behind the edges with its inverse `edgeOf`, and the pending
   * transition: each type id with a
   * state has its own state and every state belongs to one type id; a state
   * is `End` or carries its definition's peer and action; every edge stands
   * for one arm and no arm has two edges; a pending transition belongs to
   * an arm that has no edge yet.
   */
  ghost predicate Inv(e: Env, g: Graph, h: map<nat, nat>, owner: seq<nat>, made: seq<(nat, nat)>, edgeOf: map<(nat, nat), nat>,
                      previous: Option<(nat, Transition)>, pending: (nat, nat)) {
    && GraphInv(e, g)
    && HistoryInv(e, g.states, h, owner)
    && EdgesInv(e, g.edges, h, made, edgeOf)
    && PendingInv(e, h, edgeOf, previous, pending)
  }

  /** The FSM is well formed, has the serialised role, and the definitions it is built from are closed and never name that role. */
  ghost predicate GraphInv(e: Env, g: Graph) {
    M.Valid(g) && g.role == TypeOf(e.names, e.role) && NoSelf(e.defs, e.role) && Closed(e.defs)
  }

  /** Type ids and states correspond one to one through `h` and `owner`, and every state fits its type's definition. */
  ghost predicate HistoryInv(e: Env, states: seq<M.State<Type>>, h: map<nat, nat>, owner: seq<nat>) {
    && (forall id :: id in h ==> id in e.defs && h[id] < |states|)
    && |h| == |states| && |owner| == |states| && OwnerInv(h, owner)
    && (forall id :: id in h ==> Fits(e.names, states[h[id]], e.defs[id]))
  }

  /** The `i`-th edge stands for the arm `made[i]`, and `edgeOf` is the inverse of `made`. */
  ghost predicate EdgesInv(e: Env, edges: seq<M.Edge<Message>>, h: map<nat, nat>, made: seq<(nat, nat)>, edgeOf: map<(nat, nat), nat>) {
    && |made| == |edges| && ArmsInv(e.defs, h, made, edgeOf)
    && (forall i :: 0 <= i < |made| ==> edges[i] == EdgeFor(e, h, made[i]))
  }

  /** A pending transition belongs to an arm without an edge. */
  ghost predicate PendingInv(e: Env, h: map<nat, nat>, edgeOf: map<(nat, nat), nat>, previous: Option<(nat, Transition)>, pending: (nat, nat)) {
    previous.Some? ==> Chosen(e.defs, h, pending) && pending !in edgeOf && previous.value == PendingFor(e, h, pending)
  }

  /** Giving the state of type id `x` its definition's peer and action keeps the correspondence of type ids and states. */
  lemma AttachHistory(e: Env, states: seq<M.State<Type>>, states2: seq<M.State<Type>>, h: map<nat, nat>, owner: seq<nat>, x: nat)
    requires HistoryInv(e, states, h, owner) && x in h && !e.defs[x].End?
    requires |states2| == |states| && states2[h[x]] == M.Choices(TypeOf(e.names, e.defs[x].peer), ActionOf(e.defs[x]))
    requires forall s :: 0 <= s < |states| && s != h[x] ==> states2[s] == states[s]
    ensures HistoryInv(e, states2, h, owner)
  {
    forall y | y in h
      ensures Fits(e.names, states2[h[y]], e.defs[y])
    {
      if h[y] == h[x] {
        assert y == owner[h[x]] == x;
      }
    }
  }

  /** Giving the arm `p`, which has no edge, the next edge keeps each edge standing for its arm. */
  lemma AttachEdges(e: Env, edges: seq<M.Edge<Message>>, h: map<nat, nat>, made: seq<(nat, nat)>, edgeOf: map<(nat, nat), nat>,
                    p: (nat, nat), edge: M.Edge<Message>)
    requires EdgesInv(e, edges, h, made, edgeOf) && Joined(e.defs, h, p) && p !in edgeOf && edge == EdgeFor(e, h, p)
    ensures EdgesInv(e, edges + [edge], h, made + [p], edgeOf[p := |made|])
  {
    ArmsAttach(e.defs, h, made, edgeOf, p);
    var edges2, made2 := edges + [edge], made + [p];
    forall i | 0 <= i < |made2|
      ensures edges2[i] == EdgeFor(e, h, made2[i])
    {
      if i < |made| {
        assert made2[i] == made[i] && edges2[i] == edges[i];
      }
    }
  }

  /**
   * Attaching the pending transition to the state of its arm's continuation
   * succeeds, so the `unwrap` in `add_state_index` never fails, and the arm
   * now has its edge.
   */
  lemma AttachKeeps(e: Env, g: Graph, h: map<nat, nat>, owner: seq<nat>, made: seq<(nat, nat)>, edgeOf: map<(nat, nat), nat>,
                    previous: Option<(nat, Transition)>, pending: (nat, nat), id: nat)
    requires Inv(e, g, h, owner, made, edgeOf, previous, pending) && previous.Some?
    requires id in h && Arm(e.defs, pending).next == id
    ensures previous.value.0 < |g.states| && h[id] < |g.states|
    ensures var (r, g2) := M.AddTransitionTo(g, previous.value.0, h[id], previous.value.1);
      r.Ok? && Inv(e, g2, h, owner, made + [pending], edgeOf[pending := |made|], None, pending)
  {
    var (from, t) := previous.value;
    M.AddTransitionOutcome(g, from, h[id], t);
    M.AddTransitionValid(g, from, h[id], t);
    var (r, g2) := M.AddTransitionTo(g, from, h[id], t);
    assert t.role != g.role by {
      assert e.defs[pending.0].peer != e.role;
    }
    assert r.Ok?;
    AttachHistory(e, g.states, g2.states, h, owner, pending.0);
    AttachEdges(e, g.edges, h, made, edgeOf, pending, M.Edge(from, h[id], t.message));
  }

  /** States keep fitting their definitions when a new type id gets a new `End` state. */
  lemma GrowFits(e: Env, states: seq<M.State<Type>>, h: map<nat, nat>, id: nat, states2: seq<M.State<Type>>, h2: map<nat, nat>)
    requires id in e.defs && id !in h && states2 == states + [M.End] && h2 == h[id := |states|]
    requires forall x :: x in h ==> x in e.defs && h[x] < |states|
    requires forall x :: x in h ==> Fits(e.names, states[h[x]], e.defs[x])
    ensures forall x :: x in h2 ==> Fits(e.names, states2[h2[x]], e.defs[x])
  {
    forall x | x in h2
      ensures Fits(e.names, states2[h2[x]], e.defs[x])
    {
      if x != id {
        assert states2[h2[x]] == states[h[x]];
      }
    }
  }

  /** A new type id with a new `End` state keeps the correspondence of type ids and states. */
  lemma GrowHistory(e: Env, states: seq<M.State<Type>>, h: map<nat, nat>, owner: seq<nat>, id: nat)
    requires HistoryInv(e, states, h, owner) && id in e.defs && id !in h
    ensures HistoryInv(e, states + [M.End], h[id := |states|], owner + [id])
  {
    var states2, h2, owner2 := states + [M.End], h[id := |states|], owner + [id];
    GrowOwner(h, owner, id, h2, owner2);
    GrowFits(e, states, h, id, states2, h2);
  }

  /** Arms keep their edges when the history grows. */
  lemma GrowEdges(e: Env, edges: seq<M.Edge<Message>>, h: map<nat, nat>, h2: map<nat, nat>, made: seq<(nat, nat)>, edgeOf: map<(nat, nat), nat>)
    requires EdgesInv(e, edges, h, made, edgeOf) && Grows(h, h2)
    ensures EdgesInv(e, edges, h2, made, edgeOf)
  {
    ArmsGrow(e.defs, h, h2, made, edgeOf);
  }

  /** A new `End` state keeps the FSM well formed. */
  lemma GrowGraph(e: Env, g: Graph)
    requires GraphInv(e, g)
    ensures GraphInv(e, M.Graph(g.role, g.states + [M.End], g.edges))
  {
    var g2 := M.Graph(g.role, g.states + [M.End], g.edges);
    forall i | 0 <= i < |g2.edges|
      ensures g2.states[g2.edges[i].source] == g.states[g.edges[i].source]
    {
    }
  }

  /** A new type id's fresh `End` state keeps the invariant. */
  lemma GrowKeeps(e: Env, g: Graph, h: map<nat, nat>, owner: seq<nat>, made: seq<(nat, nat)>, edgeOf: map<(nat, nat), nat>,
                  previous: Option<(nat, Transition)>, pending: (nat, nat), id: nat)
    requires Inv(e, g, h, owner, made, edgeOf, previous, pending) && id in e.defs && id !in h
    ensures Inv(e, M.Graph(g.role, g.states + [M.End], g.edges), h[id := |g.states|], owner + [id], made, edgeOf, previous, pending)
  {
    var h2 := h[id := |g.states|];
    GrowGraph(e, g);
    GrowHistory(e, g.states, h, owner, id);
    GrowEdges(e, g.edges, h, h2, made, edgeOf);
  }

  /** Making an arm without an edge pending keeps the invariant. */
  lemma PendKeeps(e: Env, g: Graph, h: map<nat, nat>, owner: seq<nat>, made: seq<(nat, nat)>, edgeOf: map<(nat, nat), nat>,
                  pending: (nat, nat), p: (nat, nat))
    requires Inv(e, g, h, owner, made, edgeOf, None, pending) && Chosen(e.defs, h, p) && p !in edgeOf
    ensures Inv(e, g, h, owner, made, edgeOf, Some(PendingFor(e, h, p)), p)
  {
  }

  class Serializer {
    const env: Env
    const fsm: M.Fsm<Type, Message>
    var history: map<nat, nat>
    /** The type id behind each state. */
    ghost var owner: seq<nat>
    var previous: Option<(nat, Transition)>
    /** The arm (type id, arm index) behind each edge, in edge order. */
    ghost var made: seq<(nat, nat)>
    /** The edge index of each arm that has its edge. */
    ghost var edgeOf: map<(nat, nat), nat>
    /** The arm behind `previous`. */
    ghost var pending: (nat, nat)

    ghost predicate Valid()
      reads this, fsm
    {
      Inv(env, fsm.View(), history, owner, made, edgeOf, previous, pending)
    }

    /** `serialize`'s starting point: an FSM of `role` with no states, an empty history and nothing pending. */
    constructor (env: Env)
      requires NoSelf(env.defs, env.role) && Closed(env.defs)
      ensures this.env == env
      ensures fresh(fsm) && fsm.View() == M.Graph(TypeOf(env.names, env.role), [], [])
      ensures history == map[] && owner == [] && previous == None && made == [] && edgeOf == map[]
      ensures Valid()
    {
      this.env := env;
      fsm := new M.Fsm(TypeOf(env.names, env.role));
      history := map[];
      owner := [];
      previous := None;
      made := [];
      edgeOf := map[];
    }

    /**
     * `add_state_index`: the pending transition, if any, is added as an edge
     * into `state` and cleared; the `unwrap` never fails.
     */
    method AddStateIndex(ghost id: nat, state: nat)
      requires Valid() && id in history && history[id] == state
      requires previous.Some? ==> Arm(env.defs, pending).next == id
      modifies this, fsm
      ensures Valid() && previous == None
      ensures history == old(history) && owner == old(owner) && pending == old(pending)
      ensures made == old(made) + (if old(previous).Some? then [old(pending)] else [])
      ensures edgeOf == if old(previous).Some? then old(edgeOf)[old(pending) := |old(made)|] else old(edgeOf)
      ensures fsm.View() == Attached(old(fsm.View()), old(previous), state)
    {
      if previous.Some? {
        AttachKeeps(env, fsm.View(), history, owner, made, edgeOf, previous, pending, id);
        var (from, transition) := previous.value;
        previous := None;
        var r := fsm.AddTransition(from, state, transition);
        assert r.Ok?;
        edgeOf := edgeOf[pending := |made|];
        made := made + [pending];
      }
    }

    /**
     * `add_state::<S>`: a type id seen before reuses its state and answers
     * `None`; a new one gets a fresh `End` state, recorded in the history,
     * and answers it. Either way the pending transition ends at the state.
     */
    method AddState(id: nat) returns (state: Option<nat>)
      requires Valid() && id in env.defs
      requires previous.Some? ==> Arm(env.defs, pending).next == id
      modifies this, fsm
      ensures Valid() && previous == None && id in history && pending == old(pending)
      ensures state.None? <==> id in old(history)
      ensures state.None? ==> history == old(history) && owner == old(owner)
      ensures state.Some? ==> state.value == |old(fsm.states)| && history == old(history)[id := state.value]
      ensures state.Some? ==> owner == old(owner) + [id]
      ensures made == old(made) + (if old(previous).Some? then [old(pending)] else [])
      ensures edgeOf == if old(previous).Some? then old(edgeOf)[old(pending) := |old(made)|] else old(edgeOf)
      ensures var g := old(fsm.View());
        fsm.View() == Attached(if state.None? then g else M.Graph(g.role, g.states + [M.End], g.edges), old(previous), history[id])
    {
      if id in history {
        AddStateIndex(id, history[id]);
        return None;
      }
      ghost var g := fsm.View();
      GrowKeeps(env, g, history, owner, made, edgeOf, previous, pending, id);
      var s := fsm.AddState();
      history := history[id := s];
      owner := owner + [id];
      assert fsm.View() == M.Graph(g.role, g.states + [M.End], g.edges);
      assert Valid();
      AddStateIndex(id, s);
      state := Some(s);
    }

    /** `serialize_choices::<S, R>`: `add_state`, and for a new state a serialiser of its arms. */
    method BeginChoices(id: nat) returns (cs: Option<ChoicesSerializer>)
      requires Valid() && id in env.defs && !env.defs[id].End?
      requires previous.Some? ==> Arm(env.defs, pending).next == id
      modifies this, fsm
      ensures Valid() && previous == None && id in history && pending == old(pending)
      ensures cs.None? <==> id in old(history)
      ensures cs.None? ==> history == old(history)
      ensures cs.Some? ==> history == old(history)[id := |old(fsm.states)|]
      ensures cs.Some? ==> cs.value == ChoicesSerializer(history[id], TypeOf(env.names, env.defs[id].peer), ActionOf(env.defs[id]))
      ensures made == old(made) + (if old(previous).Some? then [old(pending)] else [])
      ensures edgeOf == if old(previous).Some? then old(edgeOf)[old(pending) := |old(made)|] else old(edgeOf)
    {
      var state := AddState(id);
      if state.Some? {
        cs := Some(ChoicesSerializer(state.value, TypeOf(env.names, env.defs[id].peer), ActionOf(env.defs[id])));
      } else {
        cs := None;
      }
    }

    /**
     * `S::serialize`: `End` adds a state; the other constructors add a state
     * and, when it is new, expand their arms in order.
     */
    method SerializeType(id: nat)
      requires Valid() && id in env.defs
      requires previous.Some? ==> Arm(env.defs, pending).next == id
      modifies this, fsm
      decreases env.defs.Keys - history.Keys, 1
      ensures Valid() && previous == None && id in history
      ensures id !in old(history) ==> history[id] == |old(fsm.states)|
      ensures Serialized(env.defs, old(history), old(edgeOf), history, edgeOf, if old(previous).Some? then Some(old(pending)) else None)
    {
      if env.defs[id].End? {
        var _ := AddState(id);
      } else {
        SerializeChoicesType(id);
      }
    }

    /** `serialize` of `Send`, `Receive`, `Select` and `Branch`: `serialize_choices`, then the arms if the state is new. */
    method SerializeChoicesType(id: nat)
      requires Valid() && id in env.defs && !env.defs[id].End?
      requires previous.Some? ==> Arm(env.defs, pending).next == id
      modifies this, fsm
      decreases env.defs.Keys - history.Keys, 0
      ensures Valid() && previous == None && id in history
      ensures id !in old(history) ==> history[id] == |old(fsm.states)|
      ensures Serialized(env.defs, old(history), old(edgeOf), history, edgeOf, if old(previous).Some? then Some(old(pending)) else None)
    {
      ghost var h0, m0 := history, edgeOf;
      ghost var arm := if previous.Some? then Some(pending) else None;
      if id !in history {
        ArmsOfVisited(env.defs, history, made, edgeOf, id);
      }
      var cs := BeginChoices(id);
      if cs.Some? {
        ghost var h1, m1 := history, edgeOf;
        assert forall p :: p in edgeOf ==> p.0 != id;
        SerializeChoices(id, cs.value);
        ExpandedSerialized(env.defs, h0, m0, h1, m1, history, edgeOf, id, arm);
      }
    }

    /** `SerializeChoices::serialize_choices`: `serialize_choice` for each arm in turn. */
    method SerializeChoices(id: nat, cs: ChoicesSerializer)
      requires Valid() && previous == None && id in env.defs && !env.defs[id].End? && id in history
      requires cs == ChoicesSerializer(history[id], TypeOf(env.names, env.defs[id].peer), ActionOf(env.defs[id]))
      requires forall p :: p in edgeOf ==> p.0 != id
      modifies this, fsm
      decreases env.defs.Keys - history.Keys, 3
      ensures Valid() && previous == None
      ensures Expanded(env.defs, old(history), old(edgeOf), history, edgeOf, id, |ChoicesOf(env.defs[id])|)
    {
      var arms := ChoicesOf(env.defs[id]);
      ghost var h0, m0 := history, edgeOf;
      for k := 0 to |arms|
        invariant Valid() && previous == None
        invariant Expanded(env.defs, h0, m0, history, edgeOf, id, k)
      {
        ghost var h1, m1 := history, edgeOf;
        ExpandedFresh(env.defs, h0, m0, history, edgeOf, id, k);
        SerializeChoice(id, k, cs, arms[k].message, arms[k].next);
        ExpandedStep(env.defs, h0, m0, h1, m1, history, edgeOf, id, k);
      }
    }

    /**
     * `serialize_choice::<L, S>`: the arm's transition, labelled `L` with no
     * parameters, becomes pending, and the continuation `S` is serialised,
     * which attaches it.
     */
    method SerializeChoice(ghost id: nat, ghost k: nat, cs: ChoicesSerializer, message: nat, next: nat)
      requires Valid() && previous == None && id in env.defs && id in history
      requires k < |ChoicesOf(env.defs[id])| && ChoicesOf(env.defs[id])[k] == Choice(message, next)
      requires cs == ChoicesSerializer(history[id], TypeOf(env.names, env.defs[id].peer), ActionOf(env.defs[id]))
      requires (id, k) !in edgeOf
      modifies this, fsm
      decreases env.defs.Keys - history.Keys, 2
      ensures Valid() && previous == None
      ensures Serialized(env.defs, old(history), old(edgeOf), history, edgeOf, Some((id, k)))
    {
      assert next in env.defs by {
        assert Closed(env.defs) && Choice(message, next) in ChoicesOf(env.defs[id]);
      }
      var transition := M.Transition(cs.role, cs.action, FromLabel(TypeOf(env.names, message)));
      assert (cs.state, transition) == PendingFor(env, history, (id, k));
      PendKeeps(env, fsm.View(), history, owner, made, edgeOf, pending, (id, k));
      previous := Some((cs.state, transition));
      pending := (id, k);
      SerializeType(next);
    }
  }

  /**
   * Once every arm of every visited type has an edge, a visited type with
   * arms has its definition's peer and action on its state.
   */
  lemma StatesExact(e: Env, g: Graph, h: map<nat, nat>, owner: seq<nat>, made: seq<(nat, nat)>, edgeOf: map<(nat, nat), nat>)
    requires GraphInv(e, g) && HistoryInv(e, g.states, h, owner) && EdgesInv(e, g.edges, h, made, edgeOf)
    requires forall x, k :: x in h && x in e.defs && 0 <= k < |ChoicesOf(e.defs[x])| ==> (x, k) in edgeOf
    ensures forall id :: id in h && ChoicesOf(e.defs[id]) != [] ==>
      g.states[h[id]] == M.Choices(TypeOf(e.names, e.defs[id].peer), ActionOf(e.defs[id]))
  {
    forall id | id in h && ChoicesOf(e.defs[id]) != []
      ensures g.states[h[id]] == M.Choices(TypeOf(e.names, e.defs[id].peer), ActionOf(e.defs[id]))
    {
      assert (id, 0) in edgeOf;
      assert g.edges[edgeOf[(id, 0)]].source == h[id];
    }
  }

  /**
   * `serialize::<S>`: the FSM of the session type `root`, whose role is
   * `role`. Every type id reachable from `root` has exactly one state,
   * `root`'s being the first; an `End` type's state has no transitions; and
   * the edges are exactly one per arm of each visited type, from its state
   * to its continuation's state, labelled by the arm's label type.
   */
  method Serialize(names: nat -> string, defs: map<nat, Session>, role: nat, root: nat)
    returns (fsm: M.Fsm<Type, Message>, ghost history: map<nat, nat>, ghost made: seq<(nat, nat)>)
    requires root in defs && Closed(defs) && NoSelf(defs, role)
    ensures M.Valid(fsm.View()) && fsm.role == TypeOf(names, role)
    ensures root in history && history[root] == 0
    ensures forall id :: id in history ==> id in defs && history[id] < |fsm.states|
    ensures |history| == |fsm.states| && Injective(history)
    ensures forall id, c :: id in history && c in ChoicesOf(defs[id]) ==> c.next in history
    ensures forall id :: id in history && defs[id].End? ==> fsm.states[history[id]] == M.End
    ensures forall id :: id in history && ChoicesOf(defs[id]) != [] ==>
      fsm.states[history[id]] == M.Choices(TypeOf(names, defs[id].peer), ActionOf(defs[id]))
    ensures |made| == |fsm.edges| && (forall i, j :: 0 <= i < j < |made| ==> made[i] != made[j])
    ensures forall p :: p in made <==> p.0 in history && p.1 < |ChoicesOf(defs[p.0])|
    ensures forall i :: 0 <= i < |made| ==>
      var c := ChoicesOf(defs[made[i].0])[made[i].1];
      c.next in history && fsm.edges[i] == M.Edge(history[made[i].0], history[c.next], FromLabel(TypeOf(names, c.message)))
  {
    var e := Env(names, defs, role);
    var s := new Serializer(e);
    s.SerializeType(root);
    fsm, history, made := s.fsm, s.history, s.made;
    ghost var g, owner, edgeOf := fsm.View(), s.owner, s.edgeOf;
    ArmsExact(defs, history, made, edgeOf);
    StatesExact(e, g, history, owner, made, edgeOf);
    OwnerInjective(history, owner);
  }
}
