/**
 * Communicating finite-state machines: every state either ends or offers
 * choices that all talk to one peer role in one direction.
 */
module Machine {
  import opened Wrappers

  datatype Action = Input | Output

  /** The opposite direction. */
  function Dual(a: Action): (d: Action)
    ensures d != a
  {
    match a
    case Input => Output
    case Output => Input
  }

  lemma DualTwice(a: Action)
    ensures Dual(Dual(a)) == a
  {
  }

  /** `?` for a receive, `!` for a send. */
  function ActionText(a: Action): (s: string)
    ensures |s| == 1 && (s == "?" <==> a == Input) && (s == "!" <==> a == Output)
  {
    match a
    case Input => "?"
    case Output => "!"
  }

  datatype State<R> = End | Choices(role: R, action: Action)

  datatype Transition<R, L> = Transition(role: R, action: Action, message: L)

  datatype TransitionError = SelfCommunication | MultipleRoles | MultipleActions

  /** An edge of the underlying graph, identified by its insertion order. */
  datatype Edge<L> = Edge(source: nat, target: nat, message: L)

  /** The value of an FSM: its own role, its states and its edges in insertion order. */
  datatype Graph<R, L> = Graph(role: R, states: seq<State<R>>, edges: seq<Edge<L>>)

  /**
   * What `add_state` and `add_transition` keep true: edges join existing
   * states, every edge leaves a `Choices` state, and no state talks to the
   * machine's own role.
   */
  predicate Valid<R(==), L>(g: Graph<R, L>) {
    (forall i :: 0 <= i < |g.edges| ==>
      g.edges[i].source < |g.states| && g.edges[i].target < |g.states| && g.states[g.edges[i].source].Choices?)
    && (forall s :: 0 <= s < |g.states| && g.states[s].Choices? ==> g.states[s].role != g.role)
  }

  /** The transition an edge stands for: its source's role and action with the edge's label. */
  function TransitionOf<R(==), L>(g: Graph<R, L>, i: nat): Transition<R, L>
    requires Valid(g) && i < |g.edges|
  {
    var s := g.states[g.edges[i].source];
    Transition(s.role, s.action, g.edges[i].message)
  }

  /** `transitions()`: every edge as (source, target, transition), in edge order. */
  function Transitions<R(==), L>(g: Graph<R, L>): (r: seq<(nat, nat, Transition<R, L>)>)
    requires Valid(g)
    ensures |r| == |g.edges|
    ensures forall i :: 0 <= i < |r| ==> r[i] == (g.edges[i].source, g.edges[i].target, TransitionOf(g, i))
  {
    seq(|g.edges|, i requires 0 <= i < |g.edges| => (g.edges[i].source, g.edges[i].target, TransitionOf(g, i)))
  }

  /** The edges among the first `n` that leave `s`, newest first. */
  function FromEdges<R(==), L>(g: Graph<R, L>, s: nat, n: nat): seq<(nat, Transition<R, L>)>
    requires Valid(g) && n <= |g.edges|
  {
    if n == 0 then []
    else if g.edges[n - 1].source == s then [(g.edges[n - 1].target, TransitionOf(g, n - 1))] + FromEdges(g, s, n - 1)
    else FromEdges(g, s, n - 1)
  }

  /**
   * `transitions_from(s)`: the edges leaving `s` as (target, transition).
   * The graph keeps each state's outgoing edges in a list that a new edge
   * is put at the front of, so they come newest first.
   */
  function TransitionsFrom<R(==), L>(g: Graph<R, L>, s: nat): (r: seq<(nat, Transition<R, L>)>)
    requires Valid(g)
    ensures |r| <= |g.edges|
  {
    FromEdgesCount(g, s, |g.edges|);
    FromEdges(g, s, |g.edges|)
  }

  lemma {:induction false} FromEdgesCount<R, L>(g: Graph<R, L>, s: nat, n: nat)
    requires Valid(g) && n <= |g.edges|
    ensures |FromEdges(g, s, n)| <= n
  {
    if n > 0 {
      FromEdgesCount(g, s, n - 1);
    }
  }

  lemma {:induction false} FromEdgesMembers<R, L>(g: Graph<R, L>, s: nat, n: nat, target: nat, t: Transition<R, L>)
    requires Valid(g) && n <= |g.edges|
    ensures (target, t) in FromEdges(g, s, n) <==>
      exists i :: 0 <= i < n && g.edges[i].source == s && g.edges[i].target == target && TransitionOf(g, i) == t
  {
    if n > 0 {
      FromEdgesMembers(g, s, n - 1, target, t);
    }
  }

  /**
   * `transitions_from(s)` lists exactly the edges leaving `s`, and each of
   * them carries the role and the action of `s`.
   */
  lemma TransitionsFromExact<R, L>(g: Graph<R, L>, s: nat, target: nat, t: Transition<R, L>)
    requires Valid(g) && s < |g.states|
    ensures (target, t) in TransitionsFrom(g, s) <==>
      exists i :: 0 <= i < |g.edges| && g.edges[i].source == s && g.edges[i].target == target && TransitionOf(g, i) == t
    ensures (target, t) in TransitionsFrom(g, s) ==>
      g.states[s] == Choices(t.role, t.action)
  {
    FromEdgesMembers(g, s, |g.edges|, target, t);
  }

  /** What `add_transition` does to an FSM value: the outcome and the new value. */
  function AddTransitionTo<R(==), L>(g: Graph<R, L>, from: nat, to: nat, t: Transition<R, L>): (Result<(), TransitionError>, Graph<R, L>)
    requires from < |g.states| && to < |g.states|
  {
    if t.role == g.role then (Err(SelfCommunication), g)
    else
      var edges := g.edges + [Edge(from, to, t.message)];
      match g.states[from]
      case End => (Ok(()), Graph(g.role, g.states[from := Choices(t.role, t.action)], edges))
      case Choices(role, action) =>
        if t.role != role then (Err(MultipleRoles), g)
        else if t.action != action then (Err(MultipleActions), g)
        else (Ok(()), Graph(g.role, g.states, edges))
  }

  /**
   * The three rules: talking to oneself fails, then a second peer role,
   * then a second direction; a failure changes nothing, and a success adds
   * exactly one edge and keeps the number of states.
   */
  lemma AddTransitionOutcome<R, L>(g: Graph<R, L>, from: nat, to: nat, t: Transition<R, L>)
    requires from < |g.states| && to < |g.states|
    ensures var (r, h) := AddTransitionTo(g, from, to, t);
      && (r == Err(SelfCommunication) <==> t.role == g.role)
      && (r == Err(MultipleRoles) <==> t.role != g.role && g.states[from].Choices? && g.states[from].role != t.role)
      && (r == Err(MultipleActions) <==>
            t.role != g.role && g.states[from].Choices? && g.states[from].role == t.role && g.states[from].action != t.action)
      && (r.Err? ==> h == g)
      && (r.Ok? ==> h.role == g.role && |h.states| == |g.states| && h.edges == g.edges + [Edge(from, to, t.message)])
      && (r.Ok? ==> h.states[from] == Choices(t.role, t.action))
      && (forall s :: 0 <= s < |g.states| && s != from ==> h.states[s] == g.states[s])
  {
  }

  /** `add_transition` keeps the FSM invariant. */
  lemma AddTransitionValid<R, L>(g: Graph<R, L>, from: nat, to: nat, t: Transition<R, L>)
    requires Valid(g) && from < |g.states| && to < |g.states|
    ensures Valid(AddTransitionTo(g, from, to, t).1)
  {
    var h := AddTransitionTo(g, from, to, t).1;
    if h != g {
      forall i | 0 <= i < |h.edges|
        ensures h.edges[i].source < |h.states| && h.edges[i].target < |h.states| && h.states[h.edges[i].source].Choices?
      {
        if i < |g.edges| {
          assert h.edges[i] == g.edges[i];
        }
      }
    }
  }

  /**
   * Every earlier transition keeps reading the same, and the new edge reads
   * as the transition that was added: a state never changes role or action
   * once it has an edge.
   */
  lemma AddTransitionListed<R, L>(g: Graph<R, L>, from: nat, to: nat, t: Transition<R, L>)
    requires Valid(g) && from < |g.states| && to < |g.states|
    requires AddTransitionTo(g, from, to, t).0.Ok?
    ensures Valid(AddTransitionTo(g, from, to, t).1)
    ensures Transitions(AddTransitionTo(g, from, to, t).1) == Transitions(g) + [(from, to, t)]
  {
    AddTransitionValid(g, from, to, t);
    var h := AddTransitionTo(g, from, to, t).1;
    var a, b := Transitions(h), Transitions(g) + [(from, to, t)];
    forall i | 0 <= i < |a|
      ensures a[i] == b[i]
    {
      if i < |g.edges| {
        assert g.edges[i].source != from || g.states[from].Choices?;
        assert TransitionOf(h, i) == TransitionOf(g, i);
      }
    }
  }

  /** Edges that read the same in two graphs give the same lists of transitions. */
  lemma {:induction false} FromEdgesSame<R, L>(g: Graph<R, L>, h: Graph<R, L>, s: nat, n: nat)
    requires Valid(g) && Valid(h) && n <= |g.edges| && n <= |h.edges|
    requires forall i :: 0 <= i < n ==> h.edges[i] == g.edges[i] && TransitionOf(h, i) == TransitionOf(g, i)
    ensures FromEdges(h, s, n) == FromEdges(g, s, n)
  {
    if n > 0 {
      FromEdgesSame(g, h, s, n - 1);
    }
  }

  /**
   * `transitions_from` after a successful `add_transition`: the new
   * transition comes first among those of its source, ahead of the older
   * ones in their order, and every other state lists what it listed before.
   */
  lemma AddTransitionNewest<R, L>(g: Graph<R, L>, from: nat, to: nat, t: Transition<R, L>, s: nat)
    requires Valid(g) && from < |g.states| && to < |g.states|
    requires AddTransitionTo(g, from, to, t).0.Ok?
    ensures Valid(AddTransitionTo(g, from, to, t).1)
    ensures s == from ==> TransitionsFrom(AddTransitionTo(g, from, to, t).1, s) == [(to, t)] + TransitionsFrom(g, s)
    ensures s != from ==> TransitionsFrom(AddTransitionTo(g, from, to, t).1, s) == TransitionsFrom(g, s)
  {
    AddTransitionListed(g, from, to, t);
    var h := AddTransitionTo(g, from, to, t).1;
    var n := |g.edges|;
    forall i | 0 <= i < n
      ensures h.edges[i] == g.edges[i] && TransitionOf(h, i) == TransitionOf(g, i)
    {
      assert Transitions(h)[i] == Transitions(g)[i];
    }
    FromEdgesSame(g, h, s, n);
    assert Transitions(h)[n] == (from, to, t);
  }

  /** The error messages of the older `add_transition` (src/fsm.rs). */
  function ErrorMessage(e: TransitionError): (m: string)
    ensures m != []
  {
    match e
    case SelfCommunication => "roles cannot communicate with themselves"
    case MultipleRoles => "states cannot communicate with multiple roles"
    case MultipleActions => "states cannot both send and receive"
  }

  lemma ErrorMessagesDistinct(e1: TransitionError, e2: TransitionError)
    requires ErrorMessage(e1) == ErrorMessage(e2)
    ensures e1 == e2
  {
  }

  /** The messages of `TransitionError` (src/fsm/mod.rs) and `AddTransitionError` (fsm/src/lib.rs). */
  function TransitionErrorText(e: TransitionError): (t: string)
    ensures |t| > 0
  {
    match e
    case SelfCommunication => "cannot perform self-communication"
    case MultipleRoles => "cannot communicate with different roles from the same state"
    case MultipleActions => "cannot both send and receive from the same state"
  }

  /** The empty role marker `Nil` of binary FSMs. */
  datatype Nil = Nil

  /** `to_binary`: every choice talks to `Nil`, actions and edges are kept. */
  function ToBinary<R(==), L>(g: Graph<R, L>): (b: Graph<Nil, L>)
    requires forall i, j :: (0 <= i < |g.states| && 0 <= j < |g.states| && g.states[i].Choices? && g.states[j].Choices?
      ==> g.states[i].role == g.states[j].role)
    ensures |b.states| == |g.states| && b.edges == g.edges
    ensures forall s :: 0 <= s < |g.states| ==>
      b.states[s] == (if g.states[s].Choices? then Choices(Nil, g.states[s].action) else End)
  {
    Graph(Nil, seq(|g.states|, s requires 0 <= s < |g.states| =>
      if g.states[s].Choices? then Choices(Nil, g.states[s].action) else End), g.edges)
  }

  /**
   * `dual(r)`: the machine of the peer `r`. Every choice is turned round to
   * talk back to the old role in the opposite direction, and `r` becomes
   * the machine's role. Every choice must talk to `r`.
   */
  function DualFsm<R(==), L>(g: Graph<R, L>, r: R): (d: Graph<R, L>)
    requires forall s :: 0 <= s < |g.states| && g.states[s].Choices? ==> g.states[s].role == r
    ensures d.role == r && |d.states| == |g.states| && d.edges == g.edges
    ensures forall s :: 0 <= s < |g.states| ==> d.states[s].Choices? == g.states[s].Choices?
    ensures forall s :: 0 <= s < |g.states| && g.states[s].Choices? ==>
      d.states[s].role == g.role && d.states[s].action == Dual(g.states[s].action) && d.states[s].action != g.states[s].action
  {
    Graph(r, seq(|g.states|, s requires 0 <= s < |g.states| =>
      match g.states[s]
      case End => End
      case Choices(_, action) => Choices(g.role, Dual(action))), g.edges)
  }

  /** The dual of a valid machine is valid, and taking the dual back gives the machine again. */
  lemma DualInvolution<R, L>(g: Graph<R, L>, r: R)
    requires Valid(g)
    requires forall s :: 0 <= s < |g.states| && g.states[s].Choices? ==> g.states[s].role == r
    ensures Valid(DualFsm(g, r))
    ensures DualFsm(DualFsm(g, r), g.role) == g
  {
    var d := DualFsm(g, r);
    assert forall s :: 0 <= s < |g.states| && g.states[s].Choices? ==> d.states[s].role != d.role;
    var e := DualFsm(d, g.role);
    assert e.states == g.states by {
      forall s | 0 <= s < |g.states| ensures e.states[s] == g.states[s] {
        if g.states[s].Choices? {
          DualTwice(g.states[s].action);
        }
      }
    }
  }

  /** An FSM that its methods update in place. */
  class Fsm<R(==), L> {
    var role: R
    var states: seq<State<R>>
    var edges: seq<Edge<L>>

    function View(): Graph<R, L>
      reads this
    {
      Graph(role, states, edges)
    }

    /** `Fsm::new`: a machine of `role` with no states. */
    constructor (role: R)
      ensures View() == Graph(role, [], []) && Valid(View())
    {
      this.role := role;
      states := [];
      edges := [];
    }

    /** `size`: the numbers of states and edges. */
    function Size(): (n: (nat, nat))
      reads this
      ensures n.0 == |View().states| && n.1 == |View().edges|
    {
      (|states|, |edges|)
    }

    /** `add_state`: one fresh `End` state, whose index is returned. */
    method AddState() returns (s: nat)
      requires Valid(View())
      modifies this
      ensures s == |old(states)| && states == old(states) + [End]
      ensures role == old(role) && edges == old(edges) && Valid(View())
    {
      s := |states|;
      states := states + [End];
    }

    /** `add_transition`. */
    method AddTransition(from: nat, to: nat, t: Transition<R, L>) returns (r: Result<(), TransitionError>)
      requires Valid(View()) && from < |states| && to < |states|
      modifies this
      ensures (r, View()) == AddTransitionTo(old(View()), from, to, t)
      ensures Valid(View())
    {
      AddTransitionValid(View(), from, to, t);
      if t.role == role {
        return Err(SelfCommunication);
      }
      match states[from] {
        case End =>
          states := states[from := Choices(t.role, t.action)];
        case Choices(expected, action) =>
          if t.role != expected {
            return Err(MultipleRoles);
          }
          if t.action != action {
            return Err(MultipleActions);
          }
      }
      edges := edges + [Edge(from, to, t.message)];
      r := Ok(());
    }

    /** The older `add_transition`, whose errors are messages. */
    method AddTransitionMessage(from: nat, to: nat, t: Transition<R, L>) returns (r: Result<(), string>)
      requires Valid(View()) && from < |states| && to < |states|
      modifies this
      ensures var (e, h) := AddTransitionTo(old(View()), from, to, t);
        View() == h && r == (if e.Ok? then Ok(()) else Err(ErrorMessage(e.error)))
      ensures Valid(View())
    {
      var e := AddTransition(from, to, t);
      r := if e.Ok? then Ok(()) else Err(ErrorMessage(e.error));
    }
  }
}
