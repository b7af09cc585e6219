/**
 * The bounded asynchronous subtyping check. A visitor walks pairs of
 * states of two FSMs, buffering the actions each side has performed ahead
 * of the other in prefix buffers, cancelling them with `reduce`, and
 * quantifying over the transitions of the two states as the pair of
 * actions demands. Each state may be entered a bounded number of times,
 * and a pair already on the current path with empty buffers is accepted.
 */
module Subtyping {
  import opened Wrappers
  import Machine
  import opened Prefixes
  import opened Reduction
  import opened Pairs
  import opened Matrices
  import opened Unrolling

  /**
   * The quantifiers over the left and the right transitions, and whether
   * the right ones are enumerated in the outer loop. Every output of the
   * left (sub-)type and every input of the right (super-)type must be
   * matched; the sides are swapped when both states receive.
   */
  function QuantifiersFor(left: Machine.Action, right: Machine.Action): (r: (Quantifier, Quantifier, bool))
    ensures r.0 == All <==> left == Machine.Output
    ensures r.1 == All <==> right == Machine.Input
    ensures r.2 <==> left == Machine.Input && right == Machine.Input
  {
    match (left, right)
    case (Output, Output) => (All, Any, false)
    case (Output, Input) => (All, All, false)
    case (Input, Output) => (Any, Any, false)
    case (Input, Input) => (Any, All, true)
  }

  function Sum(s: seq<nat>): nat {
    if s == [] then 0 else s[0] + Sum(s[1..])
  }

  /** Taking one visit off a state lowers the total budget by one. */
  lemma {:induction false} SumDecrement(s: seq<nat>, i: nat)
    requires i < |s| && s[i] > 0
    ensures Sum(s[i := s[i] - 1]) + 1 == Sum(s)
  {
    if i > 0 {
      assert s[i := s[i] - 1][1..] == s[1..][i - 1 := s[i] - 1];
      SumDecrement(s[1..], i - 1);
    }
  }

  /** Writing a cell and then writing its old value back changes nothing. */
  lemma UpdateBack<T>(s: seq<T>, i: nat, x: T)
    requires i < |s|
    ensures s[i := x][i := s[i]] == s
  {
  }

  /** Reverting to a snapshot and pushing one entry extends the snapshot's state. */
  lemma ExtendsAfterRevert<T>(earlier: PrefixState<T>, x: T, now: PrefixState<T>)
    requires now == PrefixState(earlier.transitions + [(false, x)], earlier.start, earlier.removed)
    ensures Extends(earlier, now)
  {
    assert now.removed[..|earlier.removed|] == earlier.removed;
  }

  /** Every transition of a valid FSM leads to one of its states. */
  lemma TargetsInRange<R, L>(g: Machine.Graph<R, L>, s: nat)
    requires Machine.Valid(g) && s < |g.states|
    ensures forall k :: 0 <= k < |Machine.TransitionsFrom(g, s)| ==> Machine.TransitionsFrom(g, s)[k].0 < |g.states|
  {
    var ts := Machine.TransitionsFrom(g, s);
    forall k | 0 <= k < |ts|
      ensures ts[k].0 < |g.states|
    {
      assert ts[k] in ts;
      Machine.TransitionsFromExact(g, s, ts[k].0, ts[k].1);
    }
  }

  /** The action of a state that has choices, or None for a state that ends. */
  function Kind<R(==), L>(byNode: bool, g: Machine.Graph<R, L>, s: nat): (k: Option<Machine.Action>)
    requires Machine.Valid(g) && s < |g.states|
    ensures !byNode ==> (k.None? <==> Machine.TransitionsFrom(g, s) == [])
    ensures byNode ==> (k.None? <==> g.states[s].End?)
  {
    if byNode then (if g.states[s].End? then None else Some(g.states[s].action))
    else
      var ts := Machine.TransitionsFrom(g, s);
      if ts == [] then None else Some(ts[0].1.action)
  }

  /*
   * The check as a function of its inputs: the definitions below follow
   * `visit`, `unroll` and their loops step by step on values, and return
   * the answer together with the rows of visits and the two buffers as
   * the visit leaves them. The visitor's methods are proved to compute
   * exactly these.
   */

  /** The two FSMs a check compares, and how their ending states are told apart. */
  datatype Setting<R, L> = Setting(left: Machine.Graph<R, L>, right: Machine.Graph<R, L>, byNode: bool)

  function Dims<R, L>(c: Setting<R, L>): Pair<nat> {
    Pair(|c.left.states|, |c.right.states|)
  }

  /** A history with a bit for every pair of states and a budget for every state. */
  ghost predicate Fits<R, L>(c: Setting<R, L>, hist: seq<bool>, vl: seq<nat>, vr: seq<nat>) {
    Machine.Valid(c.left) && Machine.Valid(c.right)
    && |hist| == |c.left.states| * |c.right.states| && |vl| == |c.left.states| && |vr| == |c.right.states|
  }

  /** A visit of the pair `(s, t)` that the setting, the history, the budgets and the buffers allow. */
  ghost predicate Allowed<R, L>(c: Setting<R, L>, hist: seq<bool>, vl: seq<nat>, vr: seq<nat>,
                                pl: Buffer<R, L>, pr: Buffer<R, L>, s: nat, t: nat) {
    Fits(c, hist, vl, vr) && Valid(pl) && Valid(pr) && s < |c.left.states| && t < |c.right.states|
  }

  /**
   * `visit(s, t)` with history `hist`, budgets `vl` and `vr` and buffers
   * `pl` and `pr`: without a visit left it fails; otherwise the buffers
   * are reduced, a blocked reduction fails, and the pair is dispatched on
   * the reduced buffers, which stay reduced whatever happens next. A
   * visit the setting does not allow fails as well; the visitor never
   * makes one.
   */
  ghost function VisitOf<R, L>(c: Setting<R, L>, hist: seq<bool>, vl: seq<nat>, vr: seq<nat>,
                               pl: Buffer<R, L>, pr: Buffer<R, L>, s: nat, t: nat): (v: Visited<R, L>)
    decreases Sum(vl) + Sum(vr), 3, 0
  {
    if !Allowed(c, hist, vl, vr, pl, pr, s, t) || vl[s] == 0 || vr[t] == 0 then Visited(false, [], pl, pr)
    else
      ReduceValid(pl, pr);
      var (ok, l, r) := ReduceSpec(pl, pr);
      if !ok then Visited(false, [], l, r) else DispatchOf(c, hist, vl, vr, l, r, s, t)
  }

  /** `reduce` keeps both buffers valid. */
  lemma ReduceValid<R, L>(l: Buffer<R, L>, r: Buffer<R, L>)
    requires Valid(l) && Valid(r)
    ensures Valid(ReduceSpec(l, r).1) && Valid(ReduceSpec(l, r).2)
  {
    ReduceExtends(l, r);
  }

  /**
   * `visit` after a successful `reduce`: two ending states are related
   * exactly when both buffers are empty, an ending state and a state with
   * choices are not, a pair on the path with empty buffers is, and any
   * other pair of states with choices is explored.
   */
  ghost function DispatchOf<R, L>(c: Setting<R, L>, hist: seq<bool>, vl: seq<nat>, vr: seq<nat>,
                                  pl: Buffer<R, L>, pr: Buffer<R, L>, s: nat, t: nat): (v: Visited<R, L>)
    requires Allowed(c, hist, vl, vr, pl, pr, s, t) && vl[s] > 0 && vr[t] > 0
    decreases Sum(vl) + Sum(vr), 1, 0
  {
    var empty := IsEmpty(pl) && IsEmpty(pr);
    var kl, kr := Kind(c.byNode, c.left, s), Kind(c.byNode, c.right, t);
    if kl.None? || kr.None? then Visited(kl.None? && kr.None? && empty, [], pl, pr)
    else if hist[Offset(Pair(s, t), Dims(c))] && empty then Visited(true, [], pl, pr)
    else ExploreOf(c, hist, vl, vr, pl, pr, s, t, kl.value, kr.value)
  }

  /** Visiting with the history `hist` and the budgets `vl` and `vr`. */
  ghost function VisitFor<R, L>(c: Setting<R, L>, hist: seq<bool>, vl: seq<nat>, vr: seq<nat>): Visiting<R, L>
    decreases Sum(vl) + Sum(vr), 4, 0
  {
    (pl: Buffer<R, L>, pr: Buffer<R, L>, s: nat, t: nat) => VisitOf(c, hist, vl, vr, pl, pr, s, t)
  }

  /**
   * `visit` answers for every pair what `VisitOf` does with this history
   * and these budgets.
   */
  ghost predicate Realizes<R(!new), L(!new)>(visit: Visiting<R, L>, c: Setting<R, L>, hist: seq<bool>, vl: seq<nat>, vr: seq<nat>) {
    forall pl: Buffer<R, L>, pr: Buffer<R, L>, s: nat, t: nat {:trigger VisitOf(c, hist, vl, vr, pl, pr, s, t)} ::
      visit(pl, pr, s, t) == VisitOf(c, hist, vl, vr, pl, pr, s, t)
  }

  lemma VisitForRealizes<R(!new), L(!new)>(c: Setting<R, L>, hist: seq<bool>, vl: seq<nat>, vr: seq<nat>)
    ensures Realizes(VisitFor(c, hist, vl, vr), c, hist, vl, vr)
  {
  }

  /**
   * Exploring two states with choices: the pair is marked as on the path
   * and one visit is taken off each state for the visits below, and the
   * transitions are unrolled under the quantifiers the actions call for.
   */
  ghost function ExploreOf<R, L>(c: Setting<R, L>, hist: seq<bool>, vl: seq<nat>, vr: seq<nat>,
                                 pl: Buffer<R, L>, pr: Buffer<R, L>, s: nat, t: nat,
                                 kl: Machine.Action, kr: Machine.Action): (v: Visited<R, L>)
    requires Allowed(c, hist, vl, vr, pl, pr, s, t) && vl[s] > 0 && vr[t] > 0
    decreases Sum(vl) + Sum(vr), 0, 0
  {
    SumDecrement(vl, s);
    SumDecrement(vr, t);
    var ls, rs := Machine.TransitionsFrom(c.left, s), Machine.TransitionsFrom(c.right, t);
    var (ql, qr, swap) := QuantifiersFor(kl, kr);
    UnrollOf(VisitFor(c, hist[Offset(Pair(s, t), Dims(c)) := true], vl[s := vl[s] - 1], vr[t := vr[t] - 1]),
             Pick(swap, ls, rs), Pick(swap, rs, ls), Pick(swap, ql, qr), Pick(swap, qr, ql), swap,
             Pick(swap, pl, pr), Pick(swap, pr, pl), 0, pl, pr)
  }

  /** The numbers of transitions of the two states of a pair. */
  ghost function CountsOf<R, L>(c: Setting<R, L>, s: nat, t: nat): (nat, nat)
    requires Machine.Valid(c.left) && Machine.Valid(c.right) && s < |c.left.states| && t < |c.right.states|
  {
    (|Machine.TransitionsFrom(c.left, s)|, |Machine.TransitionsFrom(c.right, t)|)
  }

  /**
   * Exploring two states with choices gives rows of the shape the two
   * actions' quantifiers call for, and their answer.
   */
  lemma ExploreOfExplored<R, L>(c: Setting<R, L>, hist: seq<bool>, vl: seq<nat>, vr: seq<nat>,
                                pl: Buffer<R, L>, pr: Buffer<R, L>, s: nat, t: nat, kl: Machine.Action, kr: Machine.Action)
    requires Allowed(c, hist, vl, vr, pl, pr, s, t) && vl[s] > 0 && vr[t] > 0
    ensures var v := ExploreOf(c, hist, vl, vr, pl, pr, s, t, kl, kr);
      Explored(v.answer, v.rows, kl, kr, CountsOf(c, s, t))
  {
    var ls, rs := Machine.TransitionsFrom(c.left, s), Machine.TransitionsFrom(c.right, t);
    var (ql, qr, swap) := QuantifiersFor(kl, kr);
    SumDecrement(vl, s);
    SumDecrement(vr, t);
    var visit := VisitFor(c, hist[Offset(Pair(s, t), Dims(c)) := true], vl[s := vl[s] - 1], vr[t := vr[t] - 1]);
    UnrollOfShape(visit, Pick(swap, ls, rs), Pick(swap, rs, ls), Pick(swap, ql, qr), Pick(swap, qr, ql), swap,
                  Pick(swap, pl, pr), Pick(swap, pr, pl), 0, pl, pr);
    var v := UnrollOf(visit, Pick(swap, ls, rs), Pick(swap, rs, ls), Pick(swap, ql, qr), Pick(swap, qr, ql), swap,
                      Pick(swap, pl, pr), Pick(swap, pr, pl), 0, pl, pr);
    assert ExploreOf(c, hist, vl, vr, pl, pr, s, t, kl, kr) == v;
    var (qo, qi) := if swap then (qr, ql) else (ql, qr);
    var (no, ni) := if swap then (|rs|, |ls|) else (|ls|, |rs|);
    assert Pick(swap, ql, qr) == qo && Pick(swap, qr, ql) == qi && |Pick(swap, ls, rs)| - 0 == no && |Pick(swap, rs, ls)| == ni;
    assert CountsOf(c, s, t) == (|ls|, |rs|);
    assert Shape(v.rows, no, ni, qo, qi) && v.answer == Quantify(qo, Outcomes(v.rows, qi));
  }

  /** What a visit promises once `reduce` has succeeded, as `VisitOutcome` states it. */
  lemma DispatchOfOutcome<R, L>(c: Setting<R, L>, hist: seq<bool>, vl: seq<nat>, vr: seq<nat>,
                                pl: Buffer<R, L>, pr: Buffer<R, L>, s: nat, t: nat)
    requires Allowed(c, hist, vl, vr, pl, pr, s, t) && vl[s] > 0 && vr[t] > 0
    ensures var v := DispatchOf(c, hist, vl, vr, pl, pr, s, t);
      VisitOutcome(v.answer, v.rows, (true, pl, pr), Kind(c.byNode, c.left, s), Kind(c.byNode, c.right, t),
                   hist[Offset(Pair(s, t), Dims(c))], CountsOf(c, s, t))
  {
    var kl, kr := Kind(c.byNode, c.left, s), Kind(c.byNode, c.right, t);
    if kl.Some? && kr.Some? && !(hist[Offset(Pair(s, t), Dims(c))] && IsEmpty(pl) && IsEmpty(pr)) {
      ExploreOfExplored(c, hist, vl, vr, pl, pr, s, t, kl.value, kr.value);
    }
  }

  /**
   * What a visit promises: without a visit left it fails, and otherwise
   * `VisitOutcome` holds of the outcome of `reduce` on the buffers.
   */
  lemma VisitOfOutcome<R, L>(c: Setting<R, L>, hist: seq<bool>, vl: seq<nat>, vr: seq<nat>,
                             pl: Buffer<R, L>, pr: Buffer<R, L>, s: nat, t: nat)
    requires Allowed(c, hist, vl, vr, pl, pr, s, t)
    ensures vl[s] == 0 || vr[t] == 0 ==> !VisitOf(c, hist, vl, vr, pl, pr, s, t).answer
    ensures vl[s] > 0 && vr[t] > 0 ==>
      var v := VisitOf(c, hist, vl, vr, pl, pr, s, t);
      VisitOutcome(v.answer, v.rows, ReduceSpec(pl, pr), Kind(c.byNode, c.left, s), Kind(c.byNode, c.right, t),
                   hist[Offset(Pair(s, t), Dims(c))], CountsOf(c, s, t))
  {
    if vl[s] > 0 && vr[t] > 0 {
      ReduceValid(pl, pr);
      var (ok, l, r) := ReduceSpec(pl, pr);
      if ok {
        DispatchOfOutcome(c, hist, vl, vr, l, r, s, t);
      }
    }
  }

  class Visitor<R(==, !new), L(==, !new)> {
    const left: Machine.Graph<R, L>
    const right: Machine.Graph<R, L>
    /**
     * Whether states are told apart by their kind, as the serialized
     * graphs do, rather than by whether they have transitions, as the FSMs do.
     */
    const byNode: bool
    const history: Matrix<bool>
    const visitsLeft: array<nat>
    const visitsRight: array<nat>
    const prefixLeft: Prefix<Machine.Transition<R, L>>
    const prefixRight: Prefix<Machine.Transition<R, L>>

    ghost predicate Ready()
      reads this, history, prefixLeft, prefixRight
    {
      Machine.Valid(left) && Machine.Valid(right)
      && history.Valid() && history.dimensions == Pair(|left.states|, |right.states|)
      && visitsLeft.Length == |left.states| && visitsRight.Length == |right.states|
      && visitsLeft != visitsRight && prefixLeft != prefixRight
      && Valid(prefixLeft.View()) && Valid(prefixRight.View())
    }

    /** The total remaining visits of both FSMs. */
    function Budget(): nat
      reads this, visitsLeft, visitsRight
    {
      Sum(visitsLeft[..]) + Sum(visitsRight[..])
    }

    /** The two FSMs and how their ending states are told apart. */
    function Config(): Setting<R, L> {
      Setting(left, right, byNode)
    }

    /** `is_subtype`'s visitor: every state gets `visits` visits, no history, empty buffers. */
    constructor (left: Machine.Graph<R, L>, right: Machine.Graph<R, L>, visits: nat, byNode: bool)
      requires Machine.Valid(left) && Machine.Valid(right)
      ensures this.left == left && this.right == right && this.byNode == byNode && Ready()
      ensures forall i :: 0 <= i < visitsLeft.Length ==> visitsLeft[i] == visits
      ensures forall i :: 0 <= i < visitsRight.Length ==> visitsRight[i] == visits
      ensures forall index :: InBounds(index, history.dimensions) ==> !history.Get(index)
      ensures history.cells[..] == Constant(|left.states| * |right.states|, false)
      ensures visitsLeft[..] == Constant(|left.states|, visits) && visitsRight[..] == Constant(|right.states|, visits)
      ensures prefixLeft.View() == PrefixState([], 0, []) && prefixRight.View() == PrefixState([], 0, [])
      ensures fresh(history.cells) && fresh(visitsLeft) && fresh(visitsRight) && fresh(prefixLeft) && fresh(prefixRight)
    {
      this.left := left;
      this.right := right;
      this.byNode := byNode;
      var matrix := NewBitMatrix(Pair(|left.states|, |right.states|));
      history := matrix;
      visitsLeft := new nat[|left.states|](_ => visits);
      visitsRight := new nat[|right.states|](_ => visits);
      var l := new Prefix();
      var r := new Prefix();
      prefixLeft := l;
      prefixRight := r;
    }

    /**
     * `visit`: whether the pair of states is related within the remaining
     * budget. It leaves the history and the budgets as it found them, and
     * only removes entries from or appends entries to the buffers.
     */
    method Visit(s: nat, t: nat) returns (r: bool, ghost rows: seq<seq<bool>>)
      requires Ready() && s < |left.states| && t < |right.states|
      modifies history.cells, visitsLeft, visitsRight, prefixLeft, prefixRight
      ensures Ready()
      ensures history.cells[..] == old(history.cells[..])
      ensures visitsLeft[..] == old(visitsLeft[..]) && visitsRight[..] == old(visitsRight[..])
      ensures Extends(old(prefixLeft.View()), prefixLeft.View()) && Extends(old(prefixRight.View()), prefixRight.View())
      ensures old(visitsLeft[s]) == 0 || old(visitsRight[t]) == 0 ==> !r
      ensures old(visitsLeft[s]) > 0 && old(visitsRight[t]) > 0 ==>
        VisitOutcome(r, rows, ReduceSpec(old(prefixLeft.View()), old(prefixRight.View())),
          Kind(byNode, left, s), Kind(byNode, right, t), old(history.Get(Pair(s, t))), CountsOf(Config(), s, t))
      ensures Visited(r, rows, prefixLeft.View(), prefixRight.View())
        == VisitOf(Config(), old(history.cells[..]), old(visitsLeft[..]), old(visitsRight[..]), old(prefixLeft.View()), old(prefixRight.View()), s, t)
      decreases Budget(), 3
    {
      VisitOfOutcome(Config(), history.cells[..], visitsLeft[..], visitsRight[..], prefixLeft.View(), prefixRight.View(), s, t);
      if visitsLeft[s] == 0 || visitsRight[t] == 0 {
        return false, [];
      }
      r, rows := ReduceAndDispatch(s, t);
    }

    /** `visit` once both states have a visit left: `reduce` the buffers, and on success go on to `Dispatch`. */
    method ReduceAndDispatch(s: nat, t: nat) returns (r: bool, ghost rows: seq<seq<bool>>)
      requires Ready() && s < |left.states| && t < |right.states| && visitsLeft[s] > 0 && visitsRight[t] > 0
      modifies history.cells, visitsLeft, visitsRight, prefixLeft, prefixRight
      ensures Ready()
      ensures history.cells[..] == old(history.cells[..])
      ensures visitsLeft[..] == old(visitsLeft[..]) && visitsRight[..] == old(visitsRight[..])
      ensures Extends(old(prefixLeft.View()), prefixLeft.View()) && Extends(old(prefixRight.View()), prefixRight.View())
      ensures VisitOutcome(r, rows, ReduceSpec(old(prefixLeft.View()), old(prefixRight.View())),
        Kind(byNode, left, s), Kind(byNode, right, t), old(history.Get(Pair(s, t))), CountsOf(Config(), s, t))
      ensures Visited(r, rows, prefixLeft.View(), prefixRight.View())
        == VisitOf(Config(), old(history.cells[..]), old(visitsLeft[..]), old(visitsRight[..]), old(prefixLeft.View()), old(prefixRight.View()), s, t)
      decreases Budget(), 2
    {
      ghost var (hist, vl, vr) := (history.cells[..], visitsLeft[..], visitsRight[..]);
      ghost var (pl, pr) := (prefixLeft.View(), prefixRight.View());
      VisitOfOutcome(Config(), hist, vl, vr, pl, pr, s, t);
      ReduceExtends(pl, pr);
      var ok := Reduce(prefixLeft, prefixRight);
      if !ok {
        return false, [];
      }
      ghost var (l, r') := (prefixLeft.View(), prefixRight.View());
      r, rows := Dispatch(s, t);
      ExtendsTransitive(pl, l, prefixLeft.View());
      ExtendsTransitive(pr, r', prefixRight.View());
    }

    /**
     * The part of `visit` after a successful `reduce`: two ending states
     * are related when both buffers are empty, an ending state and a
     * state with choices are not, and two states with choices are related
     * when their pair is on the path with empty buffers, or else by
     * exploring their transitions.
     */
    method Dispatch(s: nat, t: nat) returns (r: bool, ghost rows: seq<seq<bool>>)
      requires Ready() && s < |left.states| && t < |right.states| && visitsLeft[s] > 0 && visitsRight[t] > 0
      modifies history.cells, visitsLeft, visitsRight, prefixLeft, prefixRight
      ensures Ready()
      ensures history.cells[..] == old(history.cells[..])
      ensures visitsLeft[..] == old(visitsLeft[..]) && visitsRight[..] == old(visitsRight[..])
      ensures Extends(old(prefixLeft.View()), prefixLeft.View()) && Extends(old(prefixRight.View()), prefixRight.View())
      ensures VisitOutcome(r, rows, (true, old(prefixLeft.View()), old(prefixRight.View())),
        Kind(byNode, left, s), Kind(byNode, right, t), old(history.Get(Pair(s, t))), CountsOf(Config(), s, t))
      ensures Visited(r, rows, prefixLeft.View(), prefixRight.View())
        == DispatchOf(Config(), old(history.cells[..]), old(visitsLeft[..]), old(visitsRight[..]), old(prefixLeft.View()), old(prefixRight.View()), s, t)
      decreases Budget(), 1
    {
      DispatchOfOutcome(Config(), history.cells[..], visitsLeft[..], visitsRight[..], prefixLeft.View(), prefixRight.View(), s, t);
      var empty := IsEmpty(prefixLeft.View()) && IsEmpty(prefixRight.View());
      var kl := Kind(byNode, left, s);
      var kr := Kind(byNode, right, t);
      if kl.None? || kr.None? {
        ExtendsReflexive(prefixLeft.View());
        ExtendsReflexive(prefixRight.View());
        return kl.None? && kr.None? && empty, [];
      }
      if history.Get(Pair(s, t)) && empty {
        ExtendsReflexive(prefixLeft.View());
        ExtendsReflexive(prefixRight.View());
        return true, [];
      }
      r, rows := Explore(s, t, kl.value, kr.value);
    }

    /** Marks the pair as on the path and takes one visit off each state. */
    method Enter(s: nat, t: nat)
      requires Ready() && s < |left.states| && t < |right.states| && visitsLeft[s] > 0 && visitsRight[t] > 0
      modifies history.cells, visitsLeft, visitsRight
      ensures Ready() && Budget() + 2 == old(Budget())
      ensures history.cells[..] == old(history.cells[..])[Offset(Pair(s, t), history.dimensions) := true]
      ensures visitsLeft[..] == old(visitsLeft[..])[s := old(visitsLeft[s]) - 1]
      ensures visitsRight[..] == old(visitsRight[..])[t := old(visitsRight[t]) - 1]
    {
      history.Set(Pair(s, t), true);
      SumDecrement(visitsLeft[..], s);
      visitsLeft[s] := visitsLeft[s] - 1;
      SumDecrement(visitsRight[..], t);
      visitsRight[t] := visitsRight[t] - 1;
    }

    /** Puts back the history bit and the two visits that `Enter` took. */
    method Leave(s: nat, t: nat, seen: bool, ghost cells: seq<bool>, ghost before: (seq<nat>, seq<nat>))
      requires Ready() && s < |left.states| && t < |right.states|
      requires |cells| == history.cells.Length && |before.0| == visitsLeft.Length && |before.1| == visitsRight.Length
      requires history.cells[..] == cells[Offset(Pair(s, t), history.dimensions) := true] && seen == cells[Offset(Pair(s, t), history.dimensions)]
      requires before.0[s] > 0 && visitsLeft[..] == before.0[s := before.0[s] - 1]
      requires before.1[t] > 0 && visitsRight[..] == before.1[t := before.1[t] - 1]
      modifies history.cells, visitsLeft, visitsRight
      ensures Ready()
      ensures history.cells[..] == cells && visitsLeft[..] == before.0 && visitsRight[..] == before.1
    {
      history.Set(Pair(s, t), seen);
      visitsLeft[s] := visitsLeft[s] + 1;
      visitsRight[t] := visitsRight[t] + 1;
      UpdateBack(before.0, s, before.0[s] - 1);
      UpdateBack(before.1, t, before.1[t] - 1);
      UpdateBack(cells, Offset(Pair(s, t), history.dimensions), true);
    }

    /**
     * The exploring part of `visit` for two states with choices: the pair
     * is marked and the budgets lowered, the transitions are unrolled under
     * the quantifiers the two actions call for, and the mark and the
     * budgets are put back.
     */
    method Explore(s: nat, t: nat, kl: Machine.Action, kr: Machine.Action) returns (r: bool, ghost rows: seq<seq<bool>>)
      requires Ready() && s < |left.states| && t < |right.states| && visitsLeft[s] > 0 && visitsRight[t] > 0
      modifies history.cells, visitsLeft, visitsRight, prefixLeft, prefixRight
      ensures Ready()
      ensures history.cells[..] == old(history.cells[..])
      ensures visitsLeft[..] == old(visitsLeft[..]) && visitsRight[..] == old(visitsRight[..])
      ensures Extends(old(prefixLeft.View()), prefixLeft.View()) && Extends(old(prefixRight.View()), prefixRight.View())
      ensures Explored(r, rows, kl, kr, CountsOf(Config(), s, t))
      ensures Visited(r, rows, prefixLeft.View(), prefixRight.View())
        == ExploreOf(Config(), old(history.cells[..]), old(visitsLeft[..]), old(visitsRight[..]), old(prefixLeft.View()), old(prefixRight.View()), s, t, kl, kr)
      decreases Budget(), 0
    {
      var seen := history.Get(Pair(s, t));
      ghost var cells := history.cells[..];
      ghost var before := (visitsLeft[..], visitsRight[..]);
      ghost var (pl0, pr0) := (prefixLeft.View(), prefixRight.View());
      Enter(s, t);
      var ls := Machine.TransitionsFrom(left, s);
      var rs := Machine.TransitionsFrom(right, t);
      TargetsInRange(left, s);
      TargetsInRange(right, t);
      var (ql, qr, swap) := QuantifiersFor(kl, kr);
      ghost var entered := (history.cells[..], visitsLeft[..], visitsRight[..]);
      assert entered.0 == cells[Offset(Pair(s, t), history.dimensions) := true]
        && entered.1 == before.0[s := before.0[s] - 1] && entered.2 == before.1[t := before.1[t] - 1];
      ghost var visit := VisitFor(Config(), entered.0, entered.1, entered.2);
      VisitForRealizes(Config(), entered.0, entered.1, entered.2);
      ghost var (pl, pr) := (prefixLeft.View(), prefixRight.View());
      r, rows := Unroll(Pick(swap, ls, rs), Pick(swap, rs, ls), Pick(swap, ql, qr), Pick(swap, qr, ql), swap, visit);
      assert Kept(entered.0, entered.1, entered.2);
      Leave(s, t, seen, cells, before);
      ExploreOfExplored(Config(), cells, before.0, before.1, pl0, pr0, s, t, kl, kr);
    }

    /** The buffer of the left FSM, or of the right one. */
    function Side(rightSide: bool): Prefix<Machine.Transition<R, L>> {
      if rightSide then prefixRight else prefixLeft
    }

    /**
     * One step of the inner loop of `unroll`: the inner buffer is reverted
     * to its snapshot and the inner transition pushed, and the two targets
     * are visited, as `visit` says of the current history and budgets.
     */
    method Try(state: nat, x: (nat, Machine.Transition<R, L>), swap: bool,
               si: Snapshot, ghost ei: PrefixState<Machine.Transition<R, L>>,
               ghost visit: Visiting<R, L>, ghost kept: (seq<bool>, seq<nat>, seq<nat>), ghost po: PrefixState<Machine.Transition<R, L>>)
      returns (output: bool)
      requires Ready() && state < (if swap then |right.states| else |left.states|)
      requires x.0 < (if swap then |left.states| else |right.states|)
      requires Valid(ei) && Extends(ei, Side(!swap).View()) && si == SnapshotOf(ei)
      requires Kept(kept.0, kept.1, kept.2) && Realizes(visit, Config(), kept.0, kept.1, kept.2) && po == Side(swap).View()
      modifies history.cells, visitsLeft, visitsRight, prefixLeft, prefixRight
      ensures Ready() && Kept(kept.0, kept.1, kept.2)
      ensures Extends(po, Side(swap).View()) && Extends(ei, Side(!swap).View())
      ensures var v := TryOf(visit, state, x, swap, ei, po);
        output == v.answer && prefixLeft.View() == v.leftBuffer && prefixRight.View() == v.rightBuffer
      decreases Budget(), 4
    {
      var pi := Side(!swap);
      pi.Revert(si, ei);
      pi.Push(x.1);
      ghost var pushed := pi.View();
      assert Kept(kept.0, kept.1, kept.2);
      ghost var rows;
      if swap {
        output, rows := Visit(x.0, state);
      } else {
        output, rows := Visit(state, x.0);
      }
      ExtendsTransitive(ei, pushed, pi.View());
    }

    /**
     * The inner loop of `unroll` for one outer transition: each inner
     * transition is tried in turn until the first decisive result. The
     * outer buffer is left as the visits leave it.
     */
    method Row(state: nat, inner: seq<(nat, Machine.Transition<R, L>)>, qi: Quantifier, swap: bool,
               si: Snapshot, ghost ei: PrefixState<Machine.Transition<R, L>>, ghost visit: Visiting<R, L>)
      returns (output: bool, ghost row: seq<bool>)
      requires Ready() && state < (if swap then |right.states| else |left.states|)
      requires forall k :: 0 <= k < |inner| ==> inner[k].0 < (if swap then |left.states| else |right.states|)
      requires Valid(ei) && Extends(ei, Side(!swap).View()) && si == SnapshotOf(ei)
      requires Realizes(visit, Config(), history.cells[..], visitsLeft[..], visitsRight[..])
      modifies history.cells, visitsLeft, visitsRight, prefixLeft, prefixRight
      ensures Ready()
      ensures history.cells[..] == old(history.cells[..])
      ensures visitsLeft[..] == old(visitsLeft[..]) && visitsRight[..] == old(visitsRight[..])
      ensures Extends(old(Side(swap).View()), Side(swap).View()) && Extends(ei, Side(!swap).View())
      ensures Tried(output, row, prefixLeft.View(), prefixRight.View())
        == RowOf(visit, state, inner, qi, swap, ei, 0, old(prefixLeft.View()), old(prefixRight.View()))
      decreases Budget(), 5
    {
      ghost var eo := Side(swap).View();
      ghost var kept := (history.cells[..], visitsLeft[..], visitsRight[..]);
      ghost var gl, gr := prefixLeft.View(), prefixRight.View();
      ghost var whole := RowOf(visit, state, inner, qi, swap, ei, 0, gl, gr);
      row := [];
      assert row + whole.row == whole.row;
      output := qi == All;
      var j := 0;
      while j < |inner|
        invariant Ready() && 0 <= j <= |inner| && |row| == j
        invariant Kept(kept.0, kept.1, kept.2)
        invariant Extends(eo, Side(swap).View()) && Extends(ei, Side(!swap).View())
        invariant output == (qi == All)
        invariant gl == prefixLeft.View() && gr == prefixRight.View()
        invariant var v := RowOf(visit, state, inner, qi, swap, ei, j, gl, gr);
          whole == Tried(v.answer, row + v.row, v.leftBuffer, v.rightBuffer)
      {
        ghost var before := Side(swap).View();
        output := Try(state, inner[j], swap, si, ei, visit, kept, Pick(swap, gl, gr));
        RowStep(visit, state, inner, qi, swap, ei, j, gl, gr, row, whole, output, prefixLeft.View(), prefixRight.View());
        gl, gr := prefixLeft.View(), prefixRight.View();
        ExtendsTransitive(eo, before, Side(swap).View());
        row := row + [output];
        if output == Decisive(qi) {
          break;
        }
        j := j + 1;
      }
    }

    /** The history and the budgets are as recorded. */
    ghost predicate Kept(cells: seq<bool>, vl: seq<nat>, vr: seq<nat>)
      reads history.cells, visitsLeft, visitsRight
    {
      history.cells[..] == cells && visitsLeft[..] == vl && visitsRight[..] == vr
    }

    /**
     * `unroll`: for each outer transition, the outer buffer is reverted to
     * its snapshot and the transition pushed; then for each inner
     * transition the inner buffer is reverted and that transition pushed,
     * and the pair of targets visited. Each `rows[m]` lists the results of
     * the visits for the `m`-th outer transition; both loops stop at the
     * first decisive result, and the result is the outer quantifier over
     * the inner quantifiers of the rows.
     */
    method Unroll(outer: seq<(nat, Machine.Transition<R, L>)>, inner: seq<(nat, Machine.Transition<R, L>)>,
                  qo: Quantifier, qi: Quantifier, swap: bool, ghost visit: Visiting<R, L>) returns (r: bool, ghost rows: seq<seq<bool>>)
      requires Ready()
      requires forall k :: 0 <= k < |outer| ==> outer[k].0 < (if swap then |right.states| else |left.states|)
      requires forall k :: 0 <= k < |inner| ==> inner[k].0 < (if swap then |left.states| else |right.states|)
      requires Realizes(visit, Config(), history.cells[..], visitsLeft[..], visitsRight[..])
      modifies history.cells, visitsLeft, visitsRight, prefixLeft, prefixRight
      ensures Ready()
      ensures history.cells[..] == old(history.cells[..])
      ensures visitsLeft[..] == old(visitsLeft[..]) && visitsRight[..] == old(visitsRight[..])
      ensures Extends(old(prefixLeft.View()), prefixLeft.View()) && Extends(old(prefixRight.View()), prefixRight.View())
      ensures Visited(r, rows, prefixLeft.View(), prefixRight.View())
        == UnrollOf(visit, outer, inner, qo, qi, swap, old(Side(swap).View()), old(Side(!swap).View()), 0, old(prefixLeft.View()), old(prefixRight.View()))
      decreases Budget(), 8
    {
      ghost var eo := Side(swap).View();
      ghost var ei := Side(!swap).View();
      var so := Side(swap).TakeSnapshot();
      var si := Side(!swap).TakeSnapshot();
      ExtendsReflexive(eo);
      ExtendsReflexive(ei);
      r, rows := Rows(outer, inner, qo, qi, swap, so, eo, si, ei, visit);
    }

    /**
     * The outer loop of `unroll`, from the snapshots `so` and `si` of the
     * outer and inner buffers: one row per outer transition tried, up to
     * the first decisive one.
     */
    method Rows(outer: seq<(nat, Machine.Transition<R, L>)>, inner: seq<(nat, Machine.Transition<R, L>)>,
                qo: Quantifier, qi: Quantifier, swap: bool,
                so: Snapshot, ghost eo: PrefixState<Machine.Transition<R, L>>,
                si: Snapshot, ghost ei: PrefixState<Machine.Transition<R, L>>, ghost visit: Visiting<R, L>)
      returns (r: bool, ghost rows: seq<seq<bool>>)
      requires Ready()
      requires forall k :: 0 <= k < |outer| ==> outer[k].0 < (if swap then |right.states| else |left.states|)
      requires forall k :: 0 <= k < |inner| ==> inner[k].0 < (if swap then |left.states| else |right.states|)
      requires Valid(eo) && Extends(eo, Side(swap).View()) && so == SnapshotOf(eo)
      requires Valid(ei) && Extends(ei, Side(!swap).View()) && si == SnapshotOf(ei)
      requires Realizes(visit, Config(), history.cells[..], visitsLeft[..], visitsRight[..])
      modifies history.cells, visitsLeft, visitsRight, prefixLeft, prefixRight
      ensures Ready()
      ensures history.cells[..] == old(history.cells[..])
      ensures visitsLeft[..] == old(visitsLeft[..]) && visitsRight[..] == old(visitsRight[..])
      ensures Extends(eo, Side(swap).View()) && Extends(ei, Side(!swap).View())
      ensures Visited(r, rows, prefixLeft.View(), prefixRight.View())
        == UnrollOf(visit, outer, inner, qo, qi, swap, eo, ei, 0, old(prefixLeft.View()), old(prefixRight.View()))
      decreases Budget(), 7
    {
      ghost var kept := (history.cells[..], visitsLeft[..], visitsRight[..]);
      ghost var gl, gr := prefixLeft.View(), prefixRight.View();
      ghost var whole := UnrollOf(visit, outer, inner, qo, qi, swap, eo, ei, 0, gl, gr);
      rows := [];
      assert rows + whole.rows == whole.rows;
      r := qo == All;
      var k := 0;
      while k < |outer|
        invariant Ready() && 0 <= k <= |outer| && |rows| == k
        invariant Kept(kept.0, kept.1, kept.2)
        invariant Extends(eo, Side(swap).View()) && Extends(ei, Side(!swap).View())
        invariant r == (qo == All)
        invariant gl == prefixLeft.View() && gr == prefixRight.View()
        invariant var v := UnrollOf(visit, outer, inner, qo, qi, swap, eo, ei, k, gl, gr);
          whole == Visited(v.answer, rows + v.rows, v.leftBuffer, v.rightBuffer)
      {
        ghost var row;
        r, row := Branch(outer[k], inner, qi, swap, so, eo, si, ei, visit);
        UnrollStep(visit, outer, inner, qo, qi, swap, eo, ei, k, gl, gr, rows, whole, r, row, prefixLeft.View(), prefixRight.View());
        gl, gr := prefixLeft.View(), prefixRight.View();
        rows := rows + [row];
        if r == Decisive(qo) {
          break;
        }
        k := k + 1;
      }
    }

    /**
     * One step of the outer loop of `unroll`: the outer buffer is reverted
     * to its snapshot and the outer transition pushed, and the row of
     * inner transitions is tried.
     */
    method Branch(x: (nat, Machine.Transition<R, L>), inner: seq<(nat, Machine.Transition<R, L>)>, qi: Quantifier, swap: bool,
                  so: Snapshot, ghost eo: PrefixState<Machine.Transition<R, L>>,
                  si: Snapshot, ghost ei: PrefixState<Machine.Transition<R, L>>, ghost visit: Visiting<R, L>)
      returns (output: bool, ghost row: seq<bool>)
      requires Ready() && x.0 < (if swap then |right.states| else |left.states|)
      requires forall k :: 0 <= k < |inner| ==> inner[k].0 < (if swap then |left.states| else |right.states|)
      requires Valid(eo) && Extends(eo, Side(swap).View()) && so == SnapshotOf(eo)
      requires Valid(ei) && Extends(ei, Side(!swap).View()) && si == SnapshotOf(ei)
      requires Realizes(visit, Config(), history.cells[..], visitsLeft[..], visitsRight[..])
      modifies history.cells, visitsLeft, visitsRight, prefixLeft, prefixRight
      ensures Ready()
      ensures history.cells[..] == old(history.cells[..])
      ensures visitsLeft[..] == old(visitsLeft[..]) && visitsRight[..] == old(visitsRight[..])
      ensures Extends(eo, Side(swap).View()) && Extends(ei, Side(!swap).View())
      ensures Tried(output, row, prefixLeft.View(), prefixRight.View())
        == BranchOf(visit, x, inner, qi, swap, eo, ei, old(prefixLeft.View()), old(prefixRight.View()))
      decreases Budget(), 6
    {
      ghost var kept := (history.cells[..], visitsLeft[..], visitsRight[..]);
      var po := Side(swap);
      po.Revert(so, eo);
      po.Push(x.1);
      ghost var pushed := po.View();
      ExtendsAfterRevert(eo, x.1, pushed);
      assert Kept(kept.0, kept.1, kept.2);
      output, row := Row(x.0, inner, qi, swap, si, ei, visit);
      ExtendsTransitive(eo, pushed, po.View());
    }
  }

  /** `n` copies of `x`. */
  function Constant<T>(n: nat, x: T): (s: seq<T>)
    ensures |s| == n && forall i :: 0 <= i < n ==> s[i] == x
  {
    if n == 0 then [] else Constant(n - 1, x) + [x]
  }

  /**
   * The check `is_subtype` makes: the visit of the two initial states in
   * a fresh visitor, where every state has `visits` visits, no pair is on
   * the path and both buffers are empty.
   */
  ghost function CheckOf<R, L>(left: Machine.Graph<R, L>, right: Machine.Graph<R, L>, visits: nat, byNode: bool): Visited<R, L> {
    VisitOf(Setting(left, right, byNode), Constant(|left.states| * |right.states|, false),
            Constant(|left.states|, visits), Constant(|right.states|, visits), PrefixState([], 0, []), PrefixState([], 0, []), 0, 0)
  }

  /**
   * What the check promises of its two initial states: without visits it
   * fails, and otherwise it is one visit of the pair with nothing on the
   * path and empty buffers, as `VisitOutcome` states.
   */
  lemma CheckOfOutcome<R, L>(left: Machine.Graph<R, L>, right: Machine.Graph<R, L>, visits: nat, byNode: bool)
    requires Machine.Valid(left) && Machine.Valid(right) && |left.states| > 0 && |right.states| > 0
    ensures visits == 0 ==> !CheckOf(left, right, visits, byNode).answer
    ensures visits > 0 ==> var v := CheckOf(left, right, visits, byNode);
      VisitOutcome(v.answer, v.rows, ReduceSpec<R, L>(PrefixState([], 0, []), PrefixState([], 0, [])),
        Kind(byNode, left, 0), Kind(byNode, right, 0), false, CountsOf(Setting(left, right, byNode), 0, 0))
  {
    var c := Setting(left, right, byNode);
    var hist := Constant(|left.states| * |right.states|, false);
    var empty: Buffer<R, L> := PrefixState([], 0, []);
    VisitOfOutcome(c, hist, Constant(|left.states|, visits), Constant(|right.states|, visits), empty, empty, 0, 0);
    assert Offset(Pair(0, 0), Dims(c)) < |hist|;
  }

  /**
   * `is_subtype` over two FSMs: the FSMs must be for the same role (the
   * source panics otherwise); every state gets `visits` visits and the
   * check starts from the two initial states with empty buffers.
   */
  method IsSubtype<R(==, !new), L(==, !new)>(left: Machine.Fsm<R, L>, right: Machine.Fsm<R, L>, visits: nat) returns (r: bool, ghost rows: seq<seq<bool>>)
    requires Machine.Valid(left.View()) && Machine.Valid(right.View()) && left.role == right.role
    requires |left.states| > 0 && |right.states| > 0
    ensures var v := CheckOf(left.View(), right.View(), visits, false); r == v.answer && rows == v.rows
    ensures visits == 0 ==> !r
    ensures visits > 0 && Machine.TransitionsFrom(left.View(), 0) == [] && Machine.TransitionsFrom(right.View(), 0) == [] ==> r
    ensures visits > 0 && (Machine.TransitionsFrom(left.View(), 0) == []) != (Machine.TransitionsFrom(right.View(), 0) == []) ==> !r
    ensures var ls, rs := Machine.TransitionsFrom(left.View(), 0), Machine.TransitionsFrom(right.View(), 0);
      visits > 0 && ls != [] && rs != [] ==> Explored(r, rows, ls[0].1.action, rs[0].1.action, (|ls|, |rs|))
  {
    var visitor := new Visitor(left.View(), right.View(), visits, false);
    r, rows := visitor.Visit(0, 0);
  }

  /**
   * `is_subtype` over two serialized graphs, whose states are told apart
   * by their kind: an ending state against an ending state holds, an
   * ending state against one with choices does not.
   */
  method IsSubtypeSerialized<R(==, !new), L(==, !new)>(left: Machine.Graph<R, L>, right: Machine.Graph<R, L>, visits: nat) returns (r: bool, ghost rows: seq<seq<bool>>)
    requires Machine.Valid(left) && Machine.Valid(right) && left.role == right.role
    requires |left.states| > 0 && |right.states| > 0
    ensures var v := CheckOf(left, right, visits, true); r == v.answer && rows == v.rows
    ensures visits == 0 ==> !r
    ensures visits > 0 && left.states[0].End? && right.states[0].End? ==> r
    ensures visits > 0 && left.states[0].End? != right.states[0].End? ==> !r
    ensures visits > 0 && left.states[0].Choices? && right.states[0].Choices? ==>
      Explored(r, rows, left.states[0].action, right.states[0].action,
        (|Machine.TransitionsFrom(left, 0)|, |Machine.TransitionsFrom(right, 0)|))
  {
    var visitor := new Visitor(left, right, visits, true);
    r, rows := visitor.Visit(0, 0);
  }

  /**
   * What one visit of a pair promises, given the outcome of `reduce` on
   * the buffers it was entered with: a blocked reduction fails; two ending
   * states are related exactly when both buffers are empty; an ending
   * state against a state with choices fails; two states with choices
   * whose pair is on the path with empty buffers are related; and any
   * other two states with choices are related as `Explored` says of the
   * rows of visits of their transitions' targets.
   */
  ghost predicate VisitOutcome<R, L>(r: bool, rows: seq<seq<bool>>,
                                     reduced: (bool, PrefixState<Machine.Transition<R, L>>, PrefixState<Machine.Transition<R, L>>),
                                     kl: Option<Machine.Action>, kr: Option<Machine.Action>, seen: bool, counts: (nat, nat)) {
    var (ok, l, rr) := reduced;
    var empty := IsEmpty(l) && IsEmpty(rr);
    (!ok ==> !r)
    && (ok && kl.None? && kr.None? ==> (r <==> empty))
    && (ok && kl.None? != kr.None? ==> !r)
    && (ok && kl.Some? && kr.Some? && seen && empty ==> r)
    && (ok && kl.Some? && kr.Some? && !(seen && empty) ==> Explored(r, rows, kl.value, kr.value, counts))
  }

  /**
   * The result of exploring two states with choices, whose transitions
   * number `counts`: the quantifiers the two actions call for, outer over
   * the transitions `QuantifiersFor` enumerates first, inner over the
   * others, applied to the rows of visits, each row and the list of rows
   * stopping at the first decisive result.
   */
  ghost predicate Explored(r: bool, rows: seq<seq<bool>>, kl: Machine.Action, kr: Machine.Action, counts: (nat, nat)) {
    var (ql, qr, swap) := QuantifiersFor(kl, kr);
    var (qo, qi) := if swap then (qr, ql) else (ql, qr);
    var (no, ni) := if swap then (counts.1, counts.0) else (counts.0, counts.1);
    Shape(rows, no, ni, qo, qi) && r == Quantify(qo, Outcomes(rows, qi))
  }

  /** A row under `All` that holds tried every transition, and every visit in it held. */
  lemma RowUnderAll(row: seq<bool>, n: nat)
    requires RowShape(row, n, All)
    ensures Quantify(All, row) <==> |row| == n && forall k :: 0 <= k < |row| ==> row[k]
  {
  }

  /** Rows under an outer `All` that hold cover every outer transition, and every row held. */
  lemma RowsUnderAll(rows: seq<seq<bool>>, no: nat, ni: nat, qi: Quantifier)
    requires Shape(rows, no, ni, All, qi)
    ensures Quantify(All, Outcomes(rows, qi)) <==> |rows| == no && forall m :: 0 <= m < |rows| ==> Quantify(qi, rows[m])
  {
  }

  /**
   * An output state against an input state: the pair is related exactly
   * when every left transition was tried against every right transition
   * and every one of those visits held.
   */
  lemma ExploredSendReceive(r: bool, rows: seq<seq<bool>>, counts: (nat, nat))
    requires Explored(r, rows, Machine.Output, Machine.Input, counts)
    ensures r <==> |rows| == counts.0 && forall m :: 0 <= m < |rows| ==>
      |rows[m]| == counts.1 && forall k :: 0 <= k < |rows[m]| ==> rows[m][k]
  {
    RowsUnderAll(rows, counts.0, counts.1, All);
    forall m | 0 <= m < |rows| {
      RowUnderAll(rows[m], counts.1);
    }
  }

  /**
   * Two output states: the pair is related exactly when every left
   * transition was tried and each was matched by a visit that held
   * against some right transition.
   */
  lemma ExploredSendSend(r: bool, rows: seq<seq<bool>>, counts: (nat, nat))
    requires Explored(r, rows, Machine.Output, Machine.Output, counts)
    ensures r <==> |rows| == counts.0 && forall m :: 0 <= m < |rows| ==> SomeHeld(rows[m])
  {
    RowsUnderAll(rows, counts.0, counts.1, Any);
  }

  /** Some visit in the row held. */
  predicate SomeHeld(row: seq<bool>) {
    exists k :: 0 <= k < |row| && row[k]
  }

  /**
   * Two input states: the right transitions are enumerated first, and the
   * pair is related exactly when each was tried and matched by a visit
   * that held against some left transition.
   */
  lemma ExploredReceiveReceive(r: bool, rows: seq<seq<bool>>, counts: (nat, nat))
    requires Explored(r, rows, Machine.Input, Machine.Input, counts)
    ensures r <==> |rows| == counts.1 && forall m :: 0 <= m < |rows| ==> SomeHeld(rows[m])
  {
    RowsUnderAll(rows, counts.1, counts.0, Any);
  }

  /** An input state against an output state: the pair is related exactly when some visit held. */
  lemma ExploredReceiveSend(r: bool, rows: seq<seq<bool>>, counts: (nat, nat))
    requires Explored(r, rows, Machine.Input, Machine.Output, counts)
    ensures r <==> exists m :: 0 <= m < |rows| && SomeHeld(rows[m])
  {
  }
}
