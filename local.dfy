/**
 * Local session types read off an FSM: a state with no transitions ends,
 * a state reached again on the current path becomes a recursion variable,
 * and a state that was reached again is wrapped in a `rec` binder.
 */
module LocalTypes {
  import opened Wrappers
  import opened Machine
  import Text
  import Printers

  datatype Local<R, L> =
    | End
    | Recursion(v: nat)
    | Variable(v: nat, body: Local<R, L>)
    | Transitions(branches: seq<(Transition<R, L>, Local<R, L>)>)

  /** The recursion variables used but not bound by an enclosing `rec`. */
  function FreeVars<R, L>(l: Local<R, L>): set<nat>
    decreases l, 1
  {
    match l
    case End => {}
    case Recursion(v) => {v}
    case Variable(v, body) => FreeVars(body) - {v}
    case Transitions(bs) => BranchFreeVars(l, bs, |bs|)
  }

  function BranchFreeVars<R, L>(l: Local<R, L>, bs: seq<(Transition<R, L>, Local<R, L>)>, n: nat): set<nat>
    requires l.Transitions? && bs == l.branches && n <= |bs|
    decreases l, 0, n
  {
    if n == 0 then {} else BranchFreeVars(l, bs, n - 1) + FreeVars(bs[n - 1].1)
  }

  lemma {:induction false} BranchFreeVarsBound<R, L>(l: Local<R, L>, bs: seq<(Transition<R, L>, Local<R, L>)>, n: nat, bound: set<nat>)
    requires l.Transitions? && bs == l.branches && n <= |bs|
    requires forall i :: 0 <= i < n ==> FreeVars(bs[i].1) <= bound
    ensures BranchFreeVars(l, bs, n) <= bound
  {
    if n > 0 {
      BranchFreeVarsBound(l, bs, n - 1, bound);
    }
  }

  /**
   * What the printer relies on: every branch list is non-empty, and every
   * variable is below `variables`.
   */
  predicate WellFormed<R, L>(l: Local<R, L>, variables: nat)
    decreases l
  {
    match l
    case End => true
    case Recursion(v) => v < variables
    case Variable(v, body) => v < variables && WellFormed(body, variables)
    case Transitions(bs) => |bs| > 0 && forall i :: 0 <= i < |bs| ==> WellFormed(bs[i].1, variables)
  }

  lemma {:induction false} WellFormedMonotone<R, L>(l: Local<R, L>, m: nat, n: nat)
    requires WellFormed(l, m) && m <= n
    ensures WellFormed(l, n)
    decreases l
  {
    match l
    case End =>
    case Recursion(_) =>
    case Variable(_, body) => WellFormedMonotone(body, m, n);
    case Transitions(bs) =>
      forall i | 0 <= i < |bs| ensures WellFormed(bs[i].1, n) {
        WellFormedMonotone(bs[i].1, m, n);
      }
  }

  function CountUnseen(seen: seq<bool>): nat {
    if seen == [] then 0 else CountUnseen(seen[..|seen| - 1]) + (if seen[|seen| - 1] then 0 else 1)
  }

  lemma {:induction false} MarkSeen(seen: seq<bool>, i: nat)
    requires i < |seen| && !seen[i]
    ensures CountUnseen(seen[i := true]) < CountUnseen(seen)
    decreases |seen|
  {
    var t := seen[i := true];
    if i < |seen| - 1 {
      assert t[..|t| - 1] == seen[..|seen| - 1][i := true];
      MarkSeen(seen[..|seen| - 1], i);
    } else {
      assert t[..|t| - 1] == seen[..|seen| - 1];
    }
  }

  /** The type below an optional `rec` binder. */
  function Body<R, L>(l: Local<R, L>): Local<R, L> {
    if l.Variable? then l.body else l
  }

  /** `l` offers exactly the given transitions, in order, possibly under a `rec` binder. */
  predicate Lists<R(==), L(==)>(l: Local<R, L>, ts: seq<(nat, Transition<R, L>)>) {
    Body(l).Transitions? && |Body(l).branches| == |ts|
    && forall i :: 0 <= i < |ts| ==> Body(l).branches[i].0 == ts[i].1
  }

  /** The variables bound to the states on a path. */
  ghost function BoundOf(seen: seq<bool>, looped: seq<Option<nat>>): set<nat>
    requires |looped| == |seen|
  {
    set t | 0 <= t < |looped| && seen[t] && looped[t].Some? :: looped[t].value
  }

  lemma BoundGrows(seen: seq<bool>, before: seq<Option<nat>>, after: seq<Option<nat>>)
    requires |before| == |seen| == |after|
    requires forall t :: 0 <= t < |after| && before[t].Some? ==> after[t] == before[t]
    ensures BoundOf(seen, before) <= BoundOf(seen, after)
  {
    forall x | x in BoundOf(seen, before) ensures x in BoundOf(seen, after) {
      var t :| 0 <= t < |before| && seen[t] && before[t].Some? && before[t].value == x;
      assert after[t] == before[t];
    }
  }

  /** Taking `s` off the path drops at most the variable bound to `s`. */
  lemma ReleaseBound(path: seq<bool>, looped: seq<Option<nat>>, s: nat)
    requires |looped| == |path| && s < |path|
    ensures looped[s].Some? ==> BoundOf(path[s := true], looped) - {looped[s].value} <= BoundOf(path, looped[s := None])
    ensures looped[s].None? ==> BoundOf(path[s := true], looped) <= BoundOf(path, looped)
  {
    var inside := BoundOf(path[s := true], looped);
    forall x | x in inside && (looped[s].Some? ==> x != looped[s].value)
      ensures x in BoundOf(path, looped[s := None]) && x in BoundOf(path, looped)
    {
      var t :| 0 <= t < |looped| && path[s := true][t] && looped[t].Some? && looped[t].value == x;
      assert t != s;
      assert looped[s := None][t] == looped[t];
    }
  }

  /**
   * `l` describes state `s` of `g`, reading a variable as the state that
   * `env` binds it to: `end` exactly where the state has no transitions, a
   * variable only for the state it is bound to, a `rec` binder that binds
   * its variable to `s`, and otherwise a branch per transition of `s`, in
   * order, each continuing with a type that describes the transition's
   * target.
   */
  ghost predicate Describes<R, L>(g: Graph<R, L>, s: nat, l: Local<R, L>, env: seq<Option<nat>>)
    requires Machine.Valid(g) && s < |g.states| && |env| == |g.states|
    decreases l
  {
    match l
    case End => TransitionsFrom(g, s) == []
    case Recursion(v) => env[s] == Some(v)
    case Variable(v, body) => Describes(g, s, body, env[s := Some(v)])
    case Transitions(bs) =>
      var ts := TransitionsFrom(g, s);
      |bs| == |ts| && forall i :: 0 <= i < |bs| ==>
        bs[i].0 == ts[i].1 && ts[i].0 < |g.states| && Describes(g, ts[i].0, bs[i].1, env)
  }

  /** `env'` keeps every binding of `env`. */
  predicate Keeps(env: seq<Option<nat>>, env': seq<Option<nat>>) {
    |env'| == |env| && forall t :: 0 <= t < |env| && env[t].Some? ==> env'[t] == env[t]
  }

  /** A description stays one when more states are bound. */
  lemma {:induction false} DescribesGrows<R, L>(g: Graph<R, L>, s: nat, l: Local<R, L>, env: seq<Option<nat>>, env': seq<Option<nat>>)
    requires Machine.Valid(g) && s < |g.states| && |env| == |g.states|
    requires Describes(g, s, l, env) && Keeps(env, env')
    ensures Describes(g, s, l, env')
    decreases l
  {
    match l
    case End =>
    case Recursion(_) =>
    case Variable(v, body) =>
      DescribesGrows(g, s, body, env[s := Some(v)], env'[s := Some(v)]);
    case Transitions(bs) =>
      var ts := TransitionsFrom(g, s);
      forall i | 0 <= i < |bs| ensures Describes(g, ts[i].0, bs[i].1, env') {
        DescribesGrows(g, ts[i].0, bs[i].1, env, env');
      }
  }

  /** The variables used but not bound in any of the branches. */
  function AllFree<R, L>(bs: seq<(Transition<R, L>, Local<R, L>)>): set<nat> {
    if bs == [] then {} else AllFree(bs[..|bs| - 1]) + FreeVars(bs[|bs| - 1].1)
  }

  lemma AllFreeAppend<R, L>(bs: seq<(Transition<R, L>, Local<R, L>)>, b: (Transition<R, L>, Local<R, L>))
    ensures AllFree(bs + [b]) == AllFree(bs) + FreeVars(b.1)
  {
    assert (bs + [b])[..|bs|] == bs;
  }

  /** The free variables of a branch list are those of its branches. */
  lemma {:induction false} BranchFreeVarsAll<R, L>(l: Local<R, L>, bs: seq<(Transition<R, L>, Local<R, L>)>, n: nat)
    requires l.Transitions? && bs == l.branches && n <= |bs|
    ensures BranchFreeVars(l, bs, n) == AllFree(bs[..n])
  {
    if n > 0 {
      BranchFreeVarsAll(l, bs, n - 1);
      assert bs[..n][..n - 1] == bs[..n - 1];
    }
  }

  /** Descriptions of the first targets stay descriptions when more states are bound. */
  lemma BranchesGrow<R, L>(g: Graph<R, L>, ts: seq<(nat, Transition<R, L>)>, branches: seq<(Transition<R, L>, Local<R, L>)>,
                           env: seq<Option<nat>>, env': seq<Option<nat>>)
    requires Machine.Valid(g) && |env| == |g.states| && Keeps(env, env') && |branches| <= |ts|
    requires forall i :: 0 <= i < |branches| ==> ts[i].0 < |g.states| && Describes(g, ts[i].0, branches[i].1, env)
    ensures forall i :: 0 <= i < |branches| ==> Describes(g, ts[i].0, branches[i].1, env')
  {
    forall i | 0 <= i < |branches| ensures Describes(g, ts[i].0, branches[i].1, env') {
      DescribesGrows(g, ts[i].0, branches[i].1, env, env');
    }
  }

  /** No state bound to a variable. */
  function Unbound(n: nat): (env: seq<Option<nat>>)
    ensures |env| == n && forall t :: 0 <= t < n ==> env[t].None?
  {
    seq(n, _ => None)
  }

  /**
   * The builder's state: one path flag and one optional variable per
   * state, variables only on the path, below the counter, and no two
   * states sharing one.
   */
  ghost predicate BuilderInv<R, L>(g: Graph<R, L>, seen: seq<bool>, looped: seq<Option<nat>>, variables: nat) {
    Machine.Valid(g) && |seen| == |g.states| && |looped| == |g.states|
    && (forall t :: 0 <= t < |looped| && looped[t].Some? ==> seen[t] && looped[t].value < variables)
    && (forall t, u :: 0 <= t < |looped| && 0 <= u < |looped| && looped[t].Some? && looped[u] == looped[t] ==> t == u)
  }

  /**
   * What holds while `build` collects the branches of `s`: `s` is on the
   * path, earlier bindings are kept, and the first branches are well
   * formed, closed under the path, describe their targets, and use every
   * variable bound since `build` began.
   */
  ghost predicate PartialOf<R, L>(g: Graph<R, L>, seen: seq<bool>, looped: seq<Option<nat>>, variables: nat,
                                      s: nat, path: seq<bool>, before: seq<Option<nat>>, ts: seq<(nat, Transition<R, L>)>,
                                      branches: seq<(Transition<R, L>, Local<R, L>)>, start: nat) {
    BuilderInv(g, seen, looped, variables) && s < |path| && seen == path[s := true] && variables >= start
    && Keeps(before, looped) && |branches| <= |ts| && ts == TransitionsFrom(g, s)
    && (forall i :: 0 <= i < |branches| ==> branches[i].0 == ts[i].1 && ts[i].0 < |g.states|)
    && (forall i :: 0 <= i < |branches| ==> WellFormed(branches[i].1, variables) && FreeVars(branches[i].1) <= BoundOf(seen, looped))
    && (forall i :: 0 <= i < |branches| ==> Describes(g, ts[i].0, branches[i].1, looped))
    && (forall t :: 0 <= t < |looped| && before[t].None? && looped[t].Some? ==> looped[t].value in AllFree(branches))
  }

  /** Appending the branch built for the next target keeps `PartialOf`. */
  lemma ExtendStep<R, L>(g: Graph<R, L>, seen: seq<bool>, l0: seq<Option<nat>>, v0: nat, looped: seq<Option<nat>>, variables: nat,
                             s: nat, path: seq<bool>, before: seq<Option<nat>>, ts: seq<(nat, Transition<R, L>)>,
                             branches: seq<(Transition<R, L>, Local<R, L>)>, start: nat, child: Local<R, L>)
    requires PartialOf(g, seen, l0, v0, s, path, before, ts, branches, start) && |branches| < |ts| && ts[|branches|].0 < |g.states|
    requires BuilderInv(g, seen, looped, variables) && variables >= v0 && Keeps(l0, looped)
    requires WellFormed(child, variables) && FreeVars(child) <= BoundOf(seen, looped)
    requires Describes(g, ts[|branches|].0, child, looped)
    requires forall t :: 0 <= t < |looped| && l0[t].None? && looped[t].Some? ==> looped[t].value in FreeVars(child)
    ensures PartialOf(g, seen, looped, variables, s, path, before, ts, branches + [(ts[|branches|].1, child)], start)
  {
    var next := branches + [(ts[|branches|].1, child)];
    BoundGrows(seen, l0, looped);
    BranchesGrow(g, ts, branches, l0, looped);
    forall i | 0 <= i < |branches| ensures WellFormed(branches[i].1, variables) {
      WellFormedMonotone(branches[i].1, v0, variables);
    }
    AllFreeAppend(branches, (ts[|branches|].1, child));
  }

  /** The state of `Local::new`'s traversal: the FSM, the current path, the loop variables and the counter. */
  class Builder<R(==), L> {
    const g: Graph<R, L>
    var seen: seq<bool>
    var looped: seq<Option<nat>>
    var variables: nat

    ghost predicate ValidBuilder()
      reads this
    {
      BuilderInv(g, seen, looped, variables)
    }

    constructor (g: Graph<R, L>)
      requires Machine.Valid(g)
      ensures this.g == g && seen == seq(|g.states|, _ => false) && looped == Unbound(|g.states|)
      ensures variables == 0 && ValidBuilder()
    {
      this.g := g;
      seen := seq(|g.states|, _ => false);
      looped := Unbound(|g.states|);
      variables := 0;
    }

    /** `variable`: the loop variable of a state on the path, numbered on first use. */
    method VariableOf(s: nat) returns (v: nat)
      requires ValidBuilder() && s < |seen| && seen[s]
      modifies this
      ensures ValidBuilder() && seen == old(seen)
      ensures old(looped[s]).Some? ==> v == old(looped[s]).value && looped == old(looped) && variables == old(variables)
      ensures old(looped[s]).None? ==> v == old(variables) && looped == old(looped)[s := Some(v)] && variables == v + 1
      ensures v < variables && v in BoundOf(seen, looped)
    {
      match looped[s] {
        case Some(x) =>
          v := x;
        case None =>
          v := variables;
          looped := looped[s := Some(v)];
          variables := variables + 1;
      }
    }

    /**
     * `build`: the local type of `s`. The path is restored on return, loop
     * variables only grow, the result is well formed, it uses no variable
     * that is not bound to a state on the path, and it describes `s` under
     * the variables bound to the states on the path. A variable is emitted
     * exactly for a state on the path, and every variable bound during the
     * call is used in the result.
     */
    method Build(s: nat) returns (l: Local<R, L>)
      requires ValidBuilder() && s < |seen|
      modifies this
      ensures ValidBuilder() && seen == old(seen) && variables >= old(variables)
      ensures forall t :: 0 <= t < |looped| && old(looped[t]).Some? ==> looped[t] == old(looped[t])
      ensures WellFormed(l, variables)
      ensures FreeVars(l) <= BoundOf(seen, looped)
      ensures !old(seen[s]) ==> looped[s].None?
      ensures old(seen[s]) ==> l.Recursion? && looped[s] == Some(l.v)
      ensures !old(seen[s]) && |TransitionsFrom(g, s)| == 0 ==> l == Local.End
      ensures !old(seen[s]) && |TransitionsFrom(g, s)| > 0 ==> Lists(l, TransitionsFrom(g, s))
      ensures l.Recursion? <==> old(seen[s])
      ensures Describes(g, s, l, looped)
      ensures forall t :: 0 <= t < |looped| && old(looped[t]).None? && looped[t].Some? ==> looped[t].value in FreeVars(l)
      ensures l.Variable? ==> l.v in FreeVars(l.body)
      decreases CountUnseen(seen), 0
    {
      if seen[s] {
        var v := VariableOf(s);
        return Recursion(v);
      }
      var ts := TransitionsFrom(g, s);
      if |ts| == 0 {
        return Local.End;
      }
      ghost var path := seen;
      ghost var before := looped;
      MarkSeen(seen, s);
      seen := seen[s := true];
      var branches: seq<(Transition<R, L>, Local<R, L>)> := [];
      while |branches| < |ts|
        invariant Partial(s, path, before, ts, branches, old(variables))
        decreases |ts| - |branches|
      {
        branches := Extend(s, path, before, ts, branches, old(variables));
      }
      l := Close(s, path, before, ts, branches, old(variables));
    }

    /** `PartialOf` over the builder's fields. */
    ghost predicate Partial(s: nat, path: seq<bool>, before: seq<Option<nat>>, ts: seq<(nat, Transition<R, L>)>,
                            branches: seq<(Transition<R, L>, Local<R, L>)>, start: nat)
      reads this
    {
      PartialOf(g, seen, looped, variables, s, path, before, ts, branches, start)
    }

    /** One turn of `build`'s collection: the next transition's target is built and its branch appended. */
    method Extend(s: nat, ghost path: seq<bool>, ghost before: seq<Option<nat>>, ts: seq<(nat, Transition<R, L>)>,
                  branches: seq<(Transition<R, L>, Local<R, L>)>, ghost start: nat) returns (next: seq<(Transition<R, L>, Local<R, L>)>)
      requires Partial(s, path, before, ts, branches, start) && |branches| < |ts|
      modifies this
      ensures Partial(s, path, before, ts, next, start) && |next| == |branches| + 1 && next[..|branches|] == branches
      decreases CountUnseen(seen), 1
    {
      var (to, t) := ts[|branches|];
      assert (to, t) in ts;
      TransitionsFromExact(g, s, to, t);
      ghost var l0, v0 := looped, variables;
      var child := Build(to);
      ExtendStep(g, seen, l0, v0, looped, variables, s, path, before, ts, branches, start, child);
      next := branches + [(t, child)];
      assert next[..|branches|] == branches;
    }

    /**
     * The end of `build` once every branch is built: `s` leaves the path,
     * and the branches are wrapped in `rec` when a variable was bound to
     * `s`, a variable that the branches then use.
     */
    method Close(s: nat, ghost path: seq<bool>, ghost before: seq<Option<nat>>, ghost ts: seq<(nat, Transition<R, L>)>,
                 branches: seq<(Transition<R, L>, Local<R, L>)>, ghost start: nat) returns (l: Local<R, L>)
      requires Partial(s, path, before, ts, branches, start) && !path[s] && before[s].None?
      requires |branches| == |ts| > 0
      modifies this
      ensures ValidBuilder() && seen == path && variables == old(variables) && looped == old(looped)[s := None]
      ensures WellFormed(l, variables) && FreeVars(l) <= BoundOf(seen, looped) && Lists(l, ts)
      ensures old(looped[s]).Some? <==> l.Variable?
      ensures Describes(g, s, l, looped)
      ensures forall t :: 0 <= t < |looped| && before[t].None? && looped[t].Some? ==> looped[t].value in FreeVars(l)
      ensures l.Variable? ==> l.v in FreeVars(l.body)
    {
      l := Transitions(branches);
      BranchFreeVarsBound(l, branches, |branches|, BoundOf(seen, looped));
      BranchFreeVarsAll(l, branches, |branches|);
      assert branches[..|branches|] == branches;
      ReleaseBound(path, looped, s);
      match looped[s] {
        case Some(v) =>
          assert looped[s := None][s := Some(v)] == looped;
          looped := looped[s := None];
          seen := seen[s := false];
          l := Variable(v, l);
        case None =>
          seen := seen[s := false];
      }
    }
  }

  /** `Local::new`: the local type of the initial state of a non-empty FSM. */
  method New<R(==), L>(fsm: Fsm<R, L>) returns (l: Local<R, L>)
    requires Machine.Valid(fsm.View()) && fsm.Size().0 > 0
    ensures FreeVars(l) == {}
    ensures Printable(l)
    ensures |TransitionsFrom(fsm.View(), 0)| == 0 ==> l == Local.End
    ensures |TransitionsFrom(fsm.View(), 0)| > 0 ==> Lists(l, TransitionsFrom(fsm.View(), 0))
    ensures Describes(fsm.View(), 0, l, Unbound(fsm.Size().0))
    ensures l.Variable? ==> l.v in FreeVars(l.body)
  {
    var builder := new Builder(fsm.View());
    l := builder.Build(0);
    assert BoundOf(builder.seen, builder.looped) == {} by {
      forall t | 0 <= t < |builder.seen| ensures !builder.seen[t] {
        assert builder.seen[t] == seq(|fsm.View().states|, _ => false)[t];
      }
    }
    WellFormedPrintable(l, builder.variables);
    assert builder.looped == Unbound(fsm.Size().0) by {
      forall t | 0 <= t < |builder.looped| ensures builder.looped[t].None? {
        assert !builder.seen[t];
      }
    }
  }

  /** Every branch list is non-empty: what the display asserts. */
  predicate Printable<R, L>(l: Local<R, L>)
    decreases l
  {
    match l
    case End => true
    case Recursion(_) => true
    case Variable(_, body) => Printable(body)
    case Transitions(bs) => |bs| > 0 && forall i :: 0 <= i < |bs| ==> Printable(bs[i].1)
  }

  lemma {:induction false} WellFormedPrintable<R, L>(l: Local<R, L>, n: nat)
    requires WellFormed(l, n)
    ensures Printable(l)
    decreases l
  {
    match l
    case End =>
    case Recursion(_) =>
    case Variable(_, body) => WellFormedPrintable(body, n);
    case Transitions(bs) =>
      forall i | 0 <= i < |bs| ensures Printable(bs[i].1) {
        WellFormedPrintable(bs[i].1, n);
      }
  }

  function VarText(v: nat): string {
    "X" + Text.NatToString(v)
  }

  /** The display of a local type. */
  function LocalText(l: Local<string, string>): (r: string)
    requires Printable(l)
    ensures r != []
    ensures r == "end" <==> l.End?
    decreases l, 1
  {
    match l
    case End => "end"
    case Recursion(v) => assert VarText(v)[0] == 'X'; VarText(v)
    case Variable(v, body) => "rec " + VarText(v) + " . " + LocalText(body)
    case Transitions(bs) =>
      if |bs| == 1 then BranchText(l, 0)
      else "[" + Text.Join(BranchTexts(l, |bs|), ", ") + "]"
  }

  function BranchText(l: Local<string, string>, i: nat): string
    requires Printable(l) && l.Transitions? && i < |l.branches|
    decreases l, 0, 0
  {
    Printers.TransitionText(l.branches[i].0) + "; " + LocalText(l.branches[i].1)
  }

  function BranchTexts(l: Local<string, string>, n: nat): (r: seq<string>)
    requires Printable(l) && l.Transitions? && n <= |l.branches|
    ensures |r| == n && forall i :: 0 <= i < n ==> r[i] == BranchText(l, i)
    decreases l, 0, n + 1
  {
    if n == 0 then [] else BranchTexts(l, n - 1) + [BranchText(l, n - 1)]
  }

  /** Several branches are bracketed and separated by commas; a single branch is not bracketed. */
  lemma BranchesText(l: Local<string, string>)
    requires Printable(l) && l.Transitions?
    ensures |l.branches| == 1 ==> LocalText(l) == BranchText(l, 0)
    ensures |l.branches| > 1 ==> LocalText(l) == "[" + BranchText(l, 0) + ", " + Text.Join(BranchTexts(l, |l.branches|)[1..], ", ") + "]"
  {
  }

  /** A self-loop on the initial state prints as a `rec` binder around its variable. */
  lemma LoopText()
    ensures LocalText(Variable(0, Transitions([(Transition("A", Output, "m"), Recursion(0))]))) == "rec X0 . A!m; X0"
  {
    var inner: Local<string, string> := Transitions([(Transition("A", Output, "m"), Recursion(0))]);
    assert Text.NatToString(0) == "0";
    assert LocalText(Recursion(0)) == "X0";
    assert BranchText(inner, 0) == "A!m; X0";
  }

  /** A choice prints as a bracketed, comma-separated list. */
  lemma ChoiceText()
    ensures LocalText(Transitions([(Transition("B", Input, "x"), Local.End), (Transition("B", Input, "y"), Local.End)])) == "[B?x; end, B?y; end]"
  {
    TwoBranchesText(Transition("B", Input, "x"), Local.End, Transition("B", Input, "y"), Local.End);
    assert Printers.TransitionText(Transition("B", Input, "x")) == "B?x";
    assert Printers.TransitionText(Transition("B", Input, "y")) == "B?y";
  }

  /** Two branches print bracketed, each as its transition and continuation, separated by a comma. */
  lemma TwoBranchesText(t1: Transition<string, string>, l1: Local<string, string>, t2: Transition<string, string>, l2: Local<string, string>)
    requires Printable(l1) && Printable(l2)
    ensures Printable(Transitions([(t1, l1), (t2, l2)]))
    ensures LocalText(Transitions([(t1, l1), (t2, l2)]))
      == "[" + (Printers.TransitionText(t1) + "; " + LocalText(l1)) + ", " + (Printers.TransitionText(t2) + "; " + LocalText(l2)) + "]"
  {
    var l := Transitions([(t1, l1), (t2, l2)]);
    assert Printable(l);
    assert BranchTexts(l, 2)[1..] == [BranchText(l, 1)];
    BranchesText(l);
  }
}
