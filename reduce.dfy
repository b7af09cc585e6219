/**
 * `reduce`: cancelling the actions that the two prefix buffers of a
 * subtyping check have in common. Equal heads cancel; otherwise the left
 * head may be matched with a later right action, provided no action in
 * between blocks the reordering.
 */
module Reduction {
  import opened Wrappers
  import Machine
  import opened Prefixes

  /**
   * The reject rules: an input cannot be moved before an action on the
   * same role nor before any output; an output cannot be moved before an
   * output on the same role.
   */
  function Rejects<R(==), L>(left: Machine.Transition<R, L>, right: Machine.Transition<R, L>): (r: bool)
    ensures right.role == left.role && right.action == Machine.Output ==> r
    ensures right.role != left.role && right.action == Machine.Input ==> !r
    ensures left.action == Machine.Input && right.action == Machine.Output ==> r
    ensures left.action == Machine.Output && right.role != left.role ==> !r
  {
    match left.action
    case Input => right.role == left.role || right.action == Machine.Output
    case Output => right.role == left.role && right.action == Machine.Output
  }

  /** No entry before position `k` equals `left` or blocks it. */
  ghost predicate Clear<R, L>(left: Machine.Transition<R, L>, es: seq<(nat, Machine.Transition<R, L>)>, k: nat)
    requires k <= |es|
  {
    forall j :: 0 <= j < k ==> es[j].1 != left && !Rejects(left, es[j].1)
  }

  /** The scan of `reorder` after its first entry. */
  function ReorderRest<R(==), L(==)>(left: Machine.Transition<R, L>, es: seq<(nat, Machine.Transition<R, L>)>): (r: Option<Option<nat>>)
    ensures r.Some? && r.value.Some? ==> exists k :: 0 <= k < |es| && es[k] == (r.value.value, left)
  {
    if es == [] then Some(None)
    else if es[0].1 == left then (assert es[0] == (es[0].0, left); Some(Some(es[0].0)))
    else if Rejects(left, es[0].1) then None
    else
      var r := ReorderRest(left, es[1..]);
      if r.Some? && r.value.Some? then
        var k :| 0 <= k < |es[1..]| && es[1..][k] == (r.value.value, left);
        assert es[k + 1] == (r.value.value, left);
        r
      else r
  }

  lemma ReorderRestCons<R, L>(left: Machine.Transition<R, L>, x: (nat, Machine.Transition<R, L>), es: seq<(nat, Machine.Transition<R, L>)>)
    ensures ReorderRest(left, [x] + es) ==
      if x.1 == left then Some(Some(x.0)) else if Rejects(left, x.1) then None else ReorderRest(left, es)
  {
    assert ([x] + es)[1..] == es;
  }

  /**
   * `reorder`: None when an action blocks the left head, the index of the
   * first later right action equal to it, or Some(None) when there is none.
   * The first right action is only checked for blocking: it is known to
   * differ from the left head.
   */
  function Reorder<R(==), L(==)>(left: Machine.Transition<R, L>, es: seq<(nat, Machine.Transition<R, L>)>): (r: Option<Option<nat>>)
    requires es != []
    ensures r.Some? && r.value.Some? ==> exists k :: 0 < k < |es| && es[k] == (r.value.value, left)
  {
    if Rejects(left, es[0].1) then None
    else
      var r := ReorderRest(left, es[1..]);
      if r.Some? && r.value.Some? then
        var k :| 0 <= k < |es[1..]| && es[1..][k] == (r.value.value, left);
        assert es[k + 1] == (r.value.value, left);
        r
      else r
  }

  /**
   * The three outcomes of the scan: a match is the first equal entry with
   * nothing blocking before it, a rejection is the first blocking entry with
   * no match before it, and Some(None) means the whole sequence is clear.
   */
  lemma {:induction false} ReorderRestOutcomes<R, L>(left: Machine.Transition<R, L>, es: seq<(nat, Machine.Transition<R, L>)>, i: nat)
    ensures ReorderRest(left, es) == Some(Some(i)) <==>
      exists k :: 0 <= k < |es| && es[k] == (i, left) && Clear(left, es, k)
    ensures ReorderRest(left, es) == None <==>
      exists k :: 0 <= k < |es| && es[k].1 != left && Rejects(left, es[k].1) && Clear(left, es, k)
    ensures ReorderRest(left, es) == Some(None) <==> Clear(left, es, |es|)
  {
    if es != [] && es[0].1 != left && !Rejects(left, es[0].1) {
      ReorderRestOutcomes(left, es[1..], i);
      ClearShift(left, es);
      MatchShift(left, es, i);
      RejectShift(left, es);
    } else if es != [] && es[0].1 != left {
      assert Rejects(left, es[0].1) && Clear(left, es, 0);
    } else if es != [] {
      assert es[0] == (es[0].0, left) && Clear(left, es, 0);
    }
  }

  /** Past a first entry that neither matches nor blocks, being clear up to `k + 1` is being clear of the rest up to `k`. */
  lemma ClearShift<R, L>(left: Machine.Transition<R, L>, es: seq<(nat, Machine.Transition<R, L>)>)
    requires es != [] && es[0].1 != left && !Rejects(left, es[0].1)
    ensures forall k :: 0 <= k <= |es| - 1 ==> (Clear(left, es, k + 1) <==> Clear(left, es[1..], k))
  {
    forall k | 0 <= k <= |es| - 1
      ensures Clear(left, es, k + 1) <==> Clear(left, es[1..], k)
    {
      assert forall j :: 0 < j <= k ==> es[j] == es[1..][j - 1];
    }
  }

  /** Past such a first entry, a clear match in the whole sequence is a clear match in the rest. */
  lemma MatchShift<R, L>(left: Machine.Transition<R, L>, es: seq<(nat, Machine.Transition<R, L>)>, i: nat)
    requires es != [] && es[0].1 != left && !Rejects(left, es[0].1)
    ensures (exists k :: 0 <= k < |es| && es[k] == (i, left) && Clear(left, es, k))
        <==> (exists k :: 0 <= k < |es[1..]| && es[1..][k] == (i, left) && Clear(left, es[1..], k))
  {
    var rest := es[1..];
    ClearShift(left, es);
    if exists k :: 0 <= k < |es| && es[k] == (i, left) && Clear(left, es, k) {
      var k :| 0 <= k < |es| && es[k] == (i, left) && Clear(left, es, k);
      assert k > 0 && rest[k - 1] == es[k];
    }
    if exists k :: 0 <= k < |rest| && rest[k] == (i, left) && Clear(left, rest, k) {
      var k :| 0 <= k < |rest| && rest[k] == (i, left) && Clear(left, rest, k);
      assert es[k + 1] == rest[k];
    }
  }

  /** Past such a first entry, a clear blocking entry in the whole sequence is one in the rest. */
  lemma RejectShift<R, L>(left: Machine.Transition<R, L>, es: seq<(nat, Machine.Transition<R, L>)>)
    requires es != [] && es[0].1 != left && !Rejects(left, es[0].1)
    ensures (exists k :: 0 <= k < |es| && es[k].1 != left && Rejects(left, es[k].1) && Clear(left, es, k))
        <==> (exists k :: 0 <= k < |es[1..]| && es[1..][k].1 != left && Rejects(left, es[1..][k].1) && Clear(left, es[1..], k))
  {
    var rest := es[1..];
    ClearShift(left, es);
    if exists k :: 0 <= k < |es| && es[k].1 != left && Rejects(left, es[k].1) && Clear(left, es, k) {
      var k :| 0 <= k < |es| && es[k].1 != left && Rejects(left, es[k].1) && Clear(left, es, k);
      assert k > 0 && rest[k - 1] == es[k];
    }
    if exists k :: 0 <= k < |rest| && rest[k].1 != left && Rejects(left, rest[k].1) && Clear(left, rest, k) {
      var k :| 0 <= k < |rest| && rest[k].1 != left && Rejects(left, rest[k].1) && Clear(left, rest, k);
      assert es[k + 1] == rest[k];
    }
  }

  /** The first live entry of a non-empty buffer. */
  function Head<T>(p: PrefixState<T>): T
    requires !IsEmpty(p)
  {
    p.transitions[p.start].1
  }

  lemma HeadLive<T>(p: PrefixState<T>)
    requires Valid(p) && !IsEmpty(p)
    ensures IterFull(p) != [] && IterFull(p)[0] == (p.start, Head(p)) && Live(p)[0] == Head(p)
  {
    assert IterFull(p)[0] == (p.start, p.transitions[p.start].1);
  }

  /** An index that `Reorder` returns on a buffer's entries is a live entry holding the left head. */
  lemma ReorderIndex<R, L>(left: Machine.Transition<R, L>, p: PrefixState<Machine.Transition<R, L>>, i: nat)
    requires Valid(p) && !IsEmpty(p) && Reorder(left, IterFull(p)) == Some(Some(i))
    ensures p.start <= i < |p.transitions| && !p.transitions[i].0 && p.transitions[i].1 == left
  {
    HeadLive(p);
  }

  /**
   * The outcome of `reduce` and the buffers it leaves. A failure stops at
   * two live heads that differ.
   */
  function ReduceSpec<R(==), L(==)>(l: PrefixState<Machine.Transition<R, L>>, r: PrefixState<Machine.Transition<R, L>>): (result: (bool, PrefixState<Machine.Transition<R, L>>, PrefixState<Machine.Transition<R, L>>))
    requires Valid(l) && Valid(r)
    ensures !result.0 ==> !IsEmpty(result.1) && !IsEmpty(result.2) && Head(result.1) != Head(result.2)
    decreases |Live(l)|
  {
    if IsEmpty(l) || IsEmpty(r) then (true, l, r)
    else
      RemoveFirstStateFacts(l);
      HeadLive(r);
      if Head(l) == Head(r) then
        RemoveFirstStateFacts(r);
        ReduceSpec(RemoveFirstState(l), RemoveFirstState(r))
      else
        match Reorder(Head(l), IterFull(r))
        case Some(Some(i)) =>
          ReorderIndex(Head(l), r, i);
          RemoveStateFacts(r, i);
          ReduceSpec(RemoveFirstState(l), RemoveState(r, i))
        case Some(None) => (true, l, r)
        case None => (false, l, r)
  }

  /**
   * One round of the `reduce` loop: it either stops on the buffers as they
   * are, or takes the left head off the left buffer and its match off the
   * right one and goes on from there.
   */
  lemma ReduceStep<R, L>(l: PrefixState<Machine.Transition<R, L>>, r: PrefixState<Machine.Transition<R, L>>)
    returns (l1: PrefixState<Machine.Transition<R, L>>, r1: PrefixState<Machine.Transition<R, L>>, stops: bool)
    requires Valid(l) && Valid(r)
    ensures stops ==> ReduceSpec(l, r).1 == l && ReduceSpec(l, r).2 == r
    ensures stops && ReduceSpec(l, r).0 ==>
      IsEmpty(l) || IsEmpty(r) || (Head(l) != Head(r) && Reorder(Head(l), IterFull(r)) == Some(None))
    ensures stops && !ReduceSpec(l, r).0 ==>
      !IsEmpty(l) && !IsEmpty(r) && Head(l) != Head(r) && Reorder(Head(l), IterFull(r)) == None
    ensures !stops ==> Valid(l1) && Valid(r1) && Extends(l, l1) && Extends(r, r1)
    ensures !stops ==> |Live(l1)| < |Live(l)| && ReduceSpec(l, r) == ReduceSpec(l1, r1)
  {
    l1, r1, stops := l, r, true;
    if !IsEmpty(l) && !IsEmpty(r) {
      RemoveFirstStateFacts(l);
      HeadLive(l);
      HeadLive(r);
      l1 := RemoveFirstState(l);
      if Head(l) == Head(r) {
        RemoveFirstStateFacts(r);
        r1, stops := RemoveFirstState(r), false;
      } else if Reorder(Head(l), IterFull(r)).Some? && Reorder(Head(l), IterFull(r)).value.Some? {
        var i := Reorder(Head(l), IterFull(r)).value.value;
        ReorderIndex(Head(l), r, i);
        RemoveStateFacts(r, i);
        r1, stops := RemoveState(r, i), false;
      }
    }
  }

  /** `reduce` keeps both buffers valid and only removes entries from them. */
  lemma {:induction false} ReduceExtends<R, L>(l: PrefixState<Machine.Transition<R, L>>, r: PrefixState<Machine.Transition<R, L>>)
    requires Valid(l) && Valid(r)
    ensures var (_, l', r') := ReduceSpec(l, r);
      Valid(l') && Valid(r') && Extends(l, l') && Extends(r, r')
    decreases |Live(l)|
  {
    var l1, r1, stops := ReduceStep(l, r);
    if stops {
      ExtendsReflexive(l);
      ExtendsReflexive(r);
    } else {
      ReduceExtends(l1, r1);
      var (_, l', r') := ReduceSpec(l1, r1);
      ExtendsTransitive(l, l1, l');
      ExtendsTransitive(r, r1, r');
    }
  }

  /**
   * Where `reduce` stops: a success leaves one buffer empty, or two
   * different heads with no later right action to match; a failure leaves
   * a right action blocking the left head.
   */
  lemma {:induction false} ReduceStops<R, L>(l: PrefixState<Machine.Transition<R, L>>, r: PrefixState<Machine.Transition<R, L>>)
    requires Valid(l) && Valid(r)
    ensures var (ok, l', r') := ReduceSpec(l, r);
      Valid(l') && Valid(r')
      && (ok ==> IsEmpty(l') || IsEmpty(r') || (Head(l') != Head(r') && Reorder(Head(l'), IterFull(r')) == Some(None)))
      && (!ok ==> !IsEmpty(l') && !IsEmpty(r') && Head(l') != Head(r') && Reorder(Head(l'), IterFull(r')) == None)
    decreases |Live(l)|
  {
    ReduceExtends(l, r);
    var l1, r1, stops := ReduceStep(l, r);
    if !stops {
      ReduceStops(l1, r1);
    }
  }

  /** Two buffers holding the same live actions cancel completely. */
  lemma {:induction false} ReduceIdentical<R, L>(l: PrefixState<Machine.Transition<R, L>>, r: PrefixState<Machine.Transition<R, L>>)
    requires Valid(l) && Valid(r) && Live(l) == Live(r)
    ensures var (ok, l', r') := ReduceSpec(l, r);
      ok && IsEmpty(l') && IsEmpty(r')
    decreases |Live(l)|
  {
    IsEmptyLive(l);
    IsEmptyLive(r);
    if !IsEmpty(l) {
      HeadLive(l);
      HeadLive(r);
      RemoveFirstStateFacts(l);
      RemoveFirstStateFacts(r);
      ReduceIdentical(RemoveFirstState(l), RemoveFirstState(r));
    }
  }

  /** An entry below every index of a strictly increasing list keeps it strictly increasing when put in front. */
  lemma ConsIncreasing<T>(x: (nat, T), rest: seq<(nat, T)>)
    requires forall k :: 0 <= k < |rest| ==> x.0 < rest[k].0
    requires forall a, b :: 0 <= a < b < |rest| ==> rest[a].0 < rest[b].0
    ensures forall a, b :: 0 <= a < b < |[x] + rest| ==> ([x] + rest)[a].0 < ([x] + rest)[b].0
  {
    var es := [x] + rest;
    forall a, b | 0 <= a < b < |es|
      ensures es[a].0 < es[b].0
    {
      assert es[b] == rest[b - 1];
      if a > 0 {
        assert es[a] == rest[a - 1];
      }
    }
  }

  /** The live entries of a buffer have strictly increasing indexes. */
  lemma {:induction false} EntriesIncreasing<T>(t: seq<(bool, T)>, from: nat)
    ensures forall a, b :: 0 <= a < b < |Entries(t, from)| ==> Entries(t, from)[a].0 < Entries(t, from)[b].0
    decreases |t| - from
  {
    if from < |t| {
      EntriesIncreasing(t, from + 1);
      var rest := Entries(t, from + 1);
      var es := Entries(t, from);
      if !t[from].0 {
        assert es == [(from, t[from].1)] + rest;
        ConsIncreasing((from, t[from].1), rest);
      } else {
        assert es == rest;
      }
    }
  }

  lemma ValuesCons<T>(es: seq<(nat, T)>)
    requires es != []
    ensures Values(es) == [es[0].1] + Values(es[1..])
  {
  }

  /** Taking out the only entry with a given index removes exactly its value. */
  lemma {:induction false} WithoutOne<T>(es: seq<(nat, T)>, k: nat)
    requires k < |es| && forall j :: 0 <= j < |es| && j != k ==> es[j].0 != es[k].0
    ensures multiset(Values(Without(es, es[k].0))) + multiset{es[k].1} == multiset(Values(es))
  {
    var rest := es[1..];
    var i := es[k].0;
    ValuesCons(es);
    if k == 0 {
      forall j | 0 <= j < |rest|
        ensures rest[j].0 != i
      {
        assert rest[j] == es[j + 1];
      }
      WithoutAbsent(rest, i);
      assert Without(es, i) == rest;
    } else {
      forall j | 0 <= j < |rest| && j != k - 1
        ensures rest[j].0 != rest[k - 1].0
      {
        assert rest[j] == es[j + 1];
      }
      WithoutOne(rest, k - 1);
      var w := Without(rest, i);
      assert Without(es, i) == [es[0]] + w;
      ValuesCons([es[0]] + w);
      assert ([es[0]] + w)[1..] == w;
    }
  }

  lemma MultisetStep<T>(a: multiset<T>, a1: multiset<T>, a2: multiset<T>, b: multiset<T>, b1: multiset<T>, b2: multiset<T>, h: T)
    requires a == a1 + multiset{h} && b == b1 + multiset{h}
    requires a2 <= a1 && b2 <= b1 && a1 - a2 == b1 - b2
    ensures a2 <= a && b2 <= b && a - a2 == b - b2
  {
    assert a - a2 == (a1 - a2) + multiset{h};
    assert b - b2 == (b1 - b2) + multiset{h};
  }

  /** Removing the first entry takes the head out of the live actions. */
  lemma CancelFirst<T>(p: PrefixState<T>)
    requires Valid(p) && !IsEmpty(p)
    ensures Valid(RemoveFirstState(p)) && multiset(Live(p)) == multiset(Live(RemoveFirstState(p))) + multiset{Head(p)}
  {
    RemoveFirstStateFacts(p);
    HeadLive(p);
    MultisetFirst(Live(p), Live(RemoveFirstState(p)), Head(p));
  }

  /** A sequence's multiset is its first element's added to that of the rest. */
  lemma MultisetFirst<T>(l: seq<T>, rest: seq<T>, h: T)
    requires l != [] && l[0] == h && rest == l[1..]
    ensures multiset(l) == multiset(rest) + multiset{h}
  {
    assert l == [h] + rest;
  }

  /** Removing the entry at position `k` of the live entries takes its value out. */
  lemma CancelAt<T>(p: PrefixState<T>, k: nat)
    requires Valid(p) && k < |IterFull(p)| && p.start <= IterFull(p)[k].0
    ensures var i := IterFull(p)[k].0;
      i < |p.transitions| && !p.transitions[i].0
      && Valid(RemoveState(p, i)) && multiset(Live(p)) == multiset(Live(RemoveState(p, i))) + multiset{IterFull(p)[k].1}
  {
    var es := IterFull(p);
    var i := es[k].0;
    RemoveStateFacts(p, i);
    EntriesIncreasing(p.transitions, p.start);
    forall j | 0 <= j < |es| && j != k
      ensures es[j].0 != es[k].0
    {
      if j < k {
        assert es[j].0 < es[k].0;
      } else {
        assert es[k].0 < es[j].0;
      }
    }
    WithoutOne(es, k);
  }

  /**
   * `reduce` cancels the same actions on both sides: what it takes out of
   * the left buffer is exactly what it takes out of the right one.
   */
  lemma {:induction false} ReduceCancels<R, L>(l: PrefixState<Machine.Transition<R, L>>, r: PrefixState<Machine.Transition<R, L>>)
    requires Valid(l) && Valid(r)
    ensures var (_, l', r') := ReduceSpec(l, r);
      multiset(Live(l')) <= multiset(Live(l)) && multiset(Live(r')) <= multiset(Live(r))
      && multiset(Live(l)) - multiset(Live(l')) == multiset(Live(r)) - multiset(Live(r'))
    decreases |Live(l)|
  {
    if !IsEmpty(l) && !IsEmpty(r) {
      CancelFirst(l);
      RemoveFirstStateFacts(l);
      HeadLive(r);
      var l1 := RemoveFirstState(l);
      var r1: PrefixState<Machine.Transition<R, L>>;
      if Head(l) == Head(r) {
        CancelFirst(r);
        r1 := RemoveFirstState(r);
      } else if Reorder(Head(l), IterFull(r)).Some? && Reorder(Head(l), IterFull(r)).value.Some? {
        var i := Reorder(Head(l), IterFull(r)).value.value;
        var k :| 0 < k < |IterFull(r)| && IterFull(r)[k] == (i, Head(l));
        ReorderIndex(Head(l), r, i);
        CancelAt(r, k);
        r1 := RemoveState(r, i);
      } else {
        return;
      }
      ReduceCancels(l1, r1);
      var (_, l', r') := ReduceSpec(l1, r1);
      assert ReduceSpec(l, r) == ReduceSpec(l1, r1);
      MultisetStep(multiset(Live(l)), multiset(Live(l1)), multiset(Live(l')),
                   multiset(Live(r)), multiset(Live(r1)), multiset(Live(r')), Head(l));
    }
  }

  /** The `reorder` scan over a buffer's live entries. */
  method ReorderScan<R(==), L(==)>(left: Machine.Transition<R, L>, p: Prefix<Machine.Transition<R, L>>) returns (r: Option<Option<nat>>)
    requires Valid(p.View()) && !IsEmpty(p.View())
    ensures r == Reorder(left, IterFull(p.View()))
  {
    var rights := IterFull(p.View());
    HeadLive(p.View());
    if Rejects(left, rights[0].1) {
      return None;
    }
    var k := 1;
    while k < |rights|
      invariant 1 <= k <= |rights|
      invariant ReorderRest(left, rights[k..]) == ReorderRest(left, rights[1..])
    {
      assert rights[k..] == [rights[k]] + rights[k + 1..];
      ReorderRestCons(left, rights[k], rights[k + 1..]);
      if rights[k].1 == left {
        return Some(Some(rights[k].0));
      }
      if Rejects(left, rights[k].1) {
        return None;
      }
      k := k + 1;
    }
    r := Some(None);
  }

  /** `reduce`: cancels actions of the two buffers in place and reports whether no action blocked. */
  method Reduce<R(==), L(==)>(pl: Prefix<Machine.Transition<R, L>>, pr: Prefix<Machine.Transition<R, L>>) returns (ok: bool)
    requires pl != pr && Valid(pl.View()) && Valid(pr.View())
    modifies pl, pr
    ensures (ok, pl.View(), pr.View()) == ReduceSpec(old(pl.View()), old(pr.View()))
  {
    while pl.First().Some? && pr.First().Some?
      invariant Valid(pl.View()) && Valid(pr.View())
      invariant ReduceSpec(pl.View(), pr.View()) == ReduceSpec(old(pl.View()), old(pr.View()))
      decreases |Live(pl.View())|
    {
      var left := pl.First().value;
      var right := pr.First().value;
      IsEmptyLive(pl.View());
      IsEmptyLive(pr.View());
      HeadLive(pl.View());
      HeadLive(pr.View());
      RemoveFirstStateFacts(pl.View());
      if left == right {
        pl.RemoveFirst();
        pr.RemoveFirst();
        continue;
      }
      var i := ReorderScan(left, pr);
      match i
      case Some(Some(j)) =>
        ReorderIndex(left, pr.View(), j);
        pl.RemoveFirst();
        pr.Remove(j);
      case Some(None) =>
        return true;
      case None =>
        return false;
    }
    IsEmptyLive(pl.View());
    IsEmptyLive(pr.View());
    ok := true;
  }
}
