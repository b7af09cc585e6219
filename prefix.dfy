/**
 * The buffer of actions that one side of a subtyping check has performed
 * ahead of the other: an append-only vector of entries with removed flags,
 * a cursor to the first live entry, and a log of removals so that a
 * snapshot can be reverted.
 */
module Prefixes {
  import opened Wrappers
  import Text

  /** The state of a prefix buffer: flagged entries, the cursor, and the removal log. */
  datatype PrefixState<T> = PrefixState(transitions: seq<(bool, T)>, start: nat, removed: seq<nat>)

  /** `Snapshot`: the size, cursor and log length at one moment. */
  datatype Snapshot = Snapshot(size: nat, start: nat, removed: nat)

  /**
   * The invariant the operations keep: the cursor is on a live entry or
   * at the end, an entry is flagged exactly when its index is logged, and
   * no index is logged twice.
   */
  ghost predicate Valid<T>(p: PrefixState<T>) {
    p.start <= |p.transitions|
    && (p.start < |p.transitions| ==> !p.transitions[p.start].0)
    && (forall k :: 0 <= k < |p.removed| ==> p.removed[k] < |p.transitions|)
    && (forall i :: 0 <= i < |p.transitions| ==> (p.transitions[i].0 <==> i in p.removed))
    && (forall k, l :: 0 <= k < l < |p.removed| ==> p.removed[k] != p.removed[l])
  }

  /** The live entries at or after `from`, with their indexes, in order. */
  function Entries<T>(t: seq<(bool, T)>, from: nat): (r: seq<(nat, T)>)
    ensures forall k :: 0 <= k < |r| ==> from <= r[k].0 < |t| && !t[r[k].0].0 && t[r[k].0].1 == r[k].1
    decreases |t| - from
  {
    if from >= |t| then []
    else (if t[from].0 then [] else [(from, t[from].1)]) + Entries(t, from + 1)
  }

  function Values<T>(es: seq<(nat, T)>): (r: seq<T>)
    ensures |r| == |es| && forall k :: 0 <= k < |es| ==> r[k] == es[k].1
  {
    seq(|es|, k requires 0 <= k < |es| => es[k].1)
  }

  /** `iter_full`: the live entries from the cursor on. */
  function IterFull<T>(p: PrefixState<T>): seq<(nat, T)> {
    Entries(p.transitions, p.start)
  }

  /** `iter`: the live transitions from the cursor on, in order. */
  function Live<T>(p: PrefixState<T>): seq<T> {
    Values(IterFull(p))
  }

  /** `is_empty`: the cursor has reached the end. */
  function IsEmpty<T>(p: PrefixState<T>): bool {
    p.start >= |p.transitions|
  }

  /** A prefix is empty exactly when it has no live entry. */
  lemma IsEmptyLive<T>(p: PrefixState<T>)
    requires Valid(p)
    ensures IsEmpty(p) <==> Live(p) == []
  {
    if !IsEmpty(p) {
      assert IterFull(p)[0] == (p.start, p.transitions[p.start].1);
    }
  }

  /** The entries with one index taken out. */
  function Without<T>(es: seq<(nat, T)>, i: nat): seq<(nat, T)> {
    if es == [] then []
    else (if es[0].0 == i then [] else [es[0]]) + Without(es[1..], i)
  }

  /** Exactly the entries with a different index survive, in their order. */
  lemma {:induction false} WithoutMembers<T>(es: seq<(nat, T)>, i: nat, e: (nat, T))
    ensures e in Without(es, i) <==> e in es && e.0 != i
  {
    if es != [] {
      WithoutMembers(es[1..], i, e);
      assert es == [es[0]] + es[1..];
    }
  }

  lemma {:induction false} EntriesPush<T>(t: seq<(bool, T)>, from: nat, x: T)
    requires from <= |t|
    ensures Entries(t + [(false, x)], from) == Entries(t, from) + [(|t|, x)]
    decreases |t| - from
  {
    var u := t + [(false, x)];
    if from < |t| {
      assert u[from] == t[from];
      EntriesPush(t, from + 1, x);
    }
  }

  lemma {:induction false} WithoutAppend<T>(a: seq<(nat, T)>, b: seq<(nat, T)>, i: nat)
    ensures Without(a + b, i) == Without(a, i) + Without(b, i)
  {
    if a != [] {
      assert (a + b)[1..] == a[1..] + b;
      WithoutAppend(a[1..], b, i);
    } else {
      assert a + b == b;
    }
  }

  lemma {:induction false} EntriesMark<T>(t: seq<(bool, T)>, from: nat, i: nat)
    requires i < |t| && !t[i].0
    ensures Entries(t[i := (true, t[i].1)], from) == Without(Entries(t, from), i)
    decreases |t| - from
  {
    var u := t[i := (true, t[i].1)];
    if from < |t| {
      EntriesMark(t, from + 1, i);
      var head := if t[from].0 then [] else [(from, t[from].1)];
      WithoutAppend(head, Entries(t, from + 1), i);
      assert Without(head, i) == (if u[from].0 then [] else [(from, u[from].1)]);
    }
  }

  /** Entries before `from` do not occur: marking one of them changes nothing. */
  lemma WithoutAbsent<T>(es: seq<(nat, T)>, i: nat)
    requires forall k :: 0 <= k < |es| ==> es[k].0 != i
    ensures Without(es, i) == es
  {
    if es != [] {
      WithoutAbsent(es[1..], i);
      assert es == [es[0]] + es[1..];
    }
  }

  /** The first index at or after `k` whose entry is not flagged removed. */
  function SkipRemoved<T>(t: seq<(bool, T)>, k: nat): (r: nat)
    requires k <= |t|
    ensures k <= r <= |t| && (r < |t| ==> !t[r].0)
    ensures forall j :: k <= j < r ==> t[j].0
    decreases |t| - k
  {
    if k < |t| && t[k].0 then SkipRemoved(t, k + 1) else k
  }

  /** Skipping removed entries does not change the live entries. */
  lemma {:induction false} EntriesSkip<T>(t: seq<(bool, T)>, k: nat, r: nat)
    requires k <= r <= |t| && forall j :: k <= j < r ==> t[j].0
    ensures Entries(t, r) == Entries(t, k)
    decreases r - k
  {
    if k < r {
      EntriesSkip(t, k + 1, r);
    }
  }

  /** `remove_first` on a value: the cursor moves past the first live entry and the removed ones after it. */
  function RemoveFirstState<T>(p: PrefixState<T>): PrefixState<T>
    requires Valid(p) && !IsEmpty(p)
  {
    PrefixState(p.transitions, SkipRemoved(p.transitions, p.start + 1), p.removed)
  }

  /** `remove_first` keeps the invariant and drops exactly the first live entry. */
  lemma RemoveFirstStateFacts<T>(p: PrefixState<T>)
    requires Valid(p) && !IsEmpty(p)
    ensures Valid(RemoveFirstState(p)) && Extends(p, RemoveFirstState(p))
    ensures IterFull(RemoveFirstState(p)) == IterFull(p)[1..]
    ensures Live(RemoveFirstState(p)) == Live(p)[1..]
  {
    var q := RemoveFirstState(p);
    EntriesSkip(p.transitions, p.start + 1, q.start);
    assert IterFull(p) == [(p.start, p.transitions[p.start].1)] + Entries(p.transitions, p.start + 1);
  }

  /** `remove(i)` on a value: through the cursor for the first entry, by flag and log otherwise. */
  function RemoveState<T>(p: PrefixState<T>, i: nat): PrefixState<T>
    requires Valid(p) && p.start <= i < |p.transitions| && !p.transitions[i].0
  {
    if i == p.start then RemoveFirstState(p)
    else PrefixState(p.transitions[i := (true, p.transitions[i].1)], p.start, p.removed + [i])
  }

  /** `remove(i)` keeps the invariant and takes out exactly the entry at `i`. */
  lemma RemoveStateFacts<T>(p: PrefixState<T>, i: nat)
    requires Valid(p) && p.start <= i < |p.transitions| && !p.transitions[i].0
    ensures Valid(RemoveState(p, i)) && Extends(p, RemoveState(p, i))
    ensures IterFull(RemoveState(p, i)) == Without(IterFull(p), i)
  {
    if i == p.start {
      RemoveFirstStateFacts(p);
      var es := IterFull(p);
      assert es == [(i, p.transitions[i].1)] + es[1..];
      WithoutAbsent(es[1..], i);
    } else {
      EntriesMark(p.transitions, p.start, i);
      MarkValid(p, i);
    }
  }

  lemma MarkValid<T>(p: PrefixState<T>, i: nat)
    requires Valid(p) && p.start < i < |p.transitions| && !p.transitions[i].0
    ensures var q := PrefixState(p.transitions[i := (true, p.transitions[i].1)], p.start, p.removed + [i]);
      Valid(q) && Extends(p, q)
  {
    var q := PrefixState(p.transitions[i := (true, p.transitions[i].1)], p.start, p.removed + [i]);
    assert q.removed[..|p.removed|] == p.removed;
    assert i !in p.removed;
    forall j | 0 <= j < |q.transitions|
      ensures q.transitions[j].0 <==> j in q.removed
    {
      assert j in q.removed <==> j in p.removed || j == i;
    }
  }

  /** `snapshot`. */
  function SnapshotOf<T>(p: PrefixState<T>): (s: Snapshot)
    ensures s.size == |p.transitions| && s.start == p.start && s.removed == |p.removed|
  {
    Snapshot(|p.transitions|, p.start, |p.removed|)
  }

  /** `valid_snapshot`: the snapshot is not ahead of the current state. */
  predicate ValidSnapshot<T>(p: PrefixState<T>, s: Snapshot) {
    s.removed <= |p.removed| && s.size <= |p.transitions| && s.start <= p.start
  }

  /** `is_modified`: the entries from the cursor differ from those at snapshot time. */
  function IsModified<T(==)>(p: PrefixState<T>, s: Snapshot): bool
    requires ValidSnapshot(p, s) && p.start <= |p.transitions| && s.start <= s.size
  {
    p.transitions[p.start..] != p.transitions[..s.size][s.start..]
  }

  /** Right after a snapshot nothing is modified. */
  lemma FreshSnapshotUnmodified<T>(p: PrefixState<T>)
    requires Valid(p)
    ensures ValidSnapshot(p, SnapshotOf(p)) && !IsModified(p, SnapshotOf(p))
  {
    assert p.transitions[..|p.transitions|] == p.transitions;
  }

  /**
   * `later` is reached from `earlier` by pushes and removals (and nested
   * snapshots that were reverted): the entries were only appended to, the
   * removal log only grew, and the cursor only advanced.
   */
  ghost predicate Extends<T>(earlier: PrefixState<T>, later: PrefixState<T>) {
    |earlier.transitions| <= |later.transitions|
    && (forall i :: 0 <= i < |earlier.transitions| ==> later.transitions[i].1 == earlier.transitions[i].1)
    && |earlier.removed| <= |later.removed| && later.removed[..|earlier.removed|] == earlier.removed
    && earlier.start <= later.start
  }

  lemma ExtendsReflexive<T>(p: PrefixState<T>)
    ensures Extends(p, p)
  {
  }

  lemma ExtendsTransitive<T>(a: PrefixState<T>, b: PrefixState<T>, c: PrefixState<T>)
    requires Extends(a, b) && Extends(b, c)
    ensures Extends(a, c)
  {
    assert c.removed[..|a.removed|] == c.removed[..|b.removed|][..|a.removed|];
  }

  /** A state extending an earlier one accepts that earlier one's snapshot. */
  lemma ExtendsValidSnapshot<T>(earlier: PrefixState<T>, later: PrefixState<T>)
    requires Extends(earlier, later)
    ensures ValidSnapshot(later, SnapshotOf(earlier))
  {
  }

  /** Pushing onto an unchanged cursor is a modification. */
  lemma PushModifies<T>(p: PrefixState<T>, x: T)
    requires Valid(p)
    ensures var q := PrefixState(p.transitions + [(false, x)], p.start, p.removed);
      ValidSnapshot(q, SnapshotOf(p)) && IsModified(q, SnapshotOf(p))
  {
    var q := PrefixState(p.transitions + [(false, x)], p.start, p.removed);
    assert |q.transitions[q.start..]| != |q.transitions[..|p.transitions|][p.start..]|;
  }

  /** The state `push` leaves: one more live entry, at the end. */
  function PushOf<T>(p: PrefixState<T>, x: T): (q: PrefixState<T>)
    ensures Valid(p) ==> Valid(q) && !IsEmpty(q)
  {
    PrefixState(p.transitions + [(false, x)], p.start, p.removed)
  }

  /** Display: the live transitions separated by ` . `, or `empty`. */
  function PrefixText(live: seq<string>): (s: string)
    ensures live == [] ==> s == "empty"
    ensures |live| == 1 ==> s == live[0]
  {
    if live == [] then "empty" else Text.Join(live, " . ")
  }

  class Prefix<T(==)> {
    var transitions: seq<(bool, T)>
    var start: nat
    var removed: seq<nat>

    function View(): PrefixState<T>
      reads this
    {
      PrefixState(transitions, start, removed)
    }

    /** `default`: no entries. */
    constructor ()
      ensures View() == PrefixState([], 0, []) && Valid(View())
    {
      transitions := [];
      start := 0;
      removed := [];
    }

    /** `first`: the live entry at the cursor, if any. */
    function First(): (r: Option<T>)
      reads this
      requires Valid(View())
      ensures r.None? <==> Live(View()) == []
      ensures r.Some? ==> r.value == Live(View())[0]
    {
      IsEmptyLive(View());
      if start < |transitions| then
        assert IterFull(View())[0] == (start, transitions[start].1);
        Some(transitions[start].1)
      else None
    }

    /** `push`: appends a live entry. */
    method Push(x: T)
      requires Valid(View())
      modifies this
      ensures View() == PrefixState(old(transitions) + [(false, x)], old(start), old(removed))
      ensures Valid(View()) && Extends(old(View()), View())
      ensures Live(View()) == old(Live(View())) + [x]
    {
      EntriesPush(transitions, start, x);
      transitions := transitions + [(false, x)];
    }

    /** `remove_first`: moves the cursor past the first live entry and any removed entries after it. */
    method RemoveFirst()
      requires Valid(View()) && !IsEmpty(View())
      modifies this
      ensures View() == RemoveFirstState(old(View()))
      ensures Valid(View()) && Extends(old(View()), View())
      ensures IterFull(View()) == old(IterFull(View()))[1..]
      ensures Live(View()) == old(Live(View()))[1..]
    {
      RemoveFirstStateFacts(View());
      start := start + 1;
      while start < |transitions| && transitions[start].0
        invariant transitions == old(transitions) && removed == old(removed)
        invariant old(start) < start <= |transitions|
        invariant SkipRemoved(transitions, start) == SkipRemoved(transitions, old(start) + 1)
        decreases |transitions| - start
      {
        start := start + 1;
      }
    }

    /** `remove`: takes a live entry out, through the cursor when it is the first one. */
    method Remove(i: nat)
      requires Valid(View()) && start <= i < |transitions| && !transitions[i].0
      modifies this
      ensures View() == RemoveState(old(View()), i)
      ensures Valid(View()) && Extends(old(View()), View())
      ensures IterFull(View()) == Without(old(IterFull(View())), i)
    {
      RemoveStateFacts(View(), i);
      if i == start {
        RemoveFirst();
        return;
      }
      transitions := transitions[i := (true, transitions[i].1)];
      removed := removed + [i];
    }

    /** `snapshot`. */
    function TakeSnapshot(): (s: Snapshot)
      reads this
      ensures s == SnapshotOf(View())
    {
      Snapshot(|transitions|, start, |removed|)
    }

    /** `revert`: back to exactly the state the snapshot was taken in. */
    method Revert(s: Snapshot, ghost earlier: PrefixState<T>)
      requires Valid(View()) && Valid(earlier) && Extends(earlier, View()) && s == SnapshotOf(earlier)
      modifies this
      ensures View() == earlier
    {
      ghost var now := View();
      var k := s.removed;
      while k < |removed|
        invariant s.removed <= k <= |removed| && removed == now.removed && |transitions| == |now.transitions|
        invariant forall j :: 0 <= j < |transitions| ==> transitions[j].1 == now.transitions[j].1
        invariant forall j :: 0 <= j < |transitions| ==>
          (transitions[j].0 <==> (j in removed[..s.removed] || j in removed[k..]))
      {
        var i := removed[k];
        forall j | 0 <= j < |transitions| && j != i
          ensures (j in removed[..s.removed] || j in removed[k..]) == (j in removed[..s.removed] || j in removed[k + 1..])
        {
          assert removed[k..] == [i] + removed[k + 1..];
        }
        assert i !in removed[..s.removed] && i !in removed[k + 1..];
        transitions := transitions[i := (false, transitions[i].1)];
        k := k + 1;
      }
      removed := removed[..s.removed];
      transitions := transitions[..s.size];
      start := s.start;
      assert transitions == earlier.transitions by {
        forall j | 0 <= j < |transitions| ensures transitions[j] == earlier.transitions[j] {
        }
      }
    }
  }
}
