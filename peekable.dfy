/**
 * `DoublePeekable` (generate/src/lib.rs): an iterator adapter that reads the
 * first two items up front, so that the visitor can tell a node with no
 * edges, one edge and several edges apart before it walks them. The wrapped
 * iterator is the sequence of items it has left.
 */
module Peekable {
  import opened Wrappers

  /** The items an optional slot holds: none or one. */
  function Slot<T>(o: Option<T>): (s: seq<T>)
    ensures |s| <= 1 && (o.Some? <==> |s| == 1) && (o.Some? ==> s[0] == o.value)
  {
    if o.Some? then [o.value] else []
  }

  class DoublePeekable<T> {
    var first: Option<T>
    var second: Option<T>
    var remainder: seq<T>

    /** The items still to come, in the order `next` yields them. */
    function Items(): seq<T>
      reads this
    {
      Slot(first) + Slot(second) + remainder
    }

    /** As `new` leaves it: an empty slot is never followed by an item. */
    predicate Packed()
      reads this
    {
      (first.None? ==> second.None?) && (second.None? ==> remainder == [])
    }

    /** `new`: the first two items go in the slots, the rest stay in the iterator. */
    constructor(items: seq<T>)
      ensures Items() == items && Packed()
    {
      if items == [] {
        first, second, remainder := None, None, [];
      } else if |items| == 1 {
        first, second, remainder := Some(items[0]), None, [];
      } else {
        first, second, remainder := Some(items[0]), Some(items[1]), items[2..];
      }
    }

    /** `is_empty`: the first slot is empty, which on a fresh adapter means no items at all. */
    function IsEmpty(): (empty: bool)
      reads this
      ensures Packed() ==> (empty <==> Items() == [])
    {
      first.None?
    }

    /**
     * `singleton`: when the second slot is empty, takes the first item;
     * otherwise takes nothing. On a fresh adapter it gives an item exactly
     * when there is exactly one.
     */
    method Singleton() returns (item: Option<T>)
      modifies this
      ensures old(second).None? ==> item == old(first) && first.None? && second == old(second) && remainder == old(remainder)
      ensures old(second).Some? ==> item.None? && first == old(first) && second == old(second) && remainder == old(remainder)
      ensures old(Packed()) ==> (item.Some? <==> |old(Items())| == 1)
      ensures old(Packed()) && item.Some? ==> item.value == old(Items())[0] && Items() == []
      ensures item.None? ==> Items() == old(Items())
    {
      if second.None? {
        item := first;
        first := None;
      } else {
        item := None;
      }
    }

    /** `next`: the first item, then the second, then the iterator's; nothing once all are gone. */
    method Next() returns (item: Option<T>)
      modifies this
      ensures old(Items()) == [] ==> item.None? && Items() == []
      ensures old(Items()) != [] ==> item == Some(old(Items())[0]) && Items() == old(Items())[1..]
    {
      if first.Some? {
        item := first;
        first := None;
      } else if second.Some? {
        item := second;
        second := None;
      } else if remainder != [] {
        item := Some(remainder[0]);
        remainder := remainder[1..];
      } else {
        item := None;
      }
    }
  }
}
