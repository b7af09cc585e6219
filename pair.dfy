/** A pair of values that belong to the left and the right side of a comparison. */
module Pairs {
  import opened Wrappers

  datatype Pair<T> = Pair(left: T, right: T)

  /** `swap`: the two sides exchanged. */
  function Swap<T>(p: Pair<T>): (r: Pair<T>)
    ensures r.left == p.right && r.right == p.left
  {
    Pair(p.right, p.left)
  }

  lemma SwapInvolution<T>(p: Pair<T>)
    ensures Swap(Swap(p)) == p
  {
  }

  /** `zip`: the left sides paired, and the right sides paired. */
  function Zip<T, U>(p: Pair<T>, q: Pair<U>): (r: Pair<(T, U)>)
    ensures r.left == (p.left, q.left) && r.right == (p.right, q.right)
  {
    Pair((p.left, q.left), (p.right, q.right))
  }

  /** `map`: `f` applied to both sides. */
  function Map<T, U>(p: Pair<T>, f: T -> U): (r: Pair<U>)
    ensures r.left == f(p.left) && r.right == f(p.right)
  {
    Pair(f(p.left), f(p.right))
  }

  /** Zipping and then projecting each side gives back the original pairs. */
  lemma ZipUnzip<T, U>(p: Pair<T>, q: Pair<U>)
    ensures Map(Zip(p, q), (x: (T, U)) => x.0) == p
    ensures Map(Zip(p, q), (x: (T, U)) => x.1) == q
  {
  }

  /** Conversion to a tuple, and to a two-element array, keep the order left, right. */
  function ToTuple<T>(p: Pair<T>): (r: (T, T))
    ensures r.0 == p.left && r.1 == p.right
  {
    (p.left, p.right)
  }

  function ToArray<T>(p: Pair<T>): (r: seq<T>)
    ensures |r| == 2 && r[0] == p.left && r[1] == p.right
  {
    [p.left, p.right]
  }

  /** Display: `<left, right>`. */
  function PairText(p: Pair<string>): (s: string)
    ensures s == "<" + p.left + ", " + p.right + ">"
    ensures |s| == |p.left| + |p.right| + 4
  {
    "<" + p.left + ", " + p.right + ">"
  }

  /** The iterator over a pair: each side is taken at most once, the left one first. */
  class PairIterator<T> {
    var left: Option<T>
    var right: Option<T>

    /** `into_iter`: an iterator over both sides. */
    constructor (p: Pair<T>)
      ensures left == Some(p.left) && right == Some(p.right)
    {
      left := Some(p.left);
      right := Some(p.right);
    }

    function Remaining(): (r: seq<T>)
      reads this
      ensures |r| <= 2
    {
      (if left.Some? then [left.value] else []) + (if right.Some? then [right.value] else [])
    }

    /** `next`: the first remaining side, which is removed. */
    method Next() returns (item: Option<T>)
      modifies this
      ensures old(Remaining()) == [] ==> item == None && Remaining() == []
      ensures old(Remaining()) != [] ==> item == Some(old(Remaining())[0]) && Remaining() == old(Remaining())[1..]
    {
      if left.Some? {
        item := left;
        left := None;
      } else {
        item := right;
        right := None;
      }
    }
  }

  /** Iterating a pair yields exactly its left side, then its right side. */
  method Drain<T>(p: Pair<T>) returns (items: seq<T>)
    ensures items == ToArray(p)
  {
    var it := new PairIterator(p);
    items := [];
    var next := it.Next();
    while next.Some?
      invariant next.Some? ==> items + [next.value] + it.Remaining() == [p.left, p.right]
      invariant next.None? ==> items == [p.left, p.right]
      decreases |it.Remaining()| + (if next.Some? then 1 else 0)
    {
      items := items + [next.value];
      next := it.Next();
    }
  }
}
