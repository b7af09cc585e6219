/** Row-major matrices indexed by a pair of coordinates, used as the subtyping history. */
module Matrices {
  import opened Pairs

  predicate InBounds(index: Pair<nat>, dimensions: Pair<nat>) {
    index.left < dimensions.left && index.right < dimensions.right
  }

  /** The row-major offset of an in-bounds index. */
  function Offset(index: Pair<nat>, dimensions: Pair<nat>): (o: nat)
    requires InBounds(index, dimensions)
    ensures o < dimensions.left * dimensions.right
  {
    OffsetBound(index, dimensions);
    index.left * dimensions.right + index.right
  }

  lemma OffsetBound(index: Pair<nat>, dimensions: Pair<nat>)
    requires InBounds(index, dimensions)
    ensures index.left * dimensions.right + index.right < dimensions.left * dimensions.right
  {
    var i, r := index.left, dimensions.right;
    assert (i + 1) * r <= dimensions.left * r by {
      MultiplyMonotone(i + 1, dimensions.left, r);
    }
  }

  lemma MultiplyMonotone(a: nat, b: nat, c: nat)
    requires a <= b
    ensures a * c <= b * c
  {
  }

  /** Distinct in-bounds indexes have distinct offsets. */
  lemma OffsetInjective(a: Pair<nat>, b: Pair<nat>, dimensions: Pair<nat>)
    requires InBounds(a, dimensions) && InBounds(b, dimensions) && a != b
    ensures Offset(a, dimensions) != Offset(b, dimensions)
  {
    var r := dimensions.right;
    if a.left < b.left {
      MultiplyMonotone(a.left + 1, b.left, r);
    } else if b.left < a.left {
      MultiplyMonotone(b.left + 1, a.left, r);
    }
  }

  /** Every cell is reached by exactly one in-bounds index. */
  lemma OffsetOnto(o: nat, dimensions: Pair<nat>)
    requires o < dimensions.left * dimensions.right
    ensures dimensions.right > 0
    ensures InBounds(Pair(o / dimensions.right, o % dimensions.right), dimensions)
    ensures Offset(Pair(o / dimensions.right, o % dimensions.right), dimensions) == o
  {
    var r := dimensions.right;
    if o / r >= dimensions.left {
      MultiplyMonotone(dimensions.left, o / r, r);
    }
  }

  class Matrix<T> {
    const dimensions: Pair<nat>
    const cells: array<T>

    ghost predicate Valid()
      reads this
    {
      cells.Length == dimensions.left * dimensions.right
    }

    /** `new`: `left * right` cells holding `value` (the default value in the older revision). */
    constructor (dimensions: Pair<nat>, value: T)
      ensures this.dimensions == dimensions && Valid() && fresh(cells)
      ensures forall i :: 0 <= i < cells.Length ==> cells[i] == value
    {
      this.dimensions := dimensions;
      cells := new T[dimensions.left * dimensions.right](_ => value);
    }

    /** `get` / `Index`: the cell at the index's offset. */
    function Get(index: Pair<nat>): (v: T)
      reads this, cells
      requires Valid() && InBounds(index, dimensions)
      ensures v == cells[Offset(index, dimensions)]
    {
      cells[Offset(index, dimensions)]
    }

    /** `set` / `IndexMut`: writes the addressed cell and no other. */
    method Set(index: Pair<nat>, value: T)
      requires Valid() && InBounds(index, dimensions)
      modifies cells
      ensures Valid() && Get(index) == value
      ensures forall other :: InBounds(other, dimensions) && other != index ==> Get(other) == old(Get(other))
      ensures cells[..] == old(cells[..])[Offset(index, dimensions) := value]
    {
      cells[Offset(index, dimensions)] := value;
      forall other | InBounds(other, dimensions) && other != index
        ensures Get(other) == old(Get(other))
      {
        OffsetInjective(other, index, dimensions);
      }
    }
  }

  /** `BitMatrix::new`: a matrix of bits, all clear. */
  method NewBitMatrix(dimensions: Pair<nat>) returns (m: Matrix<bool>)
    ensures m.dimensions == dimensions && m.Valid() && fresh(m.cells)
    ensures forall index :: InBounds(index, dimensions) ==> !m.Get(index)
    ensures forall i :: 0 <= i < m.cells.Length ==> !m.cells[i]
  {
    m := new Matrix(dimensions, false);
  }
}
