/**
 * The loops of `unroll` as functions of their inputs: the outer loop over
 * one side's transitions, the inner loop over the other side's, the
 * quantifiers over their results with their early stop, and the rows of
 * results they leave. A visit of the pair of targets is a parameter.
 */
module Unrolling {
  import Machine
  import opened Prefixes
  datatype Quantifier = All | Any

  /** The result that ends a quantifier's scan early: true for Any, false for All. */
  function Decisive(q: Quantifier): bool {
    q == Any
  }

  /** A quantifier over the results of a row of visits. */
  function Quantify(q: Quantifier, results: seq<bool>): (r: bool)
    ensures q == All ==> (r <==> forall k :: 0 <= k < |results| ==> results[k])
    ensures q == Any ==> (r <==> exists k :: 0 <= k < |results| && results[k])
  {
    if q == All then false !in results else true in results
  }

  /**
   * A row of visits for one outer transition: it stops at the first
   * decisive result, and only a decisive result stops it early.
   */
  predicate RowShape(row: seq<bool>, n: nat, q: Quantifier) {
    |row| <= n
    && (forall k :: 0 <= k < |row| - 1 ==> row[k] != Decisive(q))
    && (|row| < n ==> row != [] && row[|row| - 1] == Decisive(q))
  }

  /** The rows of `unroll`, with the same early stop on the outer level. */
  predicate Shape(rows: seq<seq<bool>>, outer: nat, inner: nat, qo: Quantifier, qi: Quantifier) {
    |rows| <= outer
    && (forall m :: 0 <= m < |rows| ==> RowShape(rows[m], inner, qi))
    && (forall m :: 0 <= m < |rows| - 1 ==> Quantify(qi, rows[m]) != Decisive(qo))
    && (|rows| < outer ==> rows != [] && Quantify(qi, rows[|rows| - 1]) == Decisive(qo))
  }

  function Outcomes(rows: seq<seq<bool>>, q: Quantifier): (r: seq<bool>)
    ensures |r| == |rows| && forall m :: 0 <= m < |rows| ==> r[m] == Quantify(q, rows[m])
  {
    seq(|rows|, m requires 0 <= m < |rows| => Quantify(q, rows[m]))
  }

  /**
   * Stopping early does not change a quantifier's value: a row that stops
   * as `RowShape` says gives the same answer as all the results would.
   */
  lemma ShortCircuit(q: Quantifier, row: seq<bool>, all: seq<bool>)
    requires RowShape(row, |all|, q) && row <= all
    ensures Quantify(q, row) == Quantify(q, all)
  {
    if |row| < |all| {
      assert all[|row| - 1] == row[|row| - 1];
    } else {
      assert row == all;
    }
  }

  /** A quantifier whose last result is decisive has that value. */
  lemma QuantifyLast(q: Quantifier, results: seq<bool>)
    requires results != [] && results[|results| - 1] == Decisive(q)
    ensures Quantify(q, results) == Decisive(q)
  {
  }

  /** A quantifier with no decisive result keeps its starting value. */
  lemma QuantifyNone(q: Quantifier, results: seq<bool>)
    requires forall k :: 0 <= k < |results| ==> results[k] != Decisive(q)
    ensures Quantify(q, results) == (q == All)
  {
  }

  type Buffer<R, L> = PrefixState<Machine.Transition<R, L>>

  /** What a visit leaves: its answer, the rows of visits if it explored, and the two buffers. */
  datatype Visited<R, L> = Visited(answer: bool, rows: seq<seq<bool>>, leftBuffer: Buffer<R, L>, rightBuffer: Buffer<R, L>)

  /** What a row of visits leaves: its answer, the results of its visits, and the two buffers. */
  datatype Tried<R, L> = Tried(answer: bool, row: seq<bool>, leftBuffer: Buffer<R, L>, rightBuffer: Buffer<R, L>)

  /** The left one of two, or the right one. */
  function Pick<T>(rightSide: bool, l: T, r: T): T {
    if rightSide then r else l
  }

  /**
   * How the pairs of targets below a pair are visited: given the two
   * buffers and the pair of states, what the visit leaves.
   */
  type Visiting<!R, !L> = (Buffer<R, L>, Buffer<R, L>, nat, nat) -> Visited<R, L>

  /**
   * `unroll` from the `k`-th outer transition on, with `eo` and `ei` the
   * outer and the inner buffer as `unroll` was entered with them: each
   * outer transition gives a row, and the rows stop at the first one
   * whose result is decisive for the outer quantifier.
   */
  ghost function UnrollOf<R, L>(visit: Visiting<R, L>,
                                outer: seq<(nat, Machine.Transition<R, L>)>, inner: seq<(nat, Machine.Transition<R, L>)>,
                                qo: Quantifier, qi: Quantifier, swap: bool, eo: Buffer<R, L>, ei: Buffer<R, L>,
                                k: nat, pl: Buffer<R, L>, pr: Buffer<R, L>): (v: Visited<R, L>)
    decreases |outer| - k
  {
    if k >= |outer| then Visited(qo == All, [], pl, pr)
    else
      var b := BranchOf(visit, outer[k], inner, qi, swap, eo, ei, pl, pr);
      if b.answer == Decisive(qo) then Visited(b.answer, [b.row], b.leftBuffer, b.rightBuffer)
      else
        var rest := UnrollOf(visit, outer, inner, qo, qi, swap, eo, ei, k + 1, b.leftBuffer, b.rightBuffer);
        Visited(rest.answer, [b.row] + rest.rows, rest.leftBuffer, rest.rightBuffer)
  }

  /**
   * One outer transition `x`: the outer buffer is set back to `eo` and
   * `x`'s transition pushed on it, and the row of inner transitions is tried.
   */
  ghost function BranchOf<R, L>(visit: Visiting<R, L>,
                                x: (nat, Machine.Transition<R, L>), inner: seq<(nat, Machine.Transition<R, L>)>,
                                qi: Quantifier, swap: bool, eo: Buffer<R, L>, ei: Buffer<R, L>,
                                pl: Buffer<R, L>, pr: Buffer<R, L>): (v: Tried<R, L>)
  {
    var pushed := PushOf(eo, x.1);
    RowOf(visit, x.0, inner, qi, swap, ei, 0, Pick(swap, pushed, pl), Pick(swap, pr, pushed))
  }

  /**
   * The inner loop of `unroll` from the `j`-th inner transition on, for
   * the outer target `state`: each inner transition is tried in turn
   * until the first result decisive for the inner quantifier.
   */
  ghost function RowOf<R, L>(visit: Visiting<R, L>,
                             state: nat, inner: seq<(nat, Machine.Transition<R, L>)>, qi: Quantifier, swap: bool,
                             ei: Buffer<R, L>, j: nat, pl: Buffer<R, L>, pr: Buffer<R, L>): (v: Tried<R, L>)
    decreases |inner| - j
  {
    if j >= |inner| then Tried(qi == All, [], pl, pr)
    else
      var y := TryOf(visit, state, inner[j], swap, ei, Pick(swap, pl, pr));
      if y.answer == Decisive(qi) then Tried(y.answer, [y.answer], y.leftBuffer, y.rightBuffer)
      else
        var rest := RowOf(visit, state, inner, qi, swap, ei, j + 1, y.leftBuffer, y.rightBuffer);
        Tried(rest.answer, [y.answer] + rest.row, rest.leftBuffer, rest.rightBuffer)
  }

  /**
   * One inner transition `y` against the outer target `state`, with the
   * outer buffer `po`: the inner buffer is set back to `ei` and `y`'s
   * transition pushed on it, and the two targets are visited.
   */
  ghost function TryOf<R, L>(visit: Visiting<R, L>,
                             state: nat, y: (nat, Machine.Transition<R, L>), swap: bool,
                             ei: Buffer<R, L>, po: Buffer<R, L>): (v: Visited<R, L>)
  {
    var pushed := PushOf(ei, y.1);
    if swap then visit(pushed, po, y.0, state) else visit(po, pushed, state, y.0)
  }

  /** The row of one outer transition stops at its first decisive result, and its answer is the quantifier over its results. */
  lemma BranchOfShape<R, L>(visit: Visiting<R, L>,
                            x: (nat, Machine.Transition<R, L>), inner: seq<(nat, Machine.Transition<R, L>)>,
                            qi: Quantifier, swap: bool, eo: Buffer<R, L>, ei: Buffer<R, L>,
                            pl: Buffer<R, L>, pr: Buffer<R, L>)
    ensures var b := BranchOf(visit, x, inner, qi, swap, eo, ei, pl, pr);
      RowShape(b.row, |inner|, qi) && b.answer == Quantify(qi, b.row)
  {
    var pushed := PushOf(eo, x.1);
    RowOfShape(visit, x.0, inner, qi, swap, ei, 0, Pick(swap, pushed, pl), Pick(swap, pr, pushed));
  }

  /** A row stops at its first decisive result, and its answer is the quantifier over its results. */
  lemma {:induction false} RowOfShape<R, L>(visit: Visiting<R, L>,
                                            state: nat, inner: seq<(nat, Machine.Transition<R, L>)>, qi: Quantifier, swap: bool,
                                            ei: Buffer<R, L>, j: nat, pl: Buffer<R, L>, pr: Buffer<R, L>)
    requires j <= |inner|
    ensures var v := RowOf(visit, state, inner, qi, swap, ei, j, pl, pr);
      RowShape(v.row, |inner| - j, qi) && v.answer == Quantify(qi, v.row)
    decreases |inner| - j
  {
    if j < |inner| {
      var y := TryOf(visit, state, inner[j], swap, ei, Pick(swap, pl, pr));
      if y.answer != Decisive(qi) {
        RowOfShape(visit, state, inner, qi, swap, ei, j + 1, y.leftBuffer, y.rightBuffer);
        var rest := RowOf(visit, state, inner, qi, swap, ei, j + 1, y.leftBuffer, y.rightBuffer);
        RowGoesOn(y.answer, rest.row, |inner| - j, qi);
      }
    }
  }

  /** A result that is not decisive leaves the row's result to the results after it. */
  lemma RowGoesOn(x: bool, rest: seq<bool>, n: nat, q: Quantifier)
    requires n > 0 && x != Decisive(q) && RowShape(rest, n - 1, q)
    ensures RowShape([x] + rest, n, q) && Quantify(q, [x] + rest) == Quantify(q, rest)
  {
  }

  /** The rows stop at the first decisive row, and the answer is the outer quantifier over the rows' results. */
  lemma UnrollOfShape<R, L>(visit: Visiting<R, L>,
                            outer: seq<(nat, Machine.Transition<R, L>)>, inner: seq<(nat, Machine.Transition<R, L>)>,
                            qo: Quantifier, qi: Quantifier, swap: bool, eo: Buffer<R, L>, ei: Buffer<R, L>,
                            k: nat, pl: Buffer<R, L>, pr: Buffer<R, L>)
    requires k <= |outer|
    ensures var v := UnrollOf(visit, outer, inner, qo, qi, swap, eo, ei, k, pl, pr);
      Shape(v.rows, |outer| - k, |inner|, qo, qi) && v.answer == Quantify(qo, Outcomes(v.rows, qi))
  {
    UnrollOfRows(visit, outer, inner, qo, qi, swap, eo, ei, k, pl, pr);
    var v := UnrollOf(visit, outer, inner, qo, qi, swap, eo, ei, k, pl, pr);
    RowsFromShape(v.rows, |outer| - k, |inner|, qo, qi, v.answer);
  }

  /**
   * `Shape` and the outer answer taken one row at a time: each row has
   * its own shape, a decisive row is the last and gives the answer, and
   * no rows at all give the quantifier's starting value.
   */
  predicate RowsFrom(rows: seq<seq<bool>>, n: nat, ni: nat, qo: Quantifier, qi: Quantifier, answer: bool)
    decreases |rows|
  {
    if rows == [] then n == 0 && answer == (qo == All)
    else
      n > 0 && RowShape(rows[0], ni, qi)
      && if Quantify(qi, rows[0]) == Decisive(qo) then |rows| == 1 && answer == Decisive(qo)
         else RowsFrom(rows[1..], n - 1, ni, qo, qi, answer)
  }

  lemma {:induction false} RowsFromShape(rows: seq<seq<bool>>, n: nat, ni: nat, qo: Quantifier, qi: Quantifier, answer: bool)
    requires RowsFrom(rows, n, ni, qo, qi, answer)
    ensures Shape(rows, n, ni, qo, qi) && answer == Quantify(qo, Outcomes(rows, qi))
    decreases |rows|
  {
    if rows != [] {
      if Quantify(qi, rows[0]) == Decisive(qo) {
        assert rows == [rows[0]];
        RowsStop(rows[0], n, ni, qo, qi);
      } else {
        RowsFromShape(rows[1..], n - 1, ni, qo, qi, answer);
        assert rows == [rows[0]] + rows[1..];
        RowsGoOn(rows[0], rows[1..], n, ni, qo, qi);
      }
    }
  }

  /** A single row whose result is decisive makes the rows' shape and result. */
  lemma RowsStop(row: seq<bool>, n: nat, ni: nat, qo: Quantifier, qi: Quantifier)
    requires n > 0 && RowShape(row, ni, qi) && Quantify(qi, row) == Decisive(qo)
    ensures Shape([row], n, ni, qo, qi) && Quantify(qo, Outcomes([row], qi)) == Decisive(qo)
  {
    assert Outcomes([row], qi) == [Quantify(qi, row)];
  }

  /** A row whose result is not decisive leaves the shape and the result to the rows after it. */
  lemma RowsGoOn(row: seq<bool>, rest: seq<seq<bool>>, n: nat, ni: nat, qo: Quantifier, qi: Quantifier)
    requires n > 0 && RowShape(row, ni, qi) && Quantify(qi, row) != Decisive(qo) && Shape(rest, n - 1, ni, qo, qi)
    ensures Shape([row] + rest, n, ni, qo, qi)
    ensures Quantify(qo, Outcomes([row] + rest, qi)) == Quantify(qo, Outcomes(rest, qi))
  {
    assert Outcomes([row] + rest, qi) == [Quantify(qi, row)] + Outcomes(rest, qi);
  }

  /** `UnrollOfShape`, one row at a time. */
  lemma {:induction false} UnrollOfRows<R, L>(visit: Visiting<R, L>,
                                              outer: seq<(nat, Machine.Transition<R, L>)>, inner: seq<(nat, Machine.Transition<R, L>)>,
                                              qo: Quantifier, qi: Quantifier, swap: bool, eo: Buffer<R, L>, ei: Buffer<R, L>,
                                              k: nat, pl: Buffer<R, L>, pr: Buffer<R, L>)
    requires k <= |outer|
    ensures var v := UnrollOf(visit, outer, inner, qo, qi, swap, eo, ei, k, pl, pr);
      RowsFrom(v.rows, |outer| - k, |inner|, qo, qi, v.answer)
    decreases |outer| - k
  {
    if k < |outer| {
      var b := BranchOf(visit, outer[k], inner, qi, swap, eo, ei, pl, pr);
      BranchOfShape(visit, outer[k], inner, qi, swap, eo, ei, pl, pr);
      if b.answer != Decisive(qo) {
        UnrollOfRows(visit, outer, inner, qo, qi, swap, eo, ei, k + 1, b.leftBuffer, b.rightBuffer);
        var rest := UnrollOf(visit, outer, inner, qo, qi, swap, eo, ei, k + 1, b.leftBuffer, b.rightBuffer);
        assert ([b.row] + rest.rows)[1..] == rest.rows;
      }
    }
  }

  /**
   * One step of the row loop: with `row` the results so far and the rest
   * of the row still to come from the `j`-th inner transition, and the
   * `j`-th visit answering `output` and leaving the buffers `ql` and
   * `qr`, the row either ends there or its rest comes from the next
   * inner transition on those buffers.
   */
  lemma RowStep<R, L>(visit: Visiting<R, L>,
                      state: nat, inner: seq<(nat, Machine.Transition<R, L>)>, qi: Quantifier, swap: bool,
                      ei: Buffer<R, L>, j: nat, pl: Buffer<R, L>, pr: Buffer<R, L>, row: seq<bool>, whole: Tried<R, L>,
                      output: bool, ql: Buffer<R, L>, qr: Buffer<R, L>)
    requires j < |inner|
    requires var v := RowOf(visit, state, inner, qi, swap, ei, j, pl, pr);
      whole == Tried(v.answer, row + v.row, v.leftBuffer, v.rightBuffer)
    requires var y := TryOf(visit, state, inner[j], swap, ei, Pick(swap, pl, pr));
      output == y.answer && ql == y.leftBuffer && qr == y.rightBuffer
    ensures output == Decisive(qi) ==> whole == Tried(output, row + [output], ql, qr)
    ensures output != Decisive(qi) ==>
      var w := RowOf(visit, state, inner, qi, swap, ei, j + 1, ql, qr);
      whole == Tried(w.answer, (row + [output]) + w.row, w.leftBuffer, w.rightBuffer)
  {
    if output != Decisive(qi) {
      var w := RowOf(visit, state, inner, qi, swap, ei, j + 1, ql, qr);
      Assoc(row, [output], w.row);
    }
  }

  /**
   * One step of the outer loop of `unroll`, in the same way: the row of
   * the `k`-th outer transition either ends the rows or leaves the rest
   * to the next outer transition.
   */
  lemma UnrollStep<R, L>(visit: Visiting<R, L>,
                         outer: seq<(nat, Machine.Transition<R, L>)>, inner: seq<(nat, Machine.Transition<R, L>)>,
                         qo: Quantifier, qi: Quantifier, swap: bool, eo: Buffer<R, L>, ei: Buffer<R, L>,
                         k: nat, pl: Buffer<R, L>, pr: Buffer<R, L>, rows: seq<seq<bool>>, whole: Visited<R, L>,
                         output: bool, row: seq<bool>, ql: Buffer<R, L>, qr: Buffer<R, L>)
    requires k < |outer|
    requires var v := UnrollOf(visit, outer, inner, qo, qi, swap, eo, ei, k, pl, pr);
      whole == Visited(v.answer, rows + v.rows, v.leftBuffer, v.rightBuffer)
    requires Tried(output, row, ql, qr) == BranchOf(visit, outer[k], inner, qi, swap, eo, ei, pl, pr)
    ensures output == Decisive(qo) ==> whole == Visited(output, rows + [row], ql, qr)
    ensures output != Decisive(qo) ==>
      var w := UnrollOf(visit, outer, inner, qo, qi, swap, eo, ei, k + 1, ql, qr);
      whole == Visited(w.answer, (rows + [row]) + w.rows, w.leftBuffer, w.rightBuffer)
  {
    if output != Decisive(qo) {
      var w := UnrollOf(visit, outer, inner, qo, qi, swap, eo, ei, k + 1, ql, qr);
      Assoc(rows, [row], w.rows);
    }
  }

  lemma Assoc<T>(a: seq<T>, b: seq<T>, c: seq<T>)
    ensures a + (b + c) == (a + b) + c
  {
  }
}
