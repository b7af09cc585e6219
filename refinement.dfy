/**
 * Refinements on the values of protocol variables: side effects that update
 * one named variable, and predicates that compare them.
 */
module Refinements {
  import opened Wrappers

  const I32Min := -0x8000_0000
  const I32Max := 0x7FFF_FFFF

  predicate IsI32(x: int) {
    I32Min <= x <= I32Max
  }

  predicate AllI32<N>(m: map<N, int>) {
    forall k :: k in m ==> IsI32(m[k])
  }

  /** The side effects: each names one variable and one constant operand. */
  datatype SideEffect =
    | Constant
    | Incr(name: char, value: int)
    | Decr(name: char, value: int)
    | Mult(name: char, value: int)
    | Div(name: char, value: int)

  /** The new value of the named variable, as the side effect computes it. */
  function Updated(e: SideEffect, x: int): int
    requires !e.Constant?
  {
    match e
    case Incr(_, v) => x + v
    case Decr(_, v) => x - v
    case Mult(_, v) => x * v
    case Div(_, v) => x - v
  }

  /** The side effect stays within `i32` (overflow is outside the model). */
  predicate NoOverflow(e: SideEffect, m: map<char, int>) {
    !e.Constant? && e.name in m ==> IsI32(Updated(e, m[e.name]))
  }

  /**
   * What a side effect does to the variables: a present variable is
   * updated in place and an absent one is not inserted.
   */
  function Apply(e: SideEffect, m: map<char, int>): (r: map<char, int>)
    ensures r.Keys == m.Keys
    ensures e.Constant? ==> r == m
    ensures !e.Constant? ==> forall k :: k in m && k != e.name ==> r[k] == m[k]
    ensures !e.Constant? && e.name in m ==> r[e.name] == Updated(e, m[e.name])
  {
    if e.Constant? || e.name !in m then m else m[e.name := Updated(e, m[e.name])]
  }

  /** The variables of a running protocol, updated by side effects. */
  class Variables {
    var values: map<char, int>

    constructor (values: map<char, int>)
      ensures this.values == values
    {
      this.values := values;
    }

    /** `side_effect`: the named entry, if present, is updated through `get_mut`. */
    method SideEffect(e: SideEffect)
      requires AllI32(values) && NoOverflow(e, values)
      modifies this
      ensures values == Apply(e, old(values))
      ensures AllI32(values)
    {
      match e {
        case Constant =>
        case Incr(n, v) =>
          if n in values {
            values := values[n := values[n] + v];
          }
        case Decr(n, v) =>
          if n in values {
            values := values[n := values[n] - v];
          }
        case Mult(n, v) =>
          if n in values {
            values := values[n := values[n] * v];
          }
        case Div(n, v) =>
          if n in values {
            values := values[n := values[n] - v];
          }
      }
    }
  }

  /** Incrementing and then decrementing by the same amount restores the variables. */
  lemma IncrDecr(n: char, v: int, m: map<char, int>)
    ensures Apply(Decr(n, v), Apply(Incr(n, v), m)) == m
  {
  }

  /** As written, `Div` subtracts: dividing 10 by 2 gives 8. */
  lemma DivSubtracts()
    ensures Apply(Div('x', 2), map['x' := 10]) == map['x' := 8]
    ensures Apply(Div('x', 2), map['x' := 10]) == Apply(Decr('x', 2), map['x' := 10])
  {
    assert Apply(Div('x', 2), map['x' := 10]) == map['x' := 10]['x' := 8];
  }

  /** Division truncating toward zero, as Rust's `/=` on `i32` computes it. */
  function TruncatedDiv(a: int, b: int): (q: int)
    requires b != 0
  {
    if a >= 0 then (if b > 0 then a / b else -(a / -b))
    else (if b > 0 then -((-a) / b) else (-a) / (-b))
  }

  lemma TruncatedDivSpec(a: int, b: int)
    requires b != 0
    ensures var q := TruncatedDiv(a, b); var r := a - q * b;
      (r == 0 || (r > 0) == (a > 0)) && (if r < 0 then -r else r) < (if b < 0 then -b else b)
  {
  }

  /** The evidently intended `Div`: the present variable divided by the constant. */
  function ApplyDiv(n: char, v: int, m: map<char, int>): (r: map<char, int>)
    requires v != 0
    ensures r.Keys == m.Keys && forall k :: k in m && k != n ==> r[k] == m[k]
    ensures n in m ==> r[n] == TruncatedDiv(m[n], v)
  {
    if n in m then m[n := TruncatedDiv(m[n], v)] else m
  }

  /** The intended `Div` undoes `Mult` by the same non-zero constant. */
  lemma MultThenDiv(n: char, v: int, m: map<char, int>)
    requires v != 0
    ensures ApplyDiv(n, v, Apply(Mult(n, v), m)) == m
  {
    if n in m {
      var x := m[n];
      assert TruncatedDiv(x * v, v) == x by {
        TruncatedDivExact(x, v);
      }
    }
  }

  lemma MulDiv(a: nat, b: nat)
    requires b > 0
    ensures (a * b) / b == a
  {
    var q, r := (a * b) / b, (a * b) % b;
    assert q * b + r == a * b;
    assert (a - q) * b == r by {
      assert (a - q) * b == a * b - q * b;
    }
    if a > q {
      MultiplyAtLeast(a - q, b);
    } else if a < q {
      MultiplyAtLeast(q - a, b);
    }
  }

  lemma MultiplyAtLeast(k: int, b: int)
    requires k >= 1 && b >= 0
    ensures k * b >= b
  {
    assert k * b == (k - 1) * b + b;
  }

  lemma TruncatedDivExact(x: int, v: int)
    requires v != 0
    ensures TruncatedDiv(x * v, v) == x
  {
    var a: nat := if x >= 0 then x else -x;
    var b: nat := if v > 0 then v else -v;
    MulDiv(a, b);
    assert x * v == (if (x >= 0) == (v > 0) then a * b else -(a * b)) by {
      if x >= 0 && v > 0 {
      } else if x >= 0 {
        assert x * v == -(x * (-v));
      } else if v > 0 {
        assert x * v == -((-x) * v);
      } else {
        assert x * v == (-x) * (-v);
      }
    }
  }

  /**
   * `LTn::check` for runtime names: an error when either variable is
   * missing, otherwise success exactly when the left one is smaller.
   */
  function CheckLess<N(==)>(lhs: N, rhs: N, m: map<N, int>): (r: Result<(), ()>)
    ensures r.Ok? <==> lhs in m && rhs in m && m[lhs] < m[rhs]
  {
    if lhs !in m then Err(())
    else if rhs !in m then Err(())
    else if m[lhs] < m[rhs] then Ok(())
    else Err(())
  }

  /** The predicates with names fixed at compile time. */
  datatype Predicate = Tautology | LTnVar(lhs: char, rhs: char) | LTnConst(lhs: char, bound: int)

  /** `check`: the label argument is ignored by every predicate. */
  function Check<L>(p: Predicate, m: map<char, int>, l: Option<L>): (r: Result<(), ()>)
    ensures p.Tautology? ==> r.Ok?
    ensures p.LTnVar? ==> r == CheckLess(p.lhs, p.rhs, m)
    ensures p.LTnConst? ==> (r.Ok? <==> p.lhs in m && m[p.lhs] < p.bound)
  {
    match p
    case Tautology => Ok(())
    case LTnVar(a, b) => CheckLess(a, b, m)
    case LTnConst(a, c) =>
      if a !in m then Err(())
      else if m[a] < c then Ok(())
      else Err(())
  }

  /** A variable is never smaller than itself. */
  lemma LessIrreflexive<L>(n: char, m: map<char, int>, l: Option<L>)
    ensures Check(LTnVar(n, n), m, l).Err?
  {
  }

  lemma LessTransitive<N>(a: N, b: N, c: N, m: map<N, int>)
    requires CheckLess(a, b, m).Ok? && CheckLess(b, c, m).Ok?
    ensures CheckLess(a, c, m).Ok?
  {
  }

  /** Growing the right-hand variable keeps a satisfied `LTnVar` satisfied. */
  lemma IncrPreservesLess<L>(a: char, b: char, v: int, m: map<char, int>, l: Option<L>)
    requires a != b && v >= 0 && Check(LTnVar(a, b), m, l).Ok?
    ensures Check(LTnVar(a, b), Apply(Incr(b, v), m), l).Ok?
  {
  }
}
