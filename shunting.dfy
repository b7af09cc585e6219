/**
 * The meaning of the refinement-expression parser of the newer DOT
 * parser (fsm/src/dot/parse/transition.rs): the operator-stack algorithm
 * over an output stack and an operator stack, and, pass by pass, what
 * the loop of `parse_expression` does with the tokens it is given.
 */
module ShuntingYard {
  import opened Wrappers
  import opened DotTokens
  import opened SpannedLexer
  import E = Expressions

  // ---------------------------------------------------------------------
  // Operators

  /** An entry of the operator stack: an open bracket or an operator. */
  datatype Op = Brackets | UnaryOp(u: E.UnaryOp) | BinaryOp(b: E.BinaryOp)

  /** Brackets have precedence 1 and associate to the left; operators as the printer has them. */
  function OpPrecedence(op: Op): (p: nat)
    ensures op.Brackets? <==> p == 1
  {
    match op
    case Brackets => 1
    case UnaryOp(u) => E.Precedence(E.UnaryOperator(u))
    case BinaryOp(b) => E.Precedence(E.BinaryOperator(b))
  }

  function OpAssociativity(op: Op): E.Associativity {
    match op
    case Brackets => E.Left
    case UnaryOp(u) => E.AssociativityOf(E.UnaryOperator(u))
    case BinaryOp(b) => E.AssociativityOf(E.BinaryOperator(b))
  }

  /** The number of operands an operator takes from the output stack. */
  function Arity(op: Op): nat {
    match op
    case Brackets => 0
    case UnaryOp(_) => 1
    case BinaryOp(_) => 2
  }

  type Output = Spanned<E.Expression>

  /**
   * `apply_operator`: a unary operator takes the top output, a binary one
   * the top two (the top one is its right operand). A bracket is never
   * applied: it is an unclosed bracket.
   */
  function Apply(outputs: seq<Output>, op: Spanned<Op>): (r: Result<seq<Output>, Spanned<ExpressionError>>)
    ensures r.Err? <==> op.inner.Brackets? || |outputs| < Arity(op.inner)
    ensures r.Err? ==> r.error == Spanned(op.span, if op.inner.Brackets? then UnclosedBracket else MissingOperand)
    ensures r.Ok? ==>
      |r.value| == |outputs| - Arity(op.inner) + 1 && r.value[..|r.value| - 1] == outputs[..|outputs| - Arity(op.inner)]
  {
    var n := |outputs|;
    match op.inner
    case Brackets => Err(Spanned(op.span, UnclosedBracket))
    case UnaryOp(u) =>
      if n < 1 then Err(Spanned(op.span, MissingOperand))
      else Ok(outputs[..n - 1] + [Spanned(Merge(op.span, outputs[n - 1].span), E.Unary(u, outputs[n - 1].inner))])
    case BinaryOp(b) =>
      if n < 2 then Err(Spanned(op.span, MissingOperand))
      else
        var right := outputs[n - 1];
        var left := outputs[n - 2];
        Ok(outputs[..n - 2] + [Spanned(Merge(left.span, right.span), E.Binary(b, left.inner, right.inner))])
  }

  /**
   * The expression an operator builds: a unary operator wraps the top
   * output; a binary operator takes the output below the top as its left
   * operand and the top as its right one, spanning both.
   */
  lemma ApplyOperands(outputs: seq<Output>, op: Spanned<Op>)
    requires Apply(outputs, op).Ok?
    ensures var n := |outputs|; var top := Apply(outputs, op).value[n - Arity(op.inner)];
      match op.inner
      case Brackets => false
      case UnaryOp(u) => top == Spanned(Merge(op.span, outputs[n - 1].span), E.Unary(u, outputs[n - 1].inner))
      case BinaryOp(b) =>
        top == Spanned(Merge(outputs[n - 2].span, outputs[n - 1].span), E.Binary(b, outputs[n - 2].inner, outputs[n - 1].inner))
  {
  }

  /** `push_operator`'s test: the stacked operator `other` is applied before `op` is pushed. */
  predicate AppliesFirst(other: Op, op: Op) {
    !other.Brackets?
    && !(OpPrecedence(op) <= OpPrecedence(other)
         && (OpPrecedence(op) != OpPrecedence(other) || OpAssociativity(op) != E.Left))
  }

  /** Stacked operators apply first exactly when they bind tighter, or as tight and `op` is left-associative. */
  lemma AppliesFirstMeaning(other: Op, op: Op)
    ensures AppliesFirst(other, op) <==>
      !other.Brackets? && (OpPrecedence(other) < OpPrecedence(op)
                           || (OpPrecedence(other) == OpPrecedence(op) && OpAssociativity(op) == E.Left))
  {
  }

  /** The outcome of `push_operator`: the new output and operator stacks. */
  function PushOf(outputs: seq<Output>, operators: seq<Spanned<Op>>, op: Spanned<Op>)
    : Result<(seq<Output>, seq<Spanned<Op>>), Spanned<ExpressionError>>
    decreases |operators|
  {
    if operators == [] || !AppliesFirst(operators[|operators| - 1].inner, op.inner) then Ok((outputs, operators + [op]))
    else
      match Apply(outputs, operators[|operators| - 1])
      case Err(e) => Err(e)
      case Ok(applied) => PushOf(applied, operators[..|operators| - 1], op)
  }

  /** How many operators stay on the stack under `op`: all above them apply first, and the one below does not. */
  function Kept(operators: seq<Spanned<Op>>, op: Op): (k: nat)
    ensures k <= |operators|
    ensures forall i :: k <= i < |operators| ==> AppliesFirst(operators[i].inner, op)
    ensures k > 0 ==> !AppliesFirst(operators[k - 1].inner, op)
  {
    if operators == [] || !AppliesFirst(operators[|operators| - 1].inner, op) then |operators|
    else Kept(operators[..|operators| - 1], op)
  }

  /**
   * `push_operator` pops exactly the operators above the `Kept` ones and
   * pushes `op`; it fails only when one of them misses an operand.
   */
  lemma {:induction false} PushOfShape(outputs: seq<Output>, operators: seq<Spanned<Op>>, op: Spanned<Op>)
    ensures PushOf(outputs, operators, op).Ok? ==>
      PushOf(outputs, operators, op).value.1 == operators[..Kept(operators, op.inner)] + [op]
    ensures PushOf(outputs, operators, op).Err? ==> PushOf(outputs, operators, op).error.inner == MissingOperand
    decreases |operators|
  {
    if operators != [] && AppliesFirst(operators[|operators| - 1].inner, op.inner) {
      var top := operators[|operators| - 1];
      var rest := operators[..|operators| - 1];
      if Apply(outputs, top).Ok? {
        PushOfShape(Apply(outputs, top).value, rest, op);
        assert rest[..Kept(rest, op.inner)] == operators[..Kept(operators, op.inner)];
      }
    }
  }

  /** A `)`: apply operators down to the nearest open bracket, which is dropped. */
  function CloseOf(outputs: seq<Output>, operators: seq<Spanned<Op>>, close: Span)
    : Result<(seq<Output>, seq<Spanned<Op>>), Spanned<ExpressionError>>
    decreases |operators|
  {
    if operators == [] then Err(Spanned(close, UnclosedBracket))
    else
      var top := operators[|operators| - 1];
      if top.inner.Brackets? then Ok((outputs, operators[..|operators| - 1]))
      else
        match Apply(outputs, top)
        case Err(e) => Err(e)
        case Ok(applied) => CloseOf(applied, operators[..|operators| - 1], close)
  }

  function LastBracket(operators: seq<Spanned<Op>>): (r: Option<nat>)
    ensures r.Some? ==> r.value < |operators| && operators[r.value].inner.Brackets?
    ensures forall i :: (if r.Some? then r.value + 1 else 0) <= i < |operators| ==> !operators[i].inner.Brackets?
  {
    if operators == [] then None
    else if operators[|operators| - 1].inner.Brackets? then Some(|operators| - 1)
    else LastBracket(operators[..|operators| - 1])
  }

  /**
   * A `)` succeeds only if there is an open bracket; it then leaves the
   * operators below that bracket. With no bracket it reports an unclosed
   * bracket at the `)` unless an operator misses an operand first.
   */
  lemma {:induction false} CloseOfShape(outputs: seq<Output>, operators: seq<Spanned<Op>>, close: Span)
    ensures CloseOf(outputs, operators, close).Ok? <==> LastBracket(operators).Some? && CloseOf(outputs, operators, close).Ok?
    ensures CloseOf(outputs, operators, close).Ok? ==>
      CloseOf(outputs, operators, close).value.1 == operators[..LastBracket(operators).value]
    ensures LastBracket(operators).None? ==>
      CloseOf(outputs, operators, close).Err? &&
      CloseOf(outputs, operators, close).error in {Spanned(close, UnclosedBracket)}
        + set i | 0 <= i < |operators| :: Spanned(operators[i].span, MissingOperand)
    decreases |operators|
  {
    if operators != [] {
      var top := operators[|operators| - 1];
      var rest := operators[..|operators| - 1];
      if !top.inner.Brackets? && Apply(outputs, top).Ok? {
        CloseOfShape(Apply(outputs, top).value, rest, close);
        if LastBracket(operators).Some? {
          assert rest[..LastBracket(rest).value] == operators[..LastBracket(operators).value];
        } else {
          if CloseOf(outputs, operators, close).error != Spanned(close, UnclosedBracket) {
            var i :| 0 <= i < |rest| && CloseOf(outputs, operators, close).error == Spanned(rest[i].span, MissingOperand);
            assert rest[i] == operators[i];
          }
        }
      }
    }
  }

  /** The end of an expression: apply every operator still stacked; a bracket among them was never closed. */
  function DrainOf(outputs: seq<Output>, operators: seq<Spanned<Op>>): Result<seq<Output>, Spanned<ExpressionError>>
    decreases |operators|
  {
    if operators == [] then Ok(outputs)
    else
      match Apply(outputs, operators[|operators| - 1])
      case Err(e) => Err(e)
      case Ok(applied) => DrainOf(applied, operators[..|operators| - 1])
  }

  /** Draining fails as soon as an open bracket is left on the stack. */
  lemma {:induction false} DrainOfBracket(outputs: seq<Output>, operators: seq<Spanned<Op>>)
    requires LastBracket(operators).Some?
    ensures DrainOf(outputs, operators).Err?
    decreases |operators|
  {
    var top := operators[|operators| - 1];
    if !top.inner.Brackets? && Apply(outputs, top).Ok? {
      DrainOfBracket(Apply(outputs, top).value, operators[..|operators| - 1]);
    }
  }

  /** An expression error as the error list holds it. */
  function Report(e: Spanned<ExpressionError>): (r: Spanned<ParseError>)
    ensures r.span == e.span && Reportable(r.inner)
  {
    Spanned(e.span, Fsm(ParseTransition(ExpressionFailed(e.inner))))
  }

  /** The errors for the outputs after the first: one `UnexpectedExpression` at each. */
  function Unexpected(outputs: seq<Output>): (r: seq<Spanned<ParseError>>)
    ensures |r| == |outputs| && AllReportable(r)
    ensures forall i :: 0 <= i < |outputs| ==> r[i] == Report(Spanned(outputs[i].span, UnexpectedExpression))
  {
    if outputs == [] then [] else [Report(Spanned(outputs[0].span, UnexpectedExpression))] + Unexpected(outputs[1..])
  }

  // ---------------------------------------------------------------------
  // Reading tokens

  /** The binary operator tokens in the order `parse_binary_op` tries them. */
  const BinaryKinds: seq<Kind> :=
    [LeftAngle, RightAngle, Equal, NotEqual, LessEqual, GreaterEqual, Plus, Minus, Star, Slash]

  /** The binary operator of a token kind. */
  function BinaryOf(id: TokenId): (r: Option<E.BinaryOp>)
    ensures r.Some? <==> id in BinaryKinds
  {
    match id
    case LeftAngle => Some(E.Less)
    case RightAngle => Some(E.Greater)
    case Equal => Some(E.Equal)
    case NotEqual => Some(E.NotEqual)
    case LessEqual => Some(E.LessEqual)
    case GreaterEqual => Some(E.GreaterEqual)
    case Plus => Some(E.Add)
    case Minus => Some(E.Subtract)
    case Star => Some(E.Multiply)
    case Slash => Some(E.Divide)
    case _ => None
  }

  /** The operand a token stands for: a name, a boolean or a number. */
  function OperandOf(t: Spanned<Token>): (r: Option<Output>)
    requires WellFormed(t.inner)
    ensures r.Some? <==> t.inner.id in {Identifier, Boolean, Number}
    ensures r.Some? ==> r.value.span == t.span
  {
    match t.inner.id
    case Identifier => Some(Spanned(t.span, E.Name(t.inner.value.identifier.text)))
    case Boolean => Some(Spanned(t.span, E.Boolean(t.inner.value.flag)))
    case Number => Some(Spanned(t.span, E.Number(t.inner.value.count)))
    case _ => None
  }

  /** The operator a token stands for: `!` a negation, the ten binary operator tokens as `BinaryOf` maps them. */
  function OperatorOf(t: Spanned<Token>): (r: Option<Spanned<Op>>)
    ensures r.Some? ==> r.value.span == t.span && !r.value.inner.Brackets?
  {
    if t.inner.id == Bang then Some(Spanned(t.span, UnaryOp(E.Not)))
    else match BinaryOf(t.inner.id)
      case Some(b) => Some(Spanned(t.span, BinaryOp(b)))
      case None => None
  }

  // ---------------------------------------------------------------------
  // `parse_expression`

  /** Every kind one pass of the loop tries, in order, when none of them comes next. */
  function LoopKinds(terminal: Kind): seq<Kind> {
    [terminal, Identifier, Boolean, Number, Bang] + BinaryKinds + [LeftRound, RightRound]
  }

  /** The kinds the tries of one pass add, one try after another. */
  lemma LoopKindsShape(expected: seq<Kind>, terminal: Kind)
    ensures expected + [terminal] + [Identifier, Boolean, Number] + [Bang] + BinaryKinds + [LeftRound] + [RightRound]
      == expected + LoopKinds(terminal)
  {
  }

  /**
   * What one pass of the loop does with the next token: stop at the
   * terminal, or go on with new stacks, or fail with one error (after
   * taking the token when the stacks, not the token, were at fault).
   */
  datatype Stage =
    | Terminal
    | Continue(outputs: seq<Output>, operators: seq<Spanned<Op>>)
    | Failed(error: Spanned<ParseError>, taken: bool)

  function StageOf(t: Spanned<Token>, expected: seq<Kind>, terminal: Kind, outputs: seq<Output>, operators: seq<Spanned<Op>>)
    : (s: Stage)
    requires WellFormed(t.inner)
    ensures s.Continue? ==> t.inner.id != Eoi && t.inner.id != terminal
    ensures s.Failed? ==> Reportable(s.error.inner)
  {
    if t.inner.id == terminal then Terminal
    else if OperandOf(t).Some? then Continue(outputs + [OperandOf(t).value], operators)
    else OperatorStage(t, expected, terminal, outputs, operators)
  }

  /** A pass past the terminal and operand tries: an operator is pushed, or the brackets are tried. */
  function OperatorStage(t: Spanned<Token>, expected: seq<Kind>, terminal: Kind, outputs: seq<Output>, operators: seq<Spanned<Op>>)
    : (s: Stage)
    ensures s.Continue? ==> t.inner.id != Eoi
    ensures s.Failed? ==> Reportable(s.error.inner)
  {
    if OperatorOf(t).Some? then StacksStage(PushOf(outputs, operators, OperatorOf(t).value))
    else BracketStage(t, expected, terminal, outputs, operators)
  }

  /** A pass past every other try: `(` is stacked, `)` closes, anything else is an error listing all kinds tried. */
  function BracketStage(t: Spanned<Token>, expected: seq<Kind>, terminal: Kind, outputs: seq<Output>, operators: seq<Spanned<Op>>)
    : (s: Stage)
    ensures s.Continue? ==> t.inner.id != Eoi
    ensures s.Failed? ==> Reportable(s.error.inner)
  {
    if t.inner.id == LeftRound then Continue(outputs, operators + [Spanned(t.span, Brackets)])
    else if t.inner.id != RightRound then Failed(Spanned(t.span, TokenError(expected + LoopKinds(terminal))), false)
    else StacksStage(CloseOf(outputs, operators, t.span))
  }

  /** A pass that changed the stacks goes on with them; one whose operator misses an operand or bracket fails. */
  function StacksStage(r: Result<(seq<Output>, seq<Spanned<Op>>), Spanned<ExpressionError>>): (s: Stage)
    ensures s.Failed? ==> Reportable(s.error.inner)
  {
    match r
    case Err(e) => Failed(Report(e), true)
    case Ok(stacks) => Continue(stacks.0, stacks.1)
  }

  /** The tokens left after a pass. */
  function AfterStage(s: Stage, pending: seq<Spanned<Token>>): seq<Spanned<Token>> {
    if s.Failed? && !s.taken then pending else Drop(pending)
  }

  /** The loop of `parse_expression`, pass by pass: the stacks at the terminal, or the error, and the tokens left. */
  function LoopOf(pending: seq<Spanned<Token>>, end: Span, expected: seq<Kind>, terminal: Kind,
                  outputs: seq<Output>, operators: seq<Spanned<Op>>)
    : (r: (Result<(seq<Output>, seq<Spanned<Op>>), Spanned<ParseError>>, seq<Spanned<Token>>))
    requires Lexable(pending)
    ensures r.0.Err? ==> Reportable(r.0.error.inner)
    ensures Lexable(r.1) && |r.1| <= |pending|
    decreases |pending|
  {
    DropLexable(pending, end);
    var t := Front(pending, end);
    match StageOf(t, expected, terminal, outputs, operators)
    case Terminal => (Ok((outputs, operators)), Drop(pending))
    case Failed(e, taken) => (Err(e), if taken then Drop(pending) else pending)
    case Continue(outs, ops) => LoopOf(Drop(pending), end, [], terminal, outs, ops)
  }

  /** After the terminal: apply what is stacked, then expect at most one expression. */
  function FinishOf(outputs: seq<Output>, operators: seq<Spanned<Op>>): (r: Result<Option<Output>, seq<Spanned<ParseError>>>)
    ensures r.Err? ==> r.error != [] && AllReportable(r.error)
  {
    match DrainOf(outputs, operators)
    case Err(e) => Err([Report(e)])
    case Ok(outs) =>
      if outs == [] then Ok(None)
      else if |outs| == 1 then Ok(Some(outs[0]))
      else Err(Unexpected(outs[1..]))
  }

  /** What `parse_expression` returns, the tokens it leaves and the errors it pushes. */
  datatype Parsed<T> = Parsed(result: Option<T>, rest: seq<Spanned<Token>>, errors: seq<Spanned<ParseError>>)

  function ExpressionOf(pending: seq<Spanned<Token>>, end: Span, expected: seq<Kind>, terminal: Kind)
    : (r: Parsed<Option<Output>>)
    requires Lexable(pending)
    ensures r.result.None? <==> r.errors != []
    ensures AllReportable(r.errors) && Lexable(r.rest) && |r.rest| <= |pending|
  {
    var (loop, rest) := LoopOf(pending, end, expected, terminal, [], []);
    match loop
    case Err(e) => Parsed(None, rest, [e])
    case Ok(stacks) =>
      match FinishOf(stacks.0, stacks.1)
      case Err(errors) => Parsed(None, rest, errors)
      case Ok(output) => Parsed(Some(output), rest, [])
  }
}
