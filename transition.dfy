/**
 * The transition-label parser of the newer DOT parser
 * (fsm/src/dot/parse/transition.rs): `role?label(parameters)` or
 * `role!label(parameters)`, with refinement expressions read by the
 * operator-stack loop, each part proved against its meaning in
 * `ShuntingYard`.
 */
module TransitionParse {
  import opened Wrappers
  import opened DotTokens
  import opened SpannedLexer
  import opened ShuntingYard
  import opened TransitionGrammar
  import M = Machine
  import E = Expressions

  /** `push_operator`: apply the stacked operators that bind first, then push. */
  method PushOperator(outputs: seq<Output>, operators: seq<Spanned<Op>>, op: Spanned<Op>)
    returns (outs: seq<Output>, ops: seq<Spanned<Op>>, r: Result<(), Spanned<ExpressionError>>)
    ensures r.Ok? ==> PushOf(outputs, operators, op) == Ok((outs, ops))
    ensures r.Err? ==> PushOf(outputs, operators, op) == Err(r.error)
  {
    outs, ops := outputs, operators;
    while ops != []
      invariant PushOf(outputs, operators, op) == PushOf(outs, ops, op)
      decreases |ops|
    {
      var other := ops[|ops| - 1];
      if other.inner.Brackets? {
        break;
      }
      if OpPrecedence(op.inner) <= OpPrecedence(other.inner)
        && (OpPrecedence(op.inner) != OpPrecedence(other.inner) || OpAssociativity(op.inner) != E.Left)
      {
        break;
      }
      ops := ops[..|ops| - 1];
      var applied := Apply(outs, other);
      if applied.Err? {
        return outs, ops, Err(applied.error);
      }
      outs := applied.value;
    }
    ops := ops + [op];
    r := Ok(());
  }

  /** `parse_unary_op`: `!` is negation. */
  method ParseUnaryOp(tokens: Lexer) returns (r: Option<Spanned<E.UnaryOp>>)
    requires tokens.Valid()
    modifies tokens
    ensures tokens.Valid()
    ensures Front(old(tokens.pending), tokens.end).inner.id == Bang ==>
      r == Some(Spanned(Front(old(tokens.pending), tokens.end).span, E.Not)) && tokens.expected == []
      && tokens.pending == Drop(old(tokens.pending))
    ensures Front(old(tokens.pending), tokens.end).inner.id != Bang ==>
      r == None && tokens.expected == old(tokens.expected) + [Bang] && tokens.pending == old(tokens.pending)
  {
    var t := tokens.NextIf(Bang);
    if t.Some? {
      return Some(Spanned(t.value.span, E.Not));
    }
    r := None;
  }

  /**
   * A chain of `next_if` tries, one kind after another: a listed kind
   * that comes next is taken; when none does, every kind tried is expected.
   */
  method TryKinds(tokens: Lexer, kinds: seq<Kind>) returns (r: Option<Spanned<Token>>)
    requires tokens.Valid()
    modifies tokens
    ensures tokens.Valid()
    ensures Front(old(tokens.pending), tokens.end).inner.id in kinds ==>
      r == Some(Front(old(tokens.pending), tokens.end)) && tokens.expected == [] && tokens.pending == Drop(old(tokens.pending))
    ensures Front(old(tokens.pending), tokens.end).inner.id !in kinds ==>
      r == None && tokens.expected == old(tokens.expected) + kinds && tokens.pending == old(tokens.pending)
    decreases |kinds|
  {
    if kinds == [] {
      return None;
    }
    r := tokens.NextIf(kinds[0]);
    if r.Some? {
      return;
    }
    r := TryKinds(tokens, kinds[1..]);
    assert old(tokens.expected) + [kinds[0]] + kinds[1..] == old(tokens.expected) + kinds;
  }

  /** `parse_binary_op`: the ten binary operator tokens, tried in order. */
  method ParseBinaryOp(tokens: Lexer) returns (r: Option<Spanned<E.BinaryOp>>)
    requires tokens.Valid()
    modifies tokens
    ensures tokens.Valid()
    ensures BinaryOf(Front(old(tokens.pending), tokens.end).inner.id).Some? ==>
      r == Some(Spanned(Front(old(tokens.pending), tokens.end).span, BinaryOf(Front(old(tokens.pending), tokens.end).inner.id).value))
      && tokens.expected == [] && tokens.pending == Drop(old(tokens.pending))
    ensures BinaryOf(Front(old(tokens.pending), tokens.end).inner.id).None? ==>
      r == None && tokens.expected == old(tokens.expected) + BinaryKinds && tokens.pending == old(tokens.pending)
  {
    var t := TryKinds(tokens, BinaryKinds);
    r := if t.Some? then Some(Spanned(t.value.span, BinaryOf(t.value.inner.id).value)) else None;
  }

  /** The first three tries of the loop in `parse_expression`: an identifier, a boolean or a number. */
  method ParseOperand(tokens: Lexer) returns (r: Option<Output>)
    requires tokens.Valid()
    modifies tokens
    ensures tokens.Valid()
    ensures r == OperandOf(Front(old(tokens.pending), tokens.end))
    ensures r.Some? ==> tokens.expected == [] && tokens.pending == Drop(old(tokens.pending))
    ensures r.None? ==>
      tokens.expected == old(tokens.expected) + [Identifier, Boolean, Number] && tokens.pending == old(tokens.pending)
  {
    tokens.PendingLexable();
    DropLexable(tokens.pending, tokens.end);
    var t := tokens.NextIf(Identifier);
    if t.Some? {
      return Some(Spanned(t.value.span, E.Name(t.value.inner.value.identifier.text)));
    }
    t := tokens.NextIf(Boolean);
    if t.Some? {
      return Some(Spanned(t.value.span, E.Boolean(t.value.inner.value.flag)));
    }
    t := tokens.NextIf(Number);
    if t.Some? {
      return Some(Spanned(t.value.span, E.Number(t.value.inner.value.count)));
    }
    r := None;
  }

  /** The unary and binary tries of the loop in `parse_expression`. */
  method ParseOperator(tokens: Lexer) returns (r: Option<Spanned<Op>>)
    requires tokens.Valid()
    modifies tokens
    ensures tokens.Valid()
    ensures r == OperatorOf(Front(old(tokens.pending), tokens.end))
    ensures r.Some? ==> tokens.expected == [] && tokens.pending == Drop(old(tokens.pending))
    ensures r.None? ==>
      tokens.expected == old(tokens.expected) + [Bang] + BinaryKinds && tokens.pending == old(tokens.pending)
  {
    var u := ParseUnaryOp(tokens);
    if u.Some? {
      return Some(Spanned(u.value.span, UnaryOp(u.value.inner)));
    }
    var b := ParseBinaryOp(tokens);
    if b.Some? {
      return Some(Spanned(b.value.span, BinaryOp(b.value.inner)));
    }
    r := None;
  }

  /** The pops of a `)`: apply operators down to the nearest open bracket. */
  method CloseBracket(outputs: seq<Output>, operators: seq<Spanned<Op>>, close: Span)
    returns (outs: seq<Output>, ops: seq<Spanned<Op>>, r: Result<(), Spanned<ExpressionError>>)
    ensures r.Ok? ==> CloseOf(outputs, operators, close) == Ok((outs, ops))
    ensures r.Err? ==> CloseOf(outputs, operators, close) == Err(r.error)
  {
    outs, ops := outputs, operators;
    while ops != []
      invariant CloseOf(outputs, operators, close) == CloseOf(outs, ops, close)
      decreases |ops|
    {
      var operator := ops[|ops| - 1];
      ops := ops[..|ops| - 1];
      if operator.inner.Brackets? {
        return outs, ops, Ok(());
      }
      var applied := Apply(outs, operator);
      if applied.Err? {
        return outs, ops, Err(applied.error);
      }
      outs := applied.value;
    }
    r := Err(Spanned(close, UnclosedBracket));
  }

  /** The pops after the terminal: apply every operator still stacked. */
  method Drain(outputs: seq<Output>, operators: seq<Spanned<Op>>) returns (outs: seq<Output>, r: Result<(), Spanned<ExpressionError>>)
    ensures r.Ok? ==> DrainOf(outputs, operators) == Ok(outs)
    ensures r.Err? ==> DrainOf(outputs, operators) == Err(r.error)
  {
    outs := outputs;
    var ops := operators;
    while ops != []
      invariant DrainOf(outputs, operators) == DrainOf(outs, ops)
      decreases |ops|
    {
      var operator := ops[|ops| - 1];
      ops := ops[..|ops| - 1];
      var applied := Apply(outs, operator);
      if applied.Err? {
        return outs, Err(applied.error);
      }
      outs := applied.value;
    }
    r := Ok(());
  }

  /** Pushing an operator just read. */
  method PushStage(tokens: Lexer, op: Spanned<Op>, outputs: seq<Output>, operators: seq<Spanned<Op>>) returns (s: Stage)
    requires tokens.Valid()
    modifies tokens.errors
    ensures tokens.Valid()
    ensures s == StacksStage(PushOf(outputs, operators, op))
    ensures tokens.errors.items == old(tokens.errors.items) + (if s.Failed? then [s.error] else [])
  {
    var outs, ops, pushed := PushOperator(outputs, operators, op);
    if pushed.Err? {
      tokens.PushErr(pushed.error.span, Report(pushed.error).inner);
      return Failed(Report(pushed.error), true);
    }
    s := Continue(outs, ops);
  }

  /** Closing a bracket at a `)` just read. */
  method CloseStage(tokens: Lexer, close: Span, outputs: seq<Output>, operators: seq<Spanned<Op>>) returns (s: Stage)
    requires tokens.Valid()
    modifies tokens.errors
    ensures tokens.Valid()
    ensures s == StacksStage(CloseOf(outputs, operators, close))
    ensures tokens.errors.items == old(tokens.errors.items) + (if s.Failed? then [s.error] else [])
  {
    var outs, ops, closed := CloseBracket(outputs, operators, close);
    if closed.Err? {
      tokens.PushErr(closed.error.span, Report(closed.error).inner);
      return Failed(Report(closed.error), true);
    }
    s := Continue(outs, ops);
  }

  /** The last try of one pass: a `)`, which closes a bracket; anything else is an error listing every kind tried. */
  method StepClose(tokens: Lexer, terminal: Kind, outputs: seq<Output>, operators: seq<Spanned<Op>>,
                   ghost first: Spanned<Token>, ghost expected: seq<Kind>)
    returns (s: Stage)
    requires tokens.Valid() && first == Front(tokens.pending, tokens.end) && first.inner.id != LeftRound
    requires tokens.expected == expected + [terminal] + [Identifier, Boolean, Number] + [Bang] + BinaryKinds + [LeftRound]
    modifies tokens, tokens.errors
    ensures tokens.Valid() && tokens.expected == []
    ensures s == BracketStage(first, expected, terminal, outputs, operators)
    ensures tokens.pending == AfterStage(s, old(tokens.pending))
    ensures tokens.errors.items == old(tokens.errors.items) + (if s.Failed? then [s.error] else [])
  {
    LoopKindsShape(expected, terminal);
    var right := tokens.ExpectNextIf(RightRound);
    if right.None? {
      // the error `expect_next_if` has just pushed
      return Failed(tokens.errors.items[|tokens.errors.items| - 1], false);
    }
    s := CloseStage(tokens, right.value.span, outputs, operators);
  }

  /** The bracket tries of one pass, after every other. */
  method StepBracket(tokens: Lexer, terminal: Kind, outputs: seq<Output>, operators: seq<Spanned<Op>>,
                     ghost first: Spanned<Token>, ghost expected: seq<Kind>)
    returns (s: Stage)
    requires tokens.Valid() && first == Front(tokens.pending, tokens.end)
    requires tokens.expected == expected + [terminal] + [Identifier, Boolean, Number] + [Bang] + BinaryKinds
    modifies tokens, tokens.errors
    ensures tokens.Valid() && tokens.expected == []
    ensures s == BracketStage(first, expected, terminal, outputs, operators)
    ensures tokens.pending == AfterStage(s, old(tokens.pending))
    ensures tokens.errors.items == old(tokens.errors.items) + (if s.Failed? then [s.error] else [])
  {
    var left := tokens.NextIf(LeftRound);
    if left.Some? {
      return Continue(outputs, operators + [Spanned(left.value.span, Brackets)]);
    }
    s := StepClose(tokens, terminal, outputs, operators, first, expected);
  }

  /** The operator and bracket tries of one pass, after the terminal and the operands. */
  method StepOperator(tokens: Lexer, terminal: Kind, outputs: seq<Output>, operators: seq<Spanned<Op>>,
                      ghost first: Spanned<Token>, ghost expected: seq<Kind>)
    returns (s: Stage)
    requires tokens.Valid() && first == Front(tokens.pending, tokens.end)
    requires tokens.expected == expected + [terminal] + [Identifier, Boolean, Number]
    modifies tokens, tokens.errors
    ensures tokens.Valid() && tokens.expected == []
    ensures s == OperatorStage(first, expected, terminal, outputs, operators)
    ensures tokens.pending == AfterStage(s, old(tokens.pending))
    ensures tokens.errors.items == old(tokens.errors.items) + (if s.Failed? then [s.error] else [])
  {
    var op := ParseOperator(tokens);
    if op.Some? {
      s := PushStage(tokens, op.value, outputs, operators);
      return;
    }
    s := StepBracket(tokens, terminal, outputs, operators, first, expected);
  }

  /** One pass of the loop in `parse_expression`. */
  method Step(tokens: Lexer, terminal: Kind, outputs: seq<Output>, operators: seq<Spanned<Op>>) returns (s: Stage)
    requires tokens.Valid()
    modifies tokens, tokens.errors
    ensures tokens.Valid() && tokens.expected == [] && Lexable(old(tokens.pending))
    ensures WellFormed(Front(old(tokens.pending), tokens.end).inner)
    ensures s == StageOf(Front(old(tokens.pending), tokens.end), old(tokens.expected), terminal, outputs, operators)
    ensures tokens.pending == AfterStage(s, old(tokens.pending))
    ensures tokens.errors.items == old(tokens.errors.items) + (if s.Failed? then [s.error] else [])
  {
    tokens.PendingLexable();
    DropLexable(tokens.pending, tokens.end);
    ghost var first, expected := Front(tokens.pending, tokens.end), tokens.expected;
    var t := tokens.NextIf(terminal);
    if t.Some? {
      return Terminal;
    }
    var operand := ParseOperand(tokens);
    if operand.Some? {
      return Continue(outputs + [operand.value], operators);
    }
    s := StepOperator(tokens, terminal, outputs, operators, first, expected);
  }

  /** The loop of `parse_expression`: passes until the terminal is read or a pass fails. */
  method ParseLoop(tokens: Lexer, terminal: Kind)
    returns (outputs: seq<Output>, operators: seq<Spanned<Op>>, ok: bool)
    requires tokens.Valid()
    modifies tokens, tokens.errors
    ensures tokens.Valid() && tokens.expected == [] && Lexable(old(tokens.pending))
    ensures var (loop, rest) := LoopOf(old(tokens.pending), tokens.end, old(tokens.expected), terminal, [], []);
      && tokens.pending == rest
      && (ok <==> loop.Ok?)
      && (ok ==> loop.value == (outputs, operators) && tokens.errors.items == old(tokens.errors.items))
      && (!ok ==> tokens.errors.items == old(tokens.errors.items) + [loop.error])
  {
    outputs, operators := [], [];
    tokens.PendingLexable();
    ghost var initial := LoopOf(tokens.pending, tokens.end, tokens.expected, terminal, [], []);
    while true
      invariant tokens.Valid() && Lexable(tokens.pending)
      invariant LoopOf(tokens.pending, tokens.end, tokens.expected, terminal, outputs, operators) == initial
      invariant tokens.errors.items == old(tokens.errors.items)
      decreases |tokens.pending|
    {
      ghost var before := tokens.pending;
      DropLexable(before, tokens.end);
      var s := Step(tokens, terminal, outputs, operators);
      tokens.PendingLexable();
      match s
      case Terminal =>
        return outputs, operators, true;
      case Failed(_, _) =>
        return outputs, operators, false;
      case Continue(outs, ops) =>
        outputs, operators := outs, ops;
    }
  }

  /** One `UnexpectedExpression` error at each output after the first. */
  method ReportUnexpected(tokens: Lexer, outputs: seq<Output>)
    requires tokens.Valid()
    modifies tokens.errors
    ensures tokens.Valid() && tokens.errors.items == old(tokens.errors.items) + Unexpected(outputs)
  {
    var i := 0;
    while i < |outputs|
      invariant 0 <= i <= |outputs|
      invariant tokens.Valid() && tokens.errors.items == old(tokens.errors.items) + Unexpected(outputs[..i])
    {
      var e := Report(Spanned(outputs[i].span, UnexpectedExpression));
      assert Unexpected(outputs[..i + 1]) == Unexpected(outputs[..i]) + [e];
      tokens.PushErr(e.span, e.inner);
      i := i + 1;
    }
    assert outputs[..i] == outputs;
  }

  /** After the terminal: apply what is still stacked, then take the one expression, if any. */
  method ParseFinish(tokens: Lexer, outputs: seq<Output>, operators: seq<Spanned<Op>>) returns (r: Option<Option<Output>>)
    requires tokens.Valid()
    modifies tokens.errors
    ensures tokens.Valid()
    ensures match FinishOf(outputs, operators)
      case Err(errors) => r.None? && tokens.errors.items == old(tokens.errors.items) + errors
      case Ok(output) => r == Some(output) && tokens.errors.items == old(tokens.errors.items)
  {
    var outs, drained := Drain(outputs, operators);
    if drained.Err? {
      tokens.PushErr(drained.error.span, Report(drained.error).inner);
      return None;
    }
    if outs == [] {
      return Some(None);
    }
    if |outs| > 1 {
      ReportUnexpected(tokens, outs[1..]);
      return None;
    }
    r := Some(Some(outs[0]));
  }

  /**
   * `parse_expression`: an expression in infix form up to `terminal`, by
   * the shunting-yard algorithm. `Some(None)` when the terminal comes
   * first; `None` after pushing the errors found.
   */
  method ParseExpression(tokens: Lexer, terminal: Kind) returns (r: Option<Option<Output>>)
    requires tokens.Valid()
    modifies tokens, tokens.errors
    ensures tokens.Valid() && tokens.expected == [] && Lexable(old(tokens.pending))
    ensures var p := ExpressionOf(old(tokens.pending), tokens.end, old(tokens.expected), terminal);
      r == p.result && tokens.pending == p.rest && tokens.errors.items == old(tokens.errors.items) + p.errors
  {
    var outputs, operators, ok := ParseLoop(tokens, terminal);
    if !ok {
      return None;
    }
    r := ParseFinish(tokens, outputs, operators);
  }

  // ---------------------------------------------------------------------
  // Parameters and transitions

  /** The state of the lexer as a `Reader`. */
  ghost function Now(tokens: Lexer): Reader
    reads tokens, tokens.errors
  {
    Reader(tokens.pending, tokens.expected, tokens.errors.items)
  }

  /** `parse_refinement` of the parser with refinements, or the one that reads nothing. */
  method ParseRefinement(tokens: Lexer, refinements: bool) returns (r: Option<Option<Output>>)
    requires tokens.Valid()
    modifies tokens, tokens.errors
    ensures tokens.Valid() && Lexable(old(tokens.pending))
    ensures (r, Now(tokens)) == RefinementOf(old(Now(tokens)), tokens.end, refinements)
  {
    tokens.PendingLexable();
    if !refinements {
      return Some(None);
    }
    var left := tokens.NextIf(LeftBrace);
    if left.None? {
      return Some(None);
    }
    r := ParseExpression(tokens, RightBrace);
  }

  /** A named parameter after its `:`. */
  method ParseNamed(tokens: Lexer, refinements: bool, name: Spanned<Token>) returns (r: Option<Spanned<Parameter>>)
    requires tokens.Valid()
    modifies tokens, tokens.errors
    ensures tokens.Valid() && Lexable(old(tokens.pending))
    ensures (r, Now(tokens)) == NamedOf(old(Now(tokens)), tokens.end, refinements, name)
  {
    tokens.PendingLexable();
    var sort := tokens.ExpectNextIf(Identifier);
    if sort.None? {
      return None;
    }
    var refinement := ParseRefinement(tokens, refinements);
    if refinement.None? {
      return None;
    }
    var span := if refinement.value.Some? then refinement.value.value.span else sort.value.span;
    var named := E.NamedParameter(IdentifierOf(name), IdentifierOf(sort.value),
                                  if refinement.value.Some? then Some(refinement.value.value.inner) else None);
    r := Some(Spanned(Merge(name.span, span), NamedParameter(named)));
  }

  /** `parse_parameter`. */
  method ParseParameter(tokens: Lexer, refinements: bool) returns (r: Option<Spanned<Parameter>>)
    requires tokens.Valid()
    modifies tokens, tokens.errors
    ensures tokens.Valid() && Lexable(old(tokens.pending))
    ensures (r, Now(tokens)) == ParameterOf(old(Now(tokens)), tokens.end, refinements)
  {
    tokens.PendingLexable();
    ghost var r0 := Now(tokens);
    var name := tokens.ExpectNextIf(Identifier);
    assert (name, Now(tokens)) == ExpectNextIfOf(r0, tokens.end, Identifier);
    if name.None? {
      return None;
    }
    ghost var r1 := Now(tokens);
    var colon := tokens.NextIf(Colon);
    assert (colon, Now(tokens)) == NextIfOf(r1, tokens.end, Colon);
    if colon.None? {
      return Some(Spanned(name.value.span, UnnamedParameter(IdentifierOf(name.value))));
    }
    r := ParseNamed(tokens, refinements, name.value);
  }

  /** After a `,` in the parameter list. */
  method AfterComma(tokens: Lexer, refinements: bool, ps: E.Parameters) returns (stop: bool, ok: bool, qs: E.Parameters)
    requires tokens.Valid()
    modifies tokens, tokens.errors
    ensures tokens.Valid() && Lexable(old(tokens.pending))
    ensures var p := AfterCommaOf(old(Now(tokens)), tokens.end, refinements, ps);
      p.reader == Now(tokens) && (stop <==> p.Stop?) && (p.Stop? ==> ok == p.ok) && (p.Again? ==> qs == p.parameters)
  {
    tokens.PendingLexable();
    var close := tokens.NextIf(RightRound);
    if close.Some? {
      return true, true, ps;
    }
    var parameter := ParseParameter(tokens, refinements);
    if parameter.None? {
      return true, false, ps;
    }
    stop, ok, qs := PushParsed(tokens, ps, parameter.value);
  }

  /** Adds a parsed parameter to the list, reporting one of the other kind. */
  method PushParsed(tokens: Lexer, ps: E.Parameters, parameter: Spanned<Parameter>) returns (stop: bool, ok: bool, qs: E.Parameters)
    requires tokens.Valid()
    modifies tokens.errors
    ensures tokens.Valid()
    ensures var p := PushedOf(old(Now(tokens)), ps, parameter);
      p.reader == Now(tokens) && (stop <==> p.Stop?) && (p.Stop? ==> ok == p.ok) && (p.Again? ==> qs == p.parameters)
  {
    var pushed := PushParameter(ps, parameter.inner);
    qs := pushed.1;
    if !pushed.0 {
      tokens.PushErr(parameter.span, Fsm(ParseTransition(MixedParameters)));
    }
    stop, ok := false, true;
  }

  /** One pass of the loop of `parse_parameters`. */
  method ParameterPass(tokens: Lexer, refinements: bool, ps: E.Parameters) returns (stop: bool, ok: bool, qs: E.Parameters)
    requires tokens.Valid()
    modifies tokens, tokens.errors
    ensures tokens.Valid() && Lexable(old(tokens.pending))
    ensures var p := ParameterPassOf(old(Now(tokens)), tokens.end, refinements, ps);
      p.reader == Now(tokens) && (stop <==> p.Stop?) && (p.Stop? ==> ok == p.ok) && (p.Again? ==> qs == p.parameters)
  {
    tokens.PendingLexable();
    var close := tokens.NextIf(RightRound);
    if close.Some? {
      return true, true, ps;
    }
    var comma := tokens.ExpectNextIf(Comma);
    if comma.None? {
      return true, false, ps;
    }
    stop, ok, qs := AfterComma(tokens, refinements, ps);
  }

  /** The loop of `parse_parameters`. */
  method ParameterLoop(tokens: Lexer, refinements: bool, first: E.Parameters) returns (ok: bool, ps: E.Parameters)
    requires tokens.Valid()
    modifies tokens, tokens.errors
    ensures tokens.Valid() && Lexable(old(tokens.pending))
    ensures (ok, ps, Now(tokens)) == ParameterLoopOf(old(Now(tokens)), tokens.end, refinements, first)
  {
    tokens.PendingLexable();
    ps := first;
    ghost var initial := ParameterLoopOf(Now(tokens), tokens.end, refinements, first);
    while true
      invariant tokens.Valid() && Lexable(tokens.pending)
      invariant ParameterLoopOf(Now(tokens), tokens.end, refinements, ps) == initial
      decreases |tokens.pending|
    {
      var stop, stopped, qs := ParameterPass(tokens, refinements, ps);
      tokens.PendingLexable();
      if stop {
        return stopped, ps;
      }
      ps := qs;
    }
  }

  /** `parse_parameters`, after the `(`. */
  method ParseParameters(tokens: Lexer, refinements: bool) returns (r: Option<Option<E.Parameters>>)
    requires tokens.Valid()
    modifies tokens, tokens.errors
    ensures tokens.Valid() && Lexable(old(tokens.pending))
    ensures (r, Now(tokens)) == ParametersOf(old(Now(tokens)), tokens.end, refinements)
  {
    tokens.PendingLexable();
    var close := tokens.NextIf(RightRound);
    if close.Some? {
      return Some(None);
    }
    var first := ParseParameter(tokens, refinements);
    if first.None? {
      return None;
    }
    var ok, ps := ParameterLoop(tokens, refinements, FromParameter(first.value.inner));
    r := if ok then Some(Some(ps)) else None;
  }

  /** The action of a transition. */
  method ParseAction(tokens: Lexer) returns (r: Option<M.Action>)
    requires tokens.Valid()
    modifies tokens, tokens.errors
    ensures tokens.Valid() && Lexable(old(tokens.pending))
    ensures (r, Now(tokens)) == ActionOf(old(Now(tokens)), tokens.end)
  {
    tokens.PendingLexable();
    var question := tokens.NextIf(Question);
    if question.Some? {
      return Some(M.Input);
    }
    var bang := tokens.ExpectNextIf(Bang);
    r := if bang.Some? then Some(M.Output) else None;
  }

  /** The optional parameters after the label. */
  method ParseMessageParameters(tokens: Lexer, refinements: bool) returns (r: Option<Option<E.Parameters>>, square: bool)
    requires tokens.Valid()
    modifies tokens, tokens.errors
    ensures tokens.Valid() && Lexable(old(tokens.pending))
    ensures (r, square, Now(tokens)) == MessageParametersOf(old(Now(tokens)), tokens.end, refinements)
  {
    tokens.PendingLexable();
    var left := tokens.NextIf(LeftRound);
    if left.None? {
      return Some(None), false;
    }
    r := ParseParameters(tokens, refinements);
    if r.None? {
      return None, false;
    }
    var s := tokens.NextIf(LeftSquare);
    square := s.Some?;
  }

  /** The label, the parameters and the end of the input. */
  method ParseMessage(tokens: Lexer, refinements: bool, role: string, action: M.Action) returns (o: Outcome)
    requires tokens.Valid()
    modifies tokens, tokens.errors
    ensures tokens.Valid() && Lexable(old(tokens.pending))
    ensures (o, Now(tokens)) == MessageOf(old(Now(tokens)), tokens.end, refinements, role, action)
  {
    tokens.PendingLexable();
    var name := tokens.ExpectNextIf(Identifier);
    if name.None? {
      return Returned(None);
    }
    o := ParseLabelled(tokens, refinements, role, action, IdentifierOf(name.value));
  }

  /** After the label. */
  method ParseLabelled(tokens: Lexer, refinements: bool, role: string, action: M.Action, messageLabel: string) returns (o: Outcome)
    requires tokens.Valid()
    modifies tokens, tokens.errors
    ensures tokens.Valid() && Lexable(old(tokens.pending))
    ensures (o, Now(tokens)) == LabelledOf(old(Now(tokens)), tokens.end, refinements, role, action, messageLabel)
  {
    tokens.PendingLexable();
    var parameters, square := ParseMessageParameters(tokens, refinements);
    if parameters.None? {
      return Returned(None);
    }
    if square {
      return Unimplemented;
    }
    var _ := tokens.ExpectNextIf(Eoi);
    var message := E.Message(messageLabel, if parameters.value.Some? then parameters.value.value else E.NoParameters, []);
    o := Returned(Some(M.Transition(role, action, message)));
  }

  /**
   * `parse`: a transition label, `role?label(...)` or `role!label(...)`;
   * `Unimplemented` where the source panics at a `[` after the parameters.
   */
  method Parse(tokens: Lexer, refinements: bool) returns (o: Outcome)
    requires tokens.Valid()
    modifies tokens, tokens.errors
    ensures tokens.Valid() && Lexable(old(tokens.pending))
    ensures (o, Now(tokens)) == TransitionOf(old(Now(tokens)), tokens.end, refinements)
  {
    tokens.PendingLexable();
    var role := tokens.ExpectNextIf(Identifier);
    if role.None? {
      return Returned(None);
    }
    var action := ParseAction(tokens);
    if action.None? {
      return Returned(None);
    }
    o := ParseMessage(tokens, refinements, IdentifierOf(role.value), action.value);
  }
}
