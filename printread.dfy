/**
 * The printer of refinement expressions (`fmt_inner` in fsm/src/lib.rs)
 * against the reader of the newer DOT parser (`parse_expression` in
 * fsm/src/dot/parse/transition.rs): the text the printer writes, taken
 * as the tokens it is made of, reads back as the expression printed, and
 * a bracket is written only where leaving it out would change what is
 * read.
 */
module PrintedReading {
  import opened Wrappers
  import opened DotTokens
  import opened SpannedLexer
  import opened ShuntingYard
  import opened InfixReading
  import E = Expressions
  import Text

  // ---------------------------------------------------------------------
  // The printed tokens

  /**
   * The tokens of `E.Print(e, context, precedence)`: an operator
   * expression that needs brackets in the context gets a `(` and a `)`
   * around its inner tokens.
   */
  function PrintTokens(e: E.Expression, context: E.Associativity, precedence: nat, sp: Span): seq<Spanned<Token>>
    requires Readable(e)
    decreases e, 1
  {
    if E.OperatorOf(e).Some? && E.NeedsBrackets(E.OperatorOf(e).value, context, precedence)
    then [At(sp, LeftRound, NoValue)] + InnerTokens(e, sp) + [At(sp, RightRound, NoValue)]
    else InnerTokens(e, sp)
  }

  /** The tokens of `E.Inner(e)`: the operands printed in the contexts their operator gives them. */
  function InnerTokens(e: E.Expression, sp: Span): seq<Spanned<Token>>
    requires Readable(e)
    decreases e, 0
  {
    match e
    case Unary(_, x) => [At(sp, Bang, NoValue)] + PrintTokens(x, E.Left, E.Precedence(E.UnaryOperator(E.Not)), sp)
    case Binary(b, l, r) =>
      var p := E.Precedence(E.BinaryOperator(b));
      PrintTokens(l, E.Right, p, sp) + [At(sp, KindOf(b).value, NoValue)] + PrintTokens(r, E.Left, p, sp)
    case _ => [AtomToken(e, sp)]
  }

  /** The tokens of `E.Show(e)`. */
  function ShownTokens(e: E.Expression, sp: Span): seq<Spanned<Token>>
    requires Readable(e)
  {
    PrintTokens(e, E.Left, E.UsizeMax, sp)
  }

  /** The text of a token as the printer writes it: a binary operator with a space on either side. */
  function Spelling(t: Token): string {
    match t.id
    case LeftRound => "("
    case RightRound => ")"
    case Bang => "!"
    case Identifier => if t.value.Ident? then t.value.identifier.text else ""
    case Boolean => if t.value.Flag? then (if t.value.flag then "true" else "false") else ""
    case Number => if t.value.Count? then Text.NatToString(t.value.count) else ""
    case _ => if BinaryOf(t.id).Some? then " " + E.BinaryText(BinaryOf(t.id).value) + " " else ""
  }

  /** The text of a run of tokens, one after another. */
  function Spell(ts: seq<Spanned<Token>>): string {
    if ts == [] then "" else Spelling(ts[0].inner) + Spell(ts[1..])
  }

  lemma {:induction false} SpellConcat(a: seq<Spanned<Token>>, b: seq<Spanned<Token>>)
    ensures Spell(a + b) == Spell(a) + Spell(b)
  {
    if a == [] {
      assert a + b == b;
    } else {
      assert (a + b)[0] == a[0] && (a + b)[1..] == a[1..] + b;
      SpellConcat(a[1..], b);
    }
  }

  /** The printed tokens spell exactly the printed text. */
  lemma {:induction false} SpellPrinted(e: E.Expression, context: E.Associativity, precedence: nat, sp: Span)
    requires Readable(e)
    ensures Spell(PrintTokens(e, context, precedence, sp)) == E.Print(e, context, precedence)
    decreases e, 1
  {
    SpellInner(e, sp);
    if E.OperatorOf(e).Some? && E.NeedsBrackets(E.OperatorOf(e).value, context, precedence) {
      var open, close := At(sp, LeftRound, NoValue), At(sp, RightRound, NoValue);
      SpellConcat([open] + InnerTokens(e, sp), [close]);
      SpellConcat([open], InnerTokens(e, sp));
    }
  }

  /** The inner tokens spell exactly the inner text. */
  lemma {:induction false} SpellInner(e: E.Expression, sp: Span)
    requires Readable(e)
    ensures Spell(InnerTokens(e, sp)) == E.Inner(e)
    decreases e, 0
  {
    match e
    case Unary(_, x) =>
      SpellPrinted(x, E.Left, 2, sp);
      SpellUnary(e, sp);
    case Binary(b, l, r) =>
      var p := E.Precedence(E.BinaryOperator(b));
      SpellPrinted(l, E.Right, p, sp);
      SpellPrinted(r, E.Left, p, sp);
      SpellBinary(e, sp);
    case _ =>
      SpellAtom(e, sp);
  }

  lemma SpellAtom(e: E.Expression, sp: Span)
    requires e.Name? || e.Boolean? || e.Number?
    ensures Spell(InnerTokens(e, sp)) == E.Inner(e)
  {
    assert InnerTokens(e, sp) == [AtomToken(e, sp)];
    assert Spell([AtomToken(e, sp)]) == Spelling(AtomToken(e, sp).inner) + Spell([]);
  }

  /** The `!` of a negation is spelled before its operand's printed text. */
  lemma SpellUnary(e: E.Expression, sp: Span)
    requires e.Unary? && Readable(e)
    requires Spell(PrintTokens(e.operand, E.Left, 2, sp)) == E.Print(e.operand, E.Left, 2)
    ensures Spell(InnerTokens(e, sp)) == E.Inner(e)
  {
    var bang, xs := At(sp, Bang, NoValue), PrintTokens(e.operand, E.Left, 2, sp);
    assert InnerTokens(e, sp) == [bang] + xs;
    SpellConcat([bang], xs);
    assert Spell([bang]) == "!" + Spell([]);
  }

  /** A binary operator's token is spelled as its text with a space on either side. */
  lemma SpellOperator(b: E.BinaryOp, sp: Span)
    requires KindOf(b).Some?
    ensures Spell([At(sp, KindOf(b).value, NoValue)]) == " " + E.BinaryText(b) + " "
  {
    var t := At(sp, KindOf(b).value, NoValue);
    assert Spell([t]) == Spelling(t.inner) + Spell([]);
  }

  /** A binary operator is spelled between its operands' printed texts. */
  lemma SpellBinary(e: E.Expression, sp: Span)
    requires e.Binary? && Readable(e)
    requires Spell(PrintTokens(e.left, E.Right, E.Precedence(E.BinaryOperator(e.bop)), sp)) == E.Print(e.left, E.Right, E.Precedence(E.BinaryOperator(e.bop)))
    requires Spell(PrintTokens(e.right, E.Left, E.Precedence(E.BinaryOperator(e.bop)), sp)) == E.Print(e.right, E.Left, E.Precedence(E.BinaryOperator(e.bop)))
    ensures Spell(InnerTokens(e, sp)) == E.Inner(e)
  {
    var p := E.Precedence(E.BinaryOperator(e.bop));
    var ls, op, rs := PrintTokens(e.left, E.Right, p, sp), At(sp, KindOf(e.bop).value, NoValue), PrintTokens(e.right, E.Left, p, sp);
    assert InnerTokens(e, sp) == ls + [op] + rs;
    SpellConcat(ls + [op], rs);
    SpellConcat(ls, [op]);
    SpellOperator(e.bop, sp);
    InnerBinary(e);
  }

  /** The inner text of a binary expression, with the operator's text and its spaces taken as one piece. */
  lemma InnerBinary(e: E.Expression)
    requires e.Binary?
    ensures var p := E.Precedence(E.BinaryOperator(e.bop));
      E.Inner(e) == E.Print(e.left, E.Right, p) + (" " + E.BinaryText(e.bop) + " ") + E.Print(e.right, E.Left, p)
  {
    var p := E.Precedence(E.BinaryOperator(e.bop));
    var a, o, c := E.Print(e.left, E.Right, p), E.BinaryText(e.bop), E.Print(e.right, E.Left, p);
    assert E.Inner(e) == a + " " + o + " " + c;
    assert a + " " + o + " " + c == a + (" " + o + " ") + c;
  }

  // ---------------------------------------------------------------------
  // Reading the printed tokens

  /** The operator stack's entry for an operator. */
  function AsOp(op: E.Operator): (o: Op)
    ensures OpPrecedence(o) == E.Precedence(op) && OpAssociativity(o) == E.AssociativityOf(op) && !o.Brackets?
  {
    match op
    case UnaryOperator(u) => UnaryOp(u)
    case BinaryOperator(b) => BinaryOp(b)
  }

  /**
   * The operators left stacked once an expression printed in a context of
   * `precedence` is read: none is a bracket and none binds looser than the
   * context, so the operator that follows the expression applies them all.
   */
  predicate Pending(ps: seq<Spanned<Op>>, precedence: nat) {
    forall i :: 0 <= i < |ps| ==> !ps[i].inner.Brackets? && OpPrecedence(ps[i].inner) <= precedence
  }

  /**
   * The top of the operator stack stays put when any operator that prints
   * without brackets in the context is pushed on it.
   */
  ghost predicate Guarded(operators: seq<Spanned<Op>>, context: E.Associativity, precedence: nat) {
    operators != [] ==>
      forall op: E.Operator :: !E.NeedsBrackets(op, context, precedence) ==> !AppliesFirst(operators[|operators| - 1].inner, AsOp(op))
  }

  /** An operator as tight as the context, stacked below operators pending in a tighter one, leaves them all pending. */
  lemma PendingBelow(o: Spanned<Op>, qs: seq<Spanned<Op>>, inner: nat, precedence: nat)
    requires !o.inner.Brackets? && OpPrecedence(o.inner) <= precedence && Pending(qs, inner) && inner <= precedence
    ensures Pending([o] + qs, precedence)
  {
  }

  /** Applying `ps` and then `qs` above them: draining `ps + qs` drains `qs` first. */
  lemma {:induction false} DrainSplit(outputs: seq<Output>, ps: seq<Spanned<Op>>, qs: seq<Spanned<Op>>, middle: seq<Output>)
    requires DrainOf(outputs, qs) == Ok(middle)
    ensures DrainOf(outputs, ps + qs) == DrainOf(middle, ps)
    decreases |qs|
  {
    if qs == [] {
      assert ps + qs == ps;
    } else {
      var all := ps + qs;
      assert all[|all| - 1] == qs[|qs| - 1];
      assert all[..|all| - 1] == ps + qs[..|qs| - 1];
      DrainSplit(Apply(outputs, qs[|qs| - 1]).value, ps, qs[..|qs| - 1], middle);
    }
  }

  /** An operator that every pending one applies before, and the one below them does not, drains them and is stacked. */
  lemma {:induction false} PushDrains(outputs: seq<Output>, operators: seq<Spanned<Op>>, ps: seq<Spanned<Op>>, op: Spanned<Op>, drained: seq<Output>)
    requires forall i :: 0 <= i < |ps| ==> AppliesFirst(ps[i].inner, op.inner)
    requires operators == [] || !AppliesFirst(operators[|operators| - 1].inner, op.inner)
    requires DrainOf(outputs, ps) == Ok(drained)
    ensures PushOf(outputs, operators + ps, op) == Ok((drained, operators + [op]))
    decreases |ps|
  {
    var all := operators + ps;
    if ps == [] {
      assert all == operators;
    } else {
      assert all[|all| - 1] == ps[|ps| - 1];
      assert all[..|all| - 1] == operators + ps[..|ps| - 1];
      PushDrains(Apply(outputs, ps[|ps| - 1]).value, operators, ps[..|ps| - 1], op, drained);
    }
  }

  /** A `)` drains the pending operators down to their bracket and drops it. */
  lemma {:induction false} CloseDrains(outputs: seq<Output>, operators: seq<Spanned<Op>>, ps: seq<Spanned<Op>>, bracket: Spanned<Op>,
                                       sp: Span, drained: seq<Output>)
    requires bracket.inner.Brackets? && forall i :: 0 <= i < |ps| ==> !ps[i].inner.Brackets?
    requires DrainOf(outputs, ps) == Ok(drained)
    ensures CloseOf(outputs, operators + [bracket] + ps, sp) == Ok((drained, operators))
    decreases |ps|
  {
    var all := operators + [bracket] + ps;
    if ps == [] {
      assert all[..|all| - 1] == operators;
    } else {
      assert all[|all| - 1] == ps[|ps| - 1];
      assert all[..|all| - 1] == operators + [bracket] + ps[..|ps| - 1];
      CloseDrains(Apply(outputs, ps[|ps| - 1]).value, operators, ps[..|ps| - 1], bracket, sp, drained);
    }
  }

  /** Draining one operator is applying it. */
  lemma DrainOne(outputs: seq<Output>, op: Spanned<Op>)
    requires Apply(outputs, op).Ok?
    ensures DrainOf(outputs, [op]) == Apply(outputs, op)
  {
    assert [op][..0] == [];
  }

  /**
   * A binary operator printed bare in a context: its left operand's
   * operators stop where it stops, its right operand's operators stop at
   * it, and the operator below does not apply before it.
   */
  lemma GuardBinary(operators: seq<Spanned<Op>>, context: E.Associativity, precedence: nat, b: E.BinaryOp, sp: Span)
    requires Guarded(operators, context, precedence) && !E.NeedsBrackets(E.BinaryOperator(b), context, precedence)
    ensures var p := E.Precedence(E.BinaryOperator(b));
      Guarded(operators, E.Right, p) && Guarded(operators + [Spanned(sp, BinaryOp(b))], E.Left, p)
    ensures operators == [] || !AppliesFirst(operators[|operators| - 1].inner, BinaryOp(b))
  {
    assert AsOp(E.BinaryOperator(b)) == BinaryOp(b);
    var p := E.Precedence(E.BinaryOperator(b));
    forall op: E.Operator | !E.NeedsBrackets(op, E.Right, p)
      ensures !E.NeedsBrackets(op, context, precedence)
    {
    }
  }

  /** A negation printed bare in a context: the operator below does not apply before it, and its operand's operators stop at it. */
  lemma GuardUnary(operators: seq<Spanned<Op>>, context: E.Associativity, precedence: nat, sp: Span)
    requires Guarded(operators, context, precedence) && !E.NeedsBrackets(E.UnaryOperator(E.Not), context, precedence)
    ensures Guarded(operators + [Spanned(sp, UnaryOp(E.Not))], E.Left, E.Precedence(E.UnaryOperator(E.Not)))
    ensures operators == [] || !AppliesFirst(operators[|operators| - 1].inner, UnaryOp(E.Not))
  {
    assert AsOp(E.UnaryOperator(E.Not)) == UnaryOp(E.Not);
  }

  /** An open bracket on top of the operators stops every operator pushed on it. */
  lemma GuardBracket(operators: seq<Spanned<Op>>, sp: Span, context: E.Associativity, precedence: nat)
    ensures Guarded(operators + [Spanned(sp, Brackets)], context, precedence)
  {
  }

  /**
   * Reading the printed tokens of `e`, in a context whose stacked
   * operators stop every operator that prints bare there, leaves the
   * pending operators `ps` above the operators and the outputs `xs` above
   * the outputs; drained, they give `e`.
   */
  lemma {:induction false} ReadPrinted(e: E.Expression, context: E.Associativity, precedence: nat, sp: Span, more: seq<Spanned<Token>>,
                                       end: Span, expected: seq<Kind>, terminal: Kind, outputs: seq<Output>, operators: seq<Spanned<Op>>)
    returns (xs: seq<Output>, ps: seq<Spanned<Op>>)
    requires Readable(e) && Lexable(more) && Terminates(terminal) && Guarded(operators, context, precedence)
    ensures Lexable(PrintTokens(e, context, precedence, sp) + more)
    ensures LoopOf(PrintTokens(e, context, precedence, sp) + more, end, expected, terminal, outputs, operators)
      == LoopOf(more, end, [], terminal, outputs + xs, operators + ps)
    ensures Pending(ps, precedence) && DrainOf(outputs + xs, ps) == Ok(outputs + [Spanned(sp, e)])
    decreases e, 1
  {
    if E.OperatorOf(e).Some? && E.NeedsBrackets(E.OperatorOf(e).value, context, precedence) {
      var close := At(sp, RightRound, NoValue);
      LexableConcat([close], more);
      GuardBracket(operators, sp, E.Left, E.UsizeMax);
      var ys, qs := ReadInner(e, E.Left, E.UsizeMax, sp, [close] + more, end, [], terminal, outputs, operators + [Spanned(sp, Brackets)]);
      OpenedStep(e, context, precedence, sp, more, end, expected, terminal, outputs, operators, ys, qs);
      xs, ps := [Spanned(sp, e)], [];
    } else {
      xs, ps := ReadInner(e, context, precedence, sp, more, end, expected, terminal, outputs, operators);
    }
  }

  /** The passes over a bracketed printing, given those over its inner tokens. */
  lemma OpenedStep(e: E.Expression, context: E.Associativity, precedence: nat, sp: Span, more: seq<Spanned<Token>>,
                   end: Span, expected: seq<Kind>, terminal: Kind, outputs: seq<Output>, operators: seq<Spanned<Op>>,
                   ys: seq<Output>, qs: seq<Spanned<Op>>)
    requires Readable(e) && Lexable(more) && Terminates(terminal)
    requires E.OperatorOf(e).Some? && E.NeedsBrackets(E.OperatorOf(e).value, context, precedence)
    requires var tail, bracket := [At(sp, RightRound, NoValue)] + more, Spanned(sp, Brackets);
      && Lexable(InnerTokens(e, sp) + tail)
      && LoopOf(InnerTokens(e, sp) + tail, end, [], terminal, outputs, operators + [bracket])
         == LoopOf(tail, end, [], terminal, outputs + ys, operators + [bracket] + qs)
    requires Pending(qs, E.UsizeMax) && DrainOf(outputs + ys, qs) == Ok(outputs + [Spanned(sp, e)])
    ensures Lexable(PrintTokens(e, context, precedence, sp) + more)
    ensures LoopOf(PrintTokens(e, context, precedence, sp) + more, end, expected, terminal, outputs, operators)
      == LoopOf(more, end, [], terminal, outputs + [Spanned(sp, e)], operators + [])
    ensures Pending([], precedence) && DrainOf(outputs + [Spanned(sp, e)], []) == Ok(outputs + [Spanned(sp, e)])
  {
    var close := At(sp, RightRound, NoValue);
    CloseStep(e, sp, more, end, terminal, outputs, operators, ys, qs);
    LoopOpen(sp, InnerTokens(e, sp) + ([close] + more), end, expected, terminal, outputs, operators);
    BracketedTokens(e, context, precedence, sp, more);
    assert operators + [] == operators;
  }

  /** The `)` after the inner tokens drains what they left pending and drops the bracket. */
  lemma CloseStep(e: E.Expression, sp: Span, more: seq<Spanned<Token>>, end: Span, terminal: Kind,
                  outputs: seq<Output>, operators: seq<Spanned<Op>>, ys: seq<Output>, qs: seq<Spanned<Op>>)
    requires Lexable(more) && Terminates(terminal)
    requires Pending(qs, E.UsizeMax) && DrainOf(outputs + ys, qs) == Ok(outputs + [Spanned(sp, e)])
    ensures Lexable([At(sp, RightRound, NoValue)] + more)
    ensures LoopOf([At(sp, RightRound, NoValue)] + more, end, [], terminal, outputs + ys, operators + [Spanned(sp, Brackets)] + qs)
      == LoopOf(more, end, [], terminal, outputs + [Spanned(sp, e)], operators)
  {
    var bracket := Spanned(sp, Brackets);
    CloseDrains(outputs + ys, operators, qs, bracket, sp, outputs + [Spanned(sp, e)]);
    LoopClose(sp, more, end, [], terminal, outputs + ys, operators + [bracket] + qs, outputs + [Spanned(sp, e)], operators);
  }

  /** The printed tokens of an expression that needs brackets in its context: `(`, its inner tokens, `)`. */
  lemma BracketedTokens(e: E.Expression, context: E.Associativity, precedence: nat, sp: Span, more: seq<Spanned<Token>>)
    requires Readable(e) && E.OperatorOf(e).Some? && E.NeedsBrackets(E.OperatorOf(e).value, context, precedence)
    ensures PrintTokens(e, context, precedence, sp) + more
      == [At(sp, LeftRound, NoValue)] + (InnerTokens(e, sp) + ([At(sp, RightRound, NoValue)] + more))
  {
    var open, inner, close := At(sp, LeftRound, NoValue), InnerTokens(e, sp), At(sp, RightRound, NoValue);
    assert PrintTokens(e, context, precedence, sp) == [open] + inner + [close];
    assert [open] + inner + [close] + more == [open] + (inner + ([close] + more));
  }

  /** Reading the inner tokens of an expression whose operator, if any, prints bare in the context. */
  lemma {:induction false} ReadInner(e: E.Expression, context: E.Associativity, precedence: nat, sp: Span, more: seq<Spanned<Token>>,
                                     end: Span, expected: seq<Kind>, terminal: Kind, outputs: seq<Output>, operators: seq<Spanned<Op>>)
    returns (xs: seq<Output>, ps: seq<Spanned<Op>>)
    requires Readable(e) && Lexable(more) && Terminates(terminal) && Guarded(operators, context, precedence)
    requires E.OperatorOf(e).Some? ==> !E.NeedsBrackets(E.OperatorOf(e).value, context, precedence)
    ensures Lexable(InnerTokens(e, sp) + more)
    ensures LoopOf(InnerTokens(e, sp) + more, end, expected, terminal, outputs, operators)
      == LoopOf(more, end, [], terminal, outputs + xs, operators + ps)
    ensures Pending(ps, precedence) && DrainOf(outputs + xs, ps) == Ok(outputs + [Spanned(sp, e)])
    decreases e, 0
  {
    match e
    case Unary(_, x) =>
      GuardUnary(operators, context, precedence, sp);
      var ys, qs := ReadPrinted(x, E.Left, 2, sp, more, end, [], terminal, outputs, operators + [Spanned(sp, UnaryOp(E.Not))]);
      UnaryStep(x, context, precedence, sp, more, end, expected, terminal, outputs, operators, ys, qs);
      xs, ps := ys, [Spanned(sp, UnaryOp(E.Not))] + qs;
    case Binary(b, l, r) =>
      var p := E.Precedence(E.BinaryOperator(b));
      var op := At(sp, KindOf(b).value, NoValue);
      GuardBinary(operators, context, precedence, b, sp);
      var zs, qs := ReadPrinted(r, E.Left, p, sp, more, end, [], terminal, outputs + [Spanned(sp, l)], operators + [Spanned(sp, BinaryOp(b))]);
      LexableConcat([op], PrintTokens(r, E.Left, p, sp) + more);
      var ys, ls := ReadPrinted(l, E.Right, p, sp, [op] + (PrintTokens(r, E.Left, p, sp) + more), end, expected, terminal, outputs, operators);
      BinaryStep(b, l, r, context, precedence, sp, more, end, expected, terminal, outputs, operators, ys, ls, zs, qs);
      xs, ps := [Spanned(sp, l)] + zs, [Spanned(sp, BinaryOp(b))] + qs;
    case _ =>
      LoopOperand(e, sp, more, end, expected, terminal, outputs, operators);
      xs, ps := [Spanned(sp, e)], [];
      assert operators + ps == operators;
  }

  /** The passes over a bare negation, given those over its operand's printed tokens. */
  lemma UnaryStep(x: E.Expression, context: E.Associativity, precedence: nat, sp: Span, more: seq<Spanned<Token>>,
                  end: Span, expected: seq<Kind>, terminal: Kind, outputs: seq<Output>, operators: seq<Spanned<Op>>,
                  ys: seq<Output>, qs: seq<Spanned<Op>>)
    requires Readable(x) && Lexable(more) && Terminates(terminal)
    requires !E.NeedsBrackets(E.UnaryOperator(E.Not), context, precedence)
    requires operators == [] || !AppliesFirst(operators[|operators| - 1].inner, UnaryOp(E.Not))
    requires var not := Spanned(sp, UnaryOp(E.Not));
      && Lexable(PrintTokens(x, E.Left, 2, sp) + more)
      && LoopOf(PrintTokens(x, E.Left, 2, sp) + more, end, [], terminal, outputs, operators + [not])
         == LoopOf(more, end, [], terminal, outputs + ys, operators + [not] + qs)
    requires Pending(qs, 2) && DrainOf(outputs + ys, qs) == Ok(outputs + [Spanned(sp, x)])
    ensures var e, ps := E.Unary(E.Not, x), [Spanned(sp, UnaryOp(E.Not))] + qs;
      && Lexable(InnerTokens(e, sp) + more)
      && LoopOf(InnerTokens(e, sp) + more, end, expected, terminal, outputs, operators)
         == LoopOf(more, end, [], terminal, outputs + ys, operators + ps)
      && Pending(ps, precedence) && DrainOf(outputs + ys, ps) == Ok(outputs + [Spanned(sp, e)])
  {
    var bang, not := At(sp, Bang, NoValue), Spanned(sp, UnaryOp(E.Not));
    assert operators + [] == operators;
    PushDrains(outputs, operators, [], not, outputs);
    LoopPush(bang, PrintTokens(x, E.Left, 2, sp) + more, end, expected, terminal, outputs, operators, outputs, operators + [not]);
    NegationTokens(x, sp, more);
    NegationDrains(x, sp, outputs, ys, qs);
    Assoc(operators, [not], qs);
    PendingBelow(not, qs, 2, precedence);
  }

  lemma Assoc<T>(a: seq<T>, b: seq<T>, c: seq<T>)
    ensures a + b + c == a + (b + c)
  {
  }

  lemma NegationTokens(x: E.Expression, sp: Span, more: seq<Spanned<Token>>)
    requires Readable(x)
    ensures InnerTokens(E.Unary(E.Not, x), sp) + more == [At(sp, Bang, NoValue)] + (PrintTokens(x, E.Left, 2, sp) + more)
  {
  }

  /** Draining a negation above what its operand left pending applies it to the operand. */
  lemma NegationDrains(x: E.Expression, sp: Span, outputs: seq<Output>, ys: seq<Output>, qs: seq<Spanned<Op>>)
    requires DrainOf(outputs + ys, qs) == Ok(outputs + [Spanned(sp, x)])
    ensures DrainOf(outputs + ys, [Spanned(sp, UnaryOp(E.Not))] + qs) == Ok(outputs + [Spanned(sp, E.Unary(E.Not, x))])
  {
    var not := Spanned(sp, UnaryOp(E.Not));
    DrainSplit(outputs + ys, [not], qs, outputs + [Spanned(sp, x)]);
    DrainOne(outputs + [Spanned(sp, x)], not);
    assert (outputs + [Spanned(sp, x)])[..|outputs|] == outputs;
    assert Merge(sp, sp) == sp;
  }

  /** The passes over a bare binary expression, given those over its operands' printed tokens. */
  lemma BinaryStep(b: E.BinaryOp, l: E.Expression, r: E.Expression, context: E.Associativity, precedence: nat, sp: Span,
                   more: seq<Spanned<Token>>, end: Span, expected: seq<Kind>, terminal: Kind, outputs: seq<Output>,
                   operators: seq<Spanned<Op>>, ys: seq<Output>, ls: seq<Spanned<Op>>, zs: seq<Output>, qs: seq<Spanned<Op>>)
    requires KindOf(b).Some? && Readable(l) && Readable(r) && Lexable(more) && Terminates(terminal)
    requires !E.NeedsBrackets(E.BinaryOperator(b), context, precedence)
    requires operators == [] || !AppliesFirst(operators[|operators| - 1].inner, BinaryOp(b))
    requires var p, op, bo := E.Precedence(E.BinaryOperator(b)), At(sp, KindOf(b).value, NoValue), Spanned(sp, BinaryOp(b));
      var rt := PrintTokens(r, E.Left, p, sp) + more;
      && Lexable(rt) && Lexable([op] + rt) && Lexable(PrintTokens(l, E.Right, p, sp) + ([op] + rt))
      && LoopOf(PrintTokens(l, E.Right, p, sp) + ([op] + rt), end, expected, terminal, outputs, operators)
         == LoopOf([op] + rt, end, [], terminal, outputs + ys, operators + ls)
      && Pending(ls, p) && DrainOf(outputs + ys, ls) == Ok(outputs + [Spanned(sp, l)])
      && LoopOf(rt, end, [], terminal, outputs + [Spanned(sp, l)], operators + [bo])
         == LoopOf(more, end, [], terminal, outputs + [Spanned(sp, l)] + zs, operators + [bo] + qs)
      && Pending(qs, p) && DrainOf(outputs + [Spanned(sp, l)] + zs, qs) == Ok(outputs + [Spanned(sp, l)] + [Spanned(sp, r)])
    ensures var e, xs, ps := E.Binary(b, l, r), [Spanned(sp, l)] + zs, [Spanned(sp, BinaryOp(b))] + qs;
      && Lexable(InnerTokens(e, sp) + more)
      && LoopOf(InnerTokens(e, sp) + more, end, expected, terminal, outputs, operators)
         == LoopOf(more, end, [], terminal, outputs + xs, operators + ps)
      && Pending(ps, precedence) && DrainOf(outputs + xs, ps) == Ok(outputs + [Spanned(sp, e)])
  {
    var p, op, bo := E.Precedence(E.BinaryOperator(b)), At(sp, KindOf(b).value, NoValue), Spanned(sp, BinaryOp(b));
    var lt, rt := PrintTokens(l, E.Right, p, sp), PrintTokens(r, E.Left, p, sp);
    var left, right := Spanned(sp, l), Spanned(sp, r);
    PushDrains(outputs + ys, operators, ls, bo, outputs + [left]);
    LoopPush(op, rt + more, end, [], terminal, outputs + ys, operators + ls, outputs + [left], operators + [bo]);
    BinaryTokensOf(b, l, r, sp, more);
    BinaryDrains(b, l, r, sp, outputs, zs, qs);
    Assoc(outputs, [left], zs);
    Assoc(operators, [bo], qs);
    PendingBelow(bo, qs, p, precedence);
  }

  lemma BinaryTokensOf(b: E.BinaryOp, l: E.Expression, r: E.Expression, sp: Span, more: seq<Spanned<Token>>)
    requires KindOf(b).Some? && Readable(l) && Readable(r)
    ensures var p := E.Precedence(E.BinaryOperator(b));
      InnerTokens(E.Binary(b, l, r), sp) + more
      == PrintTokens(l, E.Right, p, sp) + ([At(sp, KindOf(b).value, NoValue)] + (PrintTokens(r, E.Left, p, sp) + more))
  {
  }

  /** Draining a binary operator above its left operand and what its right operand left pending applies it to both. */
  lemma BinaryDrains(b: E.BinaryOp, l: E.Expression, r: E.Expression, sp: Span, outputs: seq<Output>, zs: seq<Output>, qs: seq<Spanned<Op>>)
    requires DrainOf(outputs + [Spanned(sp, l)] + zs, qs) == Ok(outputs + [Spanned(sp, l)] + [Spanned(sp, r)])
    ensures DrainOf(outputs + ([Spanned(sp, l)] + zs), [Spanned(sp, BinaryOp(b))] + qs)
      == Ok(outputs + [Spanned(sp, E.Binary(b, l, r))])
  {
    var left, right, bo := Spanned(sp, l), Spanned(sp, r), Spanned(sp, BinaryOp(b));
    DrainSplit(outputs + [left] + zs, [bo], qs, outputs + [left] + [right]);
    DrainOne(outputs + [left] + [right], bo);
    assert (outputs + [left] + [right])[..|outputs|] == outputs;
    assert Merge(sp, sp) == sp;
    Assoc(outputs, [left], zs);
  }

  /**
   * The round trip: whatever `parse_expression` can produce, printed by
   * `Display` and read back up to the terminal, is that expression, with
   * no error and the tokens after the terminal left.
   */
  lemma ReadShown(e: E.Expression, sp: Span, t: Spanned<Token>, rest: seq<Spanned<Token>>, end: Span,
                  expected: seq<Kind>, terminal: Kind)
    requires Readable(e) && Terminates(terminal) && terminal != Eoi
    requires t.inner.id == terminal && WellFormed(t.inner) && Lexable(rest)
    ensures Spell(ShownTokens(e, sp)) == E.Show(e)
    ensures Lexable(ShownTokens(e, sp) + [t] + rest)
    ensures ExpressionOf(ShownTokens(e, sp) + [t] + rest, end, expected, terminal) == Parsed(Some(Some(Spanned(sp, e))), rest, [])
  {
    SpellPrinted(e, E.Left, E.UsizeMax, sp);
    LexableConcat([t], rest);
    var xs, ps := ReadPrinted(e, E.Left, E.UsizeMax, sp, [t] + rest, end, expected, terminal, [], []);
    assert [] + xs == xs && [] + ps == ps && [] + [Spanned(sp, e)] == [Spanned(sp, e)];
    LoopTerminal(t, rest, end, terminal, xs, ps);
    ConsAssoc(ShownTokens(e, sp), t, rest);
  }

  /** An atom prints as its one token in any context. */
  lemma AtomPrints(x: E.Expression, context: E.Associativity, precedence: nat, sp: Span)
    requires Atom(x)
    ensures PrintTokens(x, context, precedence, sp) == [AtomToken(x, sp)]
  {
  }

  /** A binary operator over two atoms prints as three tokens, bracketed when the context needs it. */
  lemma PairPrints(p: E.BinaryOp, x: E.Expression, y: E.Expression, context: E.Associativity, precedence: nat, sp: Span)
    requires Atom(x) && Atom(y) && KindOf(p).Some?
    ensures Readable(E.Binary(p, x, y))
    ensures var bare := [AtomToken(x, sp), At(sp, KindOf(p).value, NoValue), AtomToken(y, sp)];
      PrintTokens(E.Binary(p, x, y), context, precedence, sp)
      == if E.NeedsBrackets(E.BinaryOperator(p), context, precedence)
         then [At(sp, LeftRound, NoValue)] + bare + [At(sp, RightRound, NoValue)] else bare
  {
    var pp := E.Precedence(E.BinaryOperator(p));
    AtomPrints(x, E.Right, pp, sp);
    AtomPrints(y, E.Left, pp, sp);
  }

  /** At the top, a binary operator is never bracketed: its tokens are its operands' around its own. */
  lemma TopPrints(p: E.BinaryOp, l: E.Expression, r: E.Expression, sp: Span)
    requires KindOf(p).Some? && Readable(l) && Readable(r)
    ensures var pp := E.Precedence(E.BinaryOperator(p));
      ShownTokens(E.Binary(p, l, r), sp)
      == PrintTokens(l, E.Right, pp, sp) + [At(sp, KindOf(p).value, NoValue)] + PrintTokens(r, E.Left, pp, sp)
  {
    var e := E.Binary(p, l, r);
    assert !E.NeedsBrackets(E.BinaryOperator(p), E.Left, E.UsizeMax);
    assert ShownTokens(e, sp) == InnerTokens(e, sp);
  }

  /**
   * A bracket is printed only where it is needed: for two binary
   * operators over three operands, nested either way, the printed tokens
   * are the bare `x p y q z` exactly when that bare run reads (by
   * `ReadTwoOperators`) as the expression printed.
   */
  lemma BracketsNeeded(x: E.Expression, p: E.BinaryOp, y: E.Expression, q: E.BinaryOp, z: E.Expression, sp: Span)
    requires Atom(x) && Atom(y) && Atom(z) && KindOf(p).Some? && KindOf(q).Some?
    ensures Readable(E.Binary(p, x, E.Binary(q, y, z))) && Readable(E.Binary(q, E.Binary(p, x, y), z))
    ensures var bare := [AtomToken(x, sp), At(sp, KindOf(p).value, NoValue), AtomToken(y, sp), At(sp, KindOf(q).value, NoValue), AtomToken(z, sp)];
      var right, left := E.Binary(p, x, E.Binary(q, y, z)), E.Binary(q, E.Binary(p, x, y), z);
      && (ShownTokens(right, sp) == bare <==> Grouped(x, p, y, q, z) == right)
      && (ShownTokens(left, sp) == bare <==> Grouped(x, p, y, q, z) == left)
  {
    RightNestedPrints(x, p, y, q, z, sp);
    LeftNestedPrints(x, p, y, q, z, sp);
  }

  /** `x p (y q z)` prints its brackets exactly when `q` binds no tighter than `p`. */
  lemma RightNestedPrints(x: E.Expression, p: E.BinaryOp, y: E.Expression, q: E.BinaryOp, z: E.Expression, sp: Span)
    requires Atom(x) && Atom(y) && Atom(z) && KindOf(p).Some? && KindOf(q).Some?
    ensures Readable(E.Binary(p, x, E.Binary(q, y, z)))
    ensures var tx, tp, ty, tq, tz := AtomToken(x, sp), At(sp, KindOf(p).value, NoValue), AtomToken(y, sp), At(sp, KindOf(q).value, NoValue), AtomToken(z, sp);
      ShownTokens(E.Binary(p, x, E.Binary(q, y, z)), sp)
      == if E.Precedence(E.BinaryOperator(p)) <= E.Precedence(E.BinaryOperator(q))
         then [tx, tp, At(sp, LeftRound, NoValue), ty, tq, tz, At(sp, RightRound, NoValue)] else [tx, tp, ty, tq, tz]
  {
    var pp := E.Precedence(E.BinaryOperator(p));
    PairPrints(q, y, z, E.Left, pp, sp);
    TopPrints(p, x, E.Binary(q, y, z), sp);
    AtomPrints(x, E.Right, pp, sp);
  }

  /** `(x p y) q z` prints its brackets exactly when `p` binds looser than `q`. */
  lemma LeftNestedPrints(x: E.Expression, p: E.BinaryOp, y: E.Expression, q: E.BinaryOp, z: E.Expression, sp: Span)
    requires Atom(x) && Atom(y) && Atom(z) && KindOf(p).Some? && KindOf(q).Some?
    ensures Readable(E.Binary(q, E.Binary(p, x, y), z))
    ensures var tx, tp, ty, tq, tz := AtomToken(x, sp), At(sp, KindOf(p).value, NoValue), AtomToken(y, sp), At(sp, KindOf(q).value, NoValue), AtomToken(z, sp);
      ShownTokens(E.Binary(q, E.Binary(p, x, y), z), sp)
      == if E.Precedence(E.BinaryOperator(p)) <= E.Precedence(E.BinaryOperator(q))
         then [tx, tp, ty, tq, tz] else [At(sp, LeftRound, NoValue), tx, tp, ty, At(sp, RightRound, NoValue), tq, tz]
  {
    var qq := E.Precedence(E.BinaryOperator(q));
    PairPrints(p, x, y, E.Right, qq, sp);
    TopPrints(q, E.Binary(p, x, y), z, sp);
    AtomPrints(z, E.Left, qq, sp);
  }
}
