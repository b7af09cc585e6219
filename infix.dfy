/**
 * What `parse_expression` (fsm/src/dot/parse/transition.rs) reads back:
 * an expression written with every operator application in brackets
 * parses to that expression, whatever is stacked around it, and an
 * expression of two binary operators groups by their precedence.
 */
module InfixReading {
  import opened Wrappers
  import opened DotTokens
  import opened SpannedLexer
  import opened ShuntingYard
  import E = Expressions

  /** The token `parse_binary_op` reads a binary operator from; the logical and bitwise ones have none. */
  function KindOf(b: E.BinaryOp): (k: Option<TokenId>)
    ensures k.Some? ==> k.value in BinaryKinds && BinaryOf(k.value) == Some(b)
  {
    match b
    case Less => Some(LeftAngle)
    case Greater => Some(RightAngle)
    case Equal => Some(DotTokens.Equal)
    case NotEqual => Some(DotTokens.NotEqual)
    case LessEqual => Some(DotTokens.LessEqual)
    case GreaterEqual => Some(DotTokens.GreaterEqual)
    case Add => Some(Plus)
    case Subtract => Some(Minus)
    case Multiply => Some(Star)
    case Divide => Some(Slash)
    case _ => None
  }

  /** Exactly the operators `BinaryOf` produces have a token. */
  lemma KindOfInverse(id: TokenId)
    ensures BinaryOf(id).Some? ==> KindOf(BinaryOf(id).value) == Some(id)
  {
  }

  /** Expressions the parser can produce: `!` is its only unary operator, and binary operators need a token. */
  predicate Readable(e: E.Expression) {
    match e
    case Unary(u, x) => u == E.Not && Readable(x)
    case Binary(b, l, r) => KindOf(b).Some? && Readable(l) && Readable(r)
    case _ => true
  }

  /** Kinds an expression's tokens can have; the terminal must be none of them. */
  predicate Terminates(terminal: Kind) {
    terminal !in [Identifier, Boolean, Number, Bang, LeftRound, RightRound] + BinaryKinds
  }

  function At(sp: Span, id: TokenId, v: Value): Spanned<Token> {
    Spanned(sp, Token(id, v))
  }

  /** The token of an atom. */
  function AtomToken(e: E.Expression, sp: Span): Spanned<Token>
    requires e.Name? || e.Boolean? || e.Number?
  {
    match e
    case Name(n) => At(sp, Identifier, Ident(Borrowed(n)))
    case Boolean(b) => At(sp, Boolean, Flag(b))
    case Number(n) => At(sp, Number, Count(n))
  }

  /** The tokens of `e` with every operator application bracketed, all at the span `sp`. */
  function Bracketed(e: E.Expression, sp: Span): seq<Spanned<Token>>
    requires Readable(e)
  {
    match e
    case Unary(_, x) => [At(sp, LeftRound, NoValue), At(sp, Bang, NoValue)] + Bracketed(x, sp) + [At(sp, RightRound, NoValue)]
    case Binary(b, l, r) =>
      [At(sp, LeftRound, NoValue)] + Bracketed(l, sp) + [At(sp, KindOf(b).value, NoValue)] + Bracketed(r, sp)
        + [At(sp, RightRound, NoValue)]
    case _ => [AtomToken(e, sp)]
  }

  lemma LexableConcat(a: seq<Spanned<Token>>, b: seq<Spanned<Token>>)
    requires Lexable(a) && Lexable(b)
    ensures Lexable(a + b)
  {
    assert forall i :: 0 <= i < |a + b| ==> (a + b)[i] == if i < |a| then a[i] else b[i - |a|];
  }

  lemma {:induction false} BracketedLexable(e: E.Expression, sp: Span)
    requires Readable(e)
    ensures Lexable(Bracketed(e, sp))
  {
    match e
    case Unary(_, x) =>
      BracketedLexable(x, sp);
      UnaryLexable(sp, Bracketed(x, sp));
    case Binary(b, l, r) =>
      BracketedLexable(l, sp);
      BracketedLexable(r, sp);
      BinaryLexable(sp, KindOf(b).value, Bracketed(l, sp), Bracketed(r, sp));
    case _ =>
  }

  /** `(!` and `)` around lexable tokens. */
  lemma UnaryLexable(sp: Span, xs: seq<Spanned<Token>>)
    requires Lexable(xs)
    ensures Lexable([At(sp, LeftRound, NoValue), At(sp, Bang, NoValue)] + xs + [At(sp, RightRound, NoValue)])
  {
    WrapLexable([At(sp, LeftRound, NoValue), At(sp, Bang, NoValue)], xs, [At(sp, RightRound, NoValue)]);
  }

  /** `(`, an operator without a value between two lexable operands, and `)`. */
  lemma BinaryLexable(sp: Span, id: TokenId, ls: seq<Spanned<Token>>, rs: seq<Spanned<Token>>)
    requires Lexable(ls) && Lexable(rs) && id != Eoi && id != Identifier && id != Boolean && id != Number
    ensures Lexable([At(sp, LeftRound, NoValue)] + ls + [At(sp, id, NoValue)] + rs + [At(sp, RightRound, NoValue)])
  {
    var open, op, close := [At(sp, LeftRound, NoValue)], [At(sp, id, NoValue)], [At(sp, RightRound, NoValue)];
    WrapLexable(open, ls, op);
    WrapLexable(open + ls + op, rs, close);
  }

  lemma WrapLexable(a: seq<Spanned<Token>>, b: seq<Spanned<Token>>, c: seq<Spanned<Token>>)
    requires Lexable(a) && Lexable(b) && Lexable(c)
    ensures Lexable(a + b + c)
  {
    LexableConcat(a, b);
    LexableConcat(a + b, c);
  }

  // ---------------------------------------------------------------------
  // One pass at a time

  /** An operand is pushed on the outputs. */
  lemma LoopOperand(e: E.Expression, sp: Span, more: seq<Spanned<Token>>, end: Span, expected: seq<Kind>, terminal: Kind,
                    outputs: seq<Output>, operators: seq<Spanned<Op>>)
    requires (e.Name? || e.Boolean? || e.Number?) && Lexable(more) && Terminates(terminal)
    ensures Lexable([AtomToken(e, sp)] + more)
    ensures LoopOf([AtomToken(e, sp)] + more, end, expected, terminal, outputs, operators)
      == LoopOf(more, end, [], terminal, outputs + [Spanned(sp, e)], operators)
  {
    var p := [AtomToken(e, sp)] + more;
    LexableConcat([AtomToken(e, sp)], more);
    assert Drop(p) == more;
  }

  /** A `(` is pushed on the operators. */
  lemma LoopOpen(sp: Span, more: seq<Spanned<Token>>, end: Span, expected: seq<Kind>, terminal: Kind,
                 outputs: seq<Output>, operators: seq<Spanned<Op>>)
    requires Lexable(more) && Terminates(terminal)
    ensures Lexable([At(sp, LeftRound, NoValue)] + more)
    ensures LoopOf([At(sp, LeftRound, NoValue)] + more, end, expected, terminal, outputs, operators)
      == LoopOf(more, end, [], terminal, outputs, operators + [Spanned(sp, Brackets)])
  {
    var p := [At(sp, LeftRound, NoValue)] + more;
    LexableConcat([At(sp, LeftRound, NoValue)], more);
    assert Drop(p) == more;
  }

  /** An operator is pushed by `push_operator`, here without error. */
  lemma LoopPush(t: Spanned<Token>, more: seq<Spanned<Token>>, end: Span, expected: seq<Kind>, terminal: Kind,
                 outputs: seq<Output>, operators: seq<Spanned<Op>>, outs: seq<Output>, ops: seq<Spanned<Op>>)
    requires t.inner.value == NoValue && t.inner.id != Eoi && (t.inner.id == Bang || t.inner.id in BinaryKinds)
    requires Lexable(more) && Terminates(terminal)
    requires OperatorOf(t).Some? && PushOf(outputs, operators, OperatorOf(t).value) == Ok((outs, ops))
    ensures Lexable([t] + more)
    ensures LoopOf([t] + more, end, expected, terminal, outputs, operators) == LoopOf(more, end, [], terminal, outs, ops)
  {
    var p := [t] + more;
    LexableConcat([t], more);
    assert Drop(p) == more;
  }

  /** An operator read right after a `(` is pushed on it. */
  lemma LoopOperator(t: Spanned<Token>, more: seq<Spanned<Token>>, end: Span, expected: seq<Kind>, terminal: Kind,
                     outputs: seq<Output>, operators: seq<Spanned<Op>>)
    requires t.inner.value == NoValue && t.inner.id != Eoi && (t.inner.id == Bang || t.inner.id in BinaryKinds)
    requires Lexable(more) && Terminates(terminal)
    requires operators != [] && operators[|operators| - 1].inner.Brackets?
    ensures Lexable([t] + more) && OperatorOf(t).Some?
    ensures LoopOf([t] + more, end, expected, terminal, outputs, operators)
      == LoopOf(more, end, [], terminal, outputs, operators + [OperatorOf(t).value])
  {
    LoopPush(t, more, end, expected, terminal, outputs, operators, outputs, operators + [OperatorOf(t).value]);
  }

  /** A `)` that closes a bracket with the given outcome on the stacks. */
  lemma LoopClose(sp: Span, more: seq<Spanned<Token>>, end: Span, expected: seq<Kind>, terminal: Kind,
                  outputs: seq<Output>, operators: seq<Spanned<Op>>, outs: seq<Output>, ops: seq<Spanned<Op>>)
    requires Lexable(more) && Terminates(terminal) && CloseOf(outputs, operators, sp) == Ok((outs, ops))
    ensures Lexable([At(sp, RightRound, NoValue)] + more)
    ensures LoopOf([At(sp, RightRound, NoValue)] + more, end, expected, terminal, outputs, operators)
      == LoopOf(more, end, [], terminal, outs, ops)
  {
    var p := [At(sp, RightRound, NoValue)] + more;
    LexableConcat([At(sp, RightRound, NoValue)], more);
    assert Drop(p) == more;
  }

  /** `)` after one operator above the bracket applies it and drops the bracket. */
  lemma CloseOne(outputs: seq<Output>, operators: seq<Spanned<Op>>, bracket: Spanned<Op>, op: Spanned<Op>, sp: Span)
    requires bracket.inner.Brackets? && !op.inner.Brackets? && Apply(outputs, op).Ok?
    ensures CloseOf(outputs, operators + [bracket, op], sp) == Ok((Apply(outputs, op).value, operators))
  {
    var stack := operators + [bracket, op];
    assert stack[..|stack| - 1] == operators + [bracket];
    assert (operators + [bracket])[..|operators|] == operators;
  }

  // ---------------------------------------------------------------------
  // The round trip

  lemma UnaryTokens<T>(open: T, bang: T, x: seq<T>, close: T, more: seq<T>)
    ensures [open, bang] + x + [close] + more == [open] + ([bang] + (x + ([close] + more)))
  {
  }

  lemma BinaryTokens<T>(open: T, l: seq<T>, op: T, r: seq<T>, close: T, more: seq<T>)
    ensures [open] + l + [op] + r + [close] + more == [open] + (l + ([op] + (r + ([close] + more))))
  {
  }

  /** Two items pushed one after the other are the pair pushed, and taking them off again gives back the stack. */
  lemma PushTwo<T>(a: seq<T>, x: T, y: T)
    ensures a + [x] + [y] == a + [x, y] && (a + [x] + [y])[..|a + [x] + [y]| - 2] == a
  {
    assert (a + [x] + [y])[..|a|] == a;
  }

  /** The passes over `( ! x )`, given those over the tokens of `x`. */
  lemma LoopUnary(x: E.Expression, xs: seq<Spanned<Token>>, sp: Span, more: seq<Spanned<Token>>, tail: seq<Spanned<Token>>,
                  end: Span, expected: seq<Kind>, terminal: Kind, outputs: seq<Output>, operators: seq<Spanned<Op>>)
    requires Lexable(more) && Terminates(terminal)
    requires tail == [At(sp, RightRound, NoValue)] + more && Lexable(tail) && Lexable(xs + tail)
    requires var stack := operators + [Spanned(sp, Brackets), Spanned(sp, UnaryOp(E.Not))];
      LoopOf(xs + tail, end, [], terminal, outputs, stack) == LoopOf(tail, end, [], terminal, outputs + [Spanned(sp, x)], stack)
    ensures Lexable([At(sp, LeftRound, NoValue)] + ([At(sp, Bang, NoValue)] + (xs + tail)))
    ensures LoopOf([At(sp, LeftRound, NoValue)] + ([At(sp, Bang, NoValue)] + (xs + tail)), end, expected, terminal, outputs, operators)
      == LoopOf(more, end, [], terminal, outputs + [Spanned(sp, E.Unary(E.Not, x))], operators)
  {
    var bang := At(sp, Bang, NoValue);
    var bracket, not := Spanned(sp, Brackets), Spanned(sp, UnaryOp(E.Not));
    CloseOne(outputs + [Spanned(sp, x)], operators, bracket, not, sp);
    LoopClose(sp, more, end, [], terminal, outputs + [Spanned(sp, x)], operators + [bracket, not],
              outputs + [Spanned(sp, E.Unary(E.Not, x))], operators);
    LoopOperator(bang, xs + tail, end, [], terminal, outputs, operators + [bracket]);
    PushTwo(operators, bracket, not);
    LoopOpen(sp, [bang] + (xs + tail), end, expected, terminal, outputs, operators);
  }

  /** The passes over `( l op r )`, given those over the tokens of `l` and of `r`. */
  lemma LoopBinary(b: E.BinaryOp, l: E.Expression, r: E.Expression, ls: seq<Spanned<Token>>, rs: seq<Spanned<Token>>,
                   k: TokenId, sp: Span, more: seq<Spanned<Token>>, tail: seq<Spanned<Token>>, middle: seq<Spanned<Token>>,
                   end: Span, expected: seq<Kind>, terminal: Kind, outputs: seq<Output>, operators: seq<Spanned<Op>>)
    requires k in BinaryKinds && BinaryOf(k) == Some(b) && Lexable(more) && Terminates(terminal)
    requires tail == [At(sp, RightRound, NoValue)] + more && middle == [At(sp, k, NoValue)] + (rs + tail)
    requires Lexable(tail) && Lexable(rs + tail) && Lexable(middle) && Lexable(ls + middle)
    requires LoopOf(ls + middle, end, [], terminal, outputs, operators + [Spanned(sp, Brackets)])
      == LoopOf(middle, end, [], terminal, outputs + [Spanned(sp, l)], operators + [Spanned(sp, Brackets)])
    requires LoopOf(rs + tail, end, [], terminal, outputs + [Spanned(sp, l)], operators + [Spanned(sp, Brackets), Spanned(sp, BinaryOp(b))])
      == LoopOf(tail, end, [], terminal, outputs + [Spanned(sp, l)] + [Spanned(sp, r)],
                operators + [Spanned(sp, Brackets), Spanned(sp, BinaryOp(b))])
    ensures Lexable([At(sp, LeftRound, NoValue)] + (ls + middle))
    ensures LoopOf([At(sp, LeftRound, NoValue)] + (ls + middle), end, expected, terminal, outputs, operators)
      == LoopOf(more, end, [], terminal, outputs + [Spanned(sp, E.Binary(b, l, r))], operators)
  {
    var bracket, op := Spanned(sp, Brackets), Spanned(sp, BinaryOp(b));
    LoopOperator(At(sp, k, NoValue), rs + tail, end, [], terminal, outputs + [Spanned(sp, l)], operators + [bracket]);
    PushTwo(operators, bracket, op);
    var both := outputs + [Spanned(sp, l)] + [Spanned(sp, r)];
    PushTwo(outputs, Spanned(sp, l), Spanned(sp, r));
    CloseOne(both, operators, bracket, op, sp);
    LoopClose(sp, more, end, [], terminal, both, operators + [bracket, op], outputs + [Spanned(sp, E.Binary(b, l, r))], operators);
    LoopOpen(sp, ls + middle, end, expected, terminal, outputs, operators);
  }

  /**
   * The tokens of a bracketed expression leave the operator stack as it
   * was and push the expression, spanning `sp`, on the outputs.
   */
  lemma {:induction false} LoopBracketed(e: E.Expression, sp: Span, more: seq<Spanned<Token>>, end: Span, expected: seq<Kind>,
                                         terminal: Kind, outputs: seq<Output>, operators: seq<Spanned<Op>>)
    requires Readable(e) && Lexable(more) && Terminates(terminal)
    ensures Lexable(Bracketed(e, sp) + more)
    ensures LoopOf(Bracketed(e, sp) + more, end, expected, terminal, outputs, operators)
      == LoopOf(more, end, [], terminal, outputs + [Spanned(sp, e)], operators)
    decreases e
  {
    var close, bracket := At(sp, RightRound, NoValue), Spanned(sp, Brackets);
    var tail := [close] + more;
    LexableConcat([close], more);
    match e
    case Unary(u, x) =>
      LoopBracketed(x, sp, tail, end, [], terminal, outputs, operators + [bracket, Spanned(sp, UnaryOp(E.Not))]);
      BracketedUnary(x, sp, more, end, expected, terminal, outputs, operators);
    case Binary(b, l, r) =>
      var middle := [At(sp, KindOf(b).value, NoValue)] + (Bracketed(r, sp) + tail);
      LoopBracketed(r, sp, tail, end, [], terminal, outputs + [Spanned(sp, l)], operators + [bracket, Spanned(sp, BinaryOp(b))]);
      LexableConcat([At(sp, KindOf(b).value, NoValue)], Bracketed(r, sp) + tail);
      LoopBracketed(l, sp, middle, end, [], terminal, outputs, operators + [bracket]);
      BracketedBinary(b, l, r, sp, more, end, expected, terminal, outputs, operators);
    case _ =>
      LoopOperand(e, sp, more, end, expected, terminal, outputs, operators);
  }

  /** The passes over the tokens of `!x` bracketed, given those over the tokens of `x`. */
  lemma BracketedUnary(x: E.Expression, sp: Span, more: seq<Spanned<Token>>, end: Span, expected: seq<Kind>,
                       terminal: Kind, outputs: seq<Output>, operators: seq<Spanned<Op>>)
    requires Readable(x) && Lexable(more) && Terminates(terminal)
    requires var tail := [At(sp, RightRound, NoValue)] + more;
      var stack := operators + [Spanned(sp, Brackets), Spanned(sp, UnaryOp(E.Not))];
      Lexable(tail) && Lexable(Bracketed(x, sp) + tail)
      && LoopOf(Bracketed(x, sp) + tail, end, [], terminal, outputs, stack) == LoopOf(tail, end, [], terminal, outputs + [Spanned(sp, x)], stack)
    ensures Lexable(Bracketed(E.Unary(E.Not, x), sp) + more)
    ensures LoopOf(Bracketed(E.Unary(E.Not, x), sp) + more, end, expected, terminal, outputs, operators)
      == LoopOf(more, end, [], terminal, outputs + [Spanned(sp, E.Unary(E.Not, x))], operators)
  {
    var close := At(sp, RightRound, NoValue);
    LoopUnary(x, Bracketed(x, sp), sp, more, [close] + more, end, expected, terminal, outputs, operators);
    UnaryTokens(At(sp, LeftRound, NoValue), At(sp, Bang, NoValue), Bracketed(x, sp), close, more);
  }

  /** The passes over the tokens of `l b r` bracketed, given those over the tokens of `l` and of `r`. */
  lemma BracketedBinary(b: E.BinaryOp, l: E.Expression, r: E.Expression, sp: Span, more: seq<Spanned<Token>>, end: Span,
                        expected: seq<Kind>, terminal: Kind, outputs: seq<Output>, operators: seq<Spanned<Op>>)
    requires KindOf(b).Some? && Readable(l) && Readable(r) && Lexable(more) && Terminates(terminal)
    requires var tail := [At(sp, RightRound, NoValue)] + more;
      var middle := [At(sp, KindOf(b).value, NoValue)] + (Bracketed(r, sp) + tail);
      var bracket, op := Spanned(sp, Brackets), Spanned(sp, BinaryOp(b));
      && Lexable(tail) && Lexable(Bracketed(r, sp) + tail) && Lexable(middle) && Lexable(Bracketed(l, sp) + middle)
      && LoopOf(Bracketed(l, sp) + middle, end, [], terminal, outputs, operators + [bracket])
         == LoopOf(middle, end, [], terminal, outputs + [Spanned(sp, l)], operators + [bracket])
      && LoopOf(Bracketed(r, sp) + tail, end, [], terminal, outputs + [Spanned(sp, l)], operators + [bracket, op])
         == LoopOf(tail, end, [], terminal, outputs + [Spanned(sp, l)] + [Spanned(sp, r)], operators + [bracket, op])
    ensures Lexable(Bracketed(E.Binary(b, l, r), sp) + more)
    ensures LoopOf(Bracketed(E.Binary(b, l, r), sp) + more, end, expected, terminal, outputs, operators)
      == LoopOf(more, end, [], terminal, outputs + [Spanned(sp, E.Binary(b, l, r))], operators)
  {
    var close := At(sp, RightRound, NoValue);
    var tail := [close] + more;
    var middle := [At(sp, KindOf(b).value, NoValue)] + (Bracketed(r, sp) + tail);
    LoopBinary(b, l, r, Bracketed(l, sp), Bracketed(r, sp), KindOf(b).value, sp, more, tail, middle,
               end, expected, terminal, outputs, operators);
    BinaryTokens(At(sp, LeftRound, NoValue), Bracketed(l, sp), At(sp, KindOf(b).value, NoValue), Bracketed(r, sp), close, more);
    assert Bracketed(E.Binary(b, l, r), sp) + more == [At(sp, LeftRound, NoValue)] + (Bracketed(l, sp) + middle);
  }

  /** The terminal ends the loop with the stacks as they are. */
  lemma LoopTerminal(t: Spanned<Token>, rest: seq<Spanned<Token>>, end: Span, terminal: Kind,
                     outputs: seq<Output>, operators: seq<Spanned<Op>>)
    requires t.inner.id == terminal && terminal != Eoi && WellFormed(t.inner) && Lexable(rest)
    ensures Lexable([t] + rest)
    ensures LoopOf([t] + rest, end, [], terminal, outputs, operators) == (Ok((outputs, operators)), rest)
  {
    LexableConcat([t], rest);
    assert Drop([t] + rest) == rest;
  }

  /**
   * `parse_expression` reads the bracketed tokens of any expression it can
   * produce back as that expression, up to and past the terminal, with no
   * error.
   */
  lemma ReadBracketed(e: E.Expression, sp: Span, t: Spanned<Token>, rest: seq<Spanned<Token>>, end: Span,
                      expected: seq<Kind>, terminal: Kind)
    requires Readable(e) && Terminates(terminal) && terminal != Eoi
    requires t.inner.id == terminal && WellFormed(t.inner) && Lexable(rest)
    ensures Lexable(Bracketed(e, sp) + [t] + rest)
    ensures ExpressionOf(Bracketed(e, sp) + [t] + rest, end, expected, terminal) == Parsed(Some(Some(Spanned(sp, e))), rest, [])
  {
    LoopToTerminal(e, sp, t, rest, end, expected, terminal);
  }

  /** The loop over a bracketed expression and the terminal leaves just that expression on the outputs. */
  lemma LoopToTerminal(e: E.Expression, sp: Span, t: Spanned<Token>, rest: seq<Spanned<Token>>, end: Span,
                       expected: seq<Kind>, terminal: Kind)
    requires Readable(e) && Terminates(terminal) && terminal != Eoi
    requires t.inner.id == terminal && WellFormed(t.inner) && Lexable(rest)
    ensures Lexable(Bracketed(e, sp) + [t] + rest)
    ensures LoopOf(Bracketed(e, sp) + [t] + rest, end, expected, terminal, [], []) == (Ok(([Spanned(sp, e)], [])), rest)
  {
    LoopTerminal(t, rest, end, terminal, [Spanned(sp, e)], []);
    LoopBracketed(e, sp, [t] + rest, end, expected, terminal, [], []);
    ConsAssoc(Bracketed(e, sp), t, rest);
    assert [] + [Spanned(sp, e)] == [Spanned(sp, e)];
  }

  lemma ConsAssoc<T>(a: seq<T>, t: T, rest: seq<T>)
    ensures a + [t] + rest == a + ([t] + rest)
  {
  }

  /** The terminal straight away: an empty expression, `Some(None)`, and nothing pushed. */
  lemma ReadEmpty(t: Spanned<Token>, rest: seq<Spanned<Token>>, end: Span, expected: seq<Kind>, terminal: Kind)
    requires t.inner.id == terminal && terminal != Eoi && WellFormed(t.inner) && Lexable(rest)
    ensures Lexable([t] + rest)
    ensures ExpressionOf([t] + rest, end, expected, terminal) == Parsed(Some(None), rest, [])
  {
    LexableConcat([t], rest);
    assert Drop([t] + rest) == rest;
  }

  // ---------------------------------------------------------------------
  // Precedence

  predicate Atom(e: E.Expression) {
    e.Name? || e.Boolean? || e.Number?
  }

  /** How `x p y q z` groups: to the left when `p` binds at least as tight as `q`, all binary operators being left-associative. */
  function Grouped(x: E.Expression, p: E.BinaryOp, y: E.Expression, q: E.BinaryOp, z: E.Expression): E.Expression {
    if E.Precedence(E.BinaryOperator(p)) <= E.Precedence(E.BinaryOperator(q)) then E.Binary(q, E.Binary(p, x, y), z)
    else E.Binary(p, x, E.Binary(q, y, z))
  }

  /** The stacks once `x p y q` is read: `q` has applied `p` first, or is stacked above it. */
  lemma PushSecond(x: Output, y: Output, p: E.BinaryOp, q: E.BinaryOp, sp: Span)
    ensures var xy := Spanned(Merge(x.span, y.span), E.Binary(p, x.inner, y.inner));
      PushOf([x, y], [Spanned(sp, BinaryOp(p))], Spanned(sp, BinaryOp(q)))
      == if E.Precedence(E.BinaryOperator(p)) <= E.Precedence(E.BinaryOperator(q))
         then Ok(([xy], [Spanned(sp, BinaryOp(q))]))
         else Ok(([x, y], [Spanned(sp, BinaryOp(p)), Spanned(sp, BinaryOp(q))]))
  {
    var xy := Spanned(Merge(x.span, y.span), E.Binary(p, x.inner, y.inner));
    AppliesFirstMeaning(BinaryOp(p), BinaryOp(q));
    assert [x, y][..0] == [];
    var po, qo := Spanned(sp, BinaryOp(p)), Spanned(sp, BinaryOp(q));
    if E.Precedence(E.BinaryOperator(p)) <= E.Precedence(E.BinaryOperator(q)) {
      assert [x, y][..0] + [xy] == [xy];
      assert Apply([x, y], po) == Ok([xy]);
      assert [po][..0] == [];
      assert PushOf([x, y], [po], qo) == PushOf([xy], [], qo);
      assert [] + [qo] == [qo];
    } else {
      assert [po] + [qo] == [po, qo];
    }
  }

  /** After the terminal, the stacks that `x p y q z` leaves drain to one expression. */
  lemma FinishSecond(x: E.Expression, p: E.BinaryOp, y: E.Expression, q: E.BinaryOp, z: E.Expression, sp: Span)
    ensures var po, qo := Spanned(sp, BinaryOp(p)), Spanned(sp, BinaryOp(q));
      && FinishOf([Spanned(sp, E.Binary(p, x, y)), Spanned(sp, z)], [qo]) == Ok(Some(Spanned(sp, E.Binary(q, E.Binary(p, x, y), z))))
      && FinishOf([Spanned(sp, x), Spanned(sp, y), Spanned(sp, z)], [po, qo])
         == Ok(Some(Spanned(sp, E.Binary(p, x, E.Binary(q, y, z)))))
  {
    var po, qo := Spanned(sp, BinaryOp(p)), Spanned(sp, BinaryOp(q));
    assert Merge(sp, sp) == sp;
    var xs := [Spanned(sp, x), Spanned(sp, y), Spanned(sp, z)];
    assert xs[..1] == [Spanned(sp, x)];
    assert [po, qo][..1] == [po];
    var yz := [Spanned(sp, x), Spanned(sp, E.Binary(q, y, z))];
    assert xs[2] == Spanned(sp, z) && xs[1] == Spanned(sp, y);
    assert xs[..1] + [Spanned(sp, E.Binary(q, y, z))] == yz;
    assert Apply(xs, qo) == Ok(yz);
    var right := [Spanned(sp, E.Binary(p, x, E.Binary(q, y, z)))];
    assert yz[..0] + [right[0]] == right;
    assert Apply(yz, po) == Ok(right);
    assert [po, qo][..1] == [po] && [po][..0] == [];
    assert DrainOf(xs, [po, qo]) == DrainOf(yz, [po]);
    assert DrainOf(yz, [po]) == DrainOf(right, []);
    var xy := [Spanned(sp, E.Binary(p, x, y)), Spanned(sp, z)];
    var left := [Spanned(sp, E.Binary(q, E.Binary(p, x, y), z))];
    assert xy[..0] + [left[0]] == left;
    assert Apply(xy, qo) == Ok(left);
    assert [qo][..0] == [];
    assert DrainOf(xy, [qo]) == DrainOf(left, []);
  }

  /** The passes over `x p y`. */
  lemma ReadHead(x: E.Expression, p: E.BinaryOp, y: E.Expression, sp: Span, more: seq<Spanned<Token>>, end: Span,
                 expected: seq<Kind>, terminal: Kind)
    requires Atom(x) && Atom(y) && KindOf(p).Some? && Terminates(terminal) && Lexable(more)
    ensures var tokens := [AtomToken(x, sp), At(sp, KindOf(p).value, NoValue), AtomToken(y, sp)] + more;
      Lexable(tokens) && LoopOf(tokens, end, expected, terminal, [], [])
      == LoopOf(more, end, [], terminal, [Spanned(sp, x), Spanned(sp, y)], [Spanned(sp, BinaryOp(p))])
  {
    var po, pt := Spanned(sp, BinaryOp(p)), At(sp, KindOf(p).value, NoValue);
    var ax := Spanned(sp, x);
    var s2 := [AtomToken(y, sp)] + more;
    var s1 := [pt] + s2;
    LoopOperand(y, sp, more, end, [], terminal, [ax], [po]);
    assert [ax] + [Spanned(sp, y)] == [ax, Spanned(sp, y)];
    assert [] + [po] == [po];
    assert PushOf([ax], [], po) == Ok(([ax], [po]));
    LoopPush(pt, s2, end, [], terminal, [ax], [], [ax], [po]);
    LoopOperand(x, sp, s1, end, expected, terminal, [], []);
    assert [] + [ax] == [ax];
    assert [AtomToken(x, sp), pt, AtomToken(y, sp)] + more == [AtomToken(x, sp)] + s1;
  }

  /** The passes over `q z` once `x p y` is read. */
  lemma ReadTail(x: E.Expression, p: E.BinaryOp, y: E.Expression, q: E.BinaryOp, z: E.Expression, sp: Span,
                 more: seq<Spanned<Token>>, end: Span, terminal: Kind)
    requires Atom(z) && KindOf(q).Some? && Terminates(terminal) && Lexable(more)
    ensures var tokens := [At(sp, KindOf(q).value, NoValue), AtomToken(z, sp)] + more;
      var pushed := PushOf([Spanned(sp, x), Spanned(sp, y)], [Spanned(sp, BinaryOp(p))], Spanned(sp, BinaryOp(q)));
      Lexable(tokens) && pushed.Ok?
      && LoopOf(tokens, end, [], terminal, [Spanned(sp, x), Spanned(sp, y)], [Spanned(sp, BinaryOp(p))])
         == LoopOf(more, end, [], terminal, pushed.value.0 + [Spanned(sp, z)], pushed.value.1)
  {
    var qt := At(sp, KindOf(q).value, NoValue);
    var outputs, po := [Spanned(sp, x), Spanned(sp, y)], Spanned(sp, BinaryOp(p));
    PushSecond(Spanned(sp, x), Spanned(sp, y), p, q, sp);
    var pushed := PushOf(outputs, [po], Spanned(sp, BinaryOp(q))).value;
    LoopOperand(z, sp, more, end, [], terminal, pushed.0, pushed.1);
    LoopPush(qt, [AtomToken(z, sp)] + more, end, [], terminal, outputs, [po], pushed.0, pushed.1);
    assert [qt, AtomToken(z, sp)] + more == [qt] + ([AtomToken(z, sp)] + more);
  }

  /** The loop over `x p y q z` and the terminal leaves `z` on the outputs above what pushing `q` left. */
  lemma LoopTwo(x: E.Expression, p: E.BinaryOp, y: E.Expression, q: E.BinaryOp, z: E.Expression, sp: Span,
                t: Spanned<Token>, rest: seq<Spanned<Token>>, end: Span, expected: seq<Kind>, terminal: Kind)
    requires Atom(x) && Atom(y) && Atom(z) && KindOf(p).Some? && KindOf(q).Some?
    requires Terminates(terminal) && terminal != Eoi && t.inner.id == terminal && WellFormed(t.inner) && Lexable(rest)
    ensures var tokens := [AtomToken(x, sp), At(sp, KindOf(p).value, NoValue), AtomToken(y, sp), At(sp, KindOf(q).value, NoValue),
                           AtomToken(z, sp), t] + rest;
      var pushed := PushOf([Spanned(sp, x), Spanned(sp, y)], [Spanned(sp, BinaryOp(p))], Spanned(sp, BinaryOp(q)));
      Lexable(tokens) && pushed.Ok?
      && LoopOf(tokens, end, expected, terminal, [], []) == (Ok((pushed.value.0 + [Spanned(sp, z)], pushed.value.1)), rest)
  {
    var pt, qt := At(sp, KindOf(p).value, NoValue), At(sp, KindOf(q).value, NoValue);
    var last := [t] + rest;
    var tail := [qt, AtomToken(z, sp)] + last;
    var pushed := PushOf([Spanned(sp, x), Spanned(sp, y)], [Spanned(sp, BinaryOp(p))], Spanned(sp, BinaryOp(q)));
    LoopTerminal(t, rest, end, terminal, [], []);
    ReadTail(x, p, y, q, z, sp, last, end, terminal);
    LoopTerminal(t, rest, end, terminal, pushed.value.0 + [Spanned(sp, z)], pushed.value.1);
    ReadHead(x, p, y, sp, tail, end, expected, terminal);
    Regroup(AtomToken(x, sp), pt, AtomToken(y, sp), qt, AtomToken(z, sp), t, rest);
  }

  /** Six tokens before the rest, grouped as the passes read them. */
  lemma Regroup<T>(a: T, b: T, c: T, d: T, e: T, f: T, rest: seq<T>)
    ensures [a, b, c, d, e, f] + rest == [a, b, c] + ([d, e] + ([f] + rest))
  {
    assert [a, b, c, d, e, f] == [a, b, c] + [d, e] + [f];
  }

  /**
   * Two binary operators between three operands group by precedence:
   * `a * b + c` reads as `(a * b) + c`, `a + b * c` as `a + (b * c)`, and
   * `a - b - c` as `(a - b) - c`.
   */
  lemma ReadTwoOperators(x: E.Expression, p: E.BinaryOp, y: E.Expression, q: E.BinaryOp, z: E.Expression, sp: Span,
                         t: Spanned<Token>, rest: seq<Spanned<Token>>, end: Span, expected: seq<Kind>, terminal: Kind)
    requires Atom(x) && Atom(y) && Atom(z) && KindOf(p).Some? && KindOf(q).Some?
    requires Terminates(terminal) && terminal != Eoi && t.inner.id == terminal && WellFormed(t.inner) && Lexable(rest)
    ensures var tokens := [AtomToken(x, sp), At(sp, KindOf(p).value, NoValue), AtomToken(y, sp), At(sp, KindOf(q).value, NoValue),
                           AtomToken(z, sp), t] + rest;
      Lexable(tokens) && ExpressionOf(tokens, end, expected, terminal) == Parsed(Some(Some(Spanned(sp, Grouped(x, p, y, q, z)))), rest, [])
  {
    LoopTwo(x, p, y, q, z, sp, t, rest, end, expected, terminal);
    TwoStacks(x, p, y, q, z, sp);
  }

  /** The stacks after `x p y q z`: emptied, they give the grouping the two precedences call for. */
  lemma TwoStacks(x: E.Expression, p: E.BinaryOp, y: E.Expression, q: E.BinaryOp, z: E.Expression, sp: Span)
    ensures var pushed := PushOf([Spanned(sp, x), Spanned(sp, y)], [Spanned(sp, BinaryOp(p))], Spanned(sp, BinaryOp(q)));
      pushed.Ok? && FinishOf(pushed.value.0 + [Spanned(sp, z)], pushed.value.1) == Ok(Some(Spanned(sp, Grouped(x, p, y, q, z))))
  {
    PushSecond(Spanned(sp, x), Spanned(sp, y), p, q, sp);
    FinishSecond(x, p, y, q, z, sp);
    assert Merge(sp, sp) == sp;
    var az := Spanned(sp, z);
    if E.Precedence(E.BinaryOperator(p)) <= E.Precedence(E.BinaryOperator(q)) {
      assert [Spanned(sp, E.Binary(p, x, y))] + [az] == [Spanned(sp, E.Binary(p, x, y)), az];
    } else {
      assert [Spanned(sp, x), Spanned(sp, y)] + [az] == [Spanned(sp, x), Spanned(sp, y), az];
    }
  }
}
