/**
 * What one entry of a `digraph` body reads, for each shape of entry: the
 * closing `}`, a state declaration `a;` (new, or declared before), and a
 * transition `a -> b [label="..."];` whose label the transition parser
 * reads (new, or read before).
 */
module DigraphShapes {
  import opened Wrappers
  import opened DotTokens
  import opened SpannedLexer
  import opened TransitionGrammar
  import opened TransitionShapes
  import opened DigraphParse

  /** `}` ends the body and is taken. */
  lemma Closing(close: Spanned<Token>, rest: seq<Spanned<Token>>, errors: seq<Spanned<ParseError>>,
                end: Span, lex: LabelLexer, refinements: bool, c: Collected)
    requires Is(close, RightBrace) && Lexable(rest) && LexesLabels(lex)
    ensures Lexable([close] + rest)
    ensures EntryOf(Reader([close] + rest, [], errors), end, lex, refinements, c) == Step(Done, c, Reader(rest, [], errors))
  {
    Take(close, rest, [], errors, end, RightBrace);
  }

  /** `a;` for a new state gives it the next index. */
  lemma NewState(a: Spanned<Token>, semicolon: Spanned<Token>, rest: seq<Spanned<Token>>, errors: seq<Spanned<ParseError>>,
                 end: Span, lex: LabelLexer, refinements: bool, c: Collected)
    requires Is(a, Identifier) && Is(semicolon, Semicolon) && Lexable(rest) && LexesLabels(lex)
    requires NameOf(a).inner !in c.states
    ensures Lexable([a] + ([semicolon] + rest))
    ensures EntryOf(Reader([a] + ([semicolon] + rest), [], errors), end, lex, refinements, c)
         == Step(More, c.(states := c.states[NameOf(a).inner := |c.states|]), Reader(rest, [], errors))
  {
    Take(semicolon, rest, [], errors, end, Semicolon);
    Take(a, [semicolon] + rest, [RightBrace], errors, end, Identifier);
    Miss(a, [semicolon] + rest, [], errors, end, RightBrace);
  }

  /** `a;` for a state declared before is reported at `a`, changes nothing, and parsing goes on. */
  lemma RedeclaredState(a: Spanned<Token>, semicolon: Spanned<Token>, rest: seq<Spanned<Token>>, errors: seq<Spanned<ParseError>>,
                       end: Span, lex: LabelLexer, refinements: bool, c: Collected)
    requires Is(a, Identifier) && Is(semicolon, Semicolon) && Lexable(rest) && LexesLabels(lex)
    requires NameOf(a).inner in c.states
    ensures Lexable([a] + ([semicolon] + rest))
    ensures EntryOf(Reader([a] + ([semicolon] + rest), [], errors), end, lex, refinements, c)
         == Step(More, c, Reader(rest, [], errors + [Spanned(a.span, Fsm(DuplicateState))]))
  {
    Take(semicolon, rest, [], errors, end, Semicolon);
    Take(a, [semicolon] + rest, [RightBrace], errors, end, Identifier);
    Miss(a, [semicolon] + rest, [], errors, end, RightBrace);
  }

  /** `];` after the label ends the entry, and the body goes on. */
  lemma Tail(square: Spanned<Token>, semicolon: Spanned<Token>, rest: seq<Spanned<Token>>, errors: seq<Spanned<ParseError>>,
             end: Span, c: Collected)
    requires Is(square, RightSquare) && Is(semicolon, Semicolon) && Lexable(rest)
    ensures Lexable([square] + ([semicolon] + rest))
    ensures TailOf(Reader([square] + ([semicolon] + rest), [], errors), end, c) == Step(More, c, Reader(rest, [], errors))
  {
    Take(semicolon, rest, [], errors, end, Semicolon);
    Take(square, [semicolon] + rest, [Comma], errors, end, RightSquare);
    Miss(square, [semicolon] + rest, [], errors, end, Comma);
  }

  /** The transition the label reads, with the errors it leaves. */
  ghost predicate Reads(lex: LabelLexer, refinements: bool, l: Spanned<Token>, errors: seq<Spanned<ParseError>>,
                        t: Transition, after: seq<Spanned<ParseError>>)
    requires LexesLabels(lex)
  {
    var (tokens, labelEnd) := lex(NameOf(l).inner.text);
    var p := TransitionOf(Reader(tokens, [], errors), labelEnd, refinements);
    p.0 == Returned(Some(t)) && p.1.errors == after
  }

  /** `= "label" ];`: the transition read is recorded and the entry ends. */
  lemma Assign(equal: Spanned<Token>, l: Spanned<Token>, square: Spanned<Token>, semicolon: Spanned<Token>,
               rest: seq<Spanned<Token>>, errors: seq<Spanned<ParseError>>, end: Span, lex: LabelLexer, refinements: bool,
               c: Collected, left: Spanned<Identifier>, right: Spanned<Identifier>, t: Transition, after: seq<Spanned<ParseError>>)
    requires Is(equal, Equal) && Is(l, Identifier) && Is(square, RightSquare) && Is(semicolon, Semicolon)
    requires Lexable(rest) && LexesLabels(lex) && Reads(lex, refinements, l, errors, t, after)
    ensures Lexable([equal] + ([l] + ([square] + ([semicolon] + rest))))
    ensures var (c1, r1) := RecordOf(Reader(rest, [], after), c, left, right, Some(t));
      AssignOf(Reader([equal] + ([l] + ([square] + ([semicolon] + rest))), [], errors), end, lex, refinements, c, left, right)
      == Step(More, c1, r1)
  {
    var tail := [square] + ([semicolon] + rest);
    LabelRead(l, square, semicolon, rest, errors, end, lex, refinements, c, left, right, t, after);
    Take(l, tail, [], errors, end, Identifier);
    Take(equal, [l] + tail, [], errors, end, Equal);
  }

  /** The label's text read as a transition, recorded, and followed by `];`. */
  lemma LabelRead(l: Spanned<Token>, square: Spanned<Token>, semicolon: Spanned<Token>,
                  rest: seq<Spanned<Token>>, errors: seq<Spanned<ParseError>>, end: Span, lex: LabelLexer, refinements: bool,
                  c: Collected, left: Spanned<Identifier>, right: Spanned<Identifier>, t: Transition, after: seq<Spanned<ParseError>>)
    requires Is(l, Identifier) && Is(square, RightSquare) && Is(semicolon, Semicolon)
    requires Lexable(rest) && LexesLabels(lex) && Reads(lex, refinements, l, errors, t, after)
    ensures Lexable([square] + ([semicolon] + rest))
    ensures var (c1, r1) := RecordOf(Reader(rest, [], after), c, left, right, Some(t));
      LabelOf(Reader([square] + ([semicolon] + rest), [], errors), end, lex, refinements, c, left, right, NameOf(l).inner.text)
      == Step(More, c1, r1)
  {
    var tail := [square] + ([semicolon] + rest);
    Tail(square, semicolon, rest, after, end, RecordOf(Reader(tail, [], after), c, left, right, Some(t)).0);
  }

  /** `[label = "label" ];`. */
  lemma Attributes(bracket: Spanned<Token>, keyword: Spanned<Token>, equal: Spanned<Token>, l: Spanned<Token>,
                   square: Spanned<Token>, semicolon: Spanned<Token>,
                   rest: seq<Spanned<Token>>, errors: seq<Spanned<ParseError>>, end: Span, lex: LabelLexer, refinements: bool,
                   c: Collected, left: Spanned<Identifier>, right: Spanned<Identifier>, t: Transition, after: seq<Spanned<ParseError>>)
    requires Is(bracket, LeftSquare) && Is(keyword, Label)
    requires Is(equal, Equal) && Is(l, Identifier) && Is(square, RightSquare) && Is(semicolon, Semicolon)
    requires Lexable(rest) && LexesLabels(lex) && Reads(lex, refinements, l, errors, t, after)
    ensures var inner := [equal] + ([l] + ([square] + ([semicolon] + rest)));
      Lexable([bracket] + ([keyword] + inner))
    ensures var inner := [equal] + ([l] + ([square] + ([semicolon] + rest)));
      var (c1, r1) := RecordOf(Reader(rest, [], after), c, left, right, Some(t));
      AttributesOf(Reader([bracket] + ([keyword] + inner), [], errors), end, lex, refinements, c, left, right)
      == Step(More, c1, r1)
  {
    var inner := [equal] + ([l] + ([square] + ([semicolon] + rest)));
    Assign(equal, l, square, semicolon, rest, errors, end, lex, refinements, c, left, right, t, after);
    Take(keyword, inner, [], errors, end, Label);
    Take(bracket, [keyword] + inner, [], errors, end, LeftSquare);
  }

  /** `-> b` before the attributes. */
  lemma Edge(arrow: Spanned<Token>, b: Spanned<Token>, inner: seq<Spanned<Token>>, errors: seq<Spanned<ParseError>>,
             end: Span, lex: LabelLexer, refinements: bool, c: Collected, left: Spanned<Identifier>, s: Step)
    requires Is(arrow, Arrow) && Is(b, Identifier) && Lexable(inner) && LexesLabels(lex)
    requires AttributesOf(Reader(inner, [], errors), end, lex, refinements, c, left, NameOf(b)) == s
    ensures Lexable([arrow] + ([b] + inner))
    ensures EdgeOf(Reader([arrow] + ([b] + inner), [Semicolon], errors), end, lex, refinements, c, left) == s
  {
    ArrowTarget(arrow, b, inner, errors, end);
  }

  /** `-> b` is taken: the arrow, then the target name. */
  lemma ArrowTarget(arrow: Spanned<Token>, b: Spanned<Token>, inner: seq<Spanned<Token>>, errors: seq<Spanned<ParseError>>, end: Span)
    requires Is(arrow, Arrow) && Is(b, Identifier) && Lexable(inner)
    ensures Lexable([b] + inner) && Lexable([arrow] + ([b] + inner))
    ensures ExpectNextIfOf(Reader([arrow] + ([b] + inner), [Semicolon], errors), end, Arrow) == (Some(arrow), Reader([b] + inner, [], errors))
    ensures ExpectNextIfOf(Reader([b] + inner, [], errors), end, Identifier) == (Some(b), Reader(inner, [], errors))
  {
    Take(b, inner, [], errors, end, Identifier);
    Take(arrow, [b] + inner, [Semicolon], errors, end, Arrow);
  }

  /** A state name followed by `->` starts a transition. */
  lemma Head(a: Spanned<Token>, edge: seq<Spanned<Token>>, errors: seq<Spanned<ParseError>>,
             end: Span, lex: LabelLexer, refinements: bool, c: Collected, s: Step)
    requires Is(a, Identifier) && Lexable(edge) && LexesLabels(lex) && edge != [] && edge[0].inner.id == Arrow
    requires EdgeOf(Reader(edge, [Semicolon], errors), end, lex, refinements, c, NameOf(a)) == s
    ensures Lexable([a] + edge)
    ensures EntryOf(Reader([a] + edge, [], errors), end, lex, refinements, c) == s
  {
    EdgeStatement(edge, errors, end, lex, refinements, c, NameOf(a), s);
    Take(a, edge, [RightBrace], errors, end, Identifier);
    Miss(a, edge, [], errors, end, RightBrace);
  }

  /** After the state name, an arrow is no `;`: the statement is the edge. */
  lemma EdgeStatement(edge: seq<Spanned<Token>>, errors: seq<Spanned<ParseError>>,
                      end: Span, lex: LabelLexer, refinements: bool, c: Collected, left: Spanned<Identifier>, s: Step)
    requires Lexable(edge) && LexesLabels(lex) && edge != [] && edge[0].inner.id == Arrow
    requires EdgeOf(Reader(edge, [Semicolon], errors), end, lex, refinements, c, left) == s
    ensures StatementOf(Reader(edge, [], errors), end, lex, refinements, c, left) == s
  {
    MissFirst(edge, [], errors, end, Semicolon);
  }

  /** The entry `a -> b [label="..."];` records what the label reads. */
  lemma TransitionStep(a: Spanned<Token>, arrow: Spanned<Token>, b: Spanned<Token>, attributes: seq<Spanned<Token>>,
                       errors: seq<Spanned<ParseError>>, end: Span, lex: LabelLexer, refinements: bool,
                       c: Collected, s: Step)
    requires Is(a, Identifier) && Is(arrow, Arrow) && Is(b, Identifier) && Lexable(attributes) && LexesLabels(lex)
    requires AttributesOf(Reader(attributes, [], errors), end, lex, refinements, c, NameOf(a), NameOf(b)) == s
    ensures Lexable([a] + ([arrow] + ([b] + attributes)))
    ensures EntryOf(Reader([a] + ([arrow] + ([b] + attributes)), [], errors), end, lex, refinements, c) == s
  {
    Edge(arrow, b, attributes, errors, end, lex, refinements, c, NameOf(a), s);
    assert ([arrow] + ([b] + attributes))[0] == arrow;
    Head(a, [arrow] + ([b] + attributes), errors, end, lex, refinements, c, s);
  }

  /**
   * `a -> b [label="..."];` whose label reads as transition `t`: a
   * transition equal to one read before (whatever the spans) is reported
   * over `a` to `b` and not recorded again; a new one is recorded; either
   * way the body goes on.
   */
  lemma TransitionEntry(a: Spanned<Token>, arrow: Spanned<Token>, b: Spanned<Token>,
                        bracket: Spanned<Token>, keyword: Spanned<Token>, equal: Spanned<Token>, l: Spanned<Token>,
                        square: Spanned<Token>, semicolon: Spanned<Token>,
                        rest: seq<Spanned<Token>>, errors: seq<Spanned<ParseError>>, end: Span, lex: LabelLexer, refinements: bool,
                        c: Collected, t: Transition, after: seq<Spanned<ParseError>>)
    requires Is(a, Identifier) && Is(arrow, Arrow) && Is(b, Identifier) && Is(bracket, LeftSquare) && Is(keyword, Label)
    requires Is(equal, Equal) && Is(l, Identifier) && Is(square, RightSquare) && Is(semicolon, Semicolon)
    requires Lexable(rest) && LexesLabels(lex) && Reads(lex, refinements, l, errors, t, after) && Sound(c)
    ensures var inner := [bracket] + ([keyword] + ([equal] + ([l] + ([square] + ([semicolon] + rest)))));
      Lexable([a] + ([arrow] + ([b] + inner)))
    ensures var inner := [bracket] + ([keyword] + ([equal] + ([l] + ([square] + ([semicolon] + rest)))));
      var s := EntryOf(Reader([a] + ([arrow] + ([b] + inner)), [], errors), end, lex, refinements, c);
      var x := (NameOf(a), NameOf(b), t);
      && s.kind == More && s.reader == Reader(rest, [], s.reader.errors) && s.c.states == c.states
      && (Has(c.transitions, x) ==> s.c == c && s.reader.errors == after + [Spanned(Merge(a.span, b.span), Fsm(DuplicateTransition))])
      && (!Has(c.transitions, x) ==> s.c.transitions == c.transitions + [x] && s.reader.errors == after)
  {
    var inner := [equal] + ([l] + ([square] + ([semicolon] + rest)));
    var attributes := [bracket] + ([keyword] + inner);
    var (c1, r1) := RecordOf(Reader(rest, [], after), c, NameOf(a), NameOf(b), Some(t));
    Attributes(bracket, keyword, equal, l, square, semicolon, rest, errors, end, lex, refinements, c, NameOf(a), NameOf(b), t, after);
    TransitionStep(a, arrow, b, attributes, errors, end, lex, refinements, c, Step(More, c1, r1));
    RecordSound(Reader(rest, [], after), c, NameOf(a), NameOf(b), t);
  }
}
