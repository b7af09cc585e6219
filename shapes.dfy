/**
 * What the transition-label parser makes of whole inputs: the empty list
 * `()`, lists of names with or without a trailing comma, a list that
 * mixes the two kinds of parameter, and complete labels with and without
 * their action.
 */
module TransitionShapes {
  import opened Wrappers
  import opened DotTokens
  import opened SpannedLexer
  import opened TransitionGrammar
  import E = Expressions
  import M = Machine

  /** A token of kind `id` that the lexer could have produced. */
  predicate Is(t: Spanned<Token>, id: Kind) {
    t.inner.id == id && WellFormed(t.inner)
  }

  /** `()`: the list is there but holds nothing. */
  lemma EmptyList(close: Spanned<Token>, rest: seq<Spanned<Token>>, expected: seq<Kind>, errors: seq<Spanned<ParseError>>, end: Span, refinements: bool)
    requires Is(close, RightRound) && Lexable(rest)
    ensures Lexable([close] + rest)
    ensures ParametersOf(Reader([close] + rest, expected, errors), end, refinements) == (Some(None), Reader(rest, [], errors))
  {
    assert Drop([close] + rest) == rest;
  }

  /** `, x` for every name of a list after its first. */
  function Commas(xs: seq<(Spanned<Token>, Spanned<Token>)>): (r: seq<Spanned<Token>>)
    ensures |r| == 2 * |xs|
  {
    if xs == [] then [] else [xs[0].0, xs[0].1] + Commas(xs[1..])
  }

  /** The names of a list after its first. */
  function Names(xs: seq<(Spanned<Token>, Spanned<Token>)>): (r: seq<string>)
    ensures |r| == |xs| && forall i :: 0 <= i < |xs| ==> r[i] == IdentifierOf(xs[i].1)
  {
    if xs == [] then [] else [IdentifierOf(xs[0].1)] + Names(xs[1..])
  }

  /** A comma followed by a name, each as the lexer gives them. */
  predicate CommaNames(xs: seq<(Spanned<Token>, Spanned<Token>)>) {
    forall i :: 0 <= i < |xs| ==> Is(xs[i].0, Comma) && Is(xs[i].1, Identifier)
  }

  lemma {:induction false} CommasLexable(xs: seq<(Spanned<Token>, Spanned<Token>)>)
    requires CommaNames(xs)
    ensures Lexable(Commas(xs))
  {
    if xs != [] {
      CommasLexable(xs[1..]);
      var r := Commas(xs);
      assert r == [xs[0].0, xs[0].1] + Commas(xs[1..]);
      forall i | 0 <= i < |r|
        ensures r[i].inner.id != Eoi && WellFormed(r[i].inner)
      {
        if i >= 2 {
          assert r[i] == Commas(xs[1..])[i - 2];
        }
      }
    }
  }

  /** A name not followed by `:` is an unnamed parameter, and `:` is left as tried. */
  lemma BareName(x: Spanned<Token>, tail: seq<Spanned<Token>>, expected: seq<Kind>, errors: seq<Spanned<ParseError>>, end: Span, refinements: bool)
    requires Is(x, Identifier) && Lexable(tail) && Front(tail, end).inner.id != Colon
    ensures Lexable([x] + tail)
    ensures ParameterOf(Reader([x] + tail, expected, errors), end, refinements)
         == (Some(Spanned(x.span, UnnamedParameter(IdentifierOf(x)))), Reader(tail, [Colon], errors))
  {
    LexableAppend([x], tail);
    assert Drop([x] + tail) == tail;
    assert [] + [Colon] == [Colon];
  }

  /** A list that starts with a bare name is unnamed, and the loop reads the rest of it. */
  lemma FirstBare(x: Spanned<Token>, tail: seq<Spanned<Token>>, expected: seq<Kind>, errors: seq<Spanned<ParseError>>, end: Span,
                  refinements: bool, result: (bool, E.Parameters, Reader))
    requires Is(x, Identifier) && Lexable(tail) && Front(tail, end).inner.id != Colon
    requires ParameterLoopOf(Reader(tail, [Colon], errors), end, refinements, E.Unnamed([IdentifierOf(x)])) == result
    ensures Lexable([x] + tail)
    ensures ParametersOf(Reader([x] + tail, expected, errors), end, refinements)
         == (if result.0 then Some(Some(result.1)) else None, result.2)
  {
    BareName(x, tail, expected + [RightRound], errors, end, refinements);
  }

  /** After a `,`, a bare name joins an unnamed list. */
  lemma AfterCommaName(x: Spanned<Token>, tail: seq<Spanned<Token>>, expected: seq<Kind>, errors: seq<Spanned<ParseError>>, end: Span, refinements: bool, ns: seq<string>)
    requires Is(x, Identifier) && Lexable(tail) && Front(tail, end).inner.id != Colon
    ensures Lexable([x] + tail)
    ensures AfterCommaOf(Reader([x] + tail, expected, errors), end, refinements, E.Unnamed(ns))
         == Again(E.Unnamed(ns + [IdentifierOf(x)]), Reader(tail, [Colon], errors))
  {
    BareName(x, tail, expected + [RightRound], errors, end, refinements);
  }

  /** One more `, x` in an unnamed list appends `x`. */
  lemma OneMore(comma: Spanned<Token>, x: Spanned<Token>, tail: seq<Spanned<Token>>, expected: seq<Kind>, errors: seq<Spanned<ParseError>>, end: Span, refinements: bool, ns: seq<string>)
    requires Is(comma, Comma) && Is(x, Identifier) && Lexable(tail) && Front(tail, end).inner.id != Colon
    ensures Lexable([comma] + ([x] + tail))
    ensures ParameterPassOf(Reader([comma] + ([x] + tail), expected, errors), end, refinements, E.Unnamed(ns))
         == Again(E.Unnamed(ns + [IdentifierOf(x)]), Reader(tail, [Colon], errors))
  {
    AfterCommaName(x, tail, [], errors, end, refinements, ns);
    LexableAppend([x], tail);
    Miss(comma, [x] + tail, expected, errors, end, RightRound);
    Take(comma, [x] + tail, expected + [RightRound], errors, end, Comma);
    PassAfterComma(Reader([comma] + ([x] + tail), expected, errors), end, refinements, E.Unnamed(ns),
                   Reader([comma] + ([x] + tail), expected + [RightRound], errors), comma, Reader([x] + tail, [], errors));
  }

  /** A pass that finds no `)` but a `,` goes on after the comma. */
  lemma PassAfterComma(r: Reader, end: Span, refinements: bool, ps: E.Parameters, r1: Reader, comma: Spanned<Token>, r2: Reader)
    requires Lexable(r.pending) && NextIfOf(r, end, RightRound) == (None, r1)
    requires Lexable(r1.pending) && ExpectNextIfOf(r1, end, Comma) == (Some(comma), r2)
    requires Lexable(r2.pending)
    ensures ParameterPassOf(r, end, refinements, ps) == AfterCommaOf(r2, end, refinements, ps)
  {
  }

  /** The list ends at `)`, or at `, )`. */
  lemma Closing(trailing: seq<Spanned<Token>>, close: Spanned<Token>, rest: seq<Spanned<Token>>, expected: seq<Kind>,
                errors: seq<Spanned<ParseError>>, end: Span, refinements: bool, ps: E.Parameters)
    requires Is(close, RightRound) && Lexable(rest)
    requires trailing == [] || (|trailing| == 1 && Is(trailing[0], Comma))
    ensures Lexable(trailing + ([close] + rest))
    ensures ParameterLoopOf(Reader(trailing + ([close] + rest), expected, errors), end, refinements, ps)
         == (true, ps, Reader(rest, [], errors))
  {
    var tail := [close] + rest;
    assert Drop(tail) == rest;
    assert Lexable(tail) by {
      forall i | 0 < i < |tail|
        ensures tail[i].inner.id != Eoi && WellFormed(tail[i].inner)
      {
        assert tail[i] == rest[i - 1];
      }
    }
    if trailing != [] {
      LexableAppend(trailing, tail);
      assert Drop(trailing + tail) == tail;
    } else {
      assert trailing + tail == tail;
    }
  }

  lemma CommaNamesTail(xs: seq<(Spanned<Token>, Spanned<Token>)>)
    requires CommaNames(xs) && xs != []
    ensures CommaNames(xs[1..])
  {
    forall i | 0 <= i < |xs[1..]|
      ensures Is(xs[1..][i].0, Comma) && Is(xs[1..][i].1, Identifier)
    {
      assert xs[1..][i] == xs[i + 1];
    }
  }

  /** A pass that goes on leaves the rest to the loop. */
  lemma LoopAgain(r: Reader, end: Span, refinements: bool, ps: E.Parameters, qs: E.Parameters, r1: Reader)
    requires Lexable(r.pending) && ParameterPassOf(r, end, refinements, ps) == Again(qs, r1)
    ensures Lexable(r1.pending)
    ensures ParameterLoopOf(r, end, refinements, ps) == ParameterLoopOf(r1, end, refinements, qs)
  {
  }

  /** The loop reads `, x , y ...` into an unnamed list, each name in turn. */
  lemma {:induction false} LoopNames(xs: seq<(Spanned<Token>, Spanned<Token>)>, tail: seq<Spanned<Token>>,
                                     errors: seq<Spanned<ParseError>>, end: Span, refinements: bool, ns: seq<string>,
                                     result: (bool, E.Parameters, Reader))
    requires CommaNames(xs) && Lexable(tail) && Front(tail, end).inner.id != Colon
    requires ParameterLoopOf(Reader(tail, [Colon], errors), end, refinements, E.Unnamed(ns + Names(xs))) == result
    ensures Lexable(Commas(xs) + tail)
    ensures ParameterLoopOf(Reader(Commas(xs) + tail, [Colon], errors), end, refinements, E.Unnamed(ns)) == result
  {
    if xs == [] {
      assert Commas(xs) + tail == tail;
      assert ns + Names(xs) == ns;
    } else {
      CommaNamesTail(xs);
      NamesCons(xs, ns);
      LoopNames(xs[1..], tail, errors, end, refinements, ns + [IdentifierOf(xs[0].1)], result);
      CommasFront(xs[1..], tail, end);
      LoopOneMore(xs[0].0, xs[0].1, Commas(xs[1..]) + tail, errors, end, refinements, ns, result);
      CommasCons(xs, tail);
    }
  }

  /** The names after the first follow its name. */
  lemma NamesCons(xs: seq<(Spanned<Token>, Spanned<Token>)>, ns: seq<string>)
    requires xs != []
    ensures ns + [IdentifierOf(xs[0].1)] + Names(xs[1..]) == ns + Names(xs)
  {
    assert Names(xs) == [IdentifierOf(xs[0].1)] + Names(xs[1..]);
  }

  /** Commas and names before `tail` start with a comma, so not with a `:` when `tail` does not. */
  lemma CommasFront(xs: seq<(Spanned<Token>, Spanned<Token>)>, tail: seq<Spanned<Token>>, end: Span)
    requires CommaNames(xs) && Front(tail, end).inner.id != Colon
    ensures Front(Commas(xs) + tail, end).inner.id != Colon
  {
    if xs != [] {
      assert (Commas(xs) + tail)[0] == xs[0].0;
    }
  }

  /** The first comma and name, then the rest. */
  lemma CommasCons(xs: seq<(Spanned<Token>, Spanned<Token>)>, tail: seq<Spanned<Token>>)
    requires xs != []
    ensures Commas(xs) + tail == [xs[0].0] + ([xs[0].1] + (Commas(xs[1..]) + tail))
  {
    assert Commas(xs) == [xs[0].0, xs[0].1] + Commas(xs[1..]);
    Regroup(xs[0].0, xs[0].1, Commas(xs[1..]), tail);
  }

  /** The loop over `, x` and what follows is the loop over what follows, with `x` appended. */
  lemma LoopOneMore(comma: Spanned<Token>, x: Spanned<Token>, more: seq<Spanned<Token>>, errors: seq<Spanned<ParseError>>,
                    end: Span, refinements: bool, ns: seq<string>, result: (bool, E.Parameters, Reader))
    requires Is(comma, Comma) && Is(x, Identifier) && Lexable(more) && Front(more, end).inner.id != Colon
    requires ParameterLoopOf(Reader(more, [Colon], errors), end, refinements, E.Unnamed(ns + [IdentifierOf(x)])) == result
    ensures Lexable([comma] + ([x] + more))
    ensures ParameterLoopOf(Reader([comma] + ([x] + more), [Colon], errors), end, refinements, E.Unnamed(ns)) == result
  {
    OneMore(comma, x, more, [Colon], errors, end, refinements, ns);
    LoopAgain(Reader([comma] + ([x] + more), [Colon], errors), end, refinements, E.Unnamed(ns),
              E.Unnamed(ns + [IdentifierOf(x)]), Reader(more, [Colon], errors));
  }

  /**
   * `x , y , ... )`, and the same with a `,` before the `)`: an unnamed
   * list of every name in order, with nothing reported.
   */
  lemma NameList(x: Spanned<Token>, xs: seq<(Spanned<Token>, Spanned<Token>)>, trailing: seq<Spanned<Token>>, close: Spanned<Token>,
                 rest: seq<Spanned<Token>>, expected: seq<Kind>, errors: seq<Spanned<ParseError>>, end: Span, refinements: bool)
    requires Is(x, Identifier) && CommaNames(xs) && Is(close, RightRound) && Lexable(rest)
    requires trailing == [] || (|trailing| == 1 && Is(trailing[0], Comma))
    ensures Lexable([x] + (Commas(xs) + (trailing + ([close] + rest))))
    ensures ParametersOf(Reader([x] + (Commas(xs) + (trailing + ([close] + rest))), expected, errors), end, refinements)
         == (Some(Some(E.Unnamed([IdentifierOf(x)] + Names(xs)))), Reader(rest, [], errors))
  {
    var tail := trailing + ([close] + rest);
    var names := [IdentifierOf(x)] + Names(xs);
    Closing(trailing, close, rest, [Colon], errors, end, refinements, E.Unnamed(names));
    assert Front(tail, end).inner.id != Colon by {
      if trailing == [] {
        assert tail[0] == close;
      } else {
        assert tail[0] == trailing[0];
      }
    }
    LoopNames(xs, tail, errors, end, refinements, [IdentifierOf(x)], (true, E.Unnamed(names), Reader(rest, [], errors)));
    var more := Commas(xs) + tail;
    CommasFront(xs, tail, end);
    FirstBare(x, more, expected, errors, end, refinements, (true, E.Unnamed(names), Reader(rest, [], errors)));
  }

  lemma Three<T>(a: T, b: T, c: T)
    ensures [a] + ([b] + ([c] + [])) == [a, b, c]
  {
  }

  lemma Regroup<T>(a: T, b: T, c: seq<T>, d: seq<T>)
    ensures ([a, b] + c) + d == [a] + ([b] + (c + d))
  {
  }

  /** Two lexable runs of tokens make one. */
  lemma LexableAppend(a: seq<Spanned<Token>>, b: seq<Spanned<Token>>)
    requires Lexable(a) && Lexable(b)
    ensures Lexable(a + b)
  {
    forall i | 0 <= i < |a + b|
      ensures (a + b)[i].inner.id != Eoi && WellFormed((a + b)[i].inner)
    {
      if i >= |a| {
        assert (a + b)[i] == b[i - |a|];
      }
    }
  }

  /** `y : s` with no refinement after it: a named parameter spanning the name and the sort. */
  lemma NamedNoRefinement(y: Spanned<Token>, colon: Spanned<Token>, s: Spanned<Token>, tail: seq<Spanned<Token>>,
                          expected: seq<Kind>, errors: seq<Spanned<ParseError>>, end: Span, refinements: bool)
    requires Is(y, Identifier) && Is(colon, Colon) && Is(s, Identifier) && Lexable(tail) && Front(tail, end).inner.id != LeftBrace
    ensures Lexable([y] + ([colon] + ([s] + tail)))
    ensures ParameterOf(Reader([y] + ([colon] + ([s] + tail)), expected, errors), end, refinements)
         == (Some(Spanned(Merge(y.span, s.span), NamedParameter(E.NamedParameter(IdentifierOf(y), IdentifierOf(s), None)))),
             Reader(tail, if refinements then [LeftBrace] else [], errors))
  {
    LexableAppend([s], tail);
    LexableAppend([colon], [s] + tail);
    LexableAppend([y], [colon] + ([s] + tail));
    assert Drop([y] + ([colon] + ([s] + tail))) == [colon] + ([s] + tail);
    assert Drop([colon] + ([s] + tail)) == [s] + tail;
    assert Drop([s] + tail) == tail;
    assert [] + [LeftBrace] == [LeftBrace];
  }

  /**
   * `x , y : s )`: the list takes the kind of its first parameter, so the
   * named `y : s` is reported as mixing the kinds and left out, and the
   * list is read to its end.
   */
  lemma MixedList(x: Spanned<Token>, comma: Spanned<Token>, y: Spanned<Token>, colon: Spanned<Token>, s: Spanned<Token>,
                  close: Spanned<Token>, rest: seq<Spanned<Token>>, expected: seq<Kind>, errors: seq<Spanned<ParseError>>,
                  end: Span, refinements: bool)
    requires Is(x, Identifier) && Is(comma, Comma) && Is(y, Identifier) && Is(colon, Colon) && Is(s, Identifier)
    requires Is(close, RightRound) && Lexable(rest)
    ensures Lexable([x] + ([comma] + ([y] + ([colon] + ([s] + ([close] + rest))))))
    ensures ParametersOf(Reader([x] + ([comma] + ([y] + ([colon] + ([s] + ([close] + rest))))), expected, errors), end, refinements)
         == (Some(Some(E.Unnamed([IdentifierOf(x)]))), Reader(rest, [], errors + [Mixed(Merge(y.span, s.span))]))
  {
    var tail := [close] + rest;
    var errs := errors + [Mixed(Merge(y.span, s.span))];
    var ps := E.Unnamed([IdentifierOf(x)]);
    MixedPass(comma, y, colon, s, tail, errors, end, refinements, ps);
    Closing([], close, rest, if refinements then [LeftBrace] else [], errs, end, refinements, ps);
    assert [] + tail == tail;
    var named := [comma] + ([y] + ([colon] + ([s] + tail)));
    LoopAgain(Reader(named, [Colon], errors), end, refinements, ps, ps, Reader(tail, if refinements then [LeftBrace] else [], errs));
    FirstBare(x, named, expected, errors, end, refinements, (true, ps, Reader(rest, [], errs)));
  }

  /** The pass over `, y : s` in an unnamed list reports the named parameter and keeps the list. */
  lemma MixedPass(comma: Spanned<Token>, y: Spanned<Token>, colon: Spanned<Token>, s: Spanned<Token>, tail: seq<Spanned<Token>>,
                  errors: seq<Spanned<ParseError>>, end: Span, refinements: bool, ps: E.Parameters)
    requires Is(comma, Comma) && Is(y, Identifier) && Is(colon, Colon) && Is(s, Identifier) && Lexable(tail)
    requires Front(tail, end).inner.id != LeftBrace && ps.Unnamed?
    ensures Lexable([comma] + ([y] + ([colon] + ([s] + tail))))
    ensures ParameterPassOf(Reader([comma] + ([y] + ([colon] + ([s] + tail))), [Colon], errors), end, refinements, ps)
         == Again(ps, Reader(tail, if refinements then [LeftBrace] else [], errors + [Mixed(Merge(y.span, s.span))]))
  {
    var named := [y] + ([colon] + ([s] + tail));
    MixedAfterComma(y, colon, s, tail, errors, end, refinements, ps);
    LexableAppend([comma], named);
    Miss(comma, named, [Colon], errors, end, RightRound);
    Take(comma, named, [Colon] + [RightRound], errors, end, Comma);
    PassAfterComma(Reader([comma] + named, [Colon], errors), end, refinements, ps,
                   Reader([comma] + named, [Colon] + [RightRound], errors), comma, Reader(named, [], errors));
  }

  /** After the `,`, the named `y : s` is reported and the unnamed list kept. */
  lemma MixedAfterComma(y: Spanned<Token>, colon: Spanned<Token>, s: Spanned<Token>, tail: seq<Spanned<Token>>,
                        errors: seq<Spanned<ParseError>>, end: Span, refinements: bool, ps: E.Parameters)
    requires Is(y, Identifier) && Is(colon, Colon) && Is(s, Identifier) && Lexable(tail)
    requires Front(tail, end).inner.id != LeftBrace && ps.Unnamed?
    ensures Lexable([y] + ([colon] + ([s] + tail)))
    ensures AfterCommaOf(Reader([y] + ([colon] + ([s] + tail)), [], errors), end, refinements, ps)
         == Again(ps, Reader(tail, if refinements then [LeftBrace] else [], errors + [Mixed(Merge(y.span, s.span))]))
  {
    var input := [y] + ([colon] + ([s] + tail));
    var span := Merge(y.span, s.span);
    var parameter := Spanned(span, NamedParameter(E.NamedParameter(IdentifierOf(y), IdentifierOf(s), None)));
    var after := Reader(tail, if refinements then [LeftBrace] else [], errors);
    NamedNoRefinement(y, colon, s, tail, [RightRound], errors, end, refinements);
    assert [] + [RightRound] == [RightRound];
    assert input[0] == y;
    AfterCommaMixed(Reader(input, [], errors), end, refinements, ps, parameter, after);
  }

  /**
   * When the token after the `,` is not `)` and a named parameter follows,
   * an unnamed list reports it as mixing the kinds and is kept.
   */
  lemma AfterCommaMixed(r: Reader, end: Span, refinements: bool, ps: E.Parameters, parameter: Spanned<Parameter>, r2: Reader)
    requires Lexable(r.pending) && Front(r.pending, end).inner.id != RightRound
    requires ParameterOf(Reader(r.pending, r.expected + [RightRound], r.errors), end, refinements) == (Some(parameter), r2)
    requires ps.Unnamed? && parameter.inner.NamedParameter?
    ensures AfterCommaOf(r, end, refinements, ps) == Again(ps, r2.(errors := r2.errors + [Mixed(parameter.span)]))
  {
  }

  // ---------------------------------------------------------------------
  // Whole labels

  /** A token of the kind asked for is taken, and the kinds tried are forgotten. */
  lemma Take(t: Spanned<Token>, tail: seq<Spanned<Token>>, expected: seq<Kind>, errors: seq<Spanned<ParseError>>, end: Span, id: Kind)
    requires Is(t, id) && id != Eoi && Lexable(tail)
    ensures Lexable([t] + tail)
    ensures NextIfOf(Reader([t] + tail, expected, errors), end, id) == (Some(t), Reader(tail, [], errors))
    ensures ExpectNextIfOf(Reader([t] + tail, expected, errors), end, id) == (Some(t), Reader(tail, [], errors))
  {
    LexableAppend([t], tail);
    assert Drop([t] + tail) == tail;
  }

  /** A token of another kind stays, and the kind is tried; expecting it reports every kind tried at that token. */
  lemma Miss(t: Spanned<Token>, tail: seq<Spanned<Token>>, expected: seq<Kind>, errors: seq<Spanned<ParseError>>, end: Span, id: Kind)
    requires Lexable([t] + tail) && t.inner.id != id
    ensures NextIfOf(Reader([t] + tail, expected, errors), end, id) == (None, Reader([t] + tail, expected + [id], errors))
    ensures ExpectNextIfOf(Reader([t] + tail, expected, errors), end, id)
         == (None, Reader([t] + tail, [], errors + [Spanned(t.span, TokenError(expected + [id]))]))
  {
    assert ([t] + tail)[0] == t;
  }

  /** `Miss` stated on the tokens as a whole. */
  lemma MissFirst(ts: seq<Spanned<Token>>, expected: seq<Kind>, errors: seq<Spanned<ParseError>>, end: Span, id: Kind)
    requires Lexable(ts) && ts != [] && ts[0].inner.id != id
    ensures NextIfOf(Reader(ts, expected, errors), end, id) == (None, Reader(ts, expected + [id], errors))
  {
    assert [ts[0]] + ts[1..] == ts;
    Miss(ts[0], ts[1..], expected, errors, end, id);
  }

  /** After the label with nothing but `tail` to come, and no `(`: a message with no parameters, then the end is expected. */
  lemma NoParentheses(tail: seq<Spanned<Token>>, errors: seq<Spanned<ParseError>>, end: Span, refinements: bool,
                      role: string, action: M.Action, name: string)
    requires Lexable(tail) && Front(tail, end).inner.id != LeftRound
    ensures LabelledOf(Reader(tail, [], errors), end, refinements, role, action, name)
         == (Returned(Some(M.Transition(role, action, E.FromLabel(name)))), ExpectNextIfOf(Reader(tail, [LeftRound], errors), end, Eoi).1)
  {
    assert [] + [LeftRound] == [LeftRound];
  }

  /** The role, the action and the label as tokens, before whatever follows. */
  lemma Head(role: Spanned<Token>, act: Spanned<Token>, l: Spanned<Token>, tail: seq<Spanned<Token>>,
             expected: seq<Kind>, errors: seq<Spanned<ParseError>>, end: Span, refinements: bool)
    requires Is(role, Identifier) && (Is(act, Question) || Is(act, Bang)) && Is(l, Identifier) && Lexable(tail)
    ensures Lexable([role] + ([act] + ([l] + tail)))
    ensures TransitionOf(Reader([role] + ([act] + ([l] + tail)), expected, errors), end, refinements)
         == LabelledOf(Reader(tail, [], errors), end, refinements, IdentifierOf(role), ActionAt(act), IdentifierOf(l))
  {
    Take(l, tail, [], errors, end, Identifier);
    ActionTaken(act, [l] + tail, errors, end);
    Take(role, [act] + ([l] + tail), expected, errors, end, Identifier);
    TransitionSteps(Reader([role] + ([act] + ([l] + tail)), expected, errors), end, refinements,
                    role, Reader([act] + ([l] + tail), [], errors), ActionAt(act), Reader([l] + tail, [], errors), l, Reader(tail, [], errors));
  }

  /** A `?` or `!` token is read as its action and taken. */
  lemma ActionTaken(act: Spanned<Token>, tail: seq<Spanned<Token>>, errors: seq<Spanned<ParseError>>, end: Span)
    requires (Is(act, Question) || Is(act, Bang)) && Lexable(tail)
    ensures Lexable([act] + tail)
    ensures ActionOf(Reader([act] + tail, [], errors), end) == (Some(ActionAt(act)), Reader(tail, [], errors))
  {
    if act.inner.id == Question {
      Take(act, tail, [], errors, end, Question);
    } else {
      Take(act, tail, [Question], errors, end, Bang);
      Miss(act, tail, [], errors, end, Question);
    }
  }

  /** A role, an action and a label leave the rest of the transition to `LabelledOf`. */
  lemma TransitionSteps(r: Reader, end: Span, refinements: bool, role: Spanned<Token>, r1: Reader, action: M.Action, r2: Reader,
                        name: Spanned<Token>, r3: Reader)
    requires Lexable(r.pending) && ExpectNextIfOf(r, end, Identifier) == (Some(role), r1)
    requires Lexable(r1.pending) && ActionOf(r1, end) == (Some(action), r2)
    requires Lexable(r2.pending) && ExpectNextIfOf(r2, end, Identifier) == (Some(name), r3)
    requires Lexable(r3.pending)
    ensures TransitionOf(r, end, refinements) == LabelledOf(r3, end, refinements, IdentifierOf(role), action, IdentifierOf(name))
  {
  }

  /** The action a `?` or `!` token stands for. */
  function ActionAt(act: Spanned<Token>): M.Action {
    if act.inner.id == Question then M.Input else M.Output
  }

  /** `role?label` and `role!label`: a transition whose message has no parameters. */
  lemma Simple(role: Spanned<Token>, act: Spanned<Token>, l: Spanned<Token>,
               expected: seq<Kind>, errors: seq<Spanned<ParseError>>, end: Span, refinements: bool)
    requires Is(role, Identifier) && (Is(act, Question) || Is(act, Bang)) && Is(l, Identifier)
    ensures Lexable([role, act, l])
    ensures TransitionOf(Reader([role, act, l], expected, errors), end, refinements)
         == (Returned(Some(M.Transition(IdentifierOf(role), ActionAt(act), E.FromLabel(IdentifierOf(l))))), Reader([], [], errors))
  {
    Head(role, act, l, [], expected, errors, end, refinements);
    Three(role, act, l);
    NoParentheses([], errors, end, refinements, IdentifierOf(role), ActionAt(act), IdentifierOf(l));
    EndOfInput([LeftRound], errors, end);
  }

  /** At the end of the input any other kind is only tried. */
  lemma NothingAtEnd(errors: seq<Spanned<ParseError>>, end: Span, id: Kind)
    requires id != Eoi
    ensures NextIfOf(Reader([], [], errors), end, id) == (None, Reader([], [id], errors))
  {
    assert [] + [id] == [id];
  }

  /** At the end of the input the end is there to be taken, and stays. */
  lemma EndOfInput(expected: seq<Kind>, errors: seq<Spanned<ParseError>>, end: Span)
    ensures ExpectNextIfOf(Reader([], expected, errors), end, Eoi) == (Some(EoiAt(end)), Reader([], [], errors))
  {
  }

  /**
   * `role!label` followed by anything but `(`: the transition is still
   * given, and one error at the stray token says a `(` or the end of the
   * input was expected.
   */
  lemma Trailing(role: Spanned<Token>, act: Spanned<Token>, l: Spanned<Token>, x: Spanned<Token>, rest: seq<Spanned<Token>>,
                 expected: seq<Kind>, errors: seq<Spanned<ParseError>>, end: Span, refinements: bool)
    requires Is(role, Identifier) && (Is(act, Question) || Is(act, Bang)) && Is(l, Identifier)
    requires Lexable([x] + rest) && x.inner.id != LeftRound
    ensures Lexable([role] + ([act] + ([l] + ([x] + rest))))
    ensures TransitionOf(Reader([role] + ([act] + ([l] + ([x] + rest))), expected, errors), end, refinements)
         == (Returned(Some(M.Transition(IdentifierOf(role), ActionAt(act), E.FromLabel(IdentifierOf(l))))),
             Reader([x] + rest, [], errors + [Spanned(x.span, TokenError([LeftRound, Eoi]))]))
  {
    Head(role, act, l, [x] + rest, expected, errors, end, refinements);
    StrayAfterLabel(x, rest, errors, end, refinements, IdentifierOf(role), ActionAt(act), IdentifierOf(l));
  }

  /** After the label, a token that is not `(`. */
  lemma StrayAfterLabel(x: Spanned<Token>, rest: seq<Spanned<Token>>, errors: seq<Spanned<ParseError>>, end: Span, refinements: bool,
                        role: string, action: M.Action, name: string)
    requires Lexable([x] + rest) && x.inner.id != LeftRound
    ensures LabelledOf(Reader([x] + rest, [], errors), end, refinements, role, action, name)
         == (Returned(Some(M.Transition(role, action, E.FromLabel(name)))),
             Reader([x] + rest, [], errors + [Spanned(x.span, TokenError([LeftRound, Eoi]))]))
  {
    assert ([x] + rest)[0] == x;
    NoParentheses([x] + rest, errors, end, refinements, role, action, name);
    DropLexable([x] + rest, end);
    Miss(x, rest, [LeftRound], errors, end, Eoi);
    assert [LeftRound] + [Eoi] == [LeftRound, Eoi];
  }

  /** `role label`: an error at the label says a `?` or a `!` was expected, and nothing is given. */
  lemma MissingAction(role: Spanned<Token>, l: Spanned<Token>, rest: seq<Spanned<Token>>,
                      expected: seq<Kind>, errors: seq<Spanned<ParseError>>, end: Span, refinements: bool)
    requires Is(role, Identifier) && Is(l, Identifier) && Lexable(rest)
    ensures Lexable([role] + ([l] + rest))
    ensures TransitionOf(Reader([role] + ([l] + rest), expected, errors), end, refinements)
         == (Returned(None), Reader([l] + rest, [], errors + [Spanned(l.span, TokenError([Question, Bang]))]))
  {
    var after := Reader([l] + rest, [], errors);
    RoleNoAction(role, l, rest, expected, errors, end);
    TransitionNoAction(Reader([role] + ([l] + rest), expected, errors), end, refinements, role, after,
                       after.(errors := errors + [Spanned(l.span, TokenError([Question, Bang]))]));
  }

  /** The role is taken, and the identifier after it is no action. */
  lemma RoleNoAction(role: Spanned<Token>, l: Spanned<Token>, rest: seq<Spanned<Token>>,
                     expected: seq<Kind>, errors: seq<Spanned<ParseError>>, end: Span)
    requires Is(role, Identifier) && Is(l, Identifier) && Lexable(rest)
    ensures Lexable([l] + rest) && Lexable([role] + ([l] + rest))
    ensures ExpectNextIfOf(Reader([role] + ([l] + rest), expected, errors), end, Identifier) == (Some(role), Reader([l] + rest, [], errors))
    ensures ActionOf(Reader([l] + rest, [], errors), end)
         == (None, Reader([l] + rest, [], errors + [Spanned(l.span, TokenError([Question, Bang]))]))
  {
    Take(l, rest, [], errors, end, Identifier);
    ActionMissing(l, rest, errors, end);
    Take(role, [l] + rest, expected, errors, end, Identifier);
  }

  /** A token that is neither `?` nor `!` stays, and one error at it says either was expected. */
  lemma ActionMissing(t: Spanned<Token>, rest: seq<Spanned<Token>>, errors: seq<Spanned<ParseError>>, end: Span)
    requires Lexable([t] + rest) && t.inner.id != Question && t.inner.id != Bang
    ensures ActionOf(Reader([t] + rest, [], errors), end) == (None, Reader([t] + rest, [], errors + [Spanned(t.span, TokenError([Question, Bang]))]))
  {
    Miss(t, rest, [], errors, end, Question);
    Miss(t, rest, [Question], errors, end, Bang);
    assert [] + [Question] == [Question] && [Question] + [Bang] == [Question, Bang];
  }

  /** A role with no action after it gives nothing. */
  lemma TransitionNoAction(r: Reader, end: Span, refinements: bool, role: Spanned<Token>, r1: Reader, r2: Reader)
    requires Lexable(r.pending) && ExpectNextIfOf(r, end, Identifier) == (Some(role), r1)
    requires Lexable(r1.pending) && ActionOf(r1, end) == (None, r2)
    ensures TransitionOf(r, end, refinements) == (Returned(None), r2)
  {
  }

  /**
   * `role!label(...)` at the end of the input: the message carries the
   * parameters the list gives, and none for `()`.
   */
  lemma WithParameters(role: Spanned<Token>, act: Spanned<Token>, l: Spanned<Token>, open: Spanned<Token>, list: seq<Spanned<Token>>,
                       ps: Option<E.Parameters>, expected: seq<Kind>, errors: seq<Spanned<ParseError>>, end: Span, refinements: bool)
    requires Is(role, Identifier) && (Is(act, Question) || Is(act, Bang)) && Is(l, Identifier) && Is(open, LeftRound) && Lexable(list)
    requires ParametersOf(Reader(list, [], errors), end, refinements) == (Some(ps), Reader([], [], errors))
    ensures Lexable([role] + ([act] + ([l] + ([open] + list))))
    ensures TransitionOf(Reader([role] + ([act] + ([l] + ([open] + list))), expected, errors), end, refinements)
         == (Returned(Some(M.Transition(IdentifierOf(role), ActionAt(act),
                                        E.Message(IdentifierOf(l), if ps.Some? then ps.value else E.NoParameters, [])))),
             Reader([], [], errors))
  {
    Take(open, list, [], errors, end, LeftRound);
    Head(role, act, l, [open] + list, expected, errors, end, refinements);
    EndOfInput([LeftSquare], errors, end);
    NothingAtEnd(errors, end, LeftSquare);
    LabelledWith(Reader([open] + list, [], errors), end, refinements, IdentifierOf(role), ActionAt(act), IdentifierOf(l),
                 open, Reader(list, [], errors), ps, Reader([], [], errors), Reader([], [LeftSquare], errors));
  }

  /** `(`, a list that reads, and no `[` after it: the message with those parameters, then the end is expected. */
  lemma LabelledWith(r: Reader, end: Span, refinements: bool, role: string, action: M.Action, name: string,
                     open: Spanned<Token>, r1: Reader, ps: Option<E.Parameters>, r2: Reader, r3: Reader)
    requires Lexable(r.pending) && NextIfOf(r, end, LeftRound) == (Some(open), r1)
    requires Lexable(r1.pending) && ParametersOf(r1, end, refinements) == (Some(ps), r2)
    requires Lexable(r2.pending) && NextIfOf(r2, end, LeftSquare) == (None, r3)
    requires Lexable(r3.pending)
    ensures LabelledOf(r, end, refinements, role, action, name)
         == (Returned(Some(M.Transition(role, action, E.Message(name, if ps.Some? then ps.value else E.NoParameters, [])))),
             ExpectNextIfOf(r3, end, Eoi).1)
  {
  }

  /** `role!label()` means the same as `role!label`. */
  lemma EmptyParentheses(role: Spanned<Token>, act: Spanned<Token>, l: Spanned<Token>, open: Spanned<Token>, close: Spanned<Token>,
                         expected: seq<Kind>, errors: seq<Spanned<ParseError>>, end: Span, refinements: bool)
    requires Is(role, Identifier) && (Is(act, Question) || Is(act, Bang)) && Is(l, Identifier) && Is(open, LeftRound) && Is(close, RightRound)
    ensures Lexable([role, act, l]) && Lexable([role] + ([act] + ([l] + ([open] + [close]))))
    ensures TransitionOf(Reader([role] + ([act] + ([l] + ([open] + [close]))), expected, errors), end, refinements)
         == TransitionOf(Reader([role, act, l], expected, errors), end, refinements)
  {
    EmptyList(close, [], [], errors, end, refinements);
    assert [close] + [] == [close];
    WithParameters(role, act, l, open, [close], None, expected, errors, end, refinements);
    Simple(role, act, l, expected, errors, end, refinements);
  }

  /** A `[` after the parameters is where the source stops with `unimplemented!`. */
  lemma SquareAfterParameters(role: Spanned<Token>, act: Spanned<Token>, l: Spanned<Token>, open: Spanned<Token>, list: seq<Spanned<Token>>,
                              ps: Option<E.Parameters>, square: Spanned<Token>, rest: seq<Spanned<Token>>,
                              expected: seq<Kind>, errors: seq<Spanned<ParseError>>, end: Span, refinements: bool)
    requires Is(role, Identifier) && (Is(act, Question) || Is(act, Bang)) && Is(l, Identifier) && Is(open, LeftRound) && Lexable(list)
    requires Is(square, LeftSquare) && Lexable([square] + rest)
    requires ParametersOf(Reader(list, [], errors), end, refinements) == (Some(ps), Reader([square] + rest, [], errors))
    ensures Lexable([role] + ([act] + ([l] + ([open] + list))))
    ensures TransitionOf(Reader([role] + ([act] + ([l] + ([open] + list))), expected, errors), end, refinements).0 == Unimplemented
  {
    Take(open, list, [], errors, end, LeftRound);
    Head(role, act, l, [open] + list, expected, errors, end, refinements);
    assert ([square] + rest)[0] == square;
  }
}
