/**
 * The meaning of the transition-label parser of the newer DOT parser
 * (fsm/src/dot/parse/transition.rs): `role?label(p, ...)` and
 * `role!label(p, ...)`, where each parameter is a name, or `name: sort`
 * with an optional refinement `{expression}`.
 *
 * Each function takes a `Reader` (the tokens to come, the kinds tried
 * since the last match, and the whole error list) and gives what the
 * parse function returns with the `Reader` it leaves.
 */
module TransitionGrammar {
  import opened Wrappers
  import opened DotTokens
  import opened SpannedLexer
  import opened ShuntingYard
  import E = Expressions
  import M = Machine

  datatype Reader = Reader(pending: seq<Spanned<Token>>, expected: seq<Kind>, errors: seq<Spanned<ParseError>>)

  /** `next_if`: take the next token if it has kind `id`, and otherwise note `id` as tried. */
  function NextIfOf(r: Reader, end: Span, id: Kind): (p: (Option<Spanned<Token>>, Reader))
    requires Lexable(r.pending)
    ensures Lexable(p.1.pending) && |p.1.pending| <= |r.pending| && p.1.errors == r.errors
    ensures p.0.Some? <==> Front(r.pending, end).inner.id == id
    ensures p.0.Some? ==> p.0.value == Front(r.pending, end) && p.1 == Reader(Drop(r.pending), [], r.errors)
    ensures p.0.None? ==> p.1 == Reader(r.pending, r.expected + [id], r.errors)
  {
    DropLexable(r.pending, end);
    var t := Front(r.pending, end);
    if t.inner.id == id then (Some(t), Reader(Drop(r.pending), [], r.errors))
    else (None, Reader(r.pending, r.expected + [id], r.errors))
  }

  /** `expect_next_if`: `next_if`, and on a mismatch one error at the next token listing every kind tried. */
  function ExpectNextIfOf(r: Reader, end: Span, id: Kind): (p: (Option<Spanned<Token>>, Reader))
    requires Lexable(r.pending)
    ensures Lexable(p.1.pending) && |p.1.pending| <= |r.pending| && p.1.expected == []
    ensures p.0.Some? <==> Front(r.pending, end).inner.id == id
    ensures p.0.Some? ==> p.0.value == Front(r.pending, end) && p.1 == Reader(Drop(r.pending), [], r.errors)
    ensures p.0.None? ==>
      p.1 == Reader(r.pending, [], r.errors + [Spanned(Front(r.pending, end).span, TokenError(r.expected + [id]))])
  {
    DropLexable(r.pending, end);
    var t := Front(r.pending, end);
    if t.inner.id == id then (Some(t), Reader(Drop(r.pending), [], r.errors))
    else (None, Reader(r.pending, [], r.errors + [Spanned(t.span, TokenError(r.expected + [id]))]))
  }

  /** `into_identifier`: the text of an identifier token. */
  function IdentifierOf(t: Spanned<Token>): string {
    if t.inner.value.Ident? then t.inner.value.identifier.text else ""
  }

  // ---------------------------------------------------------------------
  // Parameters

  /** One parameter as read: a bare name, or a name with a sort and maybe a refinement. */
  datatype Parameter = UnnamedParameter(name: string) | NamedParameter(named: E.NamedParameter)

  /** `From<Parameter> for Parameters`: a list of the parameter's kind holding just that parameter. */
  function FromParameter(p: Parameter): (ps: E.Parameters)
    ensures ps.Unnamed? <==> p.UnnamedParameter?
    ensures ps.Unnamed? ==> ps.names == [p.name]
    ensures ps.Named? ==> ps.named == [p.named]
  {
    match p
    case UnnamedParameter(n) => E.Unnamed([n])
    case NamedParameter(n) => E.Named([n])
  }

  /** The parameters of a list, in order, as `Parameter`s. */
  function Entries(ps: E.Parameters): (r: seq<Parameter>)
    ensures |r| == (if ps.Unnamed? then |ps.names| else |ps.named|)
  {
    match ps
    case Unnamed(ns) => seq(|ns|, i requires 0 <= i < |ns| => UnnamedParameter(ns[i]))
    case Named(ns) => seq(|ns|, i requires 0 <= i < |ns| => NamedParameter(ns[i]))
  }

  /**
   * `push_parameter`: a parameter of the list's kind is appended and the
   * answer is `true`; one of the other kind leaves the list as it is and
   * the answer is `false`.
   */
  function PushParameter(ps: E.Parameters, p: Parameter): (r: (bool, E.Parameters))
  {
    match (ps, p)
    case (Unnamed(ns), UnnamedParameter(n)) => (true, E.Unnamed(ns + [n]))
    case (Named(ns), NamedParameter(n)) => (true, E.Named(ns + [n]))
    case _ => (false, ps)
  }

  /** The push succeeds exactly when the kinds agree, appends the parameter then, and keeps the list's kind. */
  lemma PushParameterMeaning(ps: E.Parameters, p: Parameter)
    ensures PushParameter(ps, p).0 <==> (ps.Unnamed? <==> p.UnnamedParameter?)
    ensures PushParameter(ps, p).1.Unnamed? == ps.Unnamed?
    ensures PushParameter(ps, p).0 ==> Entries(PushParameter(ps, p).1) == Entries(ps) + [p]
    ensures !PushParameter(ps, p).0 ==> PushParameter(ps, p).1 == ps
  {
    var (ok, qs) := PushParameter(ps, p);
    if ok {
      assert Entries(qs) == Entries(ps) + [p];
    }
  }

  /**
   * `parse_refinement`: without refinements nothing is read; with them, a
   * `{` starts an expression that runs to `}`.
   */
  function RefinementOf(r: Reader, end: Span, refinements: bool): (p: (Option<Option<Output>>, Reader))
    requires Lexable(r.pending)
    ensures Lexable(p.1.pending) && |p.1.pending| <= |r.pending|
    ensures p.0.None? ==> p.1.expected == []
  {
    if !refinements then (Some(None), r)
    else
      var (left, r1) := NextIfOf(r, end, LeftBrace);
      if left.None? then (Some(None), r1)
      else
        var e := ExpressionOf(r1.pending, end, r1.expected, RightBrace);
        (e.result, Reader(e.rest, [], r1.errors + e.errors))
  }

  /** `parse_parameter`: a name, then, after a `:`, a sort and its refinement. */
  function ParameterOf(r: Reader, end: Span, refinements: bool): (p: (Option<Spanned<Parameter>>, Reader))
    requires Lexable(r.pending)
    ensures Lexable(p.1.pending) && |p.1.pending| <= |r.pending|
    ensures p.0.None? ==> p.1.expected == []
  {
    var (name, r1) := ExpectNextIfOf(r, end, Identifier);
    if name.None? then (None, r1)
    else
      var (colon, r2) := NextIfOf(r1, end, Colon);
      if colon.None? then (Some(Spanned(name.value.span, UnnamedParameter(IdentifierOf(name.value)))), r2)
      else NamedOf(r2, end, refinements, name.value)
  }

  /**
   * A named parameter after its `:`: the sort and the refinement. The span
   * runs from the name to the sort, or to the refinement when there is one.
   */
  function NamedOf(r: Reader, end: Span, refinements: bool, name: Spanned<Token>): (p: (Option<Spanned<Parameter>>, Reader))
    requires Lexable(r.pending)
    ensures Lexable(p.1.pending) && |p.1.pending| <= |r.pending|
    ensures p.0.None? ==> p.1.expected == []
  {
    var (sort, r1) := ExpectNextIfOf(r, end, Identifier);
    if sort.None? then (None, r1)
    else
      var (refinement, r2) := RefinementOf(r1, end, refinements);
      if refinement.None? then (None, r2)
      else
        var span := if refinement.value.Some? then refinement.value.value.span else sort.value.span;
        var named := E.NamedParameter(IdentifierOf(name), IdentifierOf(sort.value),
                                      if refinement.value.Some? then Some(refinement.value.value.inner) else None);
        (Some(Spanned(Merge(name.span, span), NamedParameter(named))), r2)
  }

  /** The error for a parameter of the other kind than the list's. */
  function Mixed(span: Span): Spanned<ParseError> {
    Spanned(span, Fsm(ParseTransition(MixedParameters)))
  }

  /** How one pass of the loop of `parse_parameters` ends: the loop stops (`ok` unless a failure stopped it) or goes on. */
  datatype Pass = Stop(ok: bool, reader: Reader) | Again(parameters: E.Parameters, reader: Reader)

  /**
   * One pass of the loop of `parse_parameters`: `)` ends the list;
   * otherwise a `,` must come, then `)` (a trailing comma) or one more
   * parameter.
   */
  function ParameterPassOf(r: Reader, end: Span, refinements: bool, ps: E.Parameters): (p: Pass)
    requires Lexable(r.pending)
    ensures Lexable(p.reader.pending) && |p.reader.pending| <= |r.pending|
    ensures p.Again? ==> |p.reader.pending| < |r.pending| && p.parameters.Unnamed? == ps.Unnamed?
    ensures p.Stop? && !p.ok ==> p.reader.expected == []
  {
    var (close, r1) := NextIfOf(r, end, RightRound);
    if close.Some? then Stop(true, r1)
    else
      var (comma, r2) := ExpectNextIfOf(r1, end, Comma);
      if comma.None? then Stop(false, r2)
      else
        DropLexable(r1.pending, end);
        AfterCommaOf(r2, end, refinements, ps)
  }

  /**
   * After the `,`: `)` ends the list, or a parameter follows. A parameter
   * of the other kind than the list's is reported and left out, and the
   * loop goes on.
   */
  function AfterCommaOf(r: Reader, end: Span, refinements: bool, ps: E.Parameters): (p: Pass)
    requires Lexable(r.pending)
    ensures Lexable(p.reader.pending) && |p.reader.pending| <= |r.pending|
    ensures p.Again? ==> p.parameters.Unnamed? == ps.Unnamed?
    ensures p.Stop? && !p.ok ==> p.reader.expected == []
  {
    var (close, r1) := NextIfOf(r, end, RightRound);
    if close.Some? then Stop(true, r1)
    else
      var (parameter, r2) := ParameterOf(r1, end, refinements);
      if parameter.None? then Stop(false, r2)
      else
        PushedOf(r2, ps, parameter.value)
  }

  /** A parameter joins the list, or, of the other kind, is reported and dropped. */
  function PushedOf(r: Reader, ps: E.Parameters, parameter: Spanned<Parameter>): (p: Pass)
    ensures p.Again? && p.reader.pending == r.pending && p.parameters.Unnamed? == ps.Unnamed?
  {
    var (pushed, qs) := PushParameter(ps, parameter.inner);
    Again(qs, if pushed then r else r.(errors := r.errors + [Mixed(parameter.span)]))
  }

  /** The loop of `parse_parameters`, pass by pass: `false` when a failure ended it. */
  function ParameterLoopOf(r: Reader, end: Span, refinements: bool, ps: E.Parameters): (p: (bool, E.Parameters, Reader))
    requires Lexable(r.pending)
    ensures Lexable(p.2.pending) && |p.2.pending| <= |r.pending|
    ensures p.1.Unnamed? == ps.Unnamed?
    decreases |r.pending|
    ensures !p.0 ==> p.2.expected == []
  {
    match ParameterPassOf(r, end, refinements, ps)
    case Stop(ok, r1) => (ok, ps, r1)
    case Again(qs, r1) => ParameterLoopOf(r1, end, refinements, qs)
  }

  /** `parse_parameters`, after the `(`: `None` inside for `()`, and otherwise the list of the first parameter's kind. */
  function ParametersOf(r: Reader, end: Span, refinements: bool): (p: (Option<Option<E.Parameters>>, Reader))
    requires Lexable(r.pending)
    ensures Lexable(p.1.pending) && |p.1.pending| <= |r.pending|
    ensures p.0.None? ==> p.1.expected == []
  {
    var (close, r1) := NextIfOf(r, end, RightRound);
    if close.Some? then (Some(None), r1)
    else
      var (first, r2) := ParameterOf(r1, end, refinements);
      if first.None? then (None, r2)
      else
        var (ok, ps, r3) := ParameterLoopOf(r2, end, refinements, FromParameter(first.value.inner));
        (if ok then Some(Some(ps)) else None, r3)
  }

  // ---------------------------------------------------------------------
  // Transitions

  type Transition = M.Transition<string, E.Message>

  /** The outcome of `parse`: a transition or `None` after an error, or the `unimplemented!` panic at a `[`. */
  datatype Outcome = Returned(transition: Option<Transition>) | Unimplemented

  /** The action: `?` is an input; otherwise `!`, expected, is an output. */
  function ActionOf(r: Reader, end: Span): (p: (Option<M.Action>, Reader))
    requires Lexable(r.pending)
    ensures Lexable(p.1.pending) && |p.1.pending| <= |r.pending|
    ensures p.1.expected == []
  {
    var (question, r1) := NextIfOf(r, end, Question);
    if question.Some? then (Some(M.Input), r1)
    else
      var (bang, r2) := ExpectNextIfOf(r1, end, Bang);
      (if bang.Some? then Some(M.Output) else None, r2)
  }

  /** After the label: optional parameters in `(...)`, and a `[` after them is not implemented. */
  function MessageParametersOf(r: Reader, end: Span, refinements: bool): (p: (Option<Option<E.Parameters>>, bool, Reader))
    requires Lexable(r.pending)
    ensures Lexable(p.2.pending) && |p.2.pending| <= |r.pending|
    ensures p.0.None? ==> p.2.expected == []
  {
    var (left, r1) := NextIfOf(r, end, LeftRound);
    if left.None? then (Some(None), false, r1)
    else
      var (parameters, r2) := ParametersOf(r1, end, refinements);
      if parameters.None? then (None, false, r2)
      else
        var (square, r3) := NextIfOf(r2, end, LeftSquare);
        (parameters, square.Some?, r3)
  }

  /**
   * `parse`: a role, the action, a label and the optional parameters,
   * then the end of the input is expected (its error is pushed, but the
   * transition is still returned).
   */
  function TransitionOf(r: Reader, end: Span, refinements: bool): (p: (Outcome, Reader))
    requires Lexable(r.pending)
    ensures Lexable(p.1.pending) && |p.1.pending| <= |r.pending|
    ensures p.0.Returned? ==> p.1.expected == []
  {
    var (role, r1) := ExpectNextIfOf(r, end, Identifier);
    if role.None? then (Returned(None), r1)
    else
      var (action, r2) := ActionOf(r1, end);
      if action.None? then (Returned(None), r2)
      else MessageOf(r2, end, refinements, IdentifierOf(role.value), action.value)
  }

  /** The rest of `parse`, after the role and the action. */
  function MessageOf(r: Reader, end: Span, refinements: bool, role: string, action: M.Action): (p: (Outcome, Reader))
    requires Lexable(r.pending)
    ensures Lexable(p.1.pending) && |p.1.pending| <= |r.pending|
    ensures p.0.Returned? ==> p.1.expected == []
  {
    var (name, r1) := ExpectNextIfOf(r, end, Identifier);
    if name.None? then (Returned(None), r1)
    else LabelledOf(r1, end, refinements, role, action, IdentifierOf(name.value))
  }

  /** After the label: the parameters, then the end of the input. */
  function LabelledOf(r: Reader, end: Span, refinements: bool, role: string, action: M.Action, messageLabel: string): (p: (Outcome, Reader))
    requires Lexable(r.pending)
    ensures Lexable(p.1.pending) && |p.1.pending| <= |r.pending|
    ensures p.0.Returned? ==> p.1.expected == []
  {
    var (parameters, square, r1) := MessageParametersOf(r, end, refinements);
    if parameters.None? then (Returned(None), r1)
    else if square then (Unimplemented, r1)
    else
      var message := E.Message(messageLabel, if parameters.value.Some? then parameters.value.value else E.NoParameters, []);
      (Returned(Some(M.Transition(role, action, message))), ExpectNextIfOf(r1, end, Eoi).1)
  }
}
