/**
 * The lexer of the newer DOT parser (src/fsm/dot/parse/mod.rs): a token
 * source with one token of look-ahead, the list of token names tried
 * since the last match, and the error list every parse step pushes to.
 */
module SpannedLexer {
  import opened Wrappers
  import opened DotTokens
  import Machine
  import Text

  /** A byte range of the source. */
  datatype Span = Span(start: nat, end: nat)

  /** `merge`: from the first span's start to the second span's end. */
  function Merge(a: Span, b: Span): (r: Span)
    ensures r.start == a.start && r.end == b.end
  {
    Span(a.start, b.end)
  }

  /** Merging keeps only the outer ends, so it is associative and idempotent. */
  lemma MergeFacts(a: Span, b: Span, c: Span)
    ensures Merge(Merge(a, b), c) == Merge(a, c) == Merge(a, Merge(b, c))
    ensures Merge(a, a) == a
  {
  }

  datatype Spanned<T> = Spanned(span: Span, inner: T)

  /** `PartialEq for Spanned` (and `Hash`): only the inner values are compared. */
  predicate SameAs<T(==)>(a: Spanned<T>, b: Spanned<T>) {
    a.inner == b.inner
  }

  lemma SameAsIgnoresSpans<T>(x: T, y: T, s: Span, t: Span)
    ensures SameAs(Spanned(s, x), Spanned(t, y)) <==> x == y
  {
  }

  /**
   * An identifier's value: the source text itself, or an unescaped copy
   * with the positions of the removed backslashes.
   */
  datatype Identifier = Borrowed(text: string) | Owned(text: string, removed: seq<bool>)

  /** The payload a token carries. */
  datatype Value = NoValue | Ident(identifier: Identifier) | Flag(flag: bool) | Count(count: nat)

  datatype Token = Token(id: TokenId, value: Value)

  function EoiAt(end: Span): Spanned<Token> {
    Spanned(end, Token(Eoi, NoValue))
  }

  /** The lexers attach an identifier to identifiers, a flag to booleans and a count to numbers. */
  predicate WellFormed(t: Token) {
    (t.id == Identifier ==> t.value.Ident?) && (t.id == Boolean ==> t.value.Flag?) && (t.id == Number ==> t.value.Count?)
  }

  /** The error list only grows. */
  predicate Extends(before: seq<Spanned<ParseError>>, after: seq<Spanned<ParseError>>) {
    |before| <= |after| && after[..|before|] == before
  }

  /** The tokens left are a suffix of the tokens there were. */
  predicate Suffix(after: seq<Spanned<Token>>, before: seq<Spanned<Token>>) {
    |after| <= |before| && after == before[|before| - |after|..]
  }

  // ---------------------------------------------------------------------
  // Errors

  datatype ExpressionError = UnclosedBracket | MissingOperand | UnexpectedExpression

  datatype TransitionError = MixedParameters | ExpressionFailed(expression: ExpressionError)

  datatype FsmError =
    | DuplicateState
    | DuplicateTransition
    | UndefinedState
    | AddTransition(add: Machine.TransitionError)
    | ParseTransition(transition: TransitionError)

  datatype ParseError = TokenError(expected: seq<Kind>) | Fsm(fsm: FsmError)

  function ExpressionErrorText(e: ExpressionError): (t: string)
    ensures |t| > 0
  {
    match e
    case UnclosedBracket => "found an unclosed left bracket"
    case MissingOperand => "operator is missing an operand"
    case UnexpectedExpression => "found an unexpected expression"
  }

  function TransitionErrorText(e: TransitionError): (t: string)
    ensures |t| > 0
  {
    match e
    case MixedParameters => "cannot mix named and unnamed parameters"
    case ExpressionFailed(x) => ExpressionErrorText(x)
  }

  function FsmErrorText(e: FsmError): (t: string)
    ensures |t| > 0
  {
    match e
    case DuplicateState => "state is defined multiple times"
    case DuplicateTransition => "the same transition is defined multiple times"
    case UndefinedState => "state has not been defined"
    case AddTransition(x) => Machine.TransitionErrorText(x)
    case ParseTransition(x) => TransitionErrorText(x)
  }

  /** A token error lists at least one name, which `Display for TokenError` indexes. */
  predicate Reportable(e: ParseError) {
    e.TokenError? ==> e.expected != []
  }

  function ErrorText(e: ParseError): (t: string)
    requires Reportable(e)
    ensures |t| > 0
  {
    match e
    case TokenError(kinds) => ExpectedText(Names(kinds))
    case Fsm(x) => FsmErrorText(x)
  }

  /** One line of `Display for ParseErrors`. */
  function ErrorLine(e: Spanned<ParseError>): string
    requires Reportable(e.inner)
  {
    "error at " + Text.NatToString(e.span.start) + ": " + ErrorText(e.inner) + "\n"
  }

  predicate AllReportable(items: seq<Spanned<ParseError>>) {
    forall i :: 0 <= i < |items| ==> Reportable(items[i].inner)
  }

  function ErrorsText(items: seq<Spanned<ParseError>>): (r: string)
    requires AllReportable(items)
    ensures r == [] <==> items == []
  {
    if items == [] then "" else ErrorsText(items[..|items| - 1]) + ErrorLine(items[|items| - 1])
  }

  /** Each error adds one line after the lines of the errors before it. */
  lemma ErrorsTextAppend(items: seq<Spanned<ParseError>>, e: Spanned<ParseError>)
    requires AllReportable(items) && Reportable(e.inner)
    ensures AllReportable(items + [e]) && ErrorsText(items + [e]) == ErrorsText(items) + ErrorLine(e)
  {
    assert (items + [e])[..|items|] == items;
  }

  /** The lines of the first `i + 1` errors are those of the first `i` and then the line of error `i`. */
  lemma ErrorsTextPrefix(items: seq<Spanned<ParseError>>, i: nat)
    requires AllReportable(items) && i < |items|
    ensures AllReportable(items[..i]) && ErrorsText(items[..i + 1]) == ErrorsText(items[..i]) + ErrorLine(items[i])
  {
    var p := items[..i + 1];
    assert p[..|p| - 1] == items[..i];
  }

  /** Every error prints as one line: `error at `, the start of its span, `: `, its message and a newline. */
  lemma ErrorLineShape(e: Spanned<ParseError>)
    requires Reportable(e.inner)
    ensures var line := ErrorLine(e); var n := |Text.NatToString(e.span.start)|;
      |line| > 12 + n && line[..9] == "error at " && line[9..9 + n] == Text.NatToString(e.span.start)
      && line[9 + n..11 + n] == ": " && line[|line| - 1] == '\n'
  {
    LineShape(Text.NatToString(e.span.start), ErrorText(e.inner));
  }

  /** The pieces of a line, where they stand. */
  lemma LineShape(position: string, message: string)
    ensures var line := "error at " + position + ": " + message + "\n"; var n := |position|;
      |line| == 12 + n + |message| && line[..9] == "error at " && line[9..9 + n] == position
      && line[9 + n..11 + n] == ": " && line[|line| - 1] == '\n'
  {
  }

  /** A lone token error expecting one kind prints as one line naming that kind. */
  lemma SingleExpectedLine(sp: Span, k: Kind)
    requires k != Error
    ensures AllReportable([Spanned(sp, TokenError([k]))])
    ensures ErrorsText([Spanned(sp, TokenError([k]))]) == "error at " + Text.NatToString(sp.start) + ": " + ("expected " + Name(k)) + "\n"
  {
    var e := Spanned(sp, TokenError([k]));
    ErrorsTextAppend([], e);
    assert [] + [e] == [e];
    ExpectedShapes(Name(k), "", "");
  }

  /** `ParseErrors`: the errors pushed so far, in order. */
  class ErrorSink {
    var items: seq<Spanned<ParseError>>

    ghost predicate Valid()
      reads this
    {
      AllReportable(items)
    }

    constructor ()
      ensures items == [] && Valid()
    {
      items := [];
    }

    /** `push_err`. */
    method Push(span: Span, e: ParseError)
      requires Valid() && Reportable(e)
      modifies this
      ensures items == old(items) + [Spanned(span, e)] && Valid()
    {
      items := items + [Spanned(span, e)];
    }

    function IsEmpty(): (b: bool)
      reads this
      ensures b <==> |items| == 0
    {
      items == []
    }

    /** `take_errors`: hands over the errors and leaves none behind. */
    method Take() returns (taken: seq<Spanned<ParseError>>)
      requires Valid()
      modifies this
      ensures taken == old(items) && items == [] && Valid() && AllReportable(taken)
    {
      taken := items;
      items := [];
    }

    /** `Display for ParseErrors`: one `error at {start}: {error}` line per error. */
    method Display() returns (out: string)
      requires Valid()
      ensures out == ErrorsText(items)
    {
      out := "";
      var i := 0;
      while i < |items|
        invariant 0 <= i <= |items| && out == ErrorsText(items[..i])
      {
        ErrorsTextPrefix(items, i);
        out := out + ErrorLine(items[i]);
        i := i + 1;
      }
      assert items[..i] == items;
    }
  }

  // ---------------------------------------------------------------------
  // Spans as `Spanned::from_tokens` assigns them

  /**
   * As written, `from_tokens` reads `tokens.span()` before `tokens.next()`,
   * so each token is paired with the span of the token lexed before it
   * (`before` for the first one).
   */
  function SpansAsWritten(input: seq<Spanned<Token>>, before: Span): (r: seq<Spanned<Token>>)
    ensures |r| == |input|
    ensures forall i :: 0 <= i < |input| ==> r[i].inner == input[i].inner
    ensures input != [] ==> r[0].span == before
    ensures forall i :: 0 < i < |input| ==> r[i].span == input[i - 1].span
  {
    if input == [] then []
    else
      [Spanned(before, input[0].inner)] + SpansAsWritten(input[1..], input[0].span)
  }

  /** For `a b`, the second token is reported at the first one's position. */
  lemma SpansAsWrittenExample()
    ensures var a := Spanned(Span(0, 1), Token(Identifier, Ident(Borrowed("a"))));
      var b := Spanned(Span(2, 3), Token(Identifier, Ident(Borrowed("b"))));
      SpansAsWritten([a, b], Span(0, 0))[1].span == Span(0, 1) && b.span == Span(2, 3)
  {
  }

  function Drop(ts: seq<Spanned<Token>>): seq<Spanned<Token>> {
    if ts == [] then [] else ts[1..]
  }

  /** The token `peek` shows for the tokens still to come: the first of them, or end of input forever after the last. */
  function Front(pending: seq<Spanned<Token>>, end: Span): (t: Spanned<Token>)
    ensures pending != [] ==> t == pending[0]
  {
    if pending == [] then EoiAt(end) else pending[0]
  }

  /** No end-of-input token among the tokens to come, and every token carries the value its kind needs. */
  ghost predicate Lexable(pending: seq<Spanned<Token>>) {
    forall i :: 0 <= i < |pending| ==> pending[i].inner.id != Eoi && WellFormed(pending[i].inner)
  }

  /** What is lexable stays lexable once a token is taken. */
  lemma DropLexable(pending: seq<Spanned<Token>>, end: Span)
    requires Lexable(pending)
    ensures Lexable(Drop(pending)) && WellFormed(Front(pending, end).inner)
    ensures Front(pending, end).inner.id == Eoi <==> pending == []
  {
  }

  /**
   * `Lexer`: the tokens the regular-expression lexer has still to
   * produce, with their spans; the span reported at the end of the input;
   * at most one token taken ahead (`peeked`); the names of the token kinds
   * tried since the last match (`expected`); and the error list.
   * `pending` is the peeked token, unless it is the end of input, followed
   * by the tokens still to lex.
   */
  class Lexer {
    var input: seq<Spanned<Token>>
    const end: Span
    var peeked: Option<Spanned<Token>>
    var expected: seq<Kind>
    const errors: ErrorSink
    ghost var pending: seq<Spanned<Token>>

    ghost predicate Valid()
      reads this, errors
    {
      errors.Valid()
      && Lexable(input)
      && (peeked.Some? ==> WellFormed(peeked.value.inner))
      && (peeked.Some? && peeked.value.inner.id == Eoi ==> peeked.value == EoiAt(end) && input == [])
      && pending == (if peeked.Some? && peeked.value.inner.id != Eoi then [peeked.value] else []) + input
    }

    /** Under `Valid`, the tokens to come are lexable. */
    lemma PendingLexable()
      requires Valid()
      ensures Lexable(pending)
    {
    }

    constructor (input: seq<Spanned<Token>>, end: Span, errors: ErrorSink)
      requires errors.Valid() && Lexable(input)
      ensures Valid() && pending == input && expected == [] && this.errors == errors && this.end == end
    {
      this.input := input;
      this.end := end;
      this.errors := errors;
      peeked := None;
      expected := [];
      pending := input;
    }

    /** `finish`: no token kind may be left over from a failed match. */
    method Finish()
      requires expected == []
    {
    }

    /**
     * `Spanned::from_tokens` with each token paired with its own span;
     * end of input once the tokens run out.
     */
    method FromTokens() returns (t: Spanned<Token>)
      modifies this
      ensures t == Front(old(input), end)
      ensures input == Drop(old(input)) && peeked == old(peeked) && expected == old(expected) && pending == old(pending)
    {
      if input == [] {
        t := EoiAt(end);
      } else {
        t := input[0];
        input := input[1..];
      }
    }

    /** `peek`: the next token, taken ahead once and kept. */
    method Peek() returns (t: Spanned<Token>)
      requires Valid()
      modifies this
      ensures Valid() && t == Front(old(pending), end) && peeked == Some(t)
      ensures pending == old(pending) && expected == old(expected)
    {
      if peeked.None? {
        var p := FromTokens();
        peeked := Some(p);
      }
      t := peeked.value;
    }

    /** `next`: the peeked token if there is one, the next token otherwise. */
    method Next() returns (t: Spanned<Token>)
      requires Valid()
      modifies this
      ensures Valid() && t == Front(old(pending), end)
      ensures pending == Drop(old(pending)) && expected == old(expected)
    {
      if peeked.Some? {
        t := peeked.value;
        peeked := None;
      } else {
        t := FromTokens();
      }
      pending := Drop(pending);
    }

    /**
     * `next_if`: on a match the token is taken and the tried names are
     * forgotten; otherwise nothing is taken and the kind's name is added.
     */
    method NextIf(id: Kind) returns (r: Option<Spanned<Token>>)
      requires Valid()
      modifies this
      ensures Valid()
      ensures Front(old(pending), end).inner.id == id ==>
        r == Some(Front(old(pending), end)) && expected == [] && pending == Drop(old(pending))
      ensures Front(old(pending), end).inner.id != id ==>
        r == None && expected == old(expected) + [id] && pending == old(pending)
    {
      var t := Peek();
      if t.inner.id == id {
        expected := [];
        var n := Next();
        return Some(n);
      }
      expected := expected + [id];
      r := None;
    }

    /** `push_err`: the error goes to the shared error list. */
    method PushErr(span: Span, e: ParseError)
      requires Valid() && Reportable(e)
      modifies errors
      ensures Valid() && errors.items == old(errors.items) + [Spanned(span, e)]
    {
      errors.Push(span, e);
    }

    /** `expect`: one error at the next token's span listing every name tried, which are then forgotten. */
    method Expect()
      requires Valid() && expected != []
      modifies this, errors
      ensures Valid() && expected == [] && pending == old(pending)
      ensures errors.items == old(errors.items) + [Spanned(Front(old(pending), end).span, TokenError(old(expected)))]
    {
      var t := Peek();
      var names := expected;
      expected := [];
      errors.Push(t.span, TokenError(names));
    }

    /** `expect_next_if`: `next_if`, and on a mismatch an error listing the names tried, this one last. */
    method ExpectNextIf(id: Kind) returns (r: Option<Spanned<Token>>)
      requires Valid()
      modifies this, errors
      ensures Valid() && expected == []
      ensures Front(old(pending), end).inner.id == id ==>
        r == Some(Front(old(pending), end)) && pending == Drop(old(pending)) && errors.items == old(errors.items)
      ensures Front(old(pending), end).inner.id != id ==>
        r == None && pending == old(pending)
        && errors.items == old(errors.items) + [Spanned(Front(old(pending), end).span, TokenError(old(expected) + [id]))]
    {
      r := NextIf(id);
      if r.None? {
        Expect();
      }
    }
  }
}
